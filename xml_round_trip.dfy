/**
 * What the writer produces and what the reader makes of it.
 *
 * The first half characterises the tree `save_xml_pipeline` builds: which
 * links it writes, which nodes it writes, and what becomes of the
 * docstring. The second half reads that tree back with
 * `create_xml_pipeline`: a written process or iteration, a written link and
 * a written `<gui>` each give back the builder calls that recreate them,
 * while the documentation and any switch do not survive. The reader ignores
 * a `weak` attribute, and the writer cannot save a weak link at all.
 */
module XmlRoundTrip {
  import opened Base
  import opened PyString
  import opened ElementTree
  import opened XmlReader
  import opened XmlReaderProperties
  import opened XmlWriter

  // ------------------------------------------------------- what is written

  /** Some plug among `plugs` writes links and has `e` as the element of one of its `links_to` entries. */
  predicate PlugWritesLink(node: string, plugs: seq<Plug>, e: Element) {
    exists j, k :: 0 <= j < |plugs| && 0 <= k < |plugs[j].linksTo| && WritesLinks(node, plugs[j])
      && e == LinkElement(node, plugs[j].name, plugs[j].linksTo[k])
  }

  /** `e` is the link element of a `links_to` entry of a plug of some node that writes links. */
  predicate WrittenLink(nodes: seq<Node>, e: Element) {
    exists i :: 0 <= i < |nodes| && PlugWritesLink(nodes[i].name, nodes[i].plugs, e)
  }

  lemma {:induction false} TargetLinkElementsExactly(node: string, plug: string, targets: seq<LinkTarget>, e: Element)
    ensures e in TargetLinkElements(node, plug, targets) <==> exists k :: 0 <= k < |targets| && e == LinkElement(node, plug, targets[k])
    decreases |targets|
  {
    if targets != [] {
      var init := targets[..|targets| - 1];
      TargetLinkElementsExactly(node, plug, init, e);
      if e in TargetLinkElements(node, plug, init) {
        var k :| 0 <= k < |init| && e == LinkElement(node, plug, init[k]);
        assert targets[k] == init[k];
      }
      if exists k :: 0 <= k < |targets| && e == LinkElement(node, plug, targets[k]) {
        var k :| 0 <= k < |targets| && e == LinkElement(node, plug, targets[k]);
        if k < |init| {
          assert init[k] == targets[k];
        }
      }
    }
  }

  lemma {:induction false} PlugLinkElementsExactly(node: string, plugs: seq<Plug>, e: Element)
    ensures e in PlugLinkElements(node, plugs) <==> PlugWritesLink(node, plugs, e)
    decreases |plugs|
  {
    if plugs != [] {
      var init := plugs[..|plugs| - 1];
      var last := plugs[|plugs| - 1];
      var tail := if WritesLinks(node, last) then TargetLinkElements(node, last.name, last.linksTo) else [];
      assert PlugLinkElements(node, plugs) == PlugLinkElements(node, init) + tail;
      assert e in PlugLinkElements(node, plugs) <==> e in PlugLinkElements(node, init) || e in tail;
      PlugLinkElementsExactly(node, init, e);
      TargetLinkElementsExactly(node, last.name, last.linksTo, e);
      PlugWritesLinkSnoc(node, plugs, e);
    }
  }

  /** A plug writing `e` is one of the plugs before the last, or the last one. */
  lemma PlugWritesLinkSnoc(node: string, plugs: seq<Plug>, e: Element)
    requires plugs != []
    ensures var last := plugs[|plugs| - 1];
      PlugWritesLink(node, plugs, e) <==>
        (PlugWritesLink(node, plugs[..|plugs| - 1], e)
         || (WritesLinks(node, last) && exists k :: 0 <= k < |last.linksTo| && e == LinkElement(node, last.name, last.linksTo[k])))
  {
    var init := plugs[..|plugs| - 1];
    var last := plugs[|plugs| - 1];
    if PlugWritesLink(node, init, e) {
      var j, k :| 0 <= j < |init| && 0 <= k < |init[j].linksTo| && WritesLinks(node, init[j])
        && e == LinkElement(node, init[j].name, init[j].linksTo[k]);
      assert plugs[j] == init[j];
    }
    if WritesLinks(node, last) && exists k :: 0 <= k < |last.linksTo| && e == LinkElement(node, last.name, last.linksTo[k]) {
      var k :| 0 <= k < |last.linksTo| && e == LinkElement(node, last.name, last.linksTo[k]);
      assert plugs[|plugs| - 1] == last;
    }
    if PlugWritesLink(node, plugs, e) {
      var j, k :| 0 <= j < |plugs| && 0 <= k < |plugs[j].linksTo| && WritesLinks(node, plugs[j])
        && e == LinkElement(node, plugs[j].name, plugs[j].linksTo[k]);
      if j < |init| {
        assert init[j] == plugs[j];
      }
    }
  }

  /**
   * `_write_links` writes a `<link>` exactly for each `links_to` entry of an
   * input of the pipeline node and of an output of any other node.
   */
  lemma {:induction false} LinkElementsExactly(nodes: seq<Node>, e: Element)
    ensures e in LinkElements(nodes) <==> WrittenLink(nodes, e)
    decreases |nodes|
  {
    if nodes != [] {
      var init := nodes[..|nodes| - 1];
      var last := nodes[|nodes| - 1];
      assert LinkElements(nodes) == LinkElements(init) + PlugLinkElements(last.name, last.plugs);
      assert e in LinkElements(nodes) <==> e in LinkElements(init) || e in PlugLinkElements(last.name, last.plugs);
      LinkElementsExactly(init, e);
      PlugLinkElementsExactly(last.name, last.plugs, e);
      WrittenLinkSnoc(nodes, e);
    }
  }

  /** A node writing `e` is one of the nodes before the last, or the last one. */
  lemma WrittenLinkSnoc(nodes: seq<Node>, e: Element)
    requires nodes != []
    ensures var last := nodes[|nodes| - 1];
      WrittenLink(nodes, e) <==> WrittenLink(nodes[..|nodes| - 1], e) || PlugWritesLink(last.name, last.plugs, e)
  {
    var init := nodes[..|nodes| - 1];
    if WrittenLink(init, e) {
      var i :| 0 <= i < |init| && PlugWritesLink(init[i].name, init[i].plugs, e);
      assert nodes[i] == init[i];
    }
    if WrittenLink(nodes, e) {
      var i :| 0 <= i < |nodes| && PlugWritesLink(nodes[i].name, nodes[i].plugs, e);
      if i < |init| {
        assert init[i] == nodes[i];
      }
    }
  }

  /** Some node other than the pipeline node "" is written as `e`. */
  predicate WrittenNode(nodes: seq<Node>, e: Element) {
    exists i :: 0 <= i < |nodes| && nodes[i].name != "" && e == NodeElement(nodes[i])
  }

  /** `_write_processes` writes exactly one element per node other than the pipeline node "". */
  lemma {:induction false} ProcessElementsExactly(nodes: seq<Node>, e: Element)
    ensures e in ProcessElements(nodes) <==> WrittenNode(nodes, e)
    decreases |nodes|
  {
    if nodes != [] {
      var init := nodes[..|nodes| - 1];
      var last := nodes[|nodes| - 1];
      var tail := if last.name == "" then [] else [NodeElement(last)];
      assert ProcessElements(nodes) == ProcessElements(init) + tail;
      assert e in ProcessElements(nodes) <==> e in ProcessElements(init) || e in tail;
      ProcessElementsExactly(init, e);
      WrittenNodeSnoc(nodes, e);
    }
  }

  /** A node written as `e` is one of the nodes before the last, or the last one. */
  lemma WrittenNodeSnoc(nodes: seq<Node>, e: Element)
    requires nodes != []
    ensures var last := nodes[|nodes| - 1];
      WrittenNode(nodes, e) <==> WrittenNode(nodes[..|nodes| - 1], e) || (last.name != "" && e == NodeElement(last))
  {
    var init := nodes[..|nodes| - 1];
    if WrittenNode(init, e) {
      var i :| 0 <= i < |init| && init[i].name != "" && e == NodeElement(init[i]);
      assert nodes[i] == init[i];
    }
    if WrittenNode(nodes, e) {
      var i :| 0 <= i < |nodes| && nodes[i].name != "" && e == NodeElement(nodes[i]);
      if i < |init| {
        assert init[i] == nodes[i];
      }
    }
  }


  /**
   * The `doc` attribute: empty for `Pipeline`'s own docstring; otherwise a
   * prefix of the docstring that no longer contains the generated note, cut
   * exactly where the first note begins, and the whole docstring when there
   * is no note.
   */
  lemma SavedDocStripsNote(doc: Option<string>, baseDoc: string, className: string)
    ensures doc == Some(baseDoc) ==> SavedDoc(doc, baseDoc, className) == Ok("")
    ensures doc.None? ==> SavedDoc(doc, baseDoc, className) == Err(NoDocstring)
    ensures doc.Some? && doc != Some(baseDoc) ==>
      var r := SavedDoc(doc, baseDoc, className);
      && r.Ok?
      && r.value <= doc.value
      && Find(r.value, AutoDocMarker(className)) == -1
      && (r.value == doc.value <==> Find(doc.value, AutoDocMarker(className)) == -1)
      && (r.value != doc.value ==> OccursAt(doc.value, AutoDocMarker(className), |r.value|))
  {
    if doc.Some? && doc != Some(baseDoc) {
      var d := doc.value;
      var m := AutoDocMarker(className);
      var pos := Find(d, m);
      if pos >= 0 {
        var r := d[..pos];
        var k := Find(r, m);
        if k >= 0 {
          assert r[k..k + |m|] == d[k..k + |m|];
          assert OccursAt(d, m, k);
          assert false;
        }
        assert |r| < |d|;
      }
    }
  }

  /** The class name written: `CustomPipeline` exactly for an instance of `Pipeline` itself. */
  lemma SavedDocumentRoot<F>(p: PipelineObject<F>, baseDoc: string, show: F -> string)
    requires SavedDocument(p, baseDoc, show).Ok?
    ensures var root := SavedDocument(p, baseDoc, show).value;
      && root.tag == "pipeline"
      && Get(root, "name") == Some(if p.isPipelineClass then "CustomPipeline" else p.className)
      && Get(root, "capsul_xml").None?
      && forall i :: 0 <= i < |root.children| ==>
           root.children[i].tag in {"process", "switch", "link", "gui"}
  {
    var root := SavedDocument(p, baseDoc, show).value;
    var pe := ProcessElements(p.nodes);
    var le := LinkElements(p.nodes);
    forall i | 0 <= i < |root.children|
      ensures root.children[i].tag in {"process", "switch", "link", "gui"}
    {
      var c := root.children[i];
      if i < |pe| {
        assert c in pe;
        ProcessElementsExactly(p.nodes, c);
      } else if i < |pe| + |le| {
        assert c == le[i - |pe|];
        LinkElementsExactly(p.nodes, c);
      }
    }
  }

  // --------------------------------------------------- what is read back

  /** A written endpoint contains a dot exactly when it names a node, and `rsplit('.', 1)` then gives back the node and the plug. */
  lemma WrittenEndpointSplits(node: string, plug: string)
    requires '.' !in plug
    ensures '.' in EndpointName(node, plug) <==> node != ""
    ensures node != "" ==> RSplitDot(EndpointName(node, plug)) == Some((node, plug))
  {
    if node != "" {
      RSplitDotUnique(node, plug);
      assert EndpointName(node, plug)[|node|] == '.';
    }
  }

  /** A written `<link>` is read through its two endpoint attributes. */
  lemma LinkElementRead<V, F>(st: DecodeState<V, F>, node: string, plug: string, target: LinkTarget, conv: Converters<V, F>)
    ensures var step := LinkStep<V, F>(st.exported, Some(EndpointName(node, plug)), Some(EndpointName(target.node, target.plug)));
      EntryStep(st, LinkElement(node, plug, target), conv)
        == if step.Err? then Err(step.error) else Ok(DecodeState(st.log + [step.value.0], step.value.1))
  {
    var e := LinkElement(node, plug, target);
    assert e.tag == "link";
    assert Get(e, "source") == Some(EndpointName(node, plug));
    assert Get(e, "dest") == Some(EndpointName(target.node, target.plug));
  }

  /**
   * Reading back one written link. Between two node plugs it is the same
   * link; from a pipeline input or to a pipeline output not exported yet it
   * exports the node plug under the bare name; a link from a pipeline input
   * straight to a pipeline output cannot be read back unless the input was
   * exported earlier. The weak flag plays no part.
   */
  lemma ReadWrittenLink<V, F>(st: DecodeState<V, F>, node: string, plug: string, target: LinkTarget, conv: Converters<V, F>)
    requires '.' !in plug && '.' !in target.plug
    ensures var r := EntryStep(st, LinkElement(node, plug, target), conv);
      && (node != "" && target.node != "" ==>
            r == Ok(st.(log := st.log + [AddLink(node + "." + plug + "->" + target.node + "." + target.plug)])))
      && (node == "" && target.node != "" ==>
            r == if plug in st.exported then Ok(st.(log := st.log + [AddLink(plug + "->" + target.node + "." + target.plug)]))
                 else Ok(DecodeState(st.log + [ExportParameter(target.node, target.plug, plug)], st.exported + {plug})))
      && (node != "" && target.node == "" ==>
            r == if target.plug in st.exported then Ok(st.(log := st.log + [AddLink(node + "." + plug + "->" + target.plug)]))
                 else Ok(DecodeState(st.log + [ExportParameter(node, plug, target.plug)], st.exported + {target.plug})))
      && (node == "" && target.node == "" ==>
            r == if plug in st.exported then Ok(st.(log := st.log + [AddLink(plug + "->" + target.plug)]))
                 else Err(UnsplittableEndpoint(target.plug)))
  {
    LinkElementRead(st, node, plug, target, conv);
    WrittenEndpointSplits(node, plug);
    WrittenEndpointSplits(target.node, target.plug);
    if node != "" && target.node != "" {
      NodeToNodeLink<V, F>(st.exported, node, plug, target.node, target.plug);
    } else if node == "" && target.node != "" {
      InputToNodeLink<V, F>(st.exported, plug, target.node, target.plug);
    } else if node != "" {
      NodeToOutputLink<V, F>(st.exported, node, plug, target.plug);
    }
  }

  lemma NodeToNodeLink<V, F>(exported: set<string>, node: string, plug: string, destNode: string, destPlug: string)
    requires node != "" && destNode != "" && '.' !in destPlug
    ensures LinkStep<V, F>(exported, Some(EndpointName(node, plug)), Some(EndpointName(destNode, destPlug)))
         == Ok((AddLink(node + "." + plug + "->" + destNode + "." + destPlug), exported))
  {
    assert EndpointName(node, plug)[|node|] == '.' && EndpointName(destNode, destPlug)[|destNode|] == '.';
    assert EndpointName(node, plug) + "->" + EndpointName(destNode, destPlug)
        == node + "." + plug + "->" + destNode + "." + destPlug;
  }

  lemma InputToNodeLink<V, F>(exported: set<string>, plug: string, destNode: string, destPlug: string)
    requires '.' !in plug && destNode != "" && '.' !in destPlug
    ensures LinkStep<V, F>(exported, Some(EndpointName("", plug)), Some(EndpointName(destNode, destPlug)))
         == if plug in exported then Ok((AddLink(plug + "->" + destNode + "." + destPlug), exported))
            else Ok((ExportParameter(destNode, destPlug, plug), exported + {plug}))
  {
    WrittenEndpointSplits("", plug);
    WrittenEndpointSplits(destNode, destPlug);
    assert plug + "->" + EndpointName(destNode, destPlug) == plug + "->" + destNode + "." + destPlug;
  }

  lemma NodeToOutputLink<V, F>(exported: set<string>, node: string, plug: string, destPlug: string)
    requires node != "" && '.' !in plug && '.' !in destPlug
    ensures LinkStep<V, F>(exported, Some(EndpointName(node, plug)), Some(EndpointName("", destPlug)))
         == if destPlug in exported then Ok((AddLink(node + "." + plug + "->" + destPlug), exported))
            else Ok((ExportParameter(node, plug, destPlug), exported + {destPlug}))
  {
    WrittenEndpointSplits(node, plug);
    WrittenEndpointSplits("", destPlug);
    assert EndpointName(node, plug) + "->" + destPlug == node + "." + plug + "->" + destPlug;
  }

  /** The keyword arguments of a process written without any `<set>` or `<nipype>` child. */
  function NoArgs<V>(): ProcessArgs<V> {
    ProcessArgs(map[], [], [], [])
  }

  /** Names as the reader returns attribute values. */
  function SomeNames(names: seq<string>): (r: seq<Option<string>>)
    ensures |r| == |names| && forall i :: 0 <= i < |names| ==> r[i] == Some(names[i])
  {
    seq(|names|, i requires 0 <= i < |names| => Some(names[i]))
  }

  /** The builder calls that recreate a written node. */
  function NodeCommands<V, F>(node: Node): seq<Command<V, F>> {
    match node.kind
    case SwitchNode => []
    case ProcessNode(process) => [AddProcess(Some(node.name), Some(ModuleAttribute(process)), NoArgs())]
    case IterationNode(process, parameters) =>
      if parameters == [] then [AddProcess(Some(node.name), Some(ModuleAttribute(process)), NoArgs())]
      else [AddIterativeProcess(Some(node.name), Some(ModuleAttribute(process)), NoArgs(), SomeNames(parameters))]
  }

  lemma {:induction false} ReadIterateElements<V, F>(parameters: seq<string>, st: ProcessState<V>, conv: Converters<V, F>)
    ensures ProcessChildren(IterateElements(parameters), st, conv) == Ok(st.(iterate := st.iterate + SomeNames(parameters)))
    decreases |parameters|
  {
    if parameters == [] {
      assert st.iterate + SomeNames(parameters) == st.iterate;
    } else {
      var init := parameters[..|parameters| - 1];
      var last := parameters[|parameters| - 1];
      ReadIterateElements(init, st, conv);
      ProcessChildrenAppend(IterateElements(init), SubElement("iterate", map["name" := last], []), st, conv);
      assert st.iterate + SomeNames(init) + [Some(last)] == st.iterate + SomeNames(parameters);
    }
  }

  /**
   * Reading back one written node: a process or an iteration gives back the
   * `add_process` or `add_iterative_process` call for the same name, module
   * and iterative plugs, and a switch is refused.
   */
  lemma ReadWrittenNode<V, F>(st: DecodeState<V, F>, node: Node, conv: Converters<V, F>)
    ensures node.kind.SwitchNode? ==> EntryStep(st, NodeElement(node), conv) == Err(InvalidTag(InPipeline, "switch"))
    ensures !node.kind.SwitchNode? ==> EntryStep(st, NodeElement(node), conv) == Ok(st.(log := st.log + NodeCommands(node)))
  {
    match node.kind
    case SwitchNode =>
    case ProcessNode(process) =>
      assert IterateElements([]) == [];
      ReadProcessElement(st, process, node.name, [], conv);
      assert NodeCommands<V, F>(Node(node.name, IterationNode(process, []), [])) == NodeCommands(node);
    case IterationNode(process, parameters) =>
      ReadProcessElement(st, process, node.name, parameters, conv);
      assert NodeCommands<V, F>(Node(node.name, IterationNode(process, parameters), [])) == NodeCommands(node);
  }

  /** A written `<process>` with one `<iterate>` per iterative parameter reads back as its add call. */
  lemma ReadProcessElement<V, F>(st: DecodeState<V, F>, process: ProcessRef, name: string, parameters: seq<string>, conv: Converters<V, F>)
    ensures EntryStep(st, ProcessElement(process, name, IterateElements(parameters)), conv)
      == Ok(st.(log := st.log + NodeCommands<V, F>(Node(name, IterationNode(process, parameters), []))))
  {
    ProcessElementCommands<V, F>(process, name, parameters, conv);
  }

  /** The calls of a written `<process>` with one `<iterate>` per iterative parameter. */
  lemma ProcessElementCommands<V, F>(process: ProcessRef, name: string, parameters: seq<string>, conv: Converters<V, F>)
    ensures ProcessCommands(ProcessElement(process, name, IterateElements(parameters)), conv)
      == Ok(NodeCommands<V, F>(Node(name, IterationNode(process, parameters), [])))
  {
    var e := ProcessElement(process, name, IterateElements(parameters));
    var empty: ProcessState<V> := NoProcessState();
    var st := empty.(iterate := SomeNames(parameters));
    assert ProcessChildren(e.children, empty, conv) == Ok(st) by {
      ReadIterateElements(parameters, empty, conv);
      assert empty.iterate + SomeNames(parameters) == SomeNames(parameters);
    }
    ProcessCommandsOf(e, st, conv);
    var add: Command<V, F> := if st.iterate != [] then AddIterativeProcess(Some(name), Some(ModuleAttribute(process)), st.args, st.iterate)
      else AddProcess(Some(name), Some(ModuleAttribute(process)), st.args);
    assert [add] + UsedefaultCalls<V, F>(Some(name), []) == NodeCommands<V, F>(Node(name, IterationNode(process, parameters), [])) by {
      assert UsedefaultCalls<V, F>(Some(name), []) == [];
      assert st.args == NoArgs();
      assert st.iterate != [] <==> parameters != [];
    }
  }

  /** The calls of a `<process>` whose children read to `st`. */
  lemma ProcessCommandsOf<V, F>(e: Element, st: ProcessState<V>, conv: Converters<V, F>)
    requires ProcessChildren(e.children, NoProcessState(), conv) == Ok(st) && !st.noneKeyed
    ensures ProcessCommands(e, conv)
      == Ok([if st.iterate != [] then AddIterativeProcess(Get(e, "name"), Get(e, "module"), st.args, st.iterate)
             else AddProcess(Get(e, "name"), Get(e, "module"), st.args)] + UsedefaultCalls(Get(e, "name"), st.usedefault))
  {
  }

  /** A named switch among the nodes. */
  predicate HasNamedSwitch(nodes: seq<Node>) {
    exists i :: 0 <= i < |nodes| && nodes[i].name != "" && nodes[i].kind.SwitchNode?
  }

  /** The builder calls that recreate the written nodes, in node order. */
  function ProcessLog<V, F>(nodes: seq<Node>): seq<Command<V, F>> {
    if nodes == [] then []
    else
      var node := nodes[|nodes| - 1];
      ProcessLog(nodes[..|nodes| - 1]) + (if node.name == "" then [] else NodeCommands(node))
  }

  /** The element written for the last node, read back after the others. */
  lemma ReadLastNode<V, F>(node: Node, st: DecodeState<V, F>, conv: Converters<V, F>)
    ensures var tail := if node.name == "" then [] else [NodeElement(node)];
      && (node.name != "" && node.kind.SwitchNode? ==> DecodeEntries(tail, st, conv) == Err(InvalidTag(InPipeline, "switch")))
      && (node.name == "" || !node.kind.SwitchNode? ==>
            DecodeEntries(tail, st, conv) == Ok(st.(log := st.log + (if node.name == "" then [] else NodeCommands(node)))))
  {
    if node.name == "" {
      assert st.log + [] == st.log;
    } else {
      ReadWrittenNode(st, node, conv);
      assert [NodeElement(node)][1..] == [];
    }
  }

  /** A named switch is among the last node or the ones before it. */
  lemma NamedSwitchSplit(nodes: seq<Node>)
    requires nodes != []
    ensures HasNamedSwitch(nodes) <==>
      HasNamedSwitch(nodes[..|nodes| - 1]) || (nodes[|nodes| - 1].name != "" && nodes[|nodes| - 1].kind.SwitchNode?)
  {
    var init := nodes[..|nodes| - 1];
    if HasNamedSwitch(init) {
      var i :| 0 <= i < |init| && init[i].name != "" && init[i].kind.SwitchNode?;
      assert nodes[i] == init[i];
    }
    if HasNamedSwitch(nodes) {
      var i :| 0 <= i < |nodes| && nodes[i].name != "" && nodes[i].kind.SwitchNode?;
      if i < |init| {
        assert init[i] == nodes[i];
      }
    }
  }

  /** Reading back the written nodes of a pipeline without switches recreates every node, in order. */
  lemma {:induction false} ReadProcessSection<V, F>(nodes: seq<Node>, st: DecodeState<V, F>, conv: Converters<V, F>)
    requires !HasNamedSwitch(nodes)
    ensures DecodeEntries(ProcessElements(nodes), st, conv) == Ok(st.(log := st.log + ProcessLog(nodes)))
    decreases |nodes|
  {
    if nodes == [] {
      assert st.log + [] == st.log;
    } else {
      var init := nodes[..|nodes| - 1];
      var node := nodes[|nodes| - 1];
      var tail := if node.name == "" then [] else [NodeElement(node)];
      NamedSwitchSplit(nodes);
      ReadProcessSection(init, st, conv);
      DecodeEntriesAppend(ProcessElements(init), tail, st, conv);
      ReadLastNode(node, st.(log := st.log + ProcessLog(init)), conv);
      var last: seq<Command<V, F>> := if node.name == "" then [] else NodeCommands(node);
      assert st.log + ProcessLog(init) + last == st.log + ProcessLog(nodes);
    }
  }

  /** Reading back the written nodes of a pipeline with a switch fails at the first switch. */
  lemma {:induction false} ReadProcessSectionSwitch<V, F>(nodes: seq<Node>, st: DecodeState<V, F>, conv: Converters<V, F>)
    requires HasNamedSwitch(nodes)
    ensures DecodeEntries(ProcessElements(nodes), st, conv) == Err(InvalidTag(InPipeline, "switch"))
    decreases |nodes|
  {
    var init := nodes[..|nodes| - 1];
    var node := nodes[|nodes| - 1];
    var tail := if node.name == "" then [] else [NodeElement(node)];
    NamedSwitchSplit(nodes);
    DecodeEntriesAppend(ProcessElements(init), tail, st, conv);
    if HasNamedSwitch(init) {
      ReadProcessSectionSwitch(init, st, conv);
    } else {
      ReadProcessSection(init, st, conv);
      ReadLastNode(node, st.(log := st.log + ProcessLog(init)), conv);
    }
  }

  // ------------------------------------------------------- written links

  /** One written `<link>`: a `links_to` entry `target` of the plug `plug` of the node `node`. */
  datatype LinkRef = LinkRef(node: string, plug: string, target: LinkTarget)

  /** The links of one plug, one per target, in order. */
  function TargetLinkRefs(node: string, plug: string, targets: seq<LinkTarget>): seq<LinkRef> {
    seq(|targets|, k requires 0 <= k < |targets| => LinkRef(node, plug, targets[k]))
  }

  /** The links `_write_links` writes for the plugs of one node. */
  function PlugLinkRefs(node: string, plugs: seq<Plug>): seq<LinkRef> {
    if plugs == [] then []
    else
      var plug := plugs[|plugs| - 1];
      PlugLinkRefs(node, plugs[..|plugs| - 1])
        + (if WritesLinks(node, plug) then TargetLinkRefs(node, plug.name, plug.linksTo) else [])
  }

  /** The links `_write_links` writes for a whole pipeline, node by node. */
  function LinkRefs(nodes: seq<Node>): seq<LinkRef> {
    if nodes == [] then []
    else LinkRefs(nodes[..|nodes| - 1]) + PlugLinkRefs(nodes[|nodes| - 1].name, nodes[|nodes| - 1].plugs)
  }

  /** The `<link>` elements of a run of links. */
  function RefElements(refs: seq<LinkRef>): seq<Element> {
    seq(|refs|, i requires 0 <= i < |refs| => LinkElement(refs[i].node, refs[i].plug, refs[i].target))
  }

  lemma RefElementsAppend(a: seq<LinkRef>, b: seq<LinkRef>)
    ensures RefElements(a + b) == RefElements(a) + RefElements(b)
  {
    assert forall i :: 0 <= i < |a| + |b| ==> (a + b)[i] == if i < |a| then a[i] else b[i - |a|];
  }

  lemma {:induction false} PlugRefsWritten(node: string, plugs: seq<Plug>)
    ensures RefElements(PlugLinkRefs(node, plugs)) == PlugLinkElements(node, plugs)
    decreases |plugs|
  {
    if plugs != [] {
      var init := plugs[..|plugs| - 1];
      var plug := plugs[|plugs| - 1];
      var own := if WritesLinks(node, plug) then TargetLinkRefs(node, plug.name, plug.linksTo) else [];
      PlugRefsWritten(node, init);
      RefElementsAppend(PlugLinkRefs(node, init), own);
      TargetRefsWritten(node, plug.name, plug.linksTo);
    }
  }

  lemma {:induction false} TargetRefsWritten(node: string, plug: string, targets: seq<LinkTarget>)
    ensures RefElements(TargetLinkRefs(node, plug, targets)) == TargetLinkElements(node, plug, targets)
    decreases |targets|
  {
    if targets != [] {
      var init := targets[..|targets| - 1];
      TargetRefsWritten(node, plug, init);
      assert TargetLinkRefs(node, plug, targets) == TargetLinkRefs(node, plug, init) + [LinkRef(node, plug, targets[|targets| - 1])];
      RefElementsAppend(TargetLinkRefs(node, plug, init), [LinkRef(node, plug, targets[|targets| - 1])]);
    }
  }

  /** The links of `LinkRefs` are exactly, and in order, the `<link>` elements `_write_links` writes. */
  lemma {:induction false} LinkRefsWritten(nodes: seq<Node>)
    ensures RefElements(LinkRefs(nodes)) == LinkElements(nodes)
    decreases |nodes|
  {
    if nodes != [] {
      var init := nodes[..|nodes| - 1];
      var last := nodes[|nodes| - 1];
      LinkRefsWritten(init);
      PlugRefsWritten(last.name, last.plugs);
      RefElementsAppend(LinkRefs(init), PlugLinkRefs(last.name, last.plugs));
    }
  }

  // --------------------------------------------------- reading links back

  /** Plug names without dots, and not a link from a pipeline input straight to a pipeline output. */
  predicate ReadableRef(l: LinkRef) {
    '.' !in l.plug && '.' !in l.target.plug && (l.node != "" || l.target.node != "")
  }

  predicate ReadableRefs(refs: seq<LinkRef>) {
    forall i :: 0 <= i < |refs| ==> ReadableRef(refs[i])
  }

  /** Every link a node's plugs write is readable. */
  predicate ReadablePlugLinks(node: string, plugs: seq<Plug>) {
    forall j, k :: 0 <= j < |plugs| && 0 <= k < |plugs[j].linksTo| && WritesLinks(node, plugs[j]) ==>
      ReadableRef(LinkRef(node, plugs[j].name, plugs[j].linksTo[k]))
  }

  /** Every link a pipeline writes is readable. */
  predicate ReadableLinks(nodes: seq<Node>) {
    forall i :: 0 <= i < |nodes| ==> ReadablePlugLinks(nodes[i].name, nodes[i].plugs)
  }

  lemma {:induction false} PlugRefsReadable(node: string, plugs: seq<Plug>)
    requires ReadablePlugLinks(node, plugs)
    ensures ReadableRefs(PlugLinkRefs(node, plugs))
    decreases |plugs|
  {
    if plugs != [] {
      var init := plugs[..|plugs| - 1];
      var plug := plugs[|plugs| - 1];
      assert forall j :: 0 <= j < |init| ==> init[j] == plugs[j];
      PlugRefsReadable(node, init);
      var j := |plugs| - 1;
      assert plugs[j] == plug;
    }
  }

  /** A pipeline's links are readable link by link. */
  lemma {:induction false} LinkRefsReadable(nodes: seq<Node>)
    requires ReadableLinks(nodes)
    ensures ReadableRefs(LinkRefs(nodes))
    decreases |nodes|
  {
    if nodes != [] {
      var init := nodes[..|nodes| - 1];
      var last := nodes[|nodes| - 1];
      assert forall i :: 0 <= i < |init| ==> init[i] == nodes[i];
      LinkRefsReadable(init);
      PlugRefsReadable(last.name, last.plugs);
    }
  }

  /**
   * The builder call that reading a readable link issues, given the names
   * exported so far, and the exported names after it: a link between two
   * node plugs is added as is; a link with a pipeline end exports the node
   * plug under the bare name the first time that name appears and is added
   * as a link after that.
   */
  function ExpectedLinkStep<V, F>(exported: set<string>, l: LinkRef): (Command<V, F>, set<string>)
    requires l.node != "" || l.target.node != ""
  {
    if l.node != "" && l.target.node != "" then
      (AddLink(l.node + "." + l.plug + "->" + l.target.node + "." + l.target.plug), exported)
    else if l.node == "" then
      if l.plug in exported then (AddLink(l.plug + "->" + l.target.node + "." + l.target.plug), exported)
      else (ExportParameter(l.target.node, l.target.plug, l.plug), exported + {l.plug})
    else if l.target.plug in exported then (AddLink(l.node + "." + l.plug + "->" + l.target.plug), exported)
    else (ExportParameter(l.node, l.plug, l.target.plug), exported + {l.target.plug})
  }

  /** The builder calls of a run of readable links, and the exported names after them. */
  function ExpectedLinkLog<V, F>(refs: seq<LinkRef>, exported: set<string>): (seq<Command<V, F>>, set<string>)
    requires ReadableRefs(refs)
    decreases |refs|
  {
    if refs == [] then ([], exported)
    else
      var s := ExpectedLinkStep<V, F>(exported, refs[0]);
      var rest := ExpectedLinkLog<V, F>(refs[1..], s.1);
      ([s.0] + rest.0, rest.1)
  }

  /** The bare name a link with a pipeline end exports, if it has one. */
  function BareEnd(l: LinkRef): set<string> {
    if l.node == "" then {l.plug} else if l.target.node == "" then {l.target.plug} else {}
  }

  /** The bare names of a run of links. */
  function BareNames(refs: seq<LinkRef>): set<string>
    decreases |refs|
  {
    if refs == [] then {} else BareEnd(refs[0]) + BareNames(refs[1..])
  }

  /**
   * The calls of a run of readable links, one per link: the `k`-th is the
   * call its endpoints give once the bare names of the links before it have
   * been exported; afterwards every bare name of the run is exported.
   */
  lemma {:induction false} LinkLogAt<V, F>(refs: seq<LinkRef>, exported: set<string>, k: int)
    requires ReadableRefs(refs)
    ensures var x := ExpectedLinkLog<V, F>(refs, exported);
      && |x.0| == |refs|
      && x.1 == exported + BareNames(refs)
      && (0 <= k < |refs| ==> x.0[k] == ExpectedLinkStep<V, F>(exported + BareNames(refs[..k]), refs[k]).0)
    decreases |refs|
  {
    if refs != [] {
      ExpectedLinkLogHead<V, F>(refs, exported);
      var s := ExpectedLinkStep<V, F>(exported, refs[0]);
      ExpectedLinkStepExports<V, F>(exported, refs[0]);
      LinkLogAt<V, F>(refs[1..], s.1, k - 1);
      assert BareNames(refs) == BareEnd(refs[0]) + BareNames(refs[1..]);
      if 0 < k < |refs| {
        assert refs[..k][0] == refs[0] && refs[..k][1..] == refs[1..][..k - 1];
        assert BareNames(refs[..k]) == BareEnd(refs[0]) + BareNames(refs[1..][..k - 1]);
        assert refs[1..][k - 1] == refs[k];
        assert s.1 + BareNames(refs[1..][..k - 1]) == exported + BareNames(refs[..k]);
      } else if k == 0 {
        assert refs[..0] == [];
      }
    }
  }

  /** A link's expected call exports exactly its bare end, when it has one that is new. */
  lemma ExpectedLinkStepExports<V, F>(exported: set<string>, l: LinkRef)
    requires l.node != "" || l.target.node != ""
    ensures ExpectedLinkStep<V, F>(exported, l).1 == exported + BareEnd(l)
  {
  }

  /** Reading one readable written link issues its expected call. */
  lemma ReadLinkRef<V, F>(st: DecodeState<V, F>, l: LinkRef, conv: Converters<V, F>)
    requires ReadableRef(l)
    ensures var s := ExpectedLinkStep<V, F>(st.exported, l);
      EntryStep(st, LinkElement(l.node, l.plug, l.target), conv) == Ok(DecodeState(st.log + [s.0], s.1))
  {
    ReadWrittenLink(st, l.node, l.plug, l.target, conv);
  }

  /** The link branch of `create_xml_pipeline`'s loop, folded over a run of `<link>` elements. */
  function LinkFold<V, F>(es: seq<Element>, st: DecodeState<V, F>): Result<DecodeState<V, F>, XmlError>
    decreases |es|
  {
    if es == [] then Ok(st)
    else
      match LinkStep<V, F>(st.exported, Get(es[0], "source"), Get(es[0], "dest"))
      case Err(e) => Err(e)
      case Ok(s) => LinkFold(es[1..], DecodeState(st.log + [s.0], s.1))
  }

  /** Reading a run of `<link>` elements is the link branch applied to each in turn. */
  lemma {:induction false} DecodeLinkEntries<V, F>(es: seq<Element>, st: DecodeState<V, F>, conv: Converters<V, F>)
    requires forall i :: 0 <= i < |es| ==> es[i].tag == "link"
    ensures DecodeEntries(es, st, conv) == LinkFold(es, st)
    decreases |es|
  {
    if es != [] {
      DecodeEntriesHead(es, st, conv);
      var step := LinkStep<V, F>(st.exported, Get(es[0], "source"), Get(es[0], "dest"));
      if step.Ok? {
        assert forall i :: 0 <= i < |es[1..]| ==> es[1..][i] == es[i + 1];
        DecodeLinkEntries(es[1..], DecodeState(st.log + [step.value.0], step.value.1), conv);
      }
    }
  }

  /** The link branch on one readable written link gives its expected call. */
  lemma ReadLinkRefStep<V, F>(exported: set<string>, l: LinkRef, conv: Converters<V, F>)
    requires ReadableRef(l)
    ensures var e := LinkElement(l.node, l.plug, l.target);
      LinkStep<V, F>(exported, Get(e, "source"), Get(e, "dest")) == Ok(ExpectedLinkStep<V, F>(exported, l))
  {
    var st: DecodeState<V, F> := DecodeState([], exported);
    ReadLinkRef(st, l, conv);
    LinkElementRead(st, l.node, l.plug, l.target, conv);
    LinkElementShape(l.node, l.plug, l.target);
    var step := LinkStep<V, F>(exported, Some(EndpointName(l.node, l.plug)), Some(EndpointName(l.target.node, l.target.plug)));
    var s := ExpectedLinkStep<V, F>(exported, l);
    assert step.Ok? && DecodeState(st.log + [step.value.0], step.value.1) == DecodeState(st.log + [s.0], s.1);
    assert (st.log + [step.value.0])[0] == step.value.0 && (st.log + [s.0])[0] == s.0;
  }

  /** The expected calls of a non-empty run: those of its first link, then those of the rest. */
  lemma ExpectedLinkLogHead<V, F>(refs: seq<LinkRef>, exported: set<string>)
    requires refs != [] && ReadableRefs(refs)
    ensures ReadableRefs(refs[1..])
    ensures var s := ExpectedLinkStep<V, F>(exported, refs[0]);
      var rest := ExpectedLinkLog<V, F>(refs[1..], s.1);
      ExpectedLinkLog<V, F>(refs, exported) == ([s.0] + rest.0, rest.1)
  {
    assert forall i :: 0 <= i < |refs[1..]| ==> refs[1..][i] == refs[i + 1];
  }

  /** Folding the link branch over the elements of a run of readable links gives the expected calls. */
  lemma {:induction false} LinkFoldRefs<V, F>(refs: seq<LinkRef>, st: DecodeState<V, F>, conv: Converters<V, F>)
    requires ReadableRefs(refs)
    ensures var x := ExpectedLinkLog<V, F>(refs, st.exported);
      LinkFold(RefElements(refs), st) == Ok(DecodeState(st.log + x.0, x.1))
    decreases |refs|
  {
    var es := RefElements(refs);
    if refs == [] {
      assert es == [];
      assert st.log + [] == st.log;
    } else {
      var l := refs[0];
      assert es[0] == LinkElement(l.node, l.plug, l.target);
      assert es[1..] == RefElements(refs[1..]);
      ExpectedLinkLogHead<V, F>(refs, st.exported);
      ReadLinkRefStep<V, F>(st.exported, l, conv);
      var s := ExpectedLinkStep<V, F>(st.exported, l);
      LinkFoldRefs(refs[1..], DecodeState(st.log + [s.0], s.1), conv);
      var rest := ExpectedLinkLog<V, F>(refs[1..], s.1);
      assert st.log + [s.0] + rest.0 == st.log + ([s.0] + rest.0);
    }
  }

  /** Reading the elements of a run of readable links issues exactly their expected calls. */
  lemma ReadLinkSection<V, F>(refs: seq<LinkRef>, st: DecodeState<V, F>, conv: Converters<V, F>)
    requires ReadableRefs(refs)
    ensures var x := ExpectedLinkLog<V, F>(refs, st.exported);
      DecodeEntries(RefElements(refs), st, conv) == Ok(DecodeState(st.log + x.0, x.1))
  {
    var es := RefElements(refs);
    forall i | 0 <= i < |es| ensures es[i].tag == "link" {
      LinkElementShape(refs[i].node, refs[i].plug, refs[i].target);
    }
    DecodeLinkEntries(es, st, conv);
    LinkFoldRefs(refs, st, conv);
  }

  /** The builder calls that recreate the node positions and the zoom level. */
  function GuiLog<V, F>(positions: seq<Position<F>>, scaleFactor: Option<F>): seq<Command<V, F>> {
    seq(|positions|, i requires 0 <= i < |positions| => SetNodePosition(Some(positions[i].node), positions[i].x, positions[i].y))
      + (if scaleFactor.Some? then [SetSceneScaleFactor(scaleFactor.value)] else [])
  }

  /** `float(unicode(v)) == v` for every coordinate and the zoom level. */
  ghost predicate FloatsReadBack<V, F>(positions: seq<Position<F>>, scaleFactor: Option<F>, show: F -> string, conv: Converters<V, F>) {
    && (forall i :: 0 <= i < |positions| ==>
          conv.toFloat(Some(show(positions[i].x))) == Some(positions[i].x)
          && conv.toFloat(Some(show(positions[i].y))) == Some(positions[i].y))
    && (scaleFactor.Some? ==> conv.toFloat(Some(show(scaleFactor.value))) == Some(scaleFactor.value))
  }

  lemma {:induction false} PositionElementsIndex<F>(positions: seq<Position<F>>, show: F -> string)
    ensures |PositionElements(positions, show)| == |positions|
    ensures forall i :: 0 <= i < |positions| ==> PositionElements(positions, show)[i] == PositionElement(positions[i], show)
    decreases |positions|
  {
    if positions != [] {
      var init := positions[..|positions| - 1];
      PositionElementsIndex(init, show);
      forall i | 0 <= i < |init| ensures init[i] == positions[i] { }
    }
  }

  lemma PositionRead<V, F>(p: Position<F>, show: F -> string, conv: Converters<V, F>)
    requires conv.toFloat(Some(show(p.x))) == Some(p.x) && conv.toFloat(Some(show(p.y))) == Some(p.y)
    ensures GuiCommand(PositionElement(p, show), conv) == Ok(SetNodePosition(Some(p.node), p.x, p.y))
  {
    var e := PositionElement(p, show);
    assert Get(e, "name") == Some(p.node) && Get(e, "x") == Some(show(p.x)) && Get(e, "y") == Some(show(p.y));
  }

  lemma ZoomRead<V, F>(level: F, show: F -> string, conv: Converters<V, F>)
    requires conv.toFloat(Some(show(level))) == Some(level)
    ensures GuiCommand(ZoomElement(level, show), conv) == Ok(SetSceneScaleFactor(level))
  {
    assert Get(ZoomElement(level, show), "level") == Some(show(level));
  }

  /** The children of a written `<gui>` read back as the position and zoom calls, when the number formatting round-trips. */
  lemma GuiChildrenRead<V, F>(positions: seq<Position<F>>, scaleFactor: Option<F>, show: F -> string, conv: Converters<V, F>)
    requires FloatsReadBack(positions, scaleFactor, show, conv)
    ensures GuiCommands(PositionElements(positions, show) + (if scaleFactor.Some? then [ZoomElement(scaleFactor.value, show)] else []), conv)
         == Ok(GuiLog(positions, scaleFactor))
  {
    var cmds: seq<Command<V, F>> := GuiLog(positions, scaleFactor);
    var cs := PositionElements(positions, show) + (if scaleFactor.Some? then [ZoomElement(scaleFactor.value, show)] else []);
    PositionElementsIndex(positions, show);
    GuiCommandsPointwise(cs, conv);
    forall i | 0 <= i < |cs| ensures GuiCommand(cs[i], conv) == Ok(cmds[i]) {
      if i < |positions| {
        assert cs[i] == PositionElement(positions[i], show);
        PositionRead(positions[i], show, conv);
      } else {
        assert cs[i] == ZoomElement(scaleFactor.value, show);
        ZoomRead(scaleFactor.value, show, conv);
      }
    }
    assert |cmds| == |cs|;
    assert GuiCommands(cs, conv).value == cmds;
  }

  /** A written `<gui>` reads back as the same positions, in order, then the same zoom level, when the number formatting round-trips. */
  lemma ReadWrittenGui<V, F>(st: DecodeState<V, F>, positions: seq<Position<F>>, scaleFactor: Option<F>, show: F -> string, conv: Converters<V, F>)
    requires FloatsReadBack(positions, scaleFactor, show, conv)
    ensures DecodeEntries(GuiElements(positions, scaleFactor, show), st, conv) == Ok(st.(log := st.log + GuiLog(positions, scaleFactor)))
  {
    if positions == [] && scaleFactor.None? {
      assert GuiLog<V, F>(positions, scaleFactor) == [];
      assert st.log + [] == st.log;
    } else {
      var cs := PositionElements(positions, show) + (if scaleFactor.Some? then [ZoomElement(scaleFactor.value, show)] else []);
      GuiChildrenRead(positions, scaleFactor, show, conv);
      var gui := SubElement("gui", map[], cs);
      assert GuiElements(positions, scaleFactor, show) == [gui];
      assert EntryStep(st, gui, conv) == Ok(st.(log := st.log + GuiLog(positions, scaleFactor)));
      assert [gui][1..] == [];
    }
  }

  /**
   * Saving a pipeline that has a switch and reading the file back fails
   * at the `<switch>` element: the reader has no case for it.
   */
  lemma SavedSwitchUnreadable<V, F>(p: PipelineObject<F>, baseDoc: string, show: F -> string, conv: Converters<V, F>)
    requires SavedDocument(p, baseDoc, show).Ok?
    requires HasNamedSwitch(p.nodes)
    ensures DecodePipeline(SavedDocument(p, baseDoc, show).value, conv) == Err(InvalidTag(InPipeline, "switch"))
  {
    var root := SavedDocument(p, baseDoc, show).value;
    var init: DecodeState<V, F> := DecodeState([], {});
    ReadProcessSectionSwitch(p.nodes, init, conv);
    DecodeEntriesAppend(ProcessElements(p.nodes) + LinkElements(p.nodes), GuiElements(p.positions, p.scaleFactor, show), init, conv);
    DecodeEntriesAppend(ProcessElements(p.nodes), LinkElements(p.nodes), init, conv);
  }

  /**
   * No written link is weak. `_write_links` stores a weak flag as the
   * integer 1, which `ElementTree` refuses to serialize, so a pipeline with
   * a weak link cannot be saved at all.
   */
  predicate NoWeakLinks(nodes: seq<Node>) {
    forall i :: 0 <= i < |LinkRefs(nodes)| ==> !LinkRefs(nodes)[i].target.weak
  }

  /**
   * Saving a pipeline without switches or weak links whose links are all
   * readable, then
   * reading the file back, recreates every node in order, issues for each
   * written link, in order, the call its endpoints give, and recreates the
   * positions and the zoom level; no documentation, selection group or
   * parameter value is set, since the writer puts the docstring into an
   * attribute the reader does not read and writes neither
   * `<processes_selection>` nor `<set>`.
   */
  lemma ReadSavedPipeline<V, F>(p: PipelineObject<F>, baseDoc: string, show: F -> string, conv: Converters<V, F>)
    requires SavedDocument(p, baseDoc, show).Ok?
    requires !HasNamedSwitch(p.nodes) && ReadableLinks(p.nodes) && NoWeakLinks(p.nodes)
    requires FloatsReadBack(p.positions, p.scaleFactor, show, conv)
    ensures (LinkRefsReadable(p.nodes);
      DecodePipeline(SavedDocument(p, baseDoc, show).value, conv)
        == Ok(ProcessLog(p.nodes) + ExpectedLinkLog<V, F>(LinkRefs(p.nodes), {}).0 + GuiLog(p.positions, p.scaleFactor)))
  {
    var root := SavedDocument(p, baseDoc, show).value;
    var pe := ProcessElements(p.nodes);
    var le := LinkElements(p.nodes);
    var ge := GuiElements(p.positions, p.scaleFactor, show);
    var nodes: seq<Command<V, F>> := ProcessLog(p.nodes);
    var gui: seq<Command<V, F>> := GuiLog(p.positions, p.scaleFactor);
    var init: DecodeState<V, F> := DecodeState([], {});
    assert root.children == pe + le + ge;
    DecodeEntriesAppend(pe + le, ge, init, conv);
    DecodeEntriesAppend(pe, le, init, conv);
    ReadProcessSection(p.nodes, init, conv);
    var afterNodes := init.(log := nodes);
    assert init.log + nodes == nodes;
    assert DecodeEntries(pe, init, conv) == Ok(afterNodes);
    LinkRefsReadable(p.nodes);
    LinkRefsWritten(p.nodes);
    ReadLinkSection(LinkRefs(p.nodes), afterNodes, conv);
    var links := ExpectedLinkLog<V, F>(LinkRefs(p.nodes), {});
    var afterLinks := DecodeState(nodes + links.0, links.1);
    assert DecodeEntries(le, afterNodes, conv) == Ok(afterLinks);
    ReadWrittenGui(afterLinks, p.positions, p.scaleFactor, show, conv);
    assert DecodePipeline(root, conv) == Ok(afterLinks.log + gui);
  }

  /** Every `SetDocumentation` call stems from a `<doc>` child. */
  predicate NoDocumentation<V, F>(log: seq<Command<V, F>>) {
    forall k :: 0 <= k < |log| ==> !log[k].SetDocumentation?
  }

  lemma EntryStepNoDocumentation<V, F>(st: DecodeState<V, F>, c: Element, conv: Converters<V, F>)
    requires c.tag != "doc" && NoDocumentation(st.log) && EntryStep(st, c, conv).Ok?
    ensures NoDocumentation(EntryStep(st, c, conv).value.log)
  {
    var log := EntryStep(st, c, conv).value.log;
    if c.tag == "gui" {
      GuiCommandsPointwise(c.children, conv);
      var cmds := GuiCommands(c.children, conv).value;
      forall k | 0 <= k < |log| ensures !log[k].SetDocumentation? {
        if k >= |st.log| {
          assert log[k] == cmds[k - |st.log|];
        }
      }
    } else if c.tag == "process" {
      var cmds := ProcessCommands(c, conv).value;
      forall k | 0 <= k < |log| ensures !log[k].SetDocumentation? {
        if k >= |st.log| {
          assert log[k] == cmds[k - |st.log|];
        }
      }
    }
  }

  lemma {:induction false} EntriesNoDocumentation<V, F>(cs: seq<Element>, st: DecodeState<V, F>, conv: Converters<V, F>)
    requires forall i :: 0 <= i < |cs| ==> cs[i].tag != "doc"
    requires NoDocumentation(st.log) && DecodeEntries(cs, st, conv).Ok?
    ensures NoDocumentation(DecodeEntries(cs, st, conv).value.log)
    decreases |cs|
  {
    if cs != [] {
      EntryStepNoDocumentation(st, cs[0], conv);
      forall i | 0 <= i < |cs[1..]| ensures cs[1..][i].tag != "doc" {
        assert cs[1..][i] == cs[i + 1];
      }
      EntriesNoDocumentation(cs[1..], EntryStep(st, cs[0], conv).value, conv);
    }
  }

  /** Whatever the docstring, a saved pipeline read back never has its documentation set. */
  lemma SavedDocumentationLost<V, F>(p: PipelineObject<F>, baseDoc: string, show: F -> string, conv: Converters<V, F>)
    requires SavedDocument(p, baseDoc, show).Ok?
    ensures var r := DecodePipeline(SavedDocument(p, baseDoc, show).value, conv);
      r.Ok? ==> forall k :: 0 <= k < |r.value| ==> !r.value[k].SetDocumentation?
  {
    var root := SavedDocument(p, baseDoc, show).value;
    SavedDocumentRoot(p, baseDoc, show);
    var init: DecodeState<V, F> := DecodeState([], {});
    if DecodeEntries(root.children, init, conv).Ok? {
      EntriesNoDocumentation(root.children, init, conv);
    }
  }
}
