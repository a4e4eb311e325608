/**
 * The Capsul XML 2.0 pipeline writer, `save_xml_pipeline`.
 *
 * The writer reads a pipeline object and builds an element tree: a
 * `<pipeline name=... doc=...>` root whose children are, in this order, one
 * element per named node (`<process>`, or an empty `<switch>`), one `<link>`
 * per written link, and an optional `<gui>`. Here the pipeline object is a
 * value (`PipelineObject`) and the tree is an `Element` value; each loop of
 * the writer is a method proved equal to a specification function.
 */
module XmlWriter {
  import opened Base
  import opened PyString
  import opened ElementTree

  /** One entry of a plug's `links_to`: destination node name, destination plug name and the weak flag (its last item). */
  datatype LinkTarget = LinkTarget(node: string, plug: string, weak: bool)

  /** A plug of a node: its name, whether it is an output, and its outgoing links in `links_to` order. */
  datatype Plug = Plug(name: string, output: bool, linksTo: seq<LinkTarget>)

  /**
   * What `_write_process` needs of a process: its `__module__`, its class
   * name and, for a function wrapped by the XML decorator, the `_function`'s
   * name, which is written instead of the class name.
   */
  datatype ProcessRef = ProcessRef(moduleName: string, className: string, wrappedFunction: Option<string>)

  /** The node kinds the writer distinguishes: a switch, a process node, and a process node wrapping a `ProcessIteration`. */
  datatype NodeKind =
    | SwitchNode
    | ProcessNode(process: ProcessRef)
    | IterationNode(process: ProcessRef, iterativeParameters: seq<string>)

  /** An entry of `pipeline.nodes`; the pipeline node itself has the name "". */
  datatype Node = Node(name: string, kind: NodeKind, plugs: seq<Plug>)

  /** An entry of `pipeline.node_position`. */
  datatype Position<F> = Position(node: string, x: F, y: F)

  /**
   * The pipeline object as the writer sees it: `__class__.__name__`, whether
   * the class is `Pipeline` itself, `__doc__` (`None` when the class has no
   * docstring), `nodes` in dictionary order, `node_position` in dictionary
   * order, and `scene_scale_factor` when the attribute exists.
   */
  datatype PipelineObject<F> = PipelineObject(
    className: string,
    isPipelineClass: bool,
    doc: Option<string>,
    nodes: seq<Node>,
    positions: seq<Position<F>>,
    scaleFactor: Option<F>)

  /** The exceptions `save_xml_pipeline` can raise before writing the file. */
  datatype WriteError = NoDocstring   // `None.find(...)`: a subclass of `Pipeline` without a docstring

  // ------------------------------------------------------------------ links

  /** A link endpoint: the bare plug name on the pipeline node, `node.plug` elsewhere. */
  function EndpointName(node: string, plug: string): (r: string)
  {
    if node == "" then plug else node + "." + plug
  }

  /** The `<link>` element for one entry of `links_to`; the weak flag is written as `weak="1"`. */
  function LinkElement(node: string, plug: string, target: LinkTarget): Element {
    var attrs := map["source" := EndpointName(node, plug), "dest" := EndpointName(target.node, target.plug)];
    SubElement("link", if target.weak then attrs["weak" := "1"] else attrs, [])
  }

  /** A `<link>` has no children; its source and dest are the two endpoint names, and `weak="1"` is present exactly for a weak link. */
  lemma LinkElementShape(node: string, plug: string, target: LinkTarget)
    ensures var r := LinkElement(node, plug, target);
      && r.tag == "link" && r.children == []
      && Get(r, "source") == Some(EndpointName(node, plug)) && Get(r, "dest") == Some(EndpointName(target.node, target.plug))
      && Get(r, "weak") == if target.weak then Some("1") else None
  {
  }

  /** Links are written from the inputs of the pipeline node and from the outputs of every other node. */
  predicate WritesLinks(node: string, plug: Plug) {
    (node == "" && !plug.output) || (node != "" && plug.output)
  }

  /** The `<link>` elements of one plug, in `links_to` order. */
  function TargetLinkElements(node: string, plug: string, targets: seq<LinkTarget>): seq<Element> {
    if targets == [] then []
    else TargetLinkElements(node, plug, targets[..|targets| - 1]) + [LinkElement(node, plug, targets[|targets| - 1])]
  }

  /** The `<link>` elements of the plugs of one node, in plug order. */
  function PlugLinkElements(node: string, plugs: seq<Plug>): seq<Element> {
    if plugs == [] then []
    else
      var plug := plugs[|plugs| - 1];
      PlugLinkElements(node, plugs[..|plugs| - 1])
        + (if WritesLinks(node, plug) then TargetLinkElements(node, plug.name, plug.linksTo) else [])
  }

  /** The `<link>` elements of a pipeline, in node order. */
  function LinkElements(nodes: seq<Node>): seq<Element> {
    if nodes == [] then []
    else LinkElements(nodes[..|nodes| - 1]) + PlugLinkElements(nodes[|nodes| - 1].name, nodes[|nodes| - 1].plugs)
  }

  /** The innermost loop of `_write_links`: the links of one plug, when links are written from it. */
  method WritePlugLinks(node: string, plug: Plug) returns (links: seq<Element>)
    ensures links == if WritesLinks(node, plug) then TargetLinkElements(node, plug.name, plug.linksTo) else []
  {
    links := [];
    if (node == "" && !plug.output) || (node != "" && plug.output) {
      var k := 0;
      while k < |plug.linksTo|
        invariant 0 <= k <= |plug.linksTo|
        invariant links == TargetLinkElements(node, plug.name, plug.linksTo[..k])
      {
        var link := plug.linksTo[k];
        var src := if node == "" then plug.name else node + "." + plug.name;
        var dst := if link.node == "" then link.plug else link.node + "." + link.plug;
        var attrs := map["source" := src, "dest" := dst];
        if link.weak {
          attrs := attrs["weak" := "1"];
        }
        assert plug.linksTo[..k + 1][..k] == plug.linksTo[..k];
        links := links + [SubElement("link", attrs, [])];
        k := k + 1;
      }
      assert plug.linksTo[..k] == plug.linksTo;
    }
  }

  /** The middle loop of `_write_links`: the links of the plugs of one node, in plug order. */
  method WriteNodeLinks(node: Node) returns (links: seq<Element>)
    ensures links == PlugLinkElements(node.name, node.plugs)
  {
    links := [];
    var j := 0;
    while j < |node.plugs|
      invariant 0 <= j <= |node.plugs|
      invariant links == PlugLinkElements(node.name, node.plugs[..j])
    {
      var plugLinks := WritePlugLinks(node.name, node.plugs[j]);
      assert node.plugs[..j + 1][..j] == node.plugs[..j];
      links := links + plugLinks;
      j := j + 1;
    }
    assert node.plugs[..j] == node.plugs;
  }

  /** `_write_links`: the links of every node, in node order. */
  method WriteLinks(nodes: seq<Node>) returns (links: seq<Element>)
    ensures links == LinkElements(nodes)
  {
    links := [];
    var i := 0;
    while i < |nodes|
      invariant 0 <= i <= |nodes|
      invariant links == LinkElements(nodes[..i])
    {
      var nodeLinks := WriteNodeLinks(nodes[i]);
      assert nodes[..i + 1][..i] == nodes[..i];
      links := links + nodeLinks;
      i := i + 1;
    }
    assert nodes[..i] == nodes;
  }

  // -------------------------------------------------------------- processes

  /** The class name `_write_process` writes: the wrapped function's name when there is one. */
  function WrittenClassName(process: ProcessRef): string {
    if process.wrappedFunction.Some? then process.wrappedFunction.value else process.className
  }

  /** The `module` attribute: `"%s.%s" % (module, class name)`. */
  function ModuleAttribute(process: ProcessRef): string {
    process.moduleName + "." + WrittenClassName(process)
  }

  /** A `<process>` element with the given children. */
  function ProcessElement(process: ProcessRef, name: string, children: seq<Element>): (r: Element)
    ensures r.tag == "process" && r.children == children
    ensures Get(r, "name") == Some(name) && Get(r, "module") == Some(ModuleAttribute(process))
  {
    SubElement("process", map["module" := ModuleAttribute(process), "name" := name], children)
  }

  /** One `<iterate name=...>` per iterative parameter, in order. */
  function IterateElements(parameters: seq<string>): (r: seq<Element>)
    ensures |r| == |parameters|
    ensures forall i :: 0 <= i < |r| ==> r[i].tag == "iterate" && Get(r[i], "name") == Some(parameters[i]) && r[i].children == []
  {
    if parameters == [] then []
    else IterateElements(parameters[..|parameters| - 1]) + [SubElement("iterate", map["name" := parameters[|parameters| - 1]], [])]
  }

  /** The element written for a named node. */
  function NodeElement(node: Node): Element {
    match node.kind
    case SwitchNode => SubElement("switch", map[], [])
    case ProcessNode(process) => ProcessElement(process, node.name, [])
    case IterationNode(process, parameters) => ProcessElement(process, node.name, IterateElements(parameters))
  }

  /**
   * A switch is written as an empty `<switch>` with no name; a process or an
   * iteration as a `<process>` carrying the node name and `module.Class`,
   * with one child per iterative parameter.
   */
  lemma NodeElementShape(node: Node)
    ensures var r := NodeElement(node);
      && r.tag == (if node.kind.SwitchNode? then "switch" else "process")
      && (node.kind.SwitchNode? ==> r.attrs == map[] && r.children == [])
      && (!node.kind.SwitchNode? ==> Get(r, "name") == Some(node.name) && Get(r, "module") == Some(ModuleAttribute(node.kind.process)))
      && |r.children| == if node.kind.IterationNode? then |node.kind.iterativeParameters| else 0
  {
  }

  /** The elements `_write_processes` writes: one per node except the pipeline node "". */
  function ProcessElements(nodes: seq<Node>): seq<Element> {
    if nodes == [] then []
    else
      var node := nodes[|nodes| - 1];
      ProcessElements(nodes[..|nodes| - 1]) + (if node.name == "" then [] else [NodeElement(node)])
  }

  /** `_write_iteration`: the process element of the iterated process, then its `<iterate>` children. */
  method WriteIteration(process: ProcessRef, parameters: seq<string>, name: string) returns (e: Element)
    ensures e == ProcessElement(process, name, IterateElements(parameters))
  {
    e := ProcessElement(process, name, []);
    var i := 0;
    while i < |parameters|
      invariant 0 <= i <= |parameters|
      invariant e == ProcessElement(process, name, IterateElements(parameters[..i]))
    {
      assert parameters[..i + 1][..i] == parameters[..i];
      e := e.(children := e.children + [SubElement("iterate", map["name" := parameters[i]], [])]);
      i := i + 1;
    }
    assert parameters[..i] == parameters;
  }

  /** `_write_processes`. */
  method WriteProcesses(nodes: seq<Node>) returns (elements: seq<Element>)
    ensures elements == ProcessElements(nodes)
  {
    elements := [];
    var i := 0;
    while i < |nodes|
      invariant 0 <= i <= |nodes|
      invariant elements == ProcessElements(nodes[..i])
    {
      var node := nodes[i];
      assert nodes[..i + 1][..i] == nodes[..i];
      if node.name != "" {
        match node.kind {
          case SwitchNode =>
            elements := elements + [SubElement("switch", map[], [])];
          case IterationNode(process, parameters) =>
            var e := WriteIteration(process, parameters, node.name);
            elements := elements + [e];
          case ProcessNode(process) =>
            elements := elements + [ProcessElement(process, node.name, [])];
        }
      }
      i := i + 1;
    }
    assert nodes[..i] == nodes;
  }

  // -------------------------------------------------------------------- gui

  /** One `<position>` per entry of `node_position`, coordinates converted with `show` (`unicode`). */
  function PositionElements<F>(positions: seq<Position<F>>, show: F -> string): seq<Element> {
    if positions == [] then []
    else
      var p := positions[|positions| - 1];
      PositionElements(positions[..|positions| - 1], show) + [PositionElement(p, show)]
  }

  /** The `<position name=... x=... y=...>` element of one node. */
  function PositionElement<F>(p: Position<F>, show: F -> string): Element {
    SubElement("position", map["name" := p.node, "x" := show(p.x), "y" := show(p.y)], [])
  }

  /** `_write_nodes_positions`: no `<gui>` element when `node_position` is empty. */
  method WriteNodesPositions<F>(positions: seq<Position<F>>, show: F -> string) returns (gui: Option<Element>)
    ensures gui.None? <==> positions == []
    ensures gui.Some? ==> gui.value == SubElement("gui", map[], PositionElements(positions, show))
  {
    if |positions| == 0 {
      return None;
    }
    var e := SubElement("gui", map[], []);
    var i := 0;
    while i < |positions|
      invariant 0 <= i <= |positions|
      invariant e == SubElement("gui", map[], PositionElements(positions[..i], show))
    {
      var p := positions[i];
      assert positions[..i + 1][..i] == positions[..i];
      e := e.(children := e.children + [SubElement("position", map["name" := p.node, "x" := show(p.x), "y" := show(p.y)], [])]);
      i := i + 1;
    }
    assert positions[..i] == positions;
    return Some(e);
  }

  /** The `<zoom level=...>` element. */
  function ZoomElement<F>(level: F, show: F -> string): Element {
    SubElement("zoom", map["level" := show(level)], [])
  }

  /** The `<gui>` element of the saved document: the positions, then the zoom level when the pipeline has one. */
  function GuiElements<F>(positions: seq<Position<F>>, scaleFactor: Option<F>, show: F -> string): seq<Element> {
    if positions == [] && scaleFactor.None? then []
    else [SubElement("gui", map[], PositionElements(positions, show) + (if scaleFactor.Some? then [ZoomElement(scaleFactor.value, show)] else []))]
  }

  // ---------------------------------------------------------------- document

  /** The `name` attribute: `CustomPipeline` for a `Pipeline` instance, the class name otherwise. */
  function SavedClassName<F>(p: PipelineObject<F>): string {
    if p.isPipelineClass then "CustomPipeline" else p.className
  }

  /** The note the documentation generator appends to a pipeline's docstring. */
  function AutoDocMarker(className: string): string {
    ".. note::\n\n    * Type '" + className + ".help()'"
  }

  /**
   * The `doc` attribute: empty when the docstring is `Pipeline`'s own
   * (`baseDoc`), otherwise the docstring cut at the generated note.
   */
  function SavedDoc(doc: Option<string>, baseDoc: string, className: string): Result<string, WriteError> {
    if doc == Some(baseDoc) then Ok("")
    else if doc.None? then Err(NoDocstring)
    else
      var pos := Find(doc.value, AutoDocMarker(className));
      if pos >= 0 then Ok(doc.value[..pos]) else Ok(doc.value)
  }

  /** The whole element tree `save_xml_pipeline` writes. */
  function SavedDocument<F>(p: PipelineObject<F>, baseDoc: string, show: F -> string): Result<Element, WriteError> {
    match SavedDoc(p.doc, baseDoc, p.className)
    case Err(e) => Err(e)
    case Ok(doc) =>
      Ok(SubElement("pipeline", map["name" := SavedClassName(p), "doc" := doc],
                    ProcessElements(p.nodes) + LinkElements(p.nodes) + GuiElements(p.positions, p.scaleFactor, show)))
  }

  /** `save_xml_pipeline` up to the point where the tree is written to the file. */
  method SaveXmlPipeline<F>(p: PipelineObject<F>, baseDoc: string, show: F -> string) returns (r: Result<Element, WriteError>)
    ensures r == SavedDocument(p, baseDoc, show)
  {
    var className := p.className;
    if p.isPipelineClass {
      className := "CustomPipeline";
    }
    var doc: string;
    if p.doc == Some(baseDoc) {
      doc := "";
    } else if p.doc.None? {
      return Err(NoDocstring);
    } else {
      doc := p.doc.value;
      var pos := Find(doc, AutoDocMarker(p.className));
      if pos >= 0 {
        doc := doc[..pos];
      }
    }
    var processes := WriteProcesses(p.nodes);
    var links := WriteLinks(p.nodes);
    var gui := WriteNodesPositions(p.positions, show);
    if p.scaleFactor.Some? {
      var g := if gui.None? then SubElement("gui", map[], []) else gui.value;
      assert g.children == PositionElements(p.positions, show);
      gui := Some(g.(children := g.children + [ZoomElement(p.scaleFactor.value, show)]));
    }
    assert PositionElements(p.positions, show) + [] == PositionElements(p.positions, show);
    var guiElements := if gui.Some? then [gui.value] else [];
    return Ok(SubElement("pipeline", map["name" := className, "doc" := doc], processes + links + guiElements));
  }
}
