/** What the Capsul XML 2.0 reader guarantees, stated over its specification functions. */
module XmlReaderProperties {
  import opened Base
  import opened PyString
  import opened ElementTree
  import opened XmlReader

  // ------------------------------------------------------------------ version

  /** The version attribute is checked before anything else: a present, non-empty version other than 2.0 is the only cause of `UnsupportedVersion`, and an absent one lets the children be read. */
  lemma VersionGate<V, F>(root: Element, conv: Converters<V, F>)
    ensures VersionRejected(Get(root, "capsul_xml")) ==> DecodePipeline(root, conv) == Err(UnsupportedVersion(root.attrs["capsul_xml"]))
    ensures (DecodePipeline(root, conv).Err? && DecodePipeline(root, conv).error.UnsupportedVersion?) <==> VersionRejected(Get(root, "capsul_xml"))
    ensures "capsul_xml" !in root.attrs ==>
      DecodePipeline(root, conv) == match DecodeEntries(root.children, DecodeState([], {}), conv)
                                    case Ok(st) => Ok(st.log)
                                    case Err(e) => Err(e)
  {
  }

  // -------------------------------------------------------------------- links

  /** A link between two dotted endpoints is one `add_link("source->dest")` and exports nothing. */
  lemma LinkBothDotted<V, F>(st: DecodeState<V, F>, c: Element, conv: Converters<V, F>, source: string, dest: string)
    requires c.tag == "link" && Get(c, "source") == Some(source) && Get(c, "dest") == Some(dest)
    requires '.' in source && '.' in dest
    ensures EntryStep(st, c, conv) == Ok(DecodeState(st.log + [AddLink(source + "->" + dest)], st.exported))
  {
  }

  /**
   * A link with a dotted endpoint `node.plug` and a bare name not exported
   * yet is `export_parameter(node, plug, bare)`, split at the last dot; the
   * bare name joins the exported set and no link is issued.
   */
  lemma LinkExportShorthand<V, F>(st: DecodeState<V, F>, c: Element, conv: Converters<V, F>, dotted: string, bare: string, sourceIsDotted: bool)
    requires c.tag == "link" && '.' in dotted && '.' !in bare && bare !in st.exported
    requires Get(c, "source") == Some(if sourceIsDotted then dotted else bare)
    requires Get(c, "dest") == Some(if sourceIsDotted then bare else dotted)
    ensures exists node, plug :: dotted == node + "." + plug && '.' !in plug
              && EntryStep(st, c, conv) == Ok(DecodeState(st.log + [ExportParameter(node, plug, bare)], st.exported + {bare}))
  {
    var split := RSplitDot(dotted).value;
    assert dotted == split.0 + "." + split.1;
  }

  /** A bare name that is already exported makes the link a plain `add_link`, not a second export. */
  lemma LinkAlreadyExported<V, F>(st: DecodeState<V, F>, c: Element, conv: Converters<V, F>, source: string, dest: string)
    requires c.tag == "link" && Get(c, "source") == Some(source) && Get(c, "dest") == Some(dest)
    requires ('.' in source && '.' !in dest && dest in st.exported) || ('.' !in source && source in st.exported)
    ensures EntryStep(st, c, conv) == Ok(DecodeState(st.log + [AddLink(source + "->" + dest)], st.exported))
  {
  }

  /** One child never drops a builder call already issued, and never removes an exported name. */
  lemma EntryStepExtends<V, F>(st: DecodeState<V, F>, c: Element, conv: Converters<V, F>)
    requires EntryStep(st, c, conv).Ok?
    ensures st.exported <= EntryStep(st, c, conv).value.exported
    ensures st.log <= EntryStep(st, c, conv).value.log
    ensures c.tag != "link" ==> EntryStep(st, c, conv).value.exported == st.exported
  {
  }

  /** While the children are read, the exported-name set only grows and the builder log only extends. */
  lemma {:induction false} ExportedOnlyGrows<V, F>(cs: seq<Element>, st: DecodeState<V, F>, conv: Converters<V, F>)
    requires DecodeEntries(cs, st, conv).Ok?
    ensures st.exported <= DecodeEntries(cs, st, conv).value.exported
    ensures st.log <= DecodeEntries(cs, st, conv).value.log
    decreases |cs|
  {
    if cs != [] {
      EntryStepExtends(st, cs[0], conv);
      var next := EntryStep(st, cs[0], conv).value;
      ExportedOnlyGrows(cs[1..], next, conv);
    }
  }

  // ---------------------------------------------------------------- processes

  /** The `name` attributes of the children with tag `tag`, in document order. */
  function NamesOfTag(cs: seq<Element>, tag: string): seq<Option<string>> {
    if cs == [] then []
    else (if cs[0].tag == tag then [Get(cs[0], "name")] else []) + NamesOfTag(cs[1..], tag)
  }

  /** The `<nipype>` children with `usedefault='true'`, in document order. */
  function UsedefaultNames(cs: seq<Element>): seq<Option<string>> {
    if cs == [] then []
    else (if cs[0].tag == "nipype" && Get(cs[0], "usedefault") == Some("true") then [Get(cs[0], "name")] else [])
         + UsedefaultNames(cs[1..])
  }

  /** `c` is a `<set name=k>` whose value `string_to_value` does not turn into `None`. */
  predicate SetsValue<V, F>(c: Element, k: string, conv: Converters<V, F>) {
    c.tag == "set" && Get(c, "name") == Some(k) && conv.toValue(Get(c, "value")).Some?
  }

  /** The `<process>` loop appends every `<set>` name to `make_optional`, in document order. */
  lemma {:induction false} MakeOptionalInOrder<V, F>(cs: seq<Element>, st: ProcessState<V>, conv: Converters<V, F>)
    requires ProcessChildren(cs, st, conv).Ok?
    ensures ProcessChildren(cs, st, conv).value.args.makeOptional == st.args.makeOptional + NamesOfTag(cs, "set")
    decreases |cs|
  {
    if cs != [] {
      var next := ProcessChildStep(st, cs[0], conv).value;
      MakeOptionalInOrder(cs[1..], next, conv);
      assert next.args.makeOptional == st.args.makeOptional + (if cs[0].tag == "set" then [Get(cs[0], "name")] else []);
    }
  }

  /** The `<process>` loop collects every `<iterate>` name, in document order. */
  lemma {:induction false} IterateInOrder<V, F>(cs: seq<Element>, st: ProcessState<V>, conv: Converters<V, F>)
    requires ProcessChildren(cs, st, conv).Ok?
    ensures ProcessChildren(cs, st, conv).value.iterate == st.iterate + NamesOfTag(cs, "iterate")
    decreases |cs|
  {
    if cs != [] {
      var next := ProcessChildStep(st, cs[0], conv).value;
      IterateInOrder(cs[1..], next, conv);
      assert next.iterate == st.iterate + (if cs[0].tag == "iterate" then [Get(cs[0], "name")] else []);
    }
  }

  /** The `<process>` loop collects every `usedefault='true'` name, in document order. */
  lemma {:induction false} UsedefaultInOrder<V, F>(cs: seq<Element>, st: ProcessState<V>, conv: Converters<V, F>)
    requires ProcessChildren(cs, st, conv).Ok?
    ensures ProcessChildren(cs, st, conv).value.usedefault == st.usedefault + UsedefaultNames(cs)
    decreases |cs|
  {
    if cs != [] {
      var next := ProcessChildStep(st, cs[0], conv).value;
      UsedefaultInOrder(cs[1..], next, conv);
      assert next.usedefault == st.usedefault
        + (if cs[0].tag == "nipype" && Get(cs[0], "usedefault") == Some("true") then [Get(cs[0], "name")] else []);
    }
  }

  /** The `<nipype>` children with `copyfile='true'` or `copyfile='discard'`, in document order. */
  function CopyNames(cs: seq<Element>): seq<Option<string>> {
    if cs == [] then []
    else
      var copyfile := Get(cs[0], "copyfile");
      (if cs[0].tag == "nipype" && (copyfile == Some("true") || copyfile == Some("discard")) then [Get(cs[0], "name")] else [])
        + CopyNames(cs[1..])
  }

  /** The `<nipype>` children with `copyfile='discard'`, in document order. */
  function CleanNames(cs: seq<Element>): seq<Option<string>> {
    if cs == [] then []
    else (if cs[0].tag == "nipype" && Get(cs[0], "copyfile") == Some("discard") then [Get(cs[0], "name")] else [])
         + CleanNames(cs[1..])
  }

  /** The `<process>` loop appends to `inputs_to_copy` every `<nipype>` name whose `copyfile` is `true` or `discard`, in document order. */
  lemma {:induction false} CopyInOrder<V, F>(cs: seq<Element>, st: ProcessState<V>, conv: Converters<V, F>)
    requires ProcessChildren(cs, st, conv).Ok?
    ensures ProcessChildren(cs, st, conv).value.args.inputsToCopy == st.args.inputsToCopy + CopyNames(cs)
    decreases |cs|
  {
    if cs != [] {
      var next := ProcessChildStep(st, cs[0], conv).value;
      CopyInOrder(cs[1..], next, conv);
      var copyfile := Get(cs[0], "copyfile");
      assert next.args.inputsToCopy == st.args.inputsToCopy
        + (if cs[0].tag == "nipype" && (copyfile == Some("true") || copyfile == Some("discard")) then [Get(cs[0], "name")] else []);
    }
  }

  /** The `<process>` loop appends to `inputs_to_clean` every `<nipype>` name whose `copyfile` is `discard`, in document order. */
  lemma {:induction false} CleanInOrder<V, F>(cs: seq<Element>, st: ProcessState<V>, conv: Converters<V, F>)
    requires ProcessChildren(cs, st, conv).Ok?
    ensures ProcessChildren(cs, st, conv).value.args.inputsToClean == st.args.inputsToClean + CleanNames(cs)
    decreases |cs|
  {
    if cs != [] {
      var next := ProcessChildStep(st, cs[0], conv).value;
      CleanInOrder(cs[1..], next, conv);
      assert next.args.inputsToClean == st.args.inputsToClean
        + (if cs[0].tag == "nipype" && Get(cs[0], "copyfile") == Some("discard") then [Get(cs[0], "name")] else []);
    }
  }

  /** `c` is a `<set>` without a name whose value converts: it stores `kwargs[None]`. */
  predicate NamelessSet<V, F>(c: Element, conv: Converters<V, F>) {
    c.tag == "set" && Get(c, "name").None? && conv.toValue(Get(c, "value")).Some?
  }

  /** A `None` keyword is stored exactly when some `<set>` without a name has a value that converts. */
  lemma {:induction false} NoneKeyedExactly<V, F>(cs: seq<Element>, st: ProcessState<V>, conv: Converters<V, F>)
    requires ProcessChildren(cs, st, conv).Ok?
    ensures ProcessChildren(cs, st, conv).value.noneKeyed
        <==> st.noneKeyed || exists i :: 0 <= i < |cs| && NamelessSet(cs[i], conv)
    decreases |cs|
  {
    if cs != [] {
      var next := ProcessChildStep(st, cs[0], conv).value;
      NoneKeyedExactly(cs[1..], next, conv);
      assert next.noneKeyed <==> st.noneKeyed || NamelessSet(cs[0], conv);
      if exists i :: 0 <= i < |cs| && NamelessSet(cs[i], conv) {
        var i :| 0 <= i < |cs| && NamelessSet(cs[i], conv);
        if i > 0 {
          assert NamelessSet(cs[1..][i - 1], conv);
        }
      }
      if exists i :: 0 <= i < |cs[1..]| && NamelessSet(cs[1..][i], conv) {
        var i :| 0 <= i < |cs[1..]| && NamelessSet(cs[1..][i], conv);
        assert NamelessSet(cs[i + 1], conv);
      }
    }
  }

  /** Children with no `<set name=k>` whose value converts leave `kwargs[k]` as it was. */
  lemma {:induction false} ProcessValueUntouched<V, F>(cs: seq<Element>, st: ProcessState<V>, conv: Converters<V, F>, k: string)
    requires ProcessChildren(cs, st, conv).Ok?
    requires forall i :: 0 <= i < |cs| ==> !SetsValue(cs[i], k, conv)
    ensures var values := ProcessChildren(cs, st, conv).value.args.values;
      (k in values <==> k in st.args.values) && (k in values ==> values[k] == st.args.values[k])
    decreases |cs|
  {
    if cs != [] {
      var next := ProcessChildStep(st, cs[0], conv).value;
      assert !SetsValue(cs[0], k, conv);
      assert forall i :: 0 <= i < |cs[1..]| ==> cs[1..][i] == cs[i + 1];
      ProcessValueUntouched(cs[1..], next, conv, k);
    }
  }

  /** `kwargs[k]` holds the converted value of the last `<set name=k>` whose value converts: a later one overwrites an earlier one. */
  lemma {:induction false} ProcessValueLastWins<V, F>(cs: seq<Element>, st: ProcessState<V>, conv: Converters<V, F>, k: string, j: nat)
    requires ProcessChildren(cs, st, conv).Ok?
    requires j < |cs| && SetsValue(cs[j], k, conv)
    requires forall i :: j < i < |cs| ==> !SetsValue(cs[i], k, conv)
    ensures var values := ProcessChildren(cs, st, conv).value.args.values;
      k in values && values[k] == conv.toValue(Get(cs[j], "value")).value
    decreases |cs|
  {
    var next := ProcessChildStep(st, cs[0], conv).value;
    assert forall i :: 0 <= i < |cs[1..]| ==> cs[1..][i] == cs[i + 1];
    if j == 0 {
      assert next.args.values == st.args.values[k := conv.toValue(Get(cs[0], "value")).value];
      ProcessValueUntouched(cs[1..], next, conv, k);
    } else {
      ProcessValueLastWins(cs[1..], next, conv, k, j - 1);
    }
  }

  /** `kwargs[name]` exists exactly for the names of `<set>` children whose converted value is not `None`. */
  lemma {:induction false} ProcessValuesOnlyWhenConverted<V, F>(cs: seq<Element>, st: ProcessState<V>, conv: Converters<V, F>, k: string)
    requires ProcessChildren(cs, st, conv).Ok?
    ensures k in ProcessChildren(cs, st, conv).value.args.values
        <==> k in st.args.values || exists i :: 0 <= i < |cs| && SetsValue(cs[i], k, conv)
    decreases |cs|
  {
    if cs != [] {
      var next := ProcessChildStep(st, cs[0], conv).value;
      ProcessValuesOnlyWhenConverted(cs[1..], next, conv, k);
      assert k in next.args.values <==> k in st.args.values || SetsValue(cs[0], k, conv);
      if exists i :: 0 <= i < |cs| && SetsValue(cs[i], k, conv) {
        var i :| 0 <= i < |cs| && SetsValue(cs[i], k, conv);
        if i > 0 {
          assert SetsValue(cs[1..][i - 1], k, conv);
        }
      }
      if exists i :: 0 <= i < |cs[1..]| && SetsValue(cs[1..][i], k, conv) {
        var i :| 0 <= i < |cs[1..]| && SetsValue(cs[1..][i], k, conv);
        assert SetsValue(cs[i + 1], k, conv);
      }
    }
  }

  /**
   * A `<process>` element issues one `add_iterative_process` when it has an
   * `<iterate>` child (with the iterative plugs in document order) and one
   * `add_process` otherwise, followed by the `set_usedefault` calls, each
   * issued only after the process was added. Its keyword arguments are
   * `make_optional` with every `<set>` name, `inputs_to_copy` and
   * `inputs_to_clean` with the `<nipype>` names their `copyfile` selects, and
   * a value for exactly the names of `<set>` children whose value converts,
   * the last such `<set>` winning. No `<set>` without a name had a value
   * that converts, since that raises instead.
   */
  lemma ProcessCommandShape<V, F>(e: Element, conv: Converters<V, F>)
    requires ProcessCommands(e, conv).Ok?
    ensures var cmds := ProcessCommands(e, conv).value;
      && |cmds| == 1 + |UsedefaultNames(e.children)|
      && (cmds[0].AddProcess? || cmds[0].AddIterativeProcess?)
      && cmds[0].name == Get(e, "name") && cmds[0].moduleName == Get(e, "module")
      && (cmds[0].AddIterativeProcess? <==> NamesOfTag(e.children, "iterate") != [])
      && (cmds[0].AddIterativeProcess? ==> cmds[0].iterativePlugs == NamesOfTag(e.children, "iterate"))
      && cmds[0].args.makeOptional == NamesOfTag(e.children, "set")
      && cmds[0].args.inputsToCopy == CopyNames(e.children)
      && cmds[0].args.inputsToClean == CleanNames(e.children)
      && (forall i :: 0 <= i < |e.children| ==> !NamelessSet(e.children[i], conv))
      && (forall i :: 1 <= i < |cmds| ==>
            cmds[i] == CallProcessMethod(Get(e, "name"), "set_usedefault", UsedefaultNames(e.children)[i - 1], true))
  {
    var st := NoProcessState<V>();
    MakeOptionalInOrder(e.children, st, conv);
    IterateInOrder(e.children, st, conv);
    UsedefaultInOrder(e.children, st, conv);
    CopyInOrder(e.children, st, conv);
    CleanInOrder(e.children, st, conv);
    NoneKeyedExactly(e.children, st, conv);
  }

  /** The keyword values of a `<process>`: `kwargs[k]` exists exactly when some `<set name=k>` converts, and holds the value of the last one. */
  lemma ProcessCommandValues<V, F>(e: Element, conv: Converters<V, F>, k: string, j: nat)
    requires ProcessCommands(e, conv).Ok?
    ensures var values := ProcessCommands(e, conv).value[0].args.values;
      && (k in values <==> exists i :: 0 <= i < |e.children| && SetsValue(e.children[i], k, conv))
      && (j < |e.children| && SetsValue(e.children[j], k, conv) && (forall i :: j < i < |e.children| ==> !SetsValue(e.children[i], k, conv))
          ==> values[k] == conv.toValue(Get(e.children[j], "value")).value)
  {
    var st := NoProcessState<V>();
    ProcessValuesOnlyWhenConverted(e.children, st, conv, k);
    if j < |e.children| && SetsValue(e.children[j], k, conv) && (forall i :: j < i < |e.children| ==> !SetsValue(e.children[i], k, conv)) {
      ProcessValueLastWins(e.children, st, conv, k, j);
    }
  }

  /** A `<process>` whose children are valid raises the non-string keyword error exactly when some `<set>` without a name has a value that converts. */
  lemma ProcessNonStringKeyword<V, F>(e: Element, conv: Converters<V, F>)
    requires ProcessChildren(e.children, NoProcessState(), conv).Ok?
    ensures ProcessCommands(e, conv) == Err(NonStringKeyword)
        <==> exists i :: 0 <= i < |e.children| && NamelessSet(e.children[i], conv)
    ensures ProcessCommands(e, conv).Ok? <==> !exists i :: 0 <= i < |e.children| && NamelessSet(e.children[i], conv)
  {
    NoneKeyedExactly(e.children, NoProcessState<V>(), conv);
  }

  // ---------------------------------------------------- unrecognised tags

  predicate IsProcessTag(t: string) { t == "set" || t == "iterate" || t == "nipype" }

  predicate IsGuiTag(t: string) { t == "position" || t == "zoom" }

  predicate IsPipelineTag(t: string) {
    t == "doc" || t == "process" || t == "link" || t == "processes_selection" || t == "gui"
  }

  /** Some child of `cs` has a tag outside the set `ok` accepts. */
  predicate SomeTagNotIn(cs: seq<Element>, ok: string -> bool) {
    exists i :: 0 <= i < |cs| && !ok(cs[i].tag)
  }

  /** A `<processes_selection>` child that is not a group, or a group child that is not a `<process>`. */
  predicate BadSelection(cs: seq<Element>) {
    exists i :: 0 <= i < |cs| && (cs[i].tag != "processes_group" || SomeTagNotIn(cs[i].children, t => t == "process"))
  }

  /** A root child whose own tag, or one of whose children's tags, the reader does not recognise. */
  predicate InvalidEntry(c: Element) {
    || !IsPipelineTag(c.tag)
    || (c.tag == "process" && SomeTagNotIn(c.children, IsProcessTag))
    || (c.tag == "processes_selection" && BadSelection(c.children))
    || (c.tag == "gui" && SomeTagNotIn(c.children, IsGuiTag))
  }

  lemma {:induction false} ProcessChildrenRejectInvalidTag<V, F>(cs: seq<Element>, st: ProcessState<V>, conv: Converters<V, F>)
    requires SomeTagNotIn(cs, IsProcessTag)
    ensures ProcessChildren(cs, st, conv).Err?
    decreases |cs|
  {
    if IsProcessTag(cs[0].tag) {
      var i :| 0 <= i < |cs| && !IsProcessTag(cs[i].tag);
      assert !IsProcessTag(cs[1..][i - 1].tag);
      ProcessChildrenRejectInvalidTag(cs[1..], ProcessChildStep(st, cs[0], conv).value, conv);
    }
  }

  lemma {:induction false} SelectionRejectsInvalidTag(cs: seq<Element>, gs: seq<Group>)
    requires BadSelection(cs)
    ensures SelectionGroups(cs, gs).Err?
    decreases |cs|
  {
    if cs[0].tag == "processes_group" && !SomeTagNotIn(cs[0].children, t => t == "process") {
      var i :| 0 <= i < |cs| && (cs[i].tag != "processes_group" || SomeTagNotIn(cs[i].children, t => t == "process"));
      assert cs[1..][i - 1] == cs[i];
      var members := GroupMembers(cs[0].children).value;
      SelectionRejectsInvalidTag(cs[1..], Assign(gs, Get(cs[0], "name"), members));
    }
  }

  lemma {:induction false} GuiRejectsInvalidTag<V, F>(cs: seq<Element>, conv: Converters<V, F>)
    requires SomeTagNotIn(cs, IsGuiTag)
    ensures GuiCommands(cs, conv).Err?
    decreases |cs|
  {
    if IsGuiTag(cs[0].tag) && GuiCommand(cs[0], conv).Ok? {
      var i :| 0 <= i < |cs| && !IsGuiTag(cs[i].tag);
      assert !IsGuiTag(cs[1..][i - 1].tag);
      GuiRejectsInvalidTag(cs[1..], conv);
    }
  }

  /** A child with an unrecognised tag, at any level the reader inspects, fails the step that reads it. */
  lemma EntryStepRejectsInvalidTag<V, F>(st: DecodeState<V, F>, c: Element, conv: Converters<V, F>)
    requires InvalidEntry(c)
    ensures EntryStep(st, c, conv).Err?
  {
    if c.tag == "process" {
      ProcessChildrenRejectInvalidTag(c.children, NoProcessState(), conv);
    } else if c.tag == "processes_selection" {
      SelectionRejectsInvalidTag(c.children, []);
    } else if c.tag == "gui" {
      GuiRejectsInvalidTag(c.children, conv);
    }
  }

  lemma {:induction false} EntriesRejectInvalidTag<V, F>(cs: seq<Element>, st: DecodeState<V, F>, conv: Converters<V, F>)
    requires exists i :: 0 <= i < |cs| && InvalidEntry(cs[i])
    ensures DecodeEntries(cs, st, conv).Err?
    decreases |cs|
  {
    if InvalidEntry(cs[0]) {
      EntryStepRejectsInvalidTag(st, cs[0], conv);
    } else if EntryStep(st, cs[0], conv).Ok? {
      var i :| 0 <= i < |cs| && InvalidEntry(cs[i]);
      assert InvalidEntry(cs[1..][i - 1]);
      EntriesRejectInvalidTag(cs[1..], EntryStep(st, cs[0], conv).value, conv);
    }
  }

  /** An unrecognised tag under pipeline, process, processes_selection, processes_group or gui makes the whole read fail: no pipeline is returned. */
  lemma InvalidTagRejectsPipeline<V, F>(root: Element, conv: Converters<V, F>)
    requires exists i :: 0 <= i < |root.children| && InvalidEntry(root.children[i])
    ensures DecodePipeline(root, conv).Err?
  {
    EntriesRejectInvalidTag(root.children, DecodeState([], {}), conv);
  }

  // ---------------------------------------------------------- composition

  /** The `<gui>` children are read one by one: the read succeeds exactly when every child does, with one builder call per child. */
  lemma {:induction false} GuiCommandsPointwise<V, F>(cs: seq<Element>, conv: Converters<V, F>)
    ensures GuiCommands(cs, conv).Ok? <==> forall i :: 0 <= i < |cs| ==> GuiCommand(cs[i], conv).Ok?
    ensures GuiCommands(cs, conv).Ok? ==> forall i :: 0 <= i < |cs| ==> GuiCommands(cs, conv).value[i] == GuiCommand(cs[i], conv).value
    decreases |cs|
  {
    if cs != [] {
      GuiCommandsPointwise(cs[1..], conv);
      forall i | 0 < i < |cs| ensures cs[1..][i - 1] == cs[i] { }
      if GuiCommand(cs[0], conv).Ok? && GuiCommands(cs[1..], conv).Ok? {
        var rest := GuiCommands(cs[1..], conv).value;
        assert GuiCommands(cs, conv).value == [GuiCommand(cs[0], conv).value] + rest;
      }
    }
  }

  /** Reading the children `a + b` reads `a`, then reads `b` from the state `a` left. */
  lemma {:induction false} DecodeEntriesAppend<V, F>(a: seq<Element>, b: seq<Element>, st: DecodeState<V, F>, conv: Converters<V, F>)
    ensures DecodeEntries(a + b, st, conv) ==
      match DecodeEntries(a, st, conv)
      case Err(e) => Err(e)
      case Ok(mid) => DecodeEntries(b, mid, conv)
    decreases |a|
  {
    if a == [] {
      assert a + b == b;
    } else {
      assert (a + b)[0] == a[0] && (a + b)[1..] == a[1..] + b;
      match EntryStep(st, a[0], conv)
      case Err(_) =>
      case Ok(next) => DecodeEntriesAppend(a[1..], b, next, conv);
    }
  }

  /** Reading the `<process>` children `cs + [c]` reads `cs`, then `c`. */
  lemma {:induction false} ProcessChildrenAppend<V, F>(cs: seq<Element>, c: Element, st: ProcessState<V>, conv: Converters<V, F>)
    ensures ProcessChildren(cs + [c], st, conv) ==
      match ProcessChildren(cs, st, conv)
      case Err(e) => Err(e)
      case Ok(mid) => ProcessChildStep(mid, c, conv)
    decreases |cs|
  {
    if cs == [] {
      assert cs + [c] == [c];
      assert [c][1..] == [];
    } else {
      assert (cs + [c])[0] == cs[0] && (cs + [c])[1..] == cs[1..] + [c];
      match ProcessChildStep(st, cs[0], conv)
      case Err(_) =>
      case Ok(next) => ProcessChildrenAppend(cs[1..], c, next, conv);
    }
  }

  // ------------------------------------------------------ <processes_selection>

  /** The group names of `cs` added to the keys `names` of an ordered dictionary, each new one last. */
  function WithNewNames(names: seq<Option<string>>, cs: seq<Element>): seq<Option<string>>
    decreases |cs|
  {
    if cs == [] then names
    else
      var n := Get(cs[0], "name");
      WithNewNames(if n in names then names else names + [n], cs[1..])
  }

  /** The members of the last `<processes_group>` of `cs` named `n`, if there is one. */
  function LastGroupMembers(cs: seq<Element>, n: Option<string>): Option<seq<Option<string>>>
    decreases |cs|
  {
    if cs == [] then None
    else
      match LastGroupMembers(cs[1..], n)
      case Some(m) => Some(m)
      case None =>
        if Get(cs[0], "name") == n && GroupMembers(cs[0].children).Ok? then Some(GroupMembers(cs[0].children).value)
        else None
  }

  /**
   * A `<processes_selection>` read into `gs` keeps the keys of `gs` and adds
   * each new group name once, in the order of first occurrence; each name
   * maps to the members of its last group, and keys no group names keep
   * their old members.
   */
  lemma {:induction false} SelectionGroupsContents(cs: seq<Element>, gs: seq<Group>, n: Option<string>)
    requires SelectionGroups(cs, gs).Ok?
    ensures Names(SelectionGroups(cs, gs).value) == WithNewNames(Names(gs), cs)
    ensures Lookup(SelectionGroups(cs, gs).value, n) ==
      if LastGroupMembers(cs, n).Some? then LastGroupMembers(cs, n) else Lookup(gs, n)
    decreases |cs|
  {
    if cs != [] {
      var name := Get(cs[0], "name");
      var members := GroupMembers(cs[0].children).value;
      var next := Assign(gs, name, members);
      assert SelectionGroups(cs, gs) == SelectionGroups(cs[1..], next);
      SelectionGroupsContents(cs[1..], next, n);
      AssignLookup(gs, name, members, n);
    }
  }
}
