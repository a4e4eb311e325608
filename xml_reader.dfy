/**
 * The Capsul XML 2.0 pipeline reader, `create_xml_pipeline`.
 *
 * The reader walks the children of the root `<pipeline>` element and issues
 * calls on a pipeline builder. The builder is modelled by the calls it
 * receives: a successful read yields the ordered log of `Command`s, and any
 * exception the Python code raises becomes an `XmlError`, in which case no
 * pipeline is returned at all.
 *
 * Each loop of the Python function is a method here (`ReadProcess`,
 * `ReadProcessesSelection`, `ReadGui`, `CreateXmlPipeline`) proved equal to a
 * specification function that processes the children one at a time
 * (`ProcessChildren`, `SelectionGroups`, `GuiCommands`, `DecodeEntries`).
 */
module XmlReader {
  import opened Base
  import opened PyString
  import opened ElementTree

  /** The element whose children contained an unrecognised tag; each has its own `ValueError` message. */
  datatype Scope = InPipeline | InProcess | InProcessesSelection | InProcessesGroup | InGui

  /** The exceptions `create_xml_pipeline` can raise. */
  datatype XmlError =
    | UnsupportedVersion(version: string)      // ValueError: only Capsul XML 2.0 is supported
    | InvalidTag(scope: Scope, tag: string)    // ValueError: 'Invalid tag in <...>'
    | MissingText                              // <doc> without text: None.strip()
    | MissingLinkEnd                           // a <link> whose source or dest attribute is absent
    | UnsplittableEndpoint(endpoint: string)   // rsplit('.', 1) gave one part, so the unpacking fails
    | NonStringKeyword                         // a <set> without a name and with a value: **kwargs key None
    | NotAFloat(text: Option<string>)          // float(...) of a <gui> coordinate or zoom level

  /**
   * The conversions the reader calls but does not define: `string_to_value`
   * (whose `None` result is Python's `None`) and `float` (whose `None` result
   * means that `float` raised).
   */
  datatype Converters<V, F> = Converters(toValue: Option<string> -> Option<V>, toFloat: Option<string> -> Option<F>)

  /** The keyword arguments of `add_process`: parameter values, `make_optional`, `inputs_to_copy`, `inputs_to_clean` (an empty list stands for an absent key). */
  datatype ProcessArgs<V> = ProcessArgs(
    values: map<string, V>,
    makeOptional: seq<Option<string>>,
    inputsToCopy: seq<Option<string>>,
    inputsToClean: seq<Option<string>>)

  /** One entry of the ordered `selection_groups` dictionary: a group name and its process names. */
  datatype Group = Group(name: Option<string>, processes: seq<Option<string>>)

  /** A call on the pipeline builder (`PipelineConstructor`). */
  datatype Command<V, F> =
    | SetDocumentation(doc: string)
    | AddProcess(name: Option<string>, moduleName: Option<string>, args: ProcessArgs<V>)
    | AddIterativeProcess(name: Option<string>, moduleName: Option<string>, args: ProcessArgs<V>, iterativePlugs: seq<Option<string>>)
    | CallProcessMethod(process: Option<string>, methodName: string, param: Option<string>, flag: bool)
    | AddLink(link: string)
    | ExportParameter(node: string, plug: string, exported: string)
    | AddProcessesSelection(parameter: Option<string>, groups: seq<Group>)
    | SetNodePosition(nodeName: Option<string>, x: F, y: F)
    | SetSceneScaleFactor(level: F)

  /** Python's `'%s' % x` for an attribute value that may be `None`. */
  function ShowOption(o: Option<string>): string {
    if o.Some? then o.value else "None"
  }

  /** `e` as the caller of `Prefixed` sees it: the values in `xs` followed by those of `r`, or the error of `r`. */
  function Prefixed<T>(xs: seq<T>, r: Result<seq<T>, XmlError>): Result<seq<T>, XmlError> {
    match r
    case Ok(ys) => Ok(xs + ys)
    case Err(e) => Err(e)
  }

  lemma PrefixedNil<T>(r: Result<seq<T>, XmlError>)
    ensures Prefixed([], r) == r
  {
    if r.Ok? {
      assert [] + r.value == r.value;
    }
  }

  lemma PrefixedAppend<T>(xs: seq<T>, ys: seq<T>, r: Result<seq<T>, XmlError>)
    ensures Prefixed(xs, Prefixed(ys, r)) == Prefixed(xs + ys, r)
  {
    if r.Ok? {
      assert xs + (ys + r.value) == (xs + ys) + r.value;
    }
  }

  // ---------------------------------------------------------------- <process>

  /** What the `<process>` loop accumulates: the keyword arguments, whether a `None` keyword was stored, and the `nipype_usedefault` and `iterate` lists. */
  datatype ProcessState<V> = ProcessState(
    args: ProcessArgs<V>,
    noneKeyed: bool,
    usedefault: seq<Option<string>>,
    iterate: seq<Option<string>>)

  function NoProcessState<V>(): ProcessState<V> {
    ProcessState(ProcessArgs(map[], [], [], []), false, [], [])
  }

  /** One child of a `<process>` element. */
  function ProcessChildStep<V, F>(st: ProcessState<V>, c: Element, conv: Converters<V, F>): (r: Result<ProcessState<V>, XmlError>)
    ensures r.Ok? <==> c.tag == "set" || c.tag == "iterate" || c.tag == "nipype"
    ensures r.Err? ==> r.error == InvalidTag(InProcess, c.tag)
    ensures r.Ok? ==> r.value.args.makeOptional == st.args.makeOptional + (if c.tag == "set" then [Get(c, "name")] else [])
    ensures r.Ok? ==> r.value.iterate == st.iterate + (if c.tag == "iterate" then [Get(c, "name")] else [])
    ensures r.Ok? && c.tag != "set" ==> r.value.args.values == st.args.values && r.value.noneKeyed == st.noneKeyed
    ensures r.Ok? && c.tag == "set" ==>
      var value := conv.toValue(Get(c, "value"));
      && (value.Some? && Get(c, "name").Some? ==> r.value.args.values == st.args.values[Get(c, "name").value := value.value])
      && (value.None? || Get(c, "name").None? ==> r.value.args.values == st.args.values)
      && (r.value.noneKeyed <==> st.noneKeyed || (value.Some? && Get(c, "name").None?))
    ensures r.Ok? && c.tag == "nipype" ==>
      var copyfile := Get(c, "copyfile");
      && r.value.args.inputsToCopy == st.args.inputsToCopy + (if copyfile == Some("true") || copyfile == Some("discard") then [Get(c, "name")] else [])
      && r.value.args.inputsToClean == st.args.inputsToClean + (if copyfile == Some("discard") then [Get(c, "name")] else [])
    ensures r.Ok? && c.tag != "nipype" ==>
      r.value.usedefault == st.usedefault && r.value.args.inputsToCopy == st.args.inputsToCopy && r.value.args.inputsToClean == st.args.inputsToClean
  {
    var name := Get(c, "name");
    if c.tag == "set" then
      var value := conv.toValue(Get(c, "value"));
      var args := st.args.(
        values := if value.Some? && name.Some? then st.args.values[name.value := value.value] else st.args.values,
        makeOptional := st.args.makeOptional + [name]);
      Ok(st.(args := args, noneKeyed := st.noneKeyed || (value.Some? && name.None?)))
    else if c.tag == "iterate" then
      Ok(st.(iterate := st.iterate + [name]))
    else if c.tag == "nipype" then
      var copyfile := Get(c, "copyfile");
      var args := st.args.(
        inputsToCopy := if copyfile == Some("true") || copyfile == Some("discard") then st.args.inputsToCopy + [name] else st.args.inputsToCopy,
        inputsToClean := if copyfile == Some("discard") then st.args.inputsToClean + [name] else st.args.inputsToClean);
      Ok(st.(args := args, usedefault := if Get(c, "usedefault") == Some("true") then st.usedefault + [name] else st.usedefault))
    else
      Err(InvalidTag(InProcess, c.tag))
  }

  /** The children of a `<process>` element, in document order; only an unrecognised tag raises. */
  function ProcessChildren<V, F>(cs: seq<Element>, st: ProcessState<V>, conv: Converters<V, F>): (r: Result<ProcessState<V>, XmlError>)
    ensures r.Err? ==> r.error.InvalidTag? && r.error.scope == InProcess
    decreases |cs|
  {
    if cs == [] then Ok(st)
    else
      match ProcessChildStep(st, cs[0], conv)
      case Err(e) => Err(e)
      case Ok(next) => ProcessChildren(cs[1..], next, conv)
  }

  /** `call_process_method(process, 'set_usedefault', name, True)` for each name, in order. */
  function UsedefaultCalls<V, F>(process: Option<string>, names: seq<Option<string>>): seq<Command<V, F>> {
    seq(|names|, i requires 0 <= i < |names| => CallProcessMethod(process, "set_usedefault", names[i], true))
  }

  /** The builder calls one `<process>` element issues. */
  function ProcessCommands<V, F>(e: Element, conv: Converters<V, F>): (r: Result<seq<Command<V, F>>, XmlError>)
    ensures r.Err? ==> (r.error.InvalidTag? && r.error.scope == InProcess) || r.error == NonStringKeyword
  {
    var name := Get(e, "name");
    match ProcessChildren(e.children, NoProcessState(), conv)
    case Err(err) => Err(err)
    case Ok(st) =>
      if st.noneKeyed then Err(NonStringKeyword)
      else
        var add := if st.iterate != [] then AddIterativeProcess(name, Get(e, "module"), st.args, st.iterate)
                   else AddProcess(name, Get(e, "module"), st.args);
        Ok([add] + UsedefaultCalls(name, st.usedefault))
  }

  /** The loop of the `<process>` branch over the element's children, collecting the keyword arguments of the builder call. */
  method ReadProcessChildren<V, F>(children: seq<Element>, conv: Converters<V, F>) returns (r: Result<ProcessState<V>, XmlError>)
    ensures r == ProcessChildren(children, NoProcessState(), conv)
  {
    var values: map<string, V> := map[];
    var noneKeyed := false;
    var makeOptional: seq<Option<string>> := [];
    var inputsToCopy: seq<Option<string>> := [];
    var inputsToClean: seq<Option<string>> := [];
    var usedefault: seq<Option<string>> := [];
    var iterate: seq<Option<string>> := [];
    var i := 0;
    while i < |children|
      invariant 0 <= i <= |children|
      invariant ProcessChildren(children, NoProcessState(), conv)
             == ProcessChildren(children[i..], ProcessState(ProcessArgs(values, makeOptional, inputsToCopy, inputsToClean), noneKeyed, usedefault, iterate), conv)
    {
      var child := children[i];
      assert children[i..][0] == child && children[i..][1..] == children[i + 1..];
      var name := Get(child, "name");
      if child.tag == "set" {
        var value := conv.toValue(Get(child, "value"));
        if value.Some? {
          if name.Some? {
            values := values[name.value := value.value];
          } else {
            noneKeyed := true;
          }
        }
        makeOptional := makeOptional + [name];
      } else if child.tag == "iterate" {
        iterate := iterate + [name];
      } else if child.tag == "nipype" {
        if Get(child, "usedefault") == Some("true") {
          usedefault := usedefault + [name];
        }
        var copyfile := Get(child, "copyfile");
        if copyfile == Some("true") {
          inputsToCopy := inputsToCopy + [name];
        } else if copyfile == Some("discard") {
          inputsToCopy := inputsToCopy + [name];
          inputsToClean := inputsToClean + [name];
        }
      } else {
        return Err(InvalidTag(InProcess, child.tag));
      }
      i := i + 1;
    }
    assert children[i..] == [];
    return Ok(ProcessState(ProcessArgs(values, makeOptional, inputsToCopy, inputsToClean), noneKeyed, usedefault, iterate));
  }

  /** The `<process>` branch of the reader. */
  method ReadProcess<V, F>(e: Element, conv: Converters<V, F>) returns (r: Result<seq<Command<V, F>>, XmlError>)
    ensures r == ProcessCommands(e, conv)
  {
    var processName := Get(e, "name");
    var moduleName := Get(e, "module");
    var children := ReadProcessChildren(e.children, conv);
    if children.Err? {
      return Err(children.error);
    }
    var st := children.value;
    if st.noneKeyed {
      return Err(NonStringKeyword);
    }
    var add: Command<V, F>;
    if st.iterate != [] {
      add := AddIterativeProcess(processName, moduleName, st.args, st.iterate);
    } else {
      add := AddProcess(processName, moduleName, st.args);
    }
    var cmds := [add];
    var j := 0;
    while j < |st.usedefault|
      invariant 0 <= j <= |st.usedefault|
      invariant |cmds| == j + 1 && cmds[0] == add
      invariant forall k :: 0 <= k < j ==> cmds[k + 1] == CallProcessMethod(processName, "set_usedefault", st.usedefault[k], true)
    {
      cmds := cmds + [CallProcessMethod(processName, "set_usedefault", st.usedefault[j], true)];
      j := j + 1;
    }
    assert cmds == [add] + UsedefaultCalls(processName, st.usedefault);
    return Ok(cmds);
  }

  // ------------------------------------------------------ <processes_selection>

  /** The keys of an ordered dictionary, in order. */
  function Names(gs: seq<Group>): (r: seq<Option<string>>)
    ensures |r| == |gs|
    ensures forall i :: 0 <= i < |gs| ==> r[i] == gs[i].name
  {
    if gs == [] then [] else [gs[0].name] + Names(gs[1..])
  }

  /** `d.get(name)` on an ordered dictionary. */
  function Lookup(gs: seq<Group>, name: Option<string>): (r: Option<seq<Option<string>>>)
    ensures r.Some? <==> name in Names(gs)
  {
    if gs == [] then None
    else if gs[0].name == name then Some(gs[0].processes)
    else Lookup(gs[1..], name)
  }

  /** No key occurs twice. */
  predicate DistinctNames(gs: seq<Group>) {
    forall i, j :: 0 <= i < j < |gs| ==> gs[i].name != gs[j].name
  }

  /** `d[name] = processes` on an ordered dictionary: a new key goes last, an existing key keeps its place. */
  function Assign(gs: seq<Group>, name: Option<string>, processes: seq<Option<string>>): (r: seq<Group>)
    ensures Names(r) == if name in Names(gs) then Names(gs) else Names(gs) + [name]
  {
    if gs == [] then [Group(name, processes)]
    else if gs[0].name == name then [Group(name, processes)] + gs[1..]
    else
      var rest := Assign(gs[1..], name, processes);
      assert Names([gs[0]] + rest) == [gs[0].name] + Names(rest);
      [gs[0]] + rest
  }

  /** After `d[name] = processes`, `name` maps to `processes` and every other key to what it mapped to before. */
  lemma {:induction false} AssignLookup(gs: seq<Group>, name: Option<string>, processes: seq<Option<string>>, other: Option<string>)
    ensures Lookup(Assign(gs, name, processes), name) == Some(processes)
    ensures other != name ==> Lookup(Assign(gs, name, processes), other) == Lookup(gs, other)
    decreases |gs|
  {
    if gs != [] && gs[0].name != name {
      var rest := Assign(gs[1..], name, processes);
      assert ([gs[0]] + rest)[0] == gs[0] && ([gs[0]] + rest)[1..] == rest;
      AssignLookup(gs[1..], name, processes, other);
    }
  }

  /** Assigning to an ordered dictionary never duplicates a key. */
  lemma AssignKeepsNamesDistinct(gs: seq<Group>, name: Option<string>, processes: seq<Option<string>>)
    ensures DistinctNames(gs) ==> DistinctNames(Assign(gs, name, processes))
  {
    if !DistinctNames(gs) {
      return;
    }
    var r := Assign(gs, name, processes);
    assert Names(r) == if name in Names(gs) then Names(gs) else Names(gs) + [name];
    forall i, j | 0 <= i < j < |r| ensures r[i].name != r[j].name {
      assert r[i].name == Names(r)[i] && r[j].name == Names(r)[j];
      if j == |gs| {
        assert Names(r)[i] == Names(gs)[i];
      } else {
        assert Names(gs)[i] == gs[i].name && Names(gs)[j] == gs[j].name;
      }
    }
  }

  /** The children of a `<processes_group>`: every one must be a `<process>`, whose name is taken. */
  function GroupMembers(cs: seq<Element>): (r: Result<seq<Option<string>>, XmlError>)
    ensures r.Err? ==> r.error.InvalidTag? && r.error.scope == InProcessesGroup
    ensures r.Ok? <==> forall i :: 0 <= i < |cs| ==> cs[i].tag == "process"
    ensures r.Ok? ==> |r.value| == |cs| && forall i :: 0 <= i < |cs| ==> r.value[i] == Get(cs[i], "name")
    decreases |cs|
  {
    if cs == [] then Ok([])
    else if cs[0].tag != "process" then Err(InvalidTag(InProcessesGroup, cs[0].tag))
    else Prefixed([Get(cs[0], "name")], GroupMembers(cs[1..]))
  }

  /** The children of a `<processes_selection>`, folded into the ordered `selection_groups` dictionary `gs`. */
  function SelectionGroups(cs: seq<Element>, gs: seq<Group>): (r: Result<seq<Group>, XmlError>)
    ensures r.Err? ==> r.error.InvalidTag? && (r.error.scope == InProcessesSelection || r.error.scope == InProcessesGroup)
    ensures r.Ok? && DistinctNames(gs) ==> DistinctNames(r.value)
    decreases |cs|
  {
    if cs == [] then Ok(gs)
    else if cs[0].tag != "processes_group" then Err(InvalidTag(InProcessesSelection, cs[0].tag))
    else
      match GroupMembers(cs[0].children)
      case Err(e) => Err(e)
      case Ok(members) =>
        AssignKeepsNamesDistinct(gs, Get(cs[0], "name"), members);
        SelectionGroups(cs[1..], Assign(gs, Get(cs[0], "name"), members))
  }

  /** The `<processes_selection>` branch of the reader: the groups passed to `add_processes_selection`. */
  method ReadProcessesSelection(e: Element) returns (r: Result<seq<Group>, XmlError>)
    ensures r == SelectionGroups(e.children, [])
  {
    var groups: seq<Group> := [];
    var i := 0;
    while i < |e.children|
      invariant 0 <= i <= |e.children|
      invariant SelectionGroups(e.children, []) == SelectionGroups(e.children[i..], groups)
    {
      var child := e.children[i];
      assert e.children[i..][0] == child && e.children[i..][1..] == e.children[i + 1..];
      if child.tag != "processes_group" {
        return Err(InvalidTag(InProcessesSelection, child.tag));
      }
      var members: seq<Option<string>> := [];
      var j := 0;
      assert child.children[0..] == child.children;
      PrefixedNil(GroupMembers(child.children));
      while j < |child.children|
        invariant 0 <= j <= |child.children|
        invariant GroupMembers(child.children) == Prefixed(members, GroupMembers(child.children[j..]))
      {
        var member := child.children[j];
        assert child.children[j..][0] == member && child.children[j..][1..] == child.children[j + 1..];
        if member.tag != "process" {
          return Err(InvalidTag(InProcessesGroup, member.tag));
        }
        assert GroupMembers(child.children[j..]) == Prefixed([Get(member, "name")], GroupMembers(child.children[j + 1..]));
        PrefixedAppend(members, [Get(member, "name")], GroupMembers(child.children[j + 1..]));
        members := members + [Get(member, "name")];
        j := j + 1;
      }
      assert child.children[j..] == [];
      assert members + [] == members;
      groups := Assign(groups, Get(child, "name"), members);
      i := i + 1;
    }
    return Ok(groups);
  }

  // --------------------------------------------------------------------- <gui>

  /** `float(text)`: a missing attribute is `None`, for which `float` always raises. */
  function ToFloat<V, F>(conv: Converters<V, F>, text: Option<string>): (r: Option<F>)
    ensures text.None? ==> r.None?
  {
    if text.None? then None else conv.toFloat(text)
  }

  /** One child of `<gui>`: a node position or the zoom level. */
  function GuiCommand<V, F>(c: Element, conv: Converters<V, F>): (r: Result<Command<V, F>, XmlError>)
    ensures r.Ok? <==>
      (c.tag == "position" && ToFloat(conv, Get(c, "x")).Some? && ToFloat(conv, Get(c, "y")).Some?)
      || (c.tag == "zoom" && ToFloat(conv, Get(c, "level")).Some?)
    ensures (c.tag == "position" && ("x" !in c.attrs || "y" !in c.attrs)) || (c.tag == "zoom" && "level" !in c.attrs) ==> r.Err? && r.error.NotAFloat?
    ensures r.Err? ==> (r.error.NotAFloat? <==> c.tag == "position" || c.tag == "zoom")
    ensures r.Ok? ==> (r.value.SetNodePosition? <==> c.tag == "position") && (r.value.SetNodePosition? ==> r.value.nodeName == Get(c, "name"))
  {
    if c.tag == "position" then
      var x := ToFloat(conv, Get(c, "x"));
      var y := ToFloat(conv, Get(c, "y"));
      if x.None? then Err(NotAFloat(Get(c, "x")))
      else if y.None? then Err(NotAFloat(Get(c, "y")))
      else Ok(SetNodePosition(Get(c, "name"), x.value, y.value))
    else if c.tag == "zoom" then
      var level := ToFloat(conv, Get(c, "level"));
      if level.None? then Err(NotAFloat(Get(c, "level"))) else Ok(SetSceneScaleFactor(level.value))
    else
      Err(InvalidTag(InGui, c.tag))
  }

  /** The children of `<gui>`: one builder call each, in document order. */
  function GuiCommands<V, F>(cs: seq<Element>, conv: Converters<V, F>): (r: Result<seq<Command<V, F>>, XmlError>)
    ensures r.Err? ==> (r.error.InvalidTag? && r.error.scope == InGui) || r.error.NotAFloat?
    ensures r.Ok? ==> |r.value| == |cs|
    decreases |cs|
  {
    if cs == [] then Ok([])
    else
      match GuiCommand(cs[0], conv)
      case Err(e) => Err(e)
      case Ok(cmd) => Prefixed([cmd], GuiCommands(cs[1..], conv))
  }

  /** The `<gui>` branch of the reader. */
  method ReadGui<V, F>(e: Element, conv: Converters<V, F>) returns (r: Result<seq<Command<V, F>>, XmlError>)
    ensures r == GuiCommands(e.children, conv)
  {
    var cmds: seq<Command<V, F>> := [];
    var i := 0;
    assert e.children[0..] == e.children;
    PrefixedNil(GuiCommands(e.children, conv));
    while i < |e.children|
      invariant 0 <= i <= |e.children|
      invariant GuiCommands(e.children, conv) == Prefixed(cmds, GuiCommands(e.children[i..], conv))
    {
      var child := e.children[i];
      assert e.children[i..][0] == child && e.children[i..][1..] == e.children[i + 1..];
      if child.tag == "position" {
        var x := ToFloat(conv, Get(child, "x"));
        if x.None? {
          return Err(NotAFloat(Get(child, "x")));
        }
        var y := ToFloat(conv, Get(child, "y"));
        if y.None? {
          return Err(NotAFloat(Get(child, "y")));
        }
        PrefixedAppend(cmds, [SetNodePosition(Get(child, "name"), x.value, y.value)], GuiCommands(e.children[i + 1..], conv));
        cmds := cmds + [SetNodePosition(Get(child, "name"), x.value, y.value)];
      } else if child.tag == "zoom" {
        var level := ToFloat(conv, Get(child, "level"));
        if level.None? {
          return Err(NotAFloat(Get(child, "level")));
        }
        PrefixedAppend(cmds, [SetSceneScaleFactor(level.value)], GuiCommands(e.children[i + 1..], conv));
        cmds := cmds + [SetSceneScaleFactor(level.value)];
      } else {
        return Err(InvalidTag(InGui, child.tag));
      }
      i := i + 1;
    }
    assert e.children[i..] == [];
    assert cmds + [] == cmds;
    return Ok(cmds);
  }

  // ------------------------------------------------------------------ <link>

  /**
   * One `<link source=... dest=...>`: the builder call it issues and the new
   * set of exported names. A link with a dotted endpoint and a bare name not
   * exported yet exports the dotted plug under the bare name.
   */
  function LinkStep<V, F>(exported: set<string>, source: Option<string>, dest: Option<string>): (r: Result<(Command<V, F>, set<string>), XmlError>)
    ensures source.None? ==> r == Err(MissingLinkEnd)
    ensures r.Err? ==> r.error == MissingLinkEnd || r.error.UnsplittableEndpoint?
    ensures r.Ok? ==> r.value.0.AddLink? || r.value.0.ExportParameter?
    ensures r.Ok? && r.value.0.AddLink? ==> r.value.1 == exported
    ensures r.Ok? && r.value.0.ExportParameter? ==>
      var cmd := r.value.0;
      && source.Some? && dest.Some?
      && cmd.exported !in exported && '.' !in cmd.exported
      && r.value.1 == exported + {cmd.exported}
      && (cmd.exported == dest.value || cmd.exported == source.value)
      && (if cmd.exported == dest.value then source.value else dest.value) == cmd.node + "." + cmd.plug
  {
    if source.None? then Err(MissingLinkEnd)
    else if '.' in source.value then
      if dest.None? then Err(MissingLinkEnd)
      else if '.' in dest.value || dest.value in exported then
        Ok((AddLink(source.value + "->" + dest.value), exported))
      else
        var split := RSplitDot(source.value).value;
        Ok((ExportParameter(split.0, split.1, dest.value), exported + {dest.value}))
    else if source.value in exported then
      Ok((AddLink(source.value + "->" + ShowOption(dest)), exported))
    else if dest.None? then Err(MissingLinkEnd)
    else
      match RSplitDot(dest.value)
      case None => Err(UnsplittableEndpoint(dest.value))
      case Some(split) => Ok((ExportParameter(split.0, split.1, source.value), exported + {source.value}))
  }

  // ---------------------------------------------------------------- <pipeline>

  /** The builder calls issued so far and the `exported_parameters` set. */
  datatype DecodeState<V, F> = DecodeState(log: seq<Command<V, F>>, exported: set<string>)

  /** One child of the root `<pipeline>` element. */
  function EntryStep<V, F>(st: DecodeState<V, F>, c: Element, conv: Converters<V, F>): (r: Result<DecodeState<V, F>, XmlError>)
    ensures r.Err? ==> !r.error.UnsupportedVersion?
  {
    if c.tag == "doc" then
      if c.text.None? then Err(MissingText)
      else Ok(st.(log := st.log + [SetDocumentation(Strip(c.text.value))]))
    else if c.tag == "process" then
      match ProcessCommands(c, conv)
      case Err(e) => Err(e)
      case Ok(cmds) => Ok(st.(log := st.log + cmds))
    else if c.tag == "link" then
      match LinkStep(st.exported, Get(c, "source"), Get(c, "dest"))
      case Err(e) => Err(e)
      case Ok(step) => Ok(DecodeState(st.log + [step.0], step.1))
    else if c.tag == "processes_selection" then
      match SelectionGroups(c.children, [])
      case Err(e) => Err(e)
      case Ok(gs) => Ok(st.(log := st.log + [AddProcessesSelection(Get(c, "name"), gs)]))
    else if c.tag == "gui" then
      match GuiCommands(c.children, conv)
      case Err(e) => Err(e)
      case Ok(cmds) => Ok(st.(log := st.log + cmds))
    else
      Err(InvalidTag(InPipeline, c.tag))
  }

  /** The children of the root element, in document order. */
  function DecodeEntries<V, F>(cs: seq<Element>, st: DecodeState<V, F>, conv: Converters<V, F>): (r: Result<DecodeState<V, F>, XmlError>)
    ensures r.Err? ==> !r.error.UnsupportedVersion?
    decreases |cs|
  {
    if cs == [] then Ok(st)
    else
      match EntryStep(st, cs[0], conv)
      case Err(e) => Err(e)
      case Ok(next) => DecodeEntries(cs[1..], next, conv)
  }

  /** `if version and version != '2.0'`: an absent or empty version is accepted. */
  predicate VersionRejected(version: Option<string>) {
    version.Some? && version.value != "" && version.value != "2.0"
  }

  /** The whole reader: the builder calls for a root element, or the error raised. */
  function DecodePipeline<V, F>(root: Element, conv: Converters<V, F>): Result<seq<Command<V, F>>, XmlError> {
    var version := Get(root, "capsul_xml");
    if VersionRejected(version) then Err(UnsupportedVersion(version.value))
    else
      match DecodeEntries(root.children, DecodeState([], {}), conv)
      case Err(e) => Err(e)
      case Ok(st) => Ok(st.log)
  }

  /** The first child decides whether the rest is read, and from which state. */
  lemma DecodeEntriesHead<V, F>(cs: seq<Element>, st: DecodeState<V, F>, conv: Converters<V, F>)
    requires cs != []
    ensures var step := EntryStep(st, cs[0], conv);
      DecodeEntries(cs, st, conv) == if step.Err? then Err(step.error) else DecodeEntries(cs[1..], step.value, conv)
  {
  }

  /** The body of the loop of `create_xml_pipeline`: one child of the root, dispatched on its tag. */
  method ReadEntry<V, F>(st: DecodeState<V, F>, child: Element, conv: Converters<V, F>) returns (r: Result<DecodeState<V, F>, XmlError>)
    ensures r == EntryStep(st, child, conv)
  {
    if child.tag == "doc" {
      if child.text.None? {
        return Err(MissingText);
      }
      return Ok(st.(log := st.log + [SetDocumentation(Strip(child.text.value))]));
    } else if child.tag == "process" {
      var cmds := ReadProcess(child, conv);
      if cmds.Err? {
        return Err(cmds.error);
      }
      return Ok(st.(log := st.log + cmds.value));
    } else if child.tag == "link" {
      var step: Result<(Command<V, F>, set<string>), XmlError> := LinkStep(st.exported, Get(child, "source"), Get(child, "dest"));
      if step.Err? {
        return Err(step.error);
      }
      return Ok(DecodeState(st.log + [step.value.0], step.value.1));
    } else if child.tag == "processes_selection" {
      var groups := ReadProcessesSelection(child);
      if groups.Err? {
        return Err(groups.error);
      }
      return Ok(st.(log := st.log + [AddProcessesSelection(Get(child, "name"), groups.value)]));
    } else if child.tag == "gui" {
      var cmds := ReadGui(child, conv);
      if cmds.Err? {
        return Err(cmds.error);
      }
      return Ok(st.(log := st.log + cmds.value));
    } else {
      return Err(InvalidTag(InPipeline, child.tag));
    }
  }

  /** The loop of `create_xml_pipeline` over the children of the root, from an empty log and no exported name. */
  method ReadEntries<V, F>(children: seq<Element>, conv: Converters<V, F>) returns (r: Result<DecodeState<V, F>, XmlError>)
    ensures r == DecodeEntries(children, DecodeState([], {}), conv)
  {
    var st: DecodeState<V, F> := DecodeState([], {});
    var i := 0;
    while i < |children|
      invariant 0 <= i <= |children|
      invariant DecodeEntries(children, DecodeState([], {}), conv) == DecodeEntries(children[i..], st, conv)
    {
      var child := children[i];
      DecodeEntriesHead(children[i..], st, conv);
      assert children[i..][0] == child && children[i..][1..] == children[i + 1..];
      var next := ReadEntry(st, child, conv);
      if next.Err? {
        return Err(next.error);
      }
      st := next.value;
      i := i + 1;
    }
    assert children[i..] == [];
    return Ok(st);
  }

  /** `create_xml_pipeline` on an already-parsed root element: the version check, then every child of the root in order. */
  method CreateXmlPipeline<V, F>(root: Element, conv: Converters<V, F>) returns (r: Result<seq<Command<V, F>>, XmlError>)
    ensures r == DecodePipeline(root, conv)
  {
    var version := Get(root, "capsul_xml");
    if version.Some? && version.value != "" && version.value != "2.0" {
      return Err(UnsupportedVersion(version.value));
    }
    var entries := ReadEntries(root.children, conv);
    if entries.Err? {
      return Err(entries.error);
    }
    return Ok(entries.value.log);
  }
}
