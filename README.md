# Capsul pipeline XML codec and activation replay, in Dafny

This project models two parts of Capsul, a Python framework for building
pipelines of processing steps (nodes joined by links between their plugs):

- **The Capsul XML 2.0 codec** (`capsul/pipeline/xml.py`).
  - `create_xml_pipeline` walks the children of a `<pipeline>` element and
    calls a pipeline builder for each one. It handles `<doc>`, `<process>`
    with its `<set>`, `<iterate>` and `<nipype>` children, `<link>` with its
    export shorthand, `<processes_selection>` with its ordered groups, and
    `<gui>`. Any other tag is rejected, and so is a version other than 2.0.
  - `save_xml_pipeline` walks a pipeline object and builds the element tree.
    It writes the class name, the documentation with the automatic help note
    cut off, one `<process>` or `<switch>` per named node, one `<link>` per
    outgoing link (through `_write_links`), the `<iterate>` children of an
    iteration (through `_write_iteration`), and the `<gui>` positions and zoom.
- **Activation replay in the activation inspector**
  (`capsul/wip/qt_gui/activation_inspector.py`).
  - A record file starts with a header line holding the pipeline id.
  - It goes on with one event line per activation change.
  - Replaying the record builds one snapshot of the active `node:plug` keys
    for each line, plus a display item.
  - Selecting a snapshot sets the `activated` flag of every node and plug of
    the pipeline.
  - A forward and a backward search find a pattern among the display items.

Modules, one file each:

| file | module | contents |
|---|---|---|
| `base.dfy` | `Base` | `Option` and `Result` |
| `pystring.dfy` | `PyString` | Python 2 `str.strip`, `rsplit('.', 1)` and `find`, with their contracts |
| `element_tree.dfy` | `ElementTree` | a parsed XML element as a value |
| `xml_reader.dfy` | `XmlReader` | the reader: each loop is a method proved equal to a specification function |
| `xml_reader_properties.dfy` | `XmlReaderProperties` | properties of the reader |
| `xml_writer.dfy` | `XmlWriter` | the writer: each loop is a method proved equal to a specification function |
| `xml_round_trip.dfy` | `XmlRoundTrip` | what the writer produces, and what the reader makes of it |
| `activation_inspector.dfy` | `ActivationReplay` | line parsing, replay, searches, and the objects as classes |

How the model is built:

- **Reader.** The pipeline builder is modelled by the log of `Command`s it
  receives.
  - A successful read returns that log.
  - A Python exception becomes an `XmlError`, and no log is returned.
  - `string_to_value` and `float` are parameters of the reader (`Converters`).
- **Writer.** The pipeline object is a value (`PipelineObject`), and so is the
  element tree it produces.
  - `unicode` of a float is a parameter (`show`).
- **Inspector.** The inspector's state is a class (`ActivationInspector`)
  whose methods update its fields.
  - The pipeline's nodes and plugs are classes whose `activated` fields are
    assigned in place.
  - The Qt list widget is its item texts plus its current row.
  - `re.search` with the pattern is a parameter (`matches`).

Behaviour of the code the model keeps on purpose (each one is proved):

- **An empty `capsul_xml` version is accepted.** The condition is
  `if version and version != '2.0'`, so an empty or absent version passes.
- **The event regex is read exactly as Python reads it.** In
  `(\d+)([+-=])`, the class `[+-=]` is the character range from `+` to `=`.
  The greedy `\d+` gives back its last digit when the next character is not
  in that range. So `12a` parses as iteration `1` with event character `2`.
  Only `+` adds a key; every other event character removes one.
- **The documentation is lost on a save and reload.** The writer stores it as
  a `doc` attribute, but the reader only reads a `<doc>` child.
- **Weak links cannot be saved.** `_write_links` stores a weak flag as the integer 1, which `ElementTree` refuses to serialize, so `save_xml_pipeline` fails on a pipeline with a weak link. The reader ignores a `weak` attribute written by hand.
- **A saved pipeline that contains a switch cannot be read back.** The writer
  emits `<switch>`, and the reader rejects that tag.
- **Selection groups and parameter values never survive a save.**
  `save_xml_pipeline` (`xml.py` lines 139-278) writes neither
  `<processes_selection>` nor `<set>`, so a saved process reads back with no
  keyword arguments and no `add_processes_selection` call is issued.
- **A missing `x`, `y` or `level` attribute fails the read.** `get` gives
  `None` and `float(None)` raises.
- **Every written link reads back as a call fixed by its endpoints.** A link
  between two node plugs is added as it is. A link with a pipeline end
  exports the node plug under the bare name the first time that name
  appears, and is added as a link after that.
- **A link between two pipeline-level plugs reads back only in one case.**
  The writer emits it with two bare names. The reader adds it as a link only
  when its source was exported earlier; otherwise it fails, because it
  cannot split a bare name at the dot.

## Model

| member | source | states |
|---|---|---|
| PyString.Strip | capsul/pipeline/xml.py:44 | the result starts and ends with a non-space character, and the input is the result with only white space around it |
| PyString.RSplitDot | capsul/pipeline/xml.py:94 | `rsplit('.', 1)` splits exactly when there is a dot; the input is the first part, a dot, then the second part, which has no dot |
| PyString.RSplitDotUnique | capsul/pipeline/xml.py:100 | `node.plug` with a dot-free plug splits back into `node` and `plug` |
| PyString.Find | capsul/pipeline/xml.py:259-261 | `find` gives -1 when the pattern occurs nowhere, and otherwise its first occurrence |
| XmlReader.ProcessChildStep | capsul/pipeline/xml.py:53-76 | one `<process>` child succeeds exactly on set, iterate and nipype, and otherwise raises the invalid-tag error; a `<set>` appends its name to `make_optional`, stores `kwargs[name]` (overwriting an earlier one) exactly when it has a name and its value converts, and marks the `None` keyword exactly when it has no name and its value converts; an `<iterate>` appends its name to the iterative plugs; a `<nipype>` appends its name to `inputs_to_copy` when `copyfile` is `true` or `discard` and to `inputs_to_clean` when it is `discard`; only a `<set>` touches the keyword values, and only a `<nipype>` the usedefault and copy lists |
| XmlReader.ProcessChildren | capsul/pipeline/xml.py:52-76 | reading the children of a `<process>` fails only on a tag other than set, iterate and nipype |
| XmlReader.ProcessCommands | capsul/pipeline/xml.py:45-84 | a `<process>` fails only on an invalid child tag, or on a keyword argument named `None` |
| XmlReader.ReadProcessChildren | capsul/pipeline/xml.py:52-76 | the child loop computes exactly `ProcessChildren` from the empty state |
| XmlReader.ReadProcess | capsul/pipeline/xml.py:45-84 | the process branch issues exactly `ProcessCommands` |
| XmlReader.Assign | capsul/pipeline/xml.py:109 | an OrderedDict assignment keeps the key order and appends a new key at the end |
| XmlReader.AssignLookup | capsul/pipeline/xml.py:109 | after the assignment the key maps to the new list, and every other key is unchanged |
| XmlReader.AssignKeepsNamesDistinct | capsul/pipeline/xml.py:105-109 | the group dictionary never holds a key twice |
| XmlReader.GroupMembers | capsul/pipeline/xml.py:110-115 | a group succeeds exactly when every child is `<process>`; it then lists their names in order |
| XmlReader.SelectionGroups | capsul/pipeline/xml.py:106-118 | a selection fails only on an invalid tag, and keeps the group names distinct |
| XmlReaderProperties.SelectionGroupsContents | capsul/pipeline/xml.py:105-115 | the group dictionary keeps its keys and gains each new group name once, in order of first occurrence; each name maps to the members of its last group, and a key no group names keeps its members |
| XmlReader.ReadProcessesSelection | capsul/pipeline/xml.py:103-120 | the selection loops compute exactly `SelectionGroups` |
| XmlReader.GuiCommand | capsul/pipeline/xml.py:123-133 | a `<gui>` child succeeds exactly as a `<position>` whose `x` and `y` convert or a `<zoom>` whose `level` converts; a missing coordinate or level fails with the float error, as `float(None)` raises; a position call carries the `name` attribute |
| XmlReader.GuiCommands | capsul/pipeline/xml.py:122-133 | `<gui>` fails only on an invalid tag or a failed `float`, and otherwise gives one call per child |
| XmlReader.ReadGui | capsul/pipeline/xml.py:121-133 | the gui loop computes exactly `GuiCommands` |
| XmlReader.LinkStep | capsul/pipeline/xml.py:85-102 | a link without a source fails; a link gives `add_link` and exports nothing, or `export_parameter(node, plug, bare)` where `bare` is a dot-free endpoint not exported before and becomes exported, and `node.plug` is the other endpoint; no other call and no other error |
| XmlReader.EntryStep | capsul/pipeline/xml.py:42-135 | one child of the root never fails with the version error; its per-tag outcomes are the contracts of `ProcessCommandShape`, `LinkBothDotted`, `LinkExportShorthand`, `LinkAlreadyExported`, `EntryStepExtends`, `EntryStepNoDocumentation` and `EntryStepRejectsInvalidTag` |
| XmlReader.DecodeEntries | capsul/pipeline/xml.py:42-135 | reading the children never fails with the version error; `DecodeEntriesAppend`, `ExportedOnlyGrows` and `EntriesRejectInvalidTag` give how it composes, that it only grows the log and the exported set, and that one bad entry anywhere fails it |
| XmlReader.ReadEntry | capsul/pipeline/xml.py:43-135 | the tag dispatch computes exactly `EntryStep` |
| XmlReader.ReadEntries | capsul/pipeline/xml.py:42-135 | the main loop computes exactly `DecodeEntries`, starting with no commands and no exported names |
| XmlReader.CreateXmlPipeline | capsul/pipeline/xml.py:34-136 | the whole reader computes exactly `DecodePipeline` |
| XmlReaderProperties.VersionGate | capsul/pipeline/xml.py:34-37 | `DecodePipeline` raises the version error exactly when the version is non-empty and not "2.0"; an absent version lets the children be read |
| XmlReaderProperties.LinkBothDotted | capsul/pipeline/xml.py:88-90 | two dotted endpoints give `add_link("source->dest")` and export nothing |
| XmlReaderProperties.LinkExportShorthand | capsul/pipeline/xml.py:93-96 | a dotted and a bare name not exported yet give `export_parameter(node, plug, bare)` and add the bare name to the exported set |
| XmlReaderProperties.LinkAlreadyExported | capsul/pipeline/xml.py:91-92 | a bare endpoint that was exported earlier gives an `add_link` |
| XmlReaderProperties.EntryStepExtends | capsul/pipeline/xml.py:42-135 | each child only appends commands and only adds exported names; only `<link>` adds names |
| XmlReaderProperties.ExportedOnlyGrows | capsul/pipeline/xml.py:40-102 | across the document the command log and the exported set only grow |
| XmlReaderProperties.MakeOptionalInOrder | capsul/pipeline/xml.py:59 | `make_optional` lists the name of every `<set>`, in document order, whether or not its value converts |
| XmlReaderProperties.IterateInOrder | capsul/pipeline/xml.py:60-62 | the iterative plugs are the `<iterate>` names, in order |
| XmlReaderProperties.UsedefaultInOrder | capsul/pipeline/xml.py:63-67 | the usedefault names are those of the `<nipype>` children with `usedefault="true"`, in order |
| XmlReaderProperties.ProcessValuesOnlyWhenConverted | capsul/pipeline/xml.py:53-58 | a keyword value is present exactly when some `<set>` of that name has a value that converts to something other than None |
| XmlReaderProperties.CopyInOrder | capsul/pipeline/xml.py:68-73 | `inputs_to_copy` gains the name of every `<nipype>` whose `copyfile` is `true` or `discard`, in document order |
| XmlReaderProperties.CleanInOrder | capsul/pipeline/xml.py:70-73 | `inputs_to_clean` gains the name of every `<nipype>` whose `copyfile` is `discard`, in document order |
| XmlReaderProperties.NoneKeyedExactly | capsul/pipeline/xml.py:53-58 | a `None` keyword is stored exactly when some `<set>` without a name has a value that converts |
| XmlReaderProperties.ProcessValueUntouched | capsul/pipeline/xml.py:55-58 | children with no converting `<set>` of a name leave that keyword's presence and value as they were |
| XmlReaderProperties.ProcessValueLastWins | capsul/pipeline/xml.py:55-58 | a keyword holds the converted value of the last converting `<set>` of that name |
| XmlReaderProperties.ProcessCommandShape | capsul/pipeline/xml.py:53-84 | a process gives one add call, iterative exactly when there are `<iterate>` children (with those plugs in order), with `make_optional` the `<set>` names and `inputs_to_copy`/`inputs_to_clean` the names `copyfile` selects, followed by one `set_usedefault` call per usedefault name; no nameless `<set>` had a converting value |
| XmlReaderProperties.ProcessCommandValues | capsul/pipeline/xml.py:53-84 | the add call's keyword values exist exactly for the names of converting `<set>` children, and each holds the value of the last one |
| XmlReaderProperties.ProcessNonStringKeyword | capsul/pipeline/xml.py:45-84 | when the children read without error, the process raises the non-string-keyword error exactly when some nameless `<set>` has a converting value, and succeeds exactly otherwise |
| XmlReaderProperties.ProcessChildrenRejectInvalidTag | capsul/pipeline/xml.py:74-76 | any child of `<process>` that is not set, iterate or nipype makes the process fail |
| XmlReaderProperties.SelectionRejectsInvalidTag | capsul/pipeline/xml.py:113-118 | a bad tag in a selection or in a group makes the selection fail |
| XmlReaderProperties.GuiRejectsInvalidTag | capsul/pipeline/xml.py:131-133 | a bad tag in `<gui>` makes it fail |
| XmlReaderProperties.EntryStepRejectsInvalidTag | capsul/pipeline/xml.py:134-135 | an invalid entry, at any depth, makes its step fail |
| XmlReaderProperties.EntriesRejectInvalidTag | capsul/pipeline/xml.py:42-135 | one invalid entry anywhere fails the whole read |
| XmlReaderProperties.InvalidTagRejectsPipeline | capsul/pipeline/xml.py:34-136 | a document with an invalid entry yields no pipeline |
| XmlReaderProperties.GuiCommandsPointwise | capsul/pipeline/xml.py:122-133 | `<gui>` succeeds exactly when every child does, and gives their calls in order |
| XmlReaderProperties.DecodeEntriesAppend | capsul/pipeline/xml.py:42 | reading `a + b` is reading `a`, then `b` from the resulting state |
| XmlReaderProperties.ProcessChildrenAppend | capsul/pipeline/xml.py:52 | reading the children plus one more is reading the last one after the others |
| XmlWriter.WritePlugLinks | capsul/pipeline/xml.py:215-231 | an input of the pipeline node, or an output of another node, gets one `<link>` per entry of `links_to`; any other plug gets none |
| XmlWriter.WriteNodeLinks | capsul/pipeline/xml.py:214-231 | the links of one node are those of its plugs in order |
| XmlWriter.WriteLinks | capsul/pipeline/xml.py:212-231 | `_write_links` emits exactly `LinkElements` of the nodes |
| XmlWriter.LinkElementShape | capsul/pipeline/xml.py:227-231 | a written `<link>` has no children; its source and dest are the endpoint names of the plug and of the target, and `weak="1"` is present exactly for a weak link |
| XmlWriter.ProcessElement | capsul/pipeline/xml.py:157-166 | a `<process>` carries the node name and `module.Class`, the class being the wrapped function's name when there is one, and has exactly the given children |
| XmlWriter.IterateElements | capsul/pipeline/xml.py:194-196 | one `<iterate>` per iterative parameter, in order, each naming its parameter and without children |
| XmlWriter.NodeElementShape | capsul/pipeline/xml.py:200-210 | a switch node is written as an empty `<switch>` without a name; a process or iteration node as a `<process>` with its name and `module.Class`, with one child per iterative parameter |
| XmlWriter.WriteIteration | capsul/pipeline/xml.py:192-196 | an iteration is its process element with one `<iterate>` child per iterative parameter |
| XmlWriter.WriteProcesses | capsul/pipeline/xml.py:198-210 | `_write_processes` emits exactly `ProcessElements` |
| XmlWriter.WriteNodesPositions | capsul/pipeline/xml.py:233-242 | a `<gui>` is created exactly when there are positions, with one `<position>` each |
| XmlWriter.SaveXmlPipeline | capsul/pipeline/xml.py:244-276 | the whole writer computes exactly `SavedDocument` |
| XmlRoundTrip.TargetLinkElementsExactly | capsul/pipeline/xml.py:218-231 | the links of a plug are exactly one per target |
| XmlRoundTrip.PlugLinkElementsExactly | capsul/pipeline/xml.py:214-231 | the links of a node are exactly those of its link-writing plugs |
| XmlRoundTrip.LinkElementsExactly | capsul/pipeline/xml.py:212-231 | an element is among `LinkElements` exactly when some node's link-writing plug has a target whose `<link>` it is |
| XmlRoundTrip.ProcessElementsExactly | capsul/pipeline/xml.py:198-210 | a node element is written exactly for each node with a non-empty name |
| XmlRoundTrip.SavedDocStripsNote | capsul/pipeline/xml.py:253-266 | the `doc` attribute (`SavedDoc`): `Pipeline`'s own docstring becomes "", a missing docstring fails, and otherwise the doc is cut right before the first help note, which no longer occurs |
| XmlRoundTrip.SavedDocumentRoot | capsul/pipeline/xml.py:244-276 | the tree `SavedDocument` builds has a `<pipeline>` root whose name (`SavedClassName`) is `CustomPipeline` exactly for `Pipeline` itself and the class name otherwise; it has no version attribute, and only process, switch, link and gui children |
| XmlRoundTrip.WrittenEndpointSplits | capsul/pipeline/xml.py:219-226 | a written endpoint (`EndpointName`) has a dot exactly when it names another node, and then splits back into node and plug |
| XmlRoundTrip.ReadWrittenLink | capsul/pipeline/xml.py:85-102 | reading a written link: node to node gives `add_link`; a pipeline input to a node gives an export, or a link once exported; a node to a pipeline output gives the same |
| XmlRoundTrip.NodeToNodeLink | capsul/pipeline/xml.py:88-90 | a written node-to-node link is read back with its own endpoints |
| XmlRoundTrip.InputToNodeLink | capsul/pipeline/xml.py:97-102 | a written pipeline-input link is read as an export of the destination plug under the input's name, or as a link once exported |
| XmlRoundTrip.NodeToOutputLink | capsul/pipeline/xml.py:91-96 | a written pipeline-output link is read as an export of the source plug under the output's name, or as a link once exported |
| XmlRoundTrip.ReadIterateElements | capsul/pipeline/xml.py:60-62 | the written `<iterate>` children read back as the iterative parameters, in order |
| XmlRoundTrip.ReadWrittenNode | capsul/pipeline/xml.py:45-84 | a written process or iteration reads back as one add call with its name and `module.Class`, iterative exactly when it has iterative parameters; a written switch is rejected |
| XmlRoundTrip.ProcessElementCommands | capsul/pipeline/xml.py:45-84 | a written `<process>` with one `<iterate>` per iterative parameter reads back as exactly one add call with no keyword arguments, iterative exactly when there are parameters, and no `set_usedefault` call |
| XmlRoundTrip.ReadLastNode | capsul/pipeline/xml.py:200-210 | the element of one node reads back as its commands; an unnamed node writes nothing |
| XmlRoundTrip.NamedSwitchSplit | capsul/pipeline/xml.py:200-204 | a named switch is among the nodes exactly when it is among the leading ones or is the last one |
| XmlRoundTrip.ReadProcessSection | capsul/pipeline/xml.py:198-210 | without a named switch, the process section reads back as the add calls of the nodes, in order |
| XmlRoundTrip.ReadProcessSectionSwitch | capsul/pipeline/xml.py:203-204 | with a named switch, the process section is rejected on its `<switch>` tag |
| XmlRoundTrip.PlugRefsWritten | capsul/pipeline/xml.py:214-231 | the links of a node's plugs, taken as (node, plug, target) triples, give exactly its `<link>` elements in order |
| XmlRoundTrip.TargetRefsWritten | capsul/pipeline/xml.py:218-231 | the links of one plug, one per target, give exactly its `<link>` elements in order |
| XmlRoundTrip.LinkRefsWritten | capsul/pipeline/xml.py:212-231 | `_write_links` writes exactly one `<link>` per (node, plug, target) triple of `LinkRefs`, in the same order |
| XmlRoundTrip.PlugRefsReadable | capsul/pipeline/xml.py:214-231 | when a node's link-writing plugs have readable links, so does every triple it contributes |
| XmlRoundTrip.LinkRefsReadable | capsul/pipeline/xml.py:212-231 | when every plug writes readable links (dot-free plug names, no pipeline input linked straight to a pipeline output), every written link is readable |
| XmlRoundTrip.ReadLinkRef | capsul/pipeline/xml.py:85-102 | reading one readable written link appends exactly the call its endpoints and the exported names give, and updates the exported names accordingly |
| XmlRoundTrip.LinkLogAt | capsul/pipeline/xml.py:85-102 | a run of readable links gives one call per link; the k-th is the call its endpoints give once the bare names of the earlier links are exported, and afterwards every bare name of the run is exported |
| XmlRoundTrip.ReadLinkRefStep | capsul/pipeline/xml.py:85-102 | the link branch on one readable written link gives its expected call and exported names |
| XmlRoundTrip.DecodeLinkEntries | capsul/pipeline/xml.py:42-102 | reading a run of `<link>` elements is the link branch applied to each in turn, stopping at the first error |
| XmlRoundTrip.LinkFoldRefs | capsul/pipeline/xml.py:85-102 | the link branch folded over the elements of a run of readable links gives exactly `ExpectedLinkLog` |
| XmlRoundTrip.ReadLinkSection | capsul/pipeline/xml.py:85-102 | reading the `<link>` elements of a run of readable links appends exactly the calls `ExpectedLinkLog` gives from their endpoints, and leaves exactly the names it exports |
| XmlRoundTrip.PositionElementsIndex | capsul/pipeline/xml.py:237-241 | one `<position>` per node position, in order |
| XmlRoundTrip.PositionRead | capsul/pipeline/xml.py:123-127 | a written position reads back as `set_node_position` with the same coordinates when `float` inverts `unicode` |
| XmlRoundTrip.ZoomRead | capsul/pipeline/xml.py:128-130 | a written zoom reads back as `set_scene_scale_factor` with the same level |
| XmlRoundTrip.GuiChildrenRead | capsul/pipeline/xml.py:233-242 | the written gui children read back as the positions, in order, then the zoom |
| XmlRoundTrip.ReadWrittenGui | capsul/pipeline/xml.py:269-275 | the written `<gui>` section reads back as the position calls, in order, then the zoom call |
| XmlRoundTrip.SavedSwitchUnreadable | capsul/pipeline/xml.py:203-204 | a saved pipeline with a named switch is rejected by the reader |
| XmlRoundTrip.ReadSavedPipeline | capsul/pipeline/xml.py:139-278 | a saved pipeline without switches, without weak links (which the source cannot save), with readable links and with invertible floats reads back as exactly the node add calls with no keyword arguments, then for each written link in order the call its endpoints give, then the position calls and the zoom call; no selection, `<set>` value or documentation comes back |
| XmlRoundTrip.EntryStepNoDocumentation | capsul/pipeline/xml.py:43-44 | only a `<doc>` child issues `set_documentation` |
| XmlRoundTrip.EntriesNoDocumentation | capsul/pipeline/xml.py:42-135 | children without `<doc>` never issue `set_documentation` |
| XmlRoundTrip.SavedDocumentationLost | capsul/pipeline/xml.py:266 | reading a saved pipeline never calls `set_documentation`, because the doc was written as an attribute |
| ActivationReplay.EventAtGroups | capsul/wip/qt_gui/activation_inspector.py:210-215 | the iteration and event groups are the text before and at the event character; the node group has no colon, and the plug group only word characters |
| ActivationReplay.ParseEventIsLongestMatch | capsul/wip/qt_gui/activation_inspector.py:210-215 | `ParseEvent` matches exactly when a non-empty digit run is followed by a character from `+` to `=`, and the greedy match takes the longest such run |
| ActivationReplay.ParseFormattedEvent | capsul/wip/qt_gui/activation_inspector.py:210-216 | a line in the recorder's format parses back to the same event |
| ActivationReplay.ParseLine | capsul/wip/qt_gui/activation_inspector.py:213-215 | a line parses exactly when its stripped text matches the event regex; otherwise the error names the line, as `.groups()` on `None` raises |
| ActivationReplay.ApplyEvent | capsul/wip/qt_gui/activation_inspector.py:218-222 | applying an event fails exactly when it is a removal of a key that is not active; otherwise only the event's key changes, and it is active afterwards exactly for `+` |
| ActivationReplay.ReplayFrom | capsul/wip/qt_gui/activation_inspector.py:211-227 | as many snapshots as items, at most one per line, and every line replayed exactly when nothing failed |
| ActivationReplay.ReplayApplies | capsul/wip/qt_gui/activation_inspector.py:218-227 | each replayed line parsed, its event turned the previous snapshot into its own, and its item is its display text |
| ActivationReplay.ReplayStep | capsul/wip/qt_gui/activation_inspector.py:218-223 | a `+` event adds its key to the previous snapshot; any other event removes a key that was active |
| ActivationReplay.ReplayStopsAtFailure | capsul/wip/qt_gui/activation_inspector.py:214-222 | a replay stops at the first line that fails to match, or at a removal of a key that is not active |
| ActivationReplay.ReplayPrefix | capsul/wip/qt_gui/activation_inspector.py:223 | snapshots are copies: later lines never change earlier snapshots or items |
| ActivationReplay.ReplayLines | capsul/wip/qt_gui/activation_inspector.py:206-227 | the loop over the lines computes exactly `ReplayFrom` from the empty set |
| ActivationReplay.ActivationInspector.RefreshActivationFromRecord | capsul/wip/qt_gui/activation_inspector.py:184-231 | a header that differs from the pipeline id fails and changes nothing; otherwise the items and snapshots are the replay of the lines, and the last row is selected when the replay completes |
| ActivationReplay.PyIndex | capsul/wip/qt_gui/activation_inspector.py:240 | for an index from minus the length up to the length, the one in-range position congruent to it modulo the length, as Python list indexing picks it |
| ActivationReplay.RestoreNode | capsul/wip/qt_gui/activation_inspector.py:246-250 | each plug's flag says whether `node:plug` is in the snapshot, and the node's flag says whether `node:` is |
| ActivationReplay.ActivationInspector.UpdatePipelineActivation | capsul/wip/qt_gui/activation_inspector.py:233-250 | for an index in range, every node and plug of the pipeline reflects the selected snapshot; otherwise the pipeline is unchanged |
| ActivationReplay.NextMatch | capsul/wip/qt_gui/activation_inspector.py:270-278 | the first matching row at or after the start, or no row when none matches |
| ActivationReplay.PreviousMatch | capsul/wip/qt_gui/activation_inspector.py:293-301 | the last matching row between the lowest row and the start, or no row when none matches |
| ActivationReplay.ActivationInspector.FindNext | capsul/wip/qt_gui/activation_inspector.py:257-278 | selects the next matching row and returns 1, or returns 0 and keeps the row |
| ActivationReplay.ActivationInspector.FindPrevious | capsul/wip/qt_gui/activation_inspector.py:280-301 | selects the previous matching row above row 0 and returns 1, or returns 0 and keeps the row |
| ActivationReplay.ActivationInspector.FindPreviousCorrected | capsul/wip/qt_gui/activation_inspector.py:280-301 | selects the previous matching row, row 0 included, and returns 1, or returns 0 and keeps the row |
| ActivationReplay.ActivationInspector.SetFilterPattern | capsul/wip/qt_gui/activation_inspector.py:303-318 | as written: sets the pattern and selects the next match, else the previous match found by `find_previous`, which never examines row 0, else keeps the row |
| ActivationReplay.ActivationInspector.SetFilterPatternCorrected | capsul/wip/qt_gui/activation_inspector.py:303-318 | with the backward search reaching row 0: sets the pattern and selects the next match, else the previous match, else keeps the row |
| ActivationReplay.FilterSelection | capsul/wip/qt_gui/activation_inspector.py:257-318 | the selected row is the current one or a matching one; a later row is the first match after the current row; an earlier row is the last match before it, when nothing after it matches; the row stays only when nothing after it and nothing from the lowest searched row up to it matches |
| ActivationReplay.FilterSelectsMatch | capsul/wip/qt_gui/activation_inspector.py:316-318 | with the corrected backward search, a pattern matching any other row always selects a matching row |
| ActivationReplay.PreviousSearchSkipsFirstRow | capsul/wip/qt_gui/activation_inspector.py:295 | as written, two rows with only row 0 matching leave the filter on row 1, which does not match |

## Left out

- File I/O is not modelled. `ET.parse`, `tree.write` and the record file's `open`/`readline`/`readlines` are replaced by their content: an `Element` value, the built `Element`, and the record's lines.
- The Qt widgets are not modelled. Only the item texts and the current row of the events list are kept. The model assumes that `clear()` resets the current row to -1 and that `addItem` leaves it there.
- Qt signals are not modelled. `currentRowChanged` would call `update_pipeline_activation`; here that call is separate.
- Refreshing the views after a replay is left out (`selection_changed` in `activation_inspector.py` lines 252-255). It depends on `PipelineNode` and on the GUI.
- The writer's nipype branch (`xml.py` lines 168-189) is left out. It reads `proces.inputs_to_clean`, a name that does not exist, and it depends on nipype interfaces. That name is reached only when `inputs_to_copy` is non-empty (lines 171-174); otherwise lines 183-189 write `<nipype name=... use_default='true'>` elements. The reader checks `usedefault`, not `use_default`, so it never sees them, and the round trip is unaffected. The reader's `<nipype>` handling is modelled.
- `pipeline_dict` and `xml_dict` are left out. They are built but never written.
- `string_to_value`, `float` and `unicode` formatting are parameters, not models.
- `re.compile` and `re.search` on the search pattern are a parameter. A pattern that does not compile is not modelled.
- `str.strip` removes ASCII white space only, as Python 2 `str.strip` does. Unicode white space is not modelled.
- A `<set>` named like one of the reserved keyword arguments (`make_optional`, `inputs_to_copy`, `inputs_to_clean`, `iterative_plugs`) is not modelled. The outcome depends on the Python type of the converted value.
- Node kinds other than switch, process node and iteration are not modelled. Nor is `isinstance` beyond those three kinds.
- The pipeline builder (`PipelineConstructor`) is modelled only by the calls it receives, so errors it would raise later are not modelled. The same goes for `get_process_instance`.
- The inspector's warning widget and `capsul/api.py` are not part of this model.
- XmlWriter.LinkElement: writes a weak link's `weak` attribute as the string "1". The source sets the integer 1, which `ElementTree` cannot serialize, so saving a pipeline with a weak link fails at `tree.write`. The model writes the string so that the tree stays a value; `XmlRoundTrip.ReadSavedPipeline` requires `NoWeakLinks`, so its round trip covers only pipelines the source can save.
- ActivationReplay.ActivationInspector.UpdatePipelineActivation: requires that the pipeline's nodes and plugs are distinct objects (`Pipeline.Valid`). The source does not state this requirement, but `all_nodes()` and `plugs` give distinct objects.
- ActivationReplay.ActivationInspector.UpdatePipelineActivation: an out-of-range index returns `false` where the source raises `IndexError`.
- XmlRoundTrip.ReadSavedPipeline: requires that `float` inverts `unicode` on every written position and zoom level (`FloatsReadBack`). Python 2 `unicode` of a float keeps 12 significant digits, so for most values the coordinates and the zoom read back rounded; the model does not say how.
- Plug names: in the source a plug's name is its key in `node.plugs`. The model keeps the name in the plug itself and does not require the names to be distinct.

## Findings

| source | as written | input that shows it | evidently intended | confidence | as-written member | corrected member |
|---|---|---|---|---|---|---|
| capsul/wip/qt_gui/activation_inspector.py:293-301 | the backward search loops `while previous_activation_row > 0`, so row 0 is never examined | rows `["+ a:", "- a:"]`, current row 1, pattern `^\+`, which matches only row 0: `set_filter_pattern` finds nothing and stays on row 1 | the backward search also examines row 0, so the filter selects it | not executed | ActivationReplay.ActivationInspector.FindPrevious and ActivationReplay.ActivationInspector.SetFilterPattern (with ActivationReplay.PreviousSearchSkipsFirstRow) | ActivationReplay.ActivationInspector.FindPreviousCorrected and ActivationReplay.ActivationInspector.SetFilterPatternCorrected (with ActivationReplay.FilterSelectsMatch) |
