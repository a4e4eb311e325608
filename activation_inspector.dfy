/**
 * Replay of a recorded pipeline activation, as the activation inspector
 * does it.
 *
 * A record is a header line holding the pipeline id, then one line per
 * activation event `<iteration><c><node>[:<plug>]`, where `<c>` is `+` for
 * an activated key and any other character for a deactivated one.
 * Replaying the record builds one snapshot of the set of active
 * `"node:plug"` keys per event line, and one display item per line. Selecting
 * a snapshot sets the `activated` flags of the pipeline's nodes and plugs.
 * A forward and a backward search look for a pattern among the display
 * items.
 *
 * The Qt list widget is its item texts (`events`) and its current row; the
 * search pattern's `re.search` is the parameter `matches`.
 */
module ActivationReplay {
  import opened Base
  import opened PyString

  // ------------------------------------------------------------ one line

  predicate IsDigit(c: char) { '0' <= c <= '9' }

  /** The regular-expression class `[+-=]`: the character range from `+` to `=`, digits included. */
  predicate IsEventChar(c: char) { '+' <= c <= '=' }

  /** The class `[a-zA-Z_0-9]`. */
  predicate IsWordChar(c: char) { 'a' <= c <= 'z' || 'A' <= c <= 'Z' || c == '_' || IsDigit(c) }

  /** The class `[^:]`. */
  predicate NotColon(c: char) { c != ':' }

  /** The length of the longest prefix of `s` whose characters all satisfy `p`. */
  function Span(s: string, p: char -> bool): (n: nat)
    ensures n <= |s|
    ensures forall k :: 0 <= k < n ==> p(s[k])
    ensures n < |s| ==> !p(s[n])
  {
    if s == [] || !p(s[0]) then 0 else 1 + Span(s[1..], p)
  }

  /** The groups of a matched event line: the iteration, the event character, the node and the plug ("" when absent). */
  datatype Event = Event(iteration: string, activation: char, node: string, plug: string)

  /** `(\d+)([+-=])` can match `s[..k + 1]`: a non-empty run of digits, then an event character at `k`. */
  predicate SplitsAt(s: string, k: int) {
    1 <= k < |s| && (forall j :: 0 <= j < k ==> IsDigit(s[j])) && IsEventChar(s[k])
  }

  /**
   * The rest of the match once the event character is at `k`: `([^:]*)`
   * takes every character up to the first colon, and `(:([a-zA-Z_0-9]+))?`
   * takes a colon and the longest run of word characters after it, when that
   * run is not empty.
   */
  function EventAt(s: string, k: nat): Event
    requires k < |s|
  {
    var target := SplitTarget(s[k + 1..]);
    Event(s[..k], s[k], target.0, target.1)
  }

  /** The node and plug groups of what follows the event character. */
  function SplitTarget(rest: string): (string, string) {
    var n := Span(rest, NotColon);
    var after := rest[n..];
    var w := if after == [] then 0 else Span(after[1..], IsWordChar);
    (rest[..n], if w > 0 then after[1..][..w] else "")
  }

  /** The node group holds no colon, and the plug group only word characters. */
  lemma EventAtGroups(s: string, k: nat)
    requires k < |s|
    ensures var e := EventAt(s, k);
      && e.iteration == s[..k] && e.activation == s[k]
      && (forall i :: 0 <= i < |e.node| ==> e.node[i] != ':')
      && (forall i :: 0 <= i < |e.plug| ==> IsWordChar(e.plug[i]))
  {
  }

  /** `parser.match(line)` for `(\d+)([+-=])([^:]*)(:([a-zA-Z_0-9]+))?`. */
  function ParseEvent(s: string): Option<Event> {
    var d := Span(s, IsDigit);
    if 1 <= d < |s| && IsEventChar(s[d]) then Some(EventAt(s, d))
    else if d >= 2 then Some(EventAt(s, d - 1))
    else None
  }

  /**
   * There is a match exactly when a non-empty digit run can be followed by
   * an event character; the greedy `\d+` takes the longest such run, which
   * gives back its last digit as the event character when the character
   * after the digits is not an event character.
   */
  lemma ParseEventIsLongestMatch(s: string)
    ensures ParseEvent(s).Some? <==> exists k :: SplitsAt(s, k)
    ensures ParseEvent(s).Some? ==>
      var e := ParseEvent(s).value;
      && SplitsAt(s, |e.iteration|)
      && e == EventAt(s, |e.iteration|)
      && forall k :: SplitsAt(s, k) ==> k <= |e.iteration|
  {
    var d := Span(s, IsDigit);
    if 1 <= d < |s| && IsEventChar(s[d]) {
      assert SplitsAt(s, d);
    } else if d >= 2 {
      assert SplitsAt(s, d - 1);
    }
  }

  /** An event line as the recorder's format describes it. */
  function FormatEvent(e: Event): string {
    e.iteration + [e.activation] + e.node + (if e.plug == "" then "" else ":" + e.plug)
  }

  /** The events `FormatEvent` writes unambiguously. */
  predicate WellFormedEvent(e: Event) {
    && |e.iteration| >= 1 && (forall i :: 0 <= i < |e.iteration| ==> IsDigit(e.iteration[i]))
    && IsEventChar(e.activation) && !IsDigit(e.activation)
    && ':' !in e.node
    && (forall i :: 0 <= i < |e.plug| ==> IsWordChar(e.plug[i]))
  }

  lemma {:induction false} SpanOfPrefix(a: string, b: string, p: char -> bool)
    requires forall i :: 0 <= i < |a| ==> p(a[i])
    requires b != [] ==> !p(b[0])
    ensures Span(a + b, p) == |a|
    decreases |a|
  {
    if a == [] {
      assert a + b == b;
    } else {
      assert (a + b)[0] == a[0] && (a + b)[1..] == a[1..] + b;
      SpanOfPrefix(a[1..], b, p);
    }
  }

  lemma SplitFormattedTarget(node: string, plug: string)
    requires ':' !in node && forall i :: 0 <= i < |plug| ==> IsWordChar(plug[i])
    ensures SplitTarget(node + (if plug == "" then "" else ":" + plug)) == (node, plug)
  {
    var tail := if plug == "" then "" else ":" + plug;
    var rest := node + tail;
    forall i | 0 <= i < |node| ensures NotColon(node[i]) {
      assert node[i] in node;
    }
    SpanOfPrefix(node, tail, NotColon);
    assert rest[..|node|] == node;
    assert rest[|node|..] == tail;
    if plug != "" {
      assert tail[1..] == plug + [];
      SpanOfPrefix(plug, [], IsWordChar);
    }
  }

  /** What follows the event character of a formatted event splits back into its node and plug. */
  lemma EventAtFormatted(e: Event)
    requires WellFormedEvent(e)
    ensures EventAt(FormatEvent(e), |e.iteration|) == e
  {
    var tail := if e.plug == "" then "" else ":" + e.plug;
    var s := FormatEvent(e);
    var k := |e.iteration|;
    assert s == e.iteration + [e.activation] + (e.node + tail);
    assert s[k + 1..] == e.node + tail;
    assert s[..k] == e.iteration;
    SplitFormattedTarget(e.node, e.plug);
  }

  /** A well-formed event line parses back to the event it was formatted from. */
  lemma ParseFormattedEvent(e: Event)
    requires WellFormedEvent(e)
    ensures ParseEvent(FormatEvent(e)) == Some(e)
  {
    var s := FormatEvent(e);
    var more := [e.activation] + e.node + (if e.plug == "" then "" else ":" + e.plug);
    assert s == e.iteration + more;
    SpanOfPrefix(e.iteration, more, IsDigit);
    assert s[|e.iteration|] == e.activation;
    EventAtFormatted(e);
  }

  // ------------------------------------------------------------ a record

  /** The key of a plug in a snapshot: `"{0}:{1}".format(node, plug)`. */
  function ActivationKey(node: string, plug: string): string {
    node + ":" + plug
  }

  /** The display item of an event: `"{0} {1}:{2}".format(activation, node, plug)`. */
  function DisplayItem(e: Event): string {
    [e.activation] + " " + e.node + ":" + e.plug
  }

  /** The exceptions `refresh_activation_from_record` can raise. */
  datatype RecordError =
    | HeaderMismatch(recorded: string, expected: string)  // ValueError: the record is for another pipeline
    | UnparsableLine(line: string)                        // the match is None, so `.groups()` fails
    | MissingKey(key: string)                             // `del` of a key that is not active: KeyError

  /** The header of a record: its first line, stripped (`readline()` gives "" on an empty file). */
  function RecordHeader(record: seq<string>): string {
    if record == [] then "" else Strip(record[0])
  }

  /** The event lines of a record: every line after the header. */
  function RecordLines(record: seq<string>): seq<string> {
    if record == [] then [] else record[1..]
  }

  /** An event line, stripped, then matched. */
  function ParseLine(line: string): (r: Result<Event, RecordError>)
    ensures r.Ok? <==> ParseEvent(Strip(line)).Some?
    ensures r.Err? ==> r.error == UnparsableLine(line)
  {
    match ParseEvent(Strip(line))
    case None => Err(UnparsableLine(line))
    case Some(e) => Ok(e)
  }

  /** Every event line, stripped and matched (the replay stops at the first line that fails either way). */
  function ParseLines(lines: seq<string>): seq<Result<Event, RecordError>> {
    seq(|lines|, i requires 0 <= i < |lines| => ParseLine(lines[i]))
  }

  /** One event applied to the set of active keys (the keys of `current_activations`, whose values are all `True`). */
  function ApplyEvent(current: set<string>, e: Event): (r: Result<set<string>, RecordError>)
    ensures r.Err? <==> e.activation != '+' && ActivationKey(e.node, e.plug) !in current
    ensures r.Err? ==> r.error == MissingKey(ActivationKey(e.node, e.plug))
    ensures r.Ok? ==> (ActivationKey(e.node, e.plug) in r.value <==> e.activation == '+')
    ensures r.Ok? ==> r.value - {ActivationKey(e.node, e.plug)} == current - {ActivationKey(e.node, e.plug)}
  {
    var key := ActivationKey(e.node, e.plug);
    if e.activation == '+' then Ok(current + {key})
    else if key in current then Ok(current - {key})
    else Err(MissingKey(key))
  }

  /** What replaying event lines produces: the snapshots and display items of the lines read, and the error that stopped the replay. */
  datatype Replay = Replay(snapshots: seq<set<string>>, items: seq<string>, failure: Option<RecordError>)

  /**
   * The parsed event lines replayed from the set `current`: one snapshot and
   * one item per line, in order, until a line fails.
   */
  function ReplayFrom(parsed: seq<Result<Event, RecordError>>, current: set<string>): (r: Replay)
    ensures |r.snapshots| == |r.items| <= |parsed|
    ensures r.failure.None? <==> |r.snapshots| == |parsed|
    decreases |parsed|
  {
    if parsed == [] then Replay([], [], None)
    else
      match parsed[0]
      case Err(err) => Replay([], [], Some(err))
      case Ok(e) =>
        match ApplyEvent(current, e)
        case Err(err) => Replay([], [], Some(err))
        case Ok(next) =>
          var rest := ReplayFrom(parsed[1..], next);
          Replay([next] + rest.snapshots, [DisplayItem(e)] + rest.items, rest.failure)
  }

  /** The first parsed line of a replay decides how it starts. */
  lemma ReplayHead(parsed: seq<Result<Event, RecordError>>, current: set<string>)
    requires parsed != []
    ensures parsed[0].Err? ==> ReplayFrom(parsed, current) == Replay([], [], Some(parsed[0].error))
    ensures parsed[0].Ok? && ApplyEvent(current, parsed[0].value).Err? ==>
      ReplayFrom(parsed, current) == Replay([], [], Some(ApplyEvent(current, parsed[0].value).error))
    ensures parsed[0].Ok? && ApplyEvent(current, parsed[0].value).Ok? ==>
      var next := ApplyEvent(current, parsed[0].value).value;
      var rest := ReplayFrom(parsed[1..], next);
      ReplayFrom(parsed, current) == Replay([next] + rest.snapshots, [DisplayItem(parsed[0].value)] + rest.items, rest.failure)
  {
  }

  /** The snapshot before line `i`. */
  function Before(r: Replay, current: set<string>, i: nat): set<string>
    requires i <= |r.snapshots|
  {
    if i == 0 then current else r.snapshots[i - 1]
  }

  /** Line `i` of a replay that got past it parsed, and its event applied to the snapshot before it gives its snapshot. */
  lemma {:induction false} ReplayApplies(parsed: seq<Result<Event, RecordError>>, current: set<string>, i: nat)
    requires i < |ReplayFrom(parsed, current).snapshots|
    ensures var r := ReplayFrom(parsed, current);
      && parsed[i].Ok?
      && ApplyEvent(Before(r, current, i), parsed[i].value) == Ok(r.snapshots[i])
      && r.items[i] == DisplayItem(parsed[i].value)
    decreases i
  {
    var r := ReplayFrom(parsed, current);
    var next := ApplyEvent(current, parsed[0].value).value;
    var rest := ReplayFrom(parsed[1..], next);
    assert r.snapshots == [next] + rest.snapshots && r.items == [DisplayItem(parsed[0].value)] + rest.items;
    if i > 0 {
      ReplayApplies(parsed[1..], next, i - 1);
      assert parsed[1..][i - 1] == parsed[i];
      assert Before(rest, next, i - 1) == Before(r, current, i);
    }
  }

  /**
   * Each snapshot is the one before it with the line's key added, for a `+`
   * event, or with the key removed, for any other event character, the key
   * having been active; each item is the line's display item.
   */
  lemma ReplayStep(lines: seq<string>, current: set<string>, i: nat)
    requires i < |ReplayFrom(ParseLines(lines), current).snapshots|
    ensures var r := ReplayFrom(ParseLines(lines), current);
      && ParseLine(lines[i]).Ok?
      && var e := ParseLine(lines[i]).value;
         var key := ActivationKey(e.node, e.plug);
         && (e.activation == '+' ==> r.snapshots[i] == Before(r, current, i) + {key})
         && (e.activation != '+' ==> key in Before(r, current, i) && r.snapshots[i] == Before(r, current, i) - {key})
         && r.items[i] == DisplayItem(e)
  {
    ReplayApplies(ParseLines(lines), current, i);
  }

  lemma {:induction false} ReplayStopsAt(parsed: seq<Result<Event, RecordError>>, current: set<string>)
    requires ReplayFrom(parsed, current).failure.Some?
    ensures var r := ReplayFrom(parsed, current);
      var n := |r.snapshots|;
      && n < |parsed|
      && (parsed[n].Err? ==> r.failure == Some(parsed[n].error))
      && (parsed[n].Ok? ==> ApplyEvent(Before(r, current, n), parsed[n].value).Err?
                            && r.failure == Some(ApplyEvent(Before(r, current, n), parsed[n].value).error))
    decreases |parsed|
  {
    var r := ReplayFrom(parsed, current);
    if parsed[0].Ok? && ApplyEvent(current, parsed[0].value).Ok? {
      var next := ApplyEvent(current, parsed[0].value).value;
      var rest := ReplayFrom(parsed[1..], next);
      assert r.snapshots == [next] + rest.snapshots && r.failure == rest.failure;
      ReplayStopsAt(parsed[1..], next);
      assert parsed[1..][|rest.snapshots|] == parsed[|rest.snapshots| + 1];
      assert Before(rest, next, |rest.snapshots|) == Before(r, current, |rest.snapshots| + 1);
    }
  }

  /** A replay stops at the first line that does not match, or whose removed key is not active. */
  lemma ReplayStopsAtFailure(lines: seq<string>, current: set<string>)
    ensures var r := ReplayFrom(ParseLines(lines), current);
      var n := |r.snapshots|;
      r.failure.Some? ==>
      && n < |lines|
      && (ParseLine(lines[n]).Err? ==> r.failure == Some(UnparsableLine(lines[n])))
      && (ParseLine(lines[n]).Ok? ==>
            var e := ParseLine(lines[n]).value;
            var key := ActivationKey(e.node, e.plug);
            e.activation != '+' && key !in Before(r, current, n) && r.failure == Some(MissingKey(key)))
  {
    if ReplayFrom(ParseLines(lines), current).failure.Some? {
      ReplayStopsAt(ParseLines(lines), current);
    }
  }

  /** Snapshots are independent copies: reading further lines never changes the snapshots and items already produced. */
  lemma {:induction false} ReplayPrefix(parsed: seq<Result<Event, RecordError>>, more: seq<Result<Event, RecordError>>, current: set<string>)
    ensures ReplayFrom(parsed, current).snapshots <= ReplayFrom(parsed + more, current).snapshots
    ensures ReplayFrom(parsed, current).items <= ReplayFrom(parsed + more, current).items
    decreases |parsed|
  {
    if parsed != [] {
      assert (parsed + more)[0] == parsed[0] && (parsed + more)[1..] == parsed[1..] + more;
      if parsed[0].Ok? && ApplyEvent(current, parsed[0].value).Ok? {
        ReplayPrefix(parsed[1..], more, ApplyEvent(current, parsed[0].value).value);
      }
    }
  }

  /** The snapshots and items read before a replay, then the replay. */
  function Prepend(snapshots: seq<set<string>>, items: seq<string>, r: Replay): Replay {
    Replay(snapshots + r.snapshots, items + r.items, r.failure)
  }

  lemma PrependStep(snapshots: seq<set<string>>, items: seq<string>, next: set<string>, item: string, rest: Replay)
    ensures Prepend(snapshots, items, Replay([next] + rest.snapshots, [item] + rest.items, rest.failure))
         == Prepend(snapshots + [next], items + [item], rest)
  {
    assert snapshots + ([next] + rest.snapshots) == (snapshots + [next]) + rest.snapshots;
    assert items + ([item] + rest.items) == (items + [item]) + rest.items;
  }

  lemma PrependEmpty(r: Replay)
    ensures Prepend([], [], r) == r
  {
    assert [] + r.snapshots == r.snapshots && [] + r.items == r.items;
  }

  lemma PrependNothing(snapshots: seq<set<string>>, items: seq<string>, err: RecordError)
    ensures Prepend(snapshots, items, Replay([], [], Some(err))) == Replay(snapshots, items, Some(err))
    ensures Prepend(snapshots, items, Replay([], [], None)) == Replay(snapshots, items, None)
  {
    assert snapshots + [] == snapshots && items + [] == items;
  }

  /** A line that parses and applies moves its snapshot and item to the part already read. */
  lemma ReplayAdvances(parsed: seq<Result<Event, RecordError>>, i: nat, snapshots: seq<set<string>>, items: seq<string>,
                       before: set<string>, next: set<string>, e: Event)
    requires i < |parsed| && parsed[i] == Ok(e) && ApplyEvent(before, e) == Ok(next)
    ensures Prepend(snapshots, items, ReplayFrom(parsed[i..], before))
         == Prepend(snapshots + [next], items + [DisplayItem(e)], ReplayFrom(parsed[i + 1..], next))
  {
    assert parsed[i..][0] == parsed[i] && parsed[i..][1..] == parsed[i + 1..];
    ReplayHead(parsed[i..], before);
    PrependStep(snapshots, items, next, DisplayItem(e), ReplayFrom(parsed[i + 1..], next));
  }

  /** A line that does not parse, or does not apply, ends the replay with its error. */
  lemma ReplayHalts(parsed: seq<Result<Event, RecordError>>, i: nat, snapshots: seq<set<string>>, items: seq<string>,
                    before: set<string>, err: RecordError)
    requires i < |parsed|
    requires parsed[i] == Err(err) || (parsed[i].Ok? && ApplyEvent(before, parsed[i].value) == Err(err))
    ensures Prepend(snapshots, items, ReplayFrom(parsed[i..], before)) == Replay(snapshots, items, Some(err))
  {
    assert parsed[i..][0] == parsed[i];
    ReplayHead(parsed[i..], before);
    PrependNothing(snapshots, items, err);
  }

  /** Once every line is read, the replay is what was read. */
  lemma ReplayEnds(parsed: seq<Result<Event, RecordError>>, snapshots: seq<set<string>>, items: seq<string>, current: set<string>)
    ensures Prepend(snapshots, items, ReplayFrom(parsed[|parsed|..], current)) == Replay(snapshots, items, None)
  {
    assert parsed[|parsed|..] == [];
    assert snapshots + [] == snapshots && items + [] == items;
  }

  /**
   * The loop of `refresh_activation_from_record` over the event lines: each
   * line is stripped and matched, the key is added for `+` and deleted
   * otherwise, a copy of the active keys is pushed and a display item added.
   * It stops at the first line that does not match or deletes a missing key.
   */
  method ReplayLines(lines: seq<string>) returns (snapshots: seq<set<string>>, items: seq<string>, failure: Option<RecordError>)
    ensures Replay(snapshots, items, failure) == ReplayFrom(ParseLines(lines), {})
  {
    ghost var parsed := ParseLines(lines);
    snapshots, items := [], [];
    var current: set<string> := {};
    var i := 0;
    assert parsed[i..] == parsed;
    PrependEmpty(ReplayFrom(parsed, {}));
    while i < |lines|
      invariant 0 <= i <= |lines|
      invariant ReplayFrom(parsed, {}) == Prepend(snapshots, items, ReplayFrom(parsed[i..], current))
    {
      var line := lines[i];
      assert parsed[i] == ParseLine(line);
      var match_ := ParseEvent(Strip(line));
      if match_.None? {
        ReplayHalts(parsed, i, snapshots, items, current, UnparsableLine(line));
        return snapshots, items, Some(UnparsableLine(line));
      }
      var e := match_.value;
      var key := ActivationKey(e.node, e.plug);
      if e.activation != '+' && key !in current {
        ReplayHalts(parsed, i, snapshots, items, current, MissingKey(key));
        return snapshots, items, Some(MissingKey(key));
      }
      var next := if e.activation == '+' then current + {key} else current - {key};
      ReplayAdvances(parsed, i, snapshots, items, current, next, e);
      current := next;
      snapshots := snapshots + [current];
      items := items + [DisplayItem(e)];
      i := i + 1;
    }
    ReplayEnds(parsed, snapshots, items, current);
    failure := None;
  }

  // ------------------------------------------------------------ searches

  /** The first row at or after `start` whose text matches, as `find_next`'s loop looks for it. */
  function NextMatch(texts: seq<string>, start: nat, pattern: string, matches: (string, string) -> bool): (r: Option<nat>)
    ensures r.Some? ==> start <= r.value < |texts| && matches(pattern, texts[r.value])
    ensures r.Some? ==> forall k :: start <= k < r.value ==> !matches(pattern, texts[k])
    ensures r.None? ==> forall k :: start <= k < |texts| ==> !matches(pattern, texts[k])
    decreases |texts| - start
  {
    if start >= |texts| then None
    else if matches(pattern, texts[start]) then Some(start)
    else NextMatch(texts, start + 1, pattern, matches)
  }

  /** The last row from `start` down to `lowest` whose text matches. */
  function PreviousMatch(texts: seq<string>, start: int, lowest: nat, pattern: string, matches: (string, string) -> bool): (r: Option<nat>)
    requires start < |texts|
    ensures r.Some? ==> lowest <= r.value <= start && matches(pattern, texts[r.value])
    ensures r.Some? ==> forall k :: r.value < k <= start ==> !matches(pattern, texts[k])
    ensures r.None? ==> forall k :: lowest <= k <= start ==> !matches(pattern, texts[k])
    decreases start - lowest
  {
    if start < lowest then None
    else if matches(pattern, texts[start]) then Some(start)
    else PreviousMatch(texts, start - 1, lowest, pattern, matches)
  }

  /** The row `set_filter_pattern` selects from `row`: the next match, else the previous one searched down to `lowest`, else `row`. */
  function FilterSelection(texts: seq<string>, row: int, lowest: nat, pattern: string, matches: (string, string) -> bool): (r: int)
    requires -1 <= row < |texts|
    ensures -1 <= r < |texts|
    ensures r != row ==> 0 <= r && matches(pattern, texts[r])
    ensures r > row ==> forall k :: row < k < r ==> !matches(pattern, texts[k])
    ensures r < row ==> lowest <= r && forall k :: row < k < |texts| || r < k < row ==> !matches(pattern, texts[k])
    ensures r == row ==> forall k :: row < k < |texts| || lowest <= k < row ==> !matches(pattern, texts[k])
  {
    match NextMatch(texts, row + 1, pattern, matches)
    case Some(r) => r
    case None =>
      match PreviousMatch(texts, row - 1, lowest, pattern, matches)
      case Some(r) => r
      case None => row
  }

  /** With the backward search reaching row 0, a pattern matching any row other than the current one is selected. */
  lemma FilterSelectsMatch(texts: seq<string>, row: int, pattern: string, matches: (string, string) -> bool)
    requires -1 <= row < |texts|
    requires exists k :: 0 <= k < |texts| && k != row && matches(pattern, texts[k])
    ensures 0 <= FilterSelection(texts, row, 0, pattern, matches) < |texts|
    ensures matches(pattern, texts[FilterSelection(texts, row, 0, pattern, matches)])
  {
    var k :| 0 <= k < |texts| && k != row && matches(pattern, texts[k]);
    if NextMatch(texts, row + 1, pattern, matches).None? {
      assert k < row;
    }
  }

  /**
   * `find_previous` as written stops before row 0: with two rows, the
   * current one being row 1 and only row 0 matching the pattern `^\+`
   * (`re.search` of it holds exactly for a text starting with `+`), it finds nothing and
   * `set_filter_pattern` stays on a row that does not match, while a search
   * reaching row 0 selects row 0.
   */
  lemma PreviousSearchSkipsFirstRow()
    ensures var texts := ["+ a:", "- a:"];
      var matches := (p: string, t: string) => p == "^\\+" && |t| > 0 && t[0] == '+';
      && PreviousMatch(texts, 0, 1, "^\\+", matches).None?
      && PreviousMatch(texts, 0, 0, "^\\+", matches) == Some(0)
      && FilterSelection(texts, 1, 1, "^\\+", matches) == 1
      && !matches("^\\+", texts[1])
      && FilterSelection(texts, 1, 0, "^\\+", matches) == 0
  {
    var texts := ["+ a:", "- a:"];
    var matches := (p: string, t: string) => p == "^\\+" && |t| > 0 && t[0] == '+';
    assert !matches("^\\+", texts[1]);
    assert NextMatch(texts, 2, "^\\+", matches).None?;
    assert PreviousMatch(texts, -1, 0, "^\\+", matches).None?;
  }

  // ------------------------------------------------------- the objects

  /** A pipeline plug; its `activated` flag is what the replay sets. */
  class Plug {
    const name: string
    var activated: bool

    constructor(name: string)
      ensures this.name == name && !activated
    {
      this.name := name;
      activated := false;
    }
  }

  /** A pipeline node, known by its `full_name`, with its plugs. */
  class Node {
    const fullName: string
    const plugs: seq<Plug>
    var activated: bool

    constructor(fullName: string, plugs: seq<Plug>)
      ensures this.fullName == fullName && this.plugs == plugs && !activated
    {
      this.fullName := fullName;
      this.plugs := plugs;
      activated := false;
    }
  }

  /** A pipeline, as the inspector sees it: its `id` and `all_nodes()`. */
  class Pipeline {
    const id: string
    const nodes: seq<Node>

    constructor(id: string, nodes: seq<Node>)
      ensures this.id == id && this.nodes == nodes
    {
      this.id := id;
      this.nodes := nodes;
    }

    /** Every node and every plug is a distinct object. */
    ghost predicate Valid() {
      && (forall i, j :: 0 <= i < j < |nodes| ==> nodes[i] != nodes[j])
      && (forall i, j, a, b ::
            0 <= i < |nodes| && 0 <= j < |nodes| && 0 <= a < |nodes[i].plugs| && 0 <= b < |nodes[j].plugs| && (i != j || a != b)
            ==> nodes[i].plugs[a] != nodes[j].plugs[b])
    }

    /** The nodes and plugs, whose flags the replay sets. */
    ghost function Objects(): set<object> {
      (set i | 0 <= i < |nodes| :: nodes[i] as object)
        + (set i, a | 0 <= i < |nodes| && 0 <= a < |nodes[i].plugs| :: nodes[i].plugs[a] as object)
    }

    /** Every node, and every plug of it, reflects the snapshot. */
    ghost predicate Reflects(snapshot: set<string>)
      reads Objects()
    {
      forall i :: 0 <= i < |nodes| ==> (NodeObjects(i); NodeReflects(nodes[i], snapshot))
    }

    lemma NodeObjects(i: int)
      requires 0 <= i < |nodes|
      ensures nodes[i] in Objects() && PlugObjects(nodes[i]) <= Objects()
    {
      forall o | o in PlugObjects(nodes[i]) ensures o in Objects() {
        var a :| 0 <= a < |nodes[i].plugs| && o == nodes[i].plugs[a];
      }
    }

    /** Two different nodes share no flag-holding object. */
    lemma NodesDisjoint(i: int, j: int)
      requires Valid() && 0 <= i < |nodes| && 0 <= j < |nodes| && i != j
      ensures nodes[i] != nodes[j] && nodes[i] !in PlugObjects(nodes[j]) && PlugObjects(nodes[i]) !! PlugObjects(nodes[j])
    {
    }
  }

  /** The plugs of a node, whose flags `update_pipeline_activation` sets. */
  ghost function PlugObjects(node: Node): set<object> {
    set a | 0 <= a < |node.plugs| :: node.plugs[a] as object
  }

  /** Every plug of `node` is active exactly when its `"node:plug"` key is in the snapshot, and the node exactly when its `"node:"` key is. */
  ghost predicate NodeReflects(node: Node, snapshot: set<string>)
    reads node, PlugObjects(node)
  {
    && (forall b :: 0 <= b < |node.plugs| ==>
          node.plugs[b].activated == (ActivationKey(node.fullName, node.plugs[b].name) in snapshot))
    && node.activated == (ActivationKey(node.fullName, "") in snapshot)
  }

  /** One iteration of the outer loop of `update_pipeline_activation`: the flags of one node and its plugs are restored from the snapshot. */
  method RestoreNode(node: Node, snapshot: set<string>)
    requires forall a, b :: 0 <= a < b < |node.plugs| ==> node.plugs[a] != node.plugs[b]
    modifies node, PlugObjects(node)
    ensures NodeReflects(node, snapshot)
  {
    var a := 0;
    while a < |node.plugs|
      invariant 0 <= a <= |node.plugs|
      invariant forall b :: 0 <= b < a ==> node.plugs[b].activated == (ActivationKey(node.fullName, node.plugs[b].name) in snapshot)
    {
      var plug := node.plugs[a];
      assert plug in PlugObjects(node);
      plug.activated := ActivationKey(node.fullName, plug.name) in snapshot;
      a := a + 1;
    }
    node.activated := ActivationKey(node.fullName, "") in snapshot;
  }

  /**
   * Python's `xs[index]` on a list of length `n`: the one position of the
   * list that is congruent to `index` modulo `n`.
   */
  function PyIndex(index: int, n: nat): (k: nat)
    requires -(n as int) <= index < n
    ensures k < n && (k - index) % n == 0
  {
    if index < 0 then n + index else index
  }

  /** The inspector: the item texts of the `events` list, its current row, the snapshot stack and the text of the `pattern` field. */
  class ActivationInspector {
    const pipeline: Pipeline
    var events: seq<string>
    var currentRow: int
    var activations: seq<set<string>>
    var pattern: string

    /** The current row is a row of the list or -1, and there is one snapshot per row. */
    ghost predicate Valid()
      reads this
    {
      -1 <= currentRow < |events| && |activations| == |events|
    }

    constructor(pipeline: Pipeline)
      ensures Valid()
      ensures this.pipeline == pipeline && events == [] && currentRow == -1 && activations == [] && pattern == ""
    {
      this.pipeline := pipeline;
      events := [];
      currentRow := -1;
      activations := [];
      pattern := "";
    }

    /**
     * `refresh_activation_from_record` on the record's lines. A record for
     * another pipeline changes nothing. Otherwise the list and the snapshot
     * stack are rebuilt; after a failing line they hold what was read before
     * it and no row is selected, and after a full replay the last row is.
     */
    method RefreshActivationFromRecord(record: seq<string>) returns (err: Option<RecordError>)
      requires Valid()
      modifies this
      ensures Valid()
      ensures pattern == old(pattern)
      ensures RecordHeader(record) != pipeline.id ==>
        err == Some(HeaderMismatch(RecordHeader(record), pipeline.id)) && unchanged(this)
      ensures RecordHeader(record) == pipeline.id ==>
        var r := ReplayFrom(ParseLines(RecordLines(record)), {});
        && events == r.items && activations == r.snapshots && err == r.failure
        && currentRow == (if err.None? then |events| - 1 else -1)
    {
      var header := RecordHeader(record);
      if header != pipeline.id {
        return Some(HeaderMismatch(header, pipeline.id));
      }
      var lines := RecordLines(record);
      events := [];
      currentRow := -1;
      var snapshots, items, failure := ReplayLines(lines);
      activations := snapshots;
      events := items;
      currentRow := if failure.None? then |events| - 1 else -1;
      return failure;
    }

    /**
     * `update_pipeline_activation(index)`: snapshot `index`, counted from the
     * end when negative, is copied onto every plug and node flag; an index
     * out of range raises and changes nothing.
     */
    method UpdatePipelineActivation(index: int) returns (ok: bool)
      requires pipeline.Valid()
      modifies pipeline.Objects()
      ensures ok <==> -|activations| <= index < |activations|
      ensures ok ==> pipeline.Reflects(activations[PyIndex(index, |activations|)])
      ensures !ok ==> unchanged(pipeline.Objects())
    {
      if !(-|activations| <= index < |activations|) {
        return false;
      }
      var snapshot := activations[if index < 0 then index + |activations| else index];
      var nodes := pipeline.nodes;
      var i := 0;
      while i < |nodes|
        invariant 0 <= i <= |nodes|
        invariant forall n :: 0 <= n < i ==> NodeReflects(nodes[n], snapshot)
      {
        var node := nodes[i];
        pipeline.NodeObjects(i);
        forall n | 0 <= n < i {
          pipeline.NodesDisjoint(n, i);
        }
        RestoreNode(node, snapshot);
        i := i + 1;
      }
      return true;
    }

    /** `find_next`: select the first row after the current one whose text matches the pattern. */
    method FindNext(matches: (string, string) -> bool) returns (found: int)
      requires Valid()
      modifies this`currentRow
      ensures Valid()
      ensures var m := NextMatch(events, old(currentRow) + 1, pattern, matches);
        && found == (if m.Some? then 1 else 0)
        && currentRow == (if m.Some? then m.value else old(currentRow))
    {
      var row := currentRow + 1;
      while row < |events|
        invariant currentRow + 1 <= row <= |events|
        invariant NextMatch(events, currentRow + 1, pattern, matches) == NextMatch(events, row, pattern, matches)
        decreases |events| - row
      {
        if matches(pattern, events[row]) {
          currentRow := row;
          return 1;
        }
        row := row + 1;
      }
      return 0;
    }

    /** `find_previous` as written: the rows before the current one are searched down to row 1 only. */
    method FindPrevious(matches: (string, string) -> bool) returns (found: int)
      requires Valid()
      modifies this`currentRow
      ensures Valid()
      ensures var m := PreviousMatch(events, old(currentRow) - 1, 1, pattern, matches);
        && found == (if m.Some? then 1 else 0)
        && currentRow == (if m.Some? then m.value else old(currentRow))
    {
      var row := currentRow - 1;
      while row > 0
        invariant row <= currentRow - 1
        invariant PreviousMatch(events, currentRow - 1, 1, pattern, matches) == PreviousMatch(events, row, 1, pattern, matches)
        decreases row
      {
        if matches(pattern, events[row]) {
          currentRow := row;
          return 1;
        }
        row := row - 1;
      }
      return 0;
    }

    /** The backward search as intended: the rows before the current one, down to row 0. */
    method FindPreviousCorrected(matches: (string, string) -> bool) returns (found: int)
      requires Valid()
      modifies this`currentRow
      ensures Valid()
      ensures var m := PreviousMatch(events, old(currentRow) - 1, 0, pattern, matches);
        && found == (if m.Some? then 1 else 0)
        && currentRow == (if m.Some? then m.value else old(currentRow))
    {
      var row := currentRow - 1;
      while row >= 0
        invariant row <= currentRow - 1
        invariant PreviousMatch(events, currentRow - 1, 0, pattern, matches) == PreviousMatch(events, row, 0, pattern, matches)
        decreases row + 1
      {
        if matches(pattern, events[row]) {
          currentRow := row;
          return 1;
        }
        row := row - 1;
      }
      return 0;
    }

    /** `set_filter_pattern`: show the pattern, then search forward and, when that fails, backward with `find_previous` as written. */
    method SetFilterPattern(filterPattern: string, matches: (string, string) -> bool)
      requires Valid()
      modifies this`pattern, this`currentRow
      ensures Valid()
      ensures pattern == filterPattern
      ensures currentRow == FilterSelection(events, old(currentRow), 1, filterPattern, matches)
    {
      pattern := filterPattern;
      var found := FindNext(matches);
      if found == 0 {
        found := FindPrevious(matches);
      }
    }

    /** `set_filter_pattern` with the backward search reaching row 0. */
    method SetFilterPatternCorrected(filterPattern: string, matches: (string, string) -> bool)
      requires Valid()
      modifies this`pattern, this`currentRow
      ensures Valid()
      ensures pattern == filterPattern
      ensures currentRow == FilterSelection(events, old(currentRow), 0, filterPattern, matches)
    {
      pattern := filterPattern;
      var found := FindNext(matches);
      if found == 0 {
        found := FindPreviousCorrected(matches);
      }
    }
  }
}
