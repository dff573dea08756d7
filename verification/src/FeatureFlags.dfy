/** Turning two flags on in the `[features]` table of a TOML text, line by line. */
module FeatureFlags {
  import opened Prelude
  import opened Text

  datatype Flag = Hooks | MultiAgent

  function Name(flag: Flag): string {
    match flag
    case Hooks => "hooks"
    case MultiAgent => "multi_agent"
  }

  /** What the merge asks of a line: the flag it assigns is the key with one space before the equals sign. */
  datatype Kind = Blank | Features | Table | Assignment(flag: Flag) | Other

  datatype Line = Line(text: string, kind: Kind)

  function KindOf(l: string): Kind {
    var t := Trim(l);
    if t == "" then Blank
    else if t == "[features]" then Features
    else if t[0] == '[' then Table
    else if Name(Hooks) + " =" <= t then Assignment(Hooks)
    else if Name(MultiAgent) + " =" <= t then Assignment(MultiAgent)
    else Other
  }

  function OnText(flag: Flag): string {
    match flag
    case Hooks => "hooks = true"
    case MultiAgent => "multi_agent = true"
  }

  function On(flag: Flag): Line {
    Line(OnText(flag), Assignment(flag))
  }

  const HEADER := Line("[features]", Features)
  const GAP := Line("", Blank)

  predicate OpensTable(l: Line) {
    l.kind.Features? || l.kind.Table?
  }

  function FeaturesAt(lines: seq<Line>): (i: Option<nat>)
    ensures i.Some? ==> i.value < |lines| && lines[i.value].kind.Features?
  {
    if lines == [] then None
    else if lines[0].kind.Features? then Some(0)
    else
      match FeaturesAt(lines[1..])
      case None => None
      case Some(i) => Some(i + 1)
  }

  /** The next table header at or after `i`, or the end. */
  function TableEnd(lines: seq<Line>, i: nat): (e: nat)
    requires i <= |lines|
    ensures i <= e <= |lines|
    decreases |lines| - i
  {
    if i < |lines| && !OpensTable(lines[i]) then TableEnd(lines, i + 1) else i
  }

  function WithoutBlanks(lines: seq<Line>, first: nat, end: nat): (e: nat)
    requires first <= end <= |lines|
    ensures first <= e <= end
  {
    if end > first && lines[end - 1].kind.Blank? then WithoutBlanks(lines, first, end - 1) else end
  }

  function BodyEnd(lines: seq<Line>, start: nat): (e: nat)
    requires start < |lines|
    ensures start < e <= |lines|
  {
    WithoutBlanks(lines, start + 1, TableEnd(lines, start + 1))
  }

  function FindFlag(lines: seq<Line>, i: nat, end: nat, flag: Flag): (r: Option<nat>)
    requires i <= end <= |lines|
    ensures r.Some? ==> i <= r.value < end && lines[r.value].kind == Assignment(flag)
    decreases end - i
  {
    if i == end then None else if lines[i].kind == Assignment(flag) then Some(i) else FindFlag(lines, i + 1, end, flag)
  }

  /** Rewrites the first assignment of the flag in the table, or adds one at the table's end. */
  function TurnOn(lines: seq<Line>, start: nat, end: nat, flag: Flag): (r: (seq<Line>, nat))
    requires start < end <= |lines|
    ensures start < r.1 <= |r.0|
  {
    match FindFlag(lines, start + 1, end, flag)
    case Some(i) => (lines[i := On(flag)], end)
    case None => (lines[..end] + [On(flag)] + lines[end..], end + 1)
  }

  /** A new table at the end of the text, after an empty line unless there is one. */
  function WithTable(lines: seq<Line>): seq<Line> {
    (if lines != [] && lines[|lines| - 1].text != "" then lines + [GAP] else lines) +
      [HEADER, On(Hooks), On(MultiAgent)]
  }

  function MergeLines(lines: seq<Line>): seq<Line> {
    match FeaturesAt(lines)
    case None => WithTable(lines)
    case Some(start) =>
      var (hooked, end) := TurnOn(lines, start, BodyEnd(lines, start), Hooks);
      TurnOn(hooked, start, end, MultiAgent).0
  }

  // ---- the loops ----

  method FindEnd(lines: seq<Line>, start: nat) returns (end: nat)
    requires start < |lines|
    ensures end == BodyEnd(lines, start)
  {
    end := start + 1;
    while end < |lines| && !OpensTable(lines[end])
      invariant start + 1 <= end <= |lines|
      invariant TableEnd(lines, end) == TableEnd(lines, start + 1)
    {
      end := end + 1;
    }
    while end > start + 1 && lines[end - 1].kind.Blank?
      invariant start + 1 <= end <= |lines|
      invariant WithoutBlanks(lines, start + 1, end) == BodyEnd(lines, start)
    {
      end := end - 1;
    }
  }

  method FindFlagLine(lines: seq<Line>, start: nat, end: nat, flag: Flag) returns (r: Option<nat>)
    requires start < end <= |lines|
    ensures r == FindFlag(lines, start + 1, end, flag)
  {
    for i := start + 1 to end
      invariant FindFlag(lines, start + 1, end, flag) == FindFlag(lines, i, end, flag)
    {
      if lines[i].kind == Assignment(flag) { return Some(i); }
    }
    r := None;
  }

  method FindFeatures(lines: seq<Line>) returns (r: Option<nat>)
    ensures r == FeaturesAt(lines)
  {
    for i := 0 to |lines|
      invariant FeaturesAt(lines) == match FeaturesAt(lines[i..]) case None => None case Some(n) => Some(i + n)
    {
      assert lines[i..][1..] == lines[i + 1..];
      if lines[i].kind.Features? { return Some(i); }
    }
    r := None;
  }

  method TurnOnLine(input: seq<Line>, start: nat, end: nat, flag: Flag) returns (lines: seq<Line>, newEnd: nat)
    requires start < end <= |input|
    ensures (lines, newEnd) == TurnOn(input, start, end, flag)
  {
    var index := FindFlagLine(input, start, end, flag);
    lines, newEnd := input, end;
    if index.Some? {
      lines := lines[index.value := On(flag)];
    } else {
      lines := lines[..end] + [On(flag)] + lines[end..];
      newEnd := end + 1;
    }
  }

  /** The rewrite of the line vector, flag by flag. */
  method MergeInPlace(input: seq<Line>) returns (lines: seq<Line>)
    ensures lines == MergeLines(input)
  {
    lines := input;
    var start := FindFeatures(lines);
    if start.None? {
      return WithTable(lines);
    }
    var end := FindEnd(lines, start.value);
    lines, end := TurnOnLine(lines, start.value, end, Hooks);
    lines, end := TurnOnLine(lines, start.value, end, MultiAgent);
  }

  // ---- what the merge keeps ----

  /** The table body that begins below line `start` ends at `e`: no table header before, no blank line
      last, and only blank lines up to the next header at `h`. */
  ghost predicate EndsBody(lines: seq<Line>, start: nat, e: nat, h: nat) {
    && start < e <= h <= |lines|
    && (forall i :: start < i < h ==> !OpensTable(lines[i]))
    && (forall i :: e <= i < h ==> lines[i].kind.Blank?)
    && (e > start + 1 ==> !lines[e - 1].kind.Blank?)
    && (h == |lines| || OpensTable(lines[h]))
  }

  lemma {:induction false} TableEndIs(lines: seq<Line>, i: nat, h: nat)
    requires i <= h <= |lines|
    ensures (TableEnd(lines, i) == h) <==>
            (forall k :: i <= k < h ==> !OpensTable(lines[k])) && (h == |lines| || OpensTable(lines[h]))
    decreases |lines| - i
  {
    if i < h && !OpensTable(lines[i]) {
      TableEndIs(lines, i + 1, h);
    } else if i < |lines| && !OpensTable(lines[i]) {
      assert TableEnd(lines, i) > h;
    }
  }

  lemma {:induction false} WithoutBlanksIs(lines: seq<Line>, first: nat, end: nat, e: nat)
    requires first <= e <= end <= |lines|
    ensures (WithoutBlanks(lines, first, end) == e) <==>
            (forall k :: e <= k < end ==> lines[k].kind.Blank?) && (e > first ==> !lines[e - 1].kind.Blank?)
  {
    if end > e && lines[end - 1].kind.Blank? {
      WithoutBlanksIs(lines, first, end - 1, e);
    }
  }

  lemma BodyEndIs(lines: seq<Line>, start: nat) returns (h: nat)
    requires start < |lines|
    ensures EndsBody(lines, start, BodyEnd(lines, start), h)
  {
    h := TableEnd(lines, start + 1);
    TableEndIs(lines, start + 1, h);
    WithoutBlanksIs(lines, start + 1, h, BodyEnd(lines, start));
  }

  lemma BodyEndFrom(lines: seq<Line>, start: nat, e: nat, h: nat)
    requires start < |lines| && EndsBody(lines, start, e, h)
    ensures BodyEnd(lines, start) == e
  {
    TableEndIs(lines, start + 1, h);
    WithoutBlanksIs(lines, start + 1, h, e);
  }

  ghost predicate IsOn(lines: seq<Line>, start: nat, end: nat, flag: Flag) {
    start < end <= |lines| && FindFlag(lines, start + 1, end, flag).Some? &&
    lines[FindFlag(lines, start + 1, end, flag).value] == On(flag)
  }

  lemma {:induction false} FindFlagIs(lines: seq<Line>, i: nat, end: nat, flag: Flag, k: nat)
    requires i <= k < end <= |lines| && lines[k].kind == Assignment(flag)
    requires forall j :: i <= j < k ==> lines[j].kind != Assignment(flag)
    ensures FindFlag(lines, i, end, flag) == Some(k)
    decreases k - i
  {
    if i < k {
      FindFlagIs(lines, i + 1, end, flag, k);
    }
  }

  lemma {:induction false} FindFlagFirst(lines: seq<Line>, i: nat, end: nat, flag: Flag)
    requires i <= end <= |lines|
    ensures FindFlag(lines, i, end, flag).None? ==> forall j :: i <= j < end ==> lines[j].kind != Assignment(flag)
    ensures FindFlag(lines, i, end, flag).Some? ==>
            forall j :: i <= j < FindFlag(lines, i, end, flag).value ==> lines[j].kind != Assignment(flag)
    decreases end - i
  {
    if i < end && lines[i].kind != Assignment(flag) {
      FindFlagFirst(lines, i + 1, end, flag);
    }
  }

  lemma {:induction false} FeaturesAtIs(lines: seq<Line>, k: nat)
    requires k < |lines| && lines[k].kind.Features? && forall j :: 0 <= j < k ==> !lines[j].kind.Features?
    ensures FeaturesAt(lines) == Some(k)
  {
    if k > 0 {
      FeaturesAtIs(lines[1..], k - 1);
    }
  }

  lemma {:induction false} FeaturesAtFirst(lines: seq<Line>)
    ensures FeaturesAt(lines).None? ==> forall j :: 0 <= j < |lines| ==> !lines[j].kind.Features?
    ensures FeaturesAt(lines).Some? ==> forall j :: 0 <= j < FeaturesAt(lines).value ==> !lines[j].kind.Features?
  {
    if lines != [] && !lines[0].kind.Features? {
      FeaturesAtFirst(lines[1..]);
    }
  }

  lemma RewrittenBody(lines: seq<Line>, start: nat, end: nat, h: nat, flag: Flag, i: nat)
    requires EndsBody(lines, start, end, h) && FindFlag(lines, start + 1, end, flag) == Some(i)
    ensures var out := lines[i := On(flag)];
            EndsBody(out, start, end, h) && IsOn(out, start, end, flag) && out[..start + 1] == lines[..start + 1]
  {
    FindFlagFirst(lines, start + 1, end, flag);
    FindFlagIs(lines[i := On(flag)], start + 1, end, flag, i);
  }

  lemma ExtendedBody(lines: seq<Line>, start: nat, end: nat, h: nat, flag: Flag)
    requires EndsBody(lines, start, end, h) && FindFlag(lines, start + 1, end, flag) == None
    ensures var out := lines[..end] + [On(flag)] + lines[end..];
            EndsBody(out, start, end + 1, h + 1) && IsOn(out, start, end + 1, flag) &&
              out[..start + 1] == lines[..start + 1]
  {
    var out := lines[..end] + [On(flag)] + lines[end..];
    FindFlagFirst(lines, start + 1, end, flag);
    assert forall j :: start < j < end ==> out[j] == lines[j];
    assert forall j :: end < j < |out| ==> out[j] == lines[j - 1];
    FindFlagIs(out, start + 1, end + 1, flag, end);
  }

  /** Turning a flag on keeps the table where it is. */
  lemma TurnOnKeeps(lines: seq<Line>, start: nat, end: nat, h: nat, flag: Flag) returns (h': nat)
    requires EndsBody(lines, start, end, h)
    ensures var (out, e) := TurnOn(lines, start, end, flag);
            && EndsBody(out, start, e, h') && IsOn(out, start, e, flag) && out[..start + 1] == lines[..start + 1]
  {
    match FindFlag(lines, start + 1, end, flag) {
      case Some(i) =>
        h' := h;
        RewrittenBody(lines, start, end, h, flag, i);
      case None =>
        h' := h + 1;
        ExtendedBody(lines, start, end, h, flag);
    }
  }

  lemma OtherFlagKept(lines: seq<Line>, start: nat, end: nat, flag: Flag, other: Flag)
    requires flag != other && IsOn(lines, start, end, other)
    ensures var (out, e) := TurnOn(lines, start, end, flag); IsOn(out, start, e, other)
  {
    var (out, e) := TurnOn(lines, start, end, flag);
    var k := FindFlag(lines, start + 1, end, other).value;
    FindFlagFirst(lines, start + 1, end, other);
    assert forall j :: start < j <= k ==>
           out[j] == lines[j] || (out[j] == On(flag) && lines[j].kind == Assignment(flag));
    FindFlagIs(out, start + 1, e, other, k);
  }

  lemma OnStays(lines: seq<Line>, start: nat, end: nat, flag: Flag)
    requires IsOn(lines, start, end, flag)
    ensures TurnOn(lines, start, end, flag) == (lines, end)
  {
    var i := FindFlag(lines, start + 1, end, flag).value;
    assert lines[i := lines[i]] == lines;
  }

  /** A text in which both flags are on in its first `[features]` table. */
  ghost predicate FlagsOn(lines: seq<Line>) {
    match FeaturesAt(lines)
    case None => false
    case Some(start) =>
      IsOn(lines, start, BodyEnd(lines, start), Hooks) && IsOn(lines, start, BodyEnd(lines, start), MultiAgent)
  }

  lemma MergeInTable(lines: seq<Line>, start: nat)
    requires FeaturesAt(lines) == Some(start)
    ensures FlagsOn(MergeLines(lines))
  {
    var end := BodyEnd(lines, start);
    var h := BodyEndIs(lines, start);
    var (hooked, mid) := TurnOn(lines, start, end, Hooks);
    var h1 := TurnOnKeeps(lines, start, end, h, Hooks);
    var (out, e) := TurnOn(hooked, start, mid, MultiAgent);
    var h2 := TurnOnKeeps(hooked, start, mid, h1, MultiAgent);
    OtherFlagKept(hooked, start, mid, MultiAgent, Hooks);
    FeaturesAtFirst(lines);
    SamePrefixSameFeatures(lines, out, start);
    BodyEndFrom(out, start, e, h2);
  }

  lemma SamePrefixSameFeatures(lines: seq<Line>, out: seq<Line>, start: nat)
    requires FeaturesAt(lines) == Some(start) && start < |out| && out[..start + 1] == lines[..start + 1]
    ensures FeaturesAt(out) == Some(start)
  {
    FeaturesAtFirst(lines);
    assert forall j :: 0 <= j <= start ==> out[j] == out[..start + 1][j] == lines[j];
    FeaturesAtIs(out, start);
  }

  lemma TableAppended(upper: seq<Line>, header: Line, a: Line, b: Line)
    requires header.kind.Features? && a.kind == Assignment(Hooks) && b.kind == Assignment(MultiAgent)
    requires forall j :: 0 <= j < |upper| ==> !upper[j].kind.Features?
    ensures var out, start := upper + [header, a, b], |upper|;
            && FeaturesAt(out) == Some(start) && BodyEnd(out, start) == start + 3 == |out|
            && FindFlag(out, start + 1, |out|, Hooks) == Some(start + 1)
            && FindFlag(out, start + 1, |out|, MultiAgent) == Some(start + 2)
  {
    var out, start := upper + [header, a, b], |upper|;
    assert out[start] == header && out[start + 1] == a && out[start + 2] == b;
    FeaturesAtIs(out, start);
    BodyEndFrom(out, start, |out|, |out|);
    FindFlagIs(out, start + 1, |out|, Hooks, start + 1);
    FindFlagIs(out, start + 1, |out|, MultiAgent, start + 2);
  }

  lemma NewTableOn(upper: seq<Line>)
    requires forall j :: 0 <= j < |upper| ==> !upper[j].kind.Features?
    ensures FlagsOn(upper + [HEADER, On(Hooks), On(MultiAgent)])
  {
    TableAppended(upper, HEADER, On(Hooks), On(MultiAgent));
  }

  lemma MergeNewTable(lines: seq<Line>)
    requires FeaturesAt(lines) == None
    ensures FlagsOn(MergeLines(lines))
  {
    hide FeaturesAt, FlagsOn;
    FeaturesAtFirst(lines);
    NewTableOn(if lines != [] && lines[|lines| - 1].text != "" then lines + [GAP] else lines);
  }

  /** Both flags are on after the merge, whatever the text was. */
  lemma MergeTurnsOn(lines: seq<Line>)
    ensures FlagsOn(MergeLines(lines))
  {
    match FeaturesAt(lines)
    case None => MergeNewTable(lines);
    case Some(start) => MergeInTable(lines, start);
  }

  /** A text is left alone exactly when both flags are on already; so merging twice is merging once. */
  lemma MergeStaysIffOn(lines: seq<Line>)
    ensures MergeLines(lines) == lines <==> FlagsOn(lines)
    ensures MergeLines(MergeLines(lines)) == MergeLines(lines)
  {
    MergeTurnsOn(lines);
    OnIsFixed(MergeLines(lines));
    if FlagsOn(lines) { OnIsFixed(lines); }
  }

  lemma OnIsFixed(lines: seq<Line>)
    requires FlagsOn(lines)
    ensures MergeLines(lines) == lines
  {
    var start := FeaturesAt(lines).value;
    OnStays(lines, start, BodyEnd(lines, start), Hooks);
    OnStays(lines, start, BodyEnd(lines, start), MultiAgent);
  }

  // ---- other lines ----

  /** Turning one flag on does not move the first assignment of the other. */
  lemma FindsOther(lines: seq<Line>, start: nat, end: nat, flag: Flag, other: Flag)
    requires start < end <= |lines| && flag != other
    ensures var (out, e) := TurnOn(lines, start, end, flag);
            FindFlag(out, start + 1, e, other) == FindFlag(lines, start + 1, end, other)
  {
    hide FindFlag;
    var (out, e) := TurnOn(lines, start, end, flag);
    var there := FindFlag(lines, start + 1, end, other);
    FindFlagFirst(lines, start + 1, end, other);
    FindFlagFirst(out, start + 1, e, other);
    forall j | start < j < end
      ensures out[j].kind == Assignment(other) <==> lines[j].kind == Assignment(other)
    {
    }
    if there.Some? { FindFlagIs(out, start + 1, e, other, there.value); }
  }

  /** Line `i` of the text stays, and moves down only below the lines added to the table. */
  ghost predicate Stays(lines: seq<Line>, out: seq<Line>, end: nat, added: nat, i: nat)
    requires i < |lines| && |out| == |lines| + added
  {
    out[if i < end then i else i + added] == lines[i]
  }

  function Missing(index: Option<nat>): nat {
    if index.None? then 1 else 0
  }

  lemma TurnOnKeepsLines(lines: seq<Line>, start: nat, end: nat, flag: Flag)
    requires start < end <= |lines|
    ensures var (out, e) := TurnOn(lines, start, end, flag);
            var index := FindFlag(lines, start + 1, end, flag);
            && e == end + Missing(index) && |out| == |lines| + Missing(index)
            && forall i: nat :: i < |lines| && index != Some(i) ==> Stays(lines, out, end, Missing(index), i)
  {
  }

  lemma StaysTwice(lines: seq<Line>, mid: seq<Line>, out: seq<Line>, end: nat, a: nat, b: nat, i: nat)
    requires i < |lines| && |mid| == |lines| + a && |out| == |mid| + b
    requires Stays(lines, mid, end, a, i) && Stays(mid, out, end + a, b, if i < end then i else i + a)
    ensures Stays(lines, out, end, a + b, i)
  {
  }

  lemma MergeIsTwice(lines: seq<Line>, start: nat)
    requires FeaturesAt(lines) == Some(start)
    ensures var (hooked, mid) := TurnOn(lines, start, BodyEnd(lines, start), Hooks);
            MergeLines(lines) == TurnOn(hooked, start, mid, MultiAgent).0
  {
  }

  lemma TableKeepsLines(lines: seq<Line>, start: nat, end: nat, i: nat)
    requires start < end <= |lines| && i < |lines|
    requires FindFlag(lines, start + 1, end, Hooks) != Some(i) && FindFlag(lines, start + 1, end, MultiAgent) != Some(i)
    ensures var (hooked, mid) := TurnOn(lines, start, end, Hooks);
            var out := TurnOn(hooked, start, mid, MultiAgent).0;
            var added := Missing(FindFlag(lines, start + 1, end, Hooks)) +
              Missing(FindFlag(lines, start + 1, end, MultiAgent));
            |out| == |lines| + added && Stays(lines, out, end, added, i)
  {
    hide FindFlag, TurnOn, Stays;
    var hooks, agent := FindFlag(lines, start + 1, end, Hooks), FindFlag(lines, start + 1, end, MultiAgent);
    var (hooked, mid) := TurnOn(lines, start, end, Hooks);
    TurnOnKeepsLines(lines, start, end, Hooks);
    FindsOther(lines, start, end, Hooks, MultiAgent);
    TurnOnKeepsLines(hooked, start, mid, MultiAgent);
    var k: nat := if i < end then i else i + Missing(hooks);
    assert k < |hooked| && agent != Some(k);
    StaysTwice(lines, hooked, TurnOn(hooked, start, mid, MultiAgent).0, end, Missing(hooks), Missing(agent), i);
  }

  lemma TableLength(lines: seq<Line>, start: nat, end: nat)
    requires start < end <= |lines|
    ensures var (hooked, mid) := TurnOn(lines, start, end, Hooks);
            |TurnOn(hooked, start, mid, MultiAgent).0| ==
            |lines| + Missing(FindFlag(lines, start + 1, end, Hooks)) +
              Missing(FindFlag(lines, start + 1, end, MultiAgent))
  {
    hide FindFlag, TurnOn, Stays;
    var (hooked, mid) := TurnOn(lines, start, end, Hooks);
    TurnOnKeepsLines(lines, start, end, Hooks);
    FindsOther(lines, start, end, Hooks, MultiAgent);
    TurnOnKeepsLines(hooked, start, mid, MultiAgent);
  }

  /** `out` has every line of the text other than the first assignment of each flag between `start` and `end`,
      and one more line for each flag that had none there. */
  ghost predicate KeepsAllBut(lines: seq<Line>, out: seq<Line>, start: nat, end: nat)
    requires start < end <= |lines|
  {
    var hooks, agent := FindFlag(lines, start + 1, end, Hooks), FindFlag(lines, start + 1, end, MultiAgent);
    var added := Missing(hooks) + Missing(agent);
    && |out| == |lines| + added
    && forall i: nat :: i < |lines| && hooks != Some(i) && agent != Some(i) ==> Stays(lines, out, end, added, i)
  }

  lemma TableKeepsAll(lines: seq<Line>, start: nat, end: nat)
    requires start < end <= |lines|
    ensures var (hooked, mid) := TurnOn(lines, start, end, Hooks);
            KeepsAllBut(lines, TurnOn(hooked, start, mid, MultiAgent).0, start, end)
  {
    hide FindFlag, TurnOn, Stays;
    TableLength(lines, start, end);
    var hooks, agent := FindFlag(lines, start + 1, end, Hooks), FindFlag(lines, start + 1, end, MultiAgent);
    var (hooked, mid) := TurnOn(lines, start, end, Hooks);
    forall i: nat | i < |lines| && hooks != Some(i) && agent != Some(i)
      ensures Stays(lines, TurnOn(hooked, start, mid, MultiAgent).0, end, Missing(hooks) + Missing(agent), i)
    {
      TableKeepsLines(lines, start, end, i);
    }
  }

  /** Every line other than the first assignment of each flag in the first `[features]` table stays, flag
      assignments elsewhere included; where there is no table, the whole text stays and one follows it. */
  lemma MergeKeepsLines(lines: seq<Line>)
    ensures match FeaturesAt(lines)
            case None => lines <= MergeLines(lines)
            case Some(start) => KeepsAllBut(lines, MergeLines(lines), start, BodyEnd(lines, start))
  {
    if FeaturesAt(lines).Some? {
      var start := FeaturesAt(lines).value;
      MergeIsTwice(lines, start);
      hide MergeLines, KeepsAllBut, TurnOn;
      TableKeepsAll(lines, start, BodyEnd(lines, start));
    }
  }

  // ---- texts ----

  function ReadAll(texts: seq<string>): seq<Line> {
    seq(|texts|, i requires 0 <= i < |texts| => Line(texts[i], KindOf(texts[i])))
  }

  function Texts(lines: seq<Line>): seq<string> {
    seq(|lines|, i requires 0 <= i < |lines| => lines[i].text)
  }

  /** The merged text: its lines, each ended by a bare newline. */
  function MergeText(text: string): string {
    Unsplit(Doc(Texts(MergeLines(ReadAll(Lines(text)))), false, true))
  }

  ghost predicate Classified(l: Line) {
    l.kind == KindOf(l.text)
  }

  ghost predicate OneLine(l: Line) {
    PlainLine(l.text)
  }

  lemma KindOfTrimmed(t: string)
    requires t != "" && !IsWhite(t[0]) && !IsWhite(t[|t| - 1]) && t[0] != '['
    ensures KindOf(t) == if "hooks =" <= t then Assignment(Hooks)
            else if "multi_agent =" <= t then Assignment(MultiAgent) else Other
  {
    TrimmedAlready(t);
    assert "hooks" + " =" == "hooks =" && "multi_agent" + " =" == "multi_agent =";
    assert t != "[features]" by { assert "[features]"[0] == '['; }
  }

  lemma HooksKind()
    ensures KindOf("hooks = true") == Assignment(Hooks)
  {
    var t := "hooks = true";
    assert t[..7] == "hooks =";
    KindOfTrimmed(t);
  }

  lemma OtherFirstChar(p: string, t: string)
    requires p != "" && t != "" && p[0] != t[0]
    ensures !(p <= t)
  {
  }

  lemma MultiAgentKind()
    ensures KindOf("multi_agent = true") == Assignment(MultiAgent)
  {
    var t := "multi_agent = true";
    assert t[..13] == "multi_agent =";
    OtherFirstChar("hooks =", t);
    KindOfTrimmed(t);
  }

  lemma TableKind()
    ensures KindOf("[features]") == Features && KindOf("") == Blank
  {
    TrimmedAlready("[features]");
  }

  ghost predicate All(p: Line -> bool, lines: seq<Line>) {
    forall i :: 0 <= i < |lines| ==> p(lines[i])
  }

  lemma TurnOnAll(p: Line -> bool, lines: seq<Line>, start: nat, end: nat, flag: Flag)
    requires start < end <= |lines| && All(p, lines) && p(On(flag))
    ensures All(p, TurnOn(lines, start, end, flag).0)
  {
  }

  lemma MergeAll(p: Line -> bool, lines: seq<Line>)
    requires All(p, lines) && p(HEADER) && p(GAP) && p(On(Hooks)) && p(On(MultiAgent))
    ensures All(p, MergeLines(lines))
  {
    match FeaturesAt(lines)
    case None =>
    case Some(start) =>
      TurnOnAll(p, lines, start, BodyEnd(lines, start), Hooks);
      var (hooked, end) := TurnOn(lines, start, BodyEnd(lines, start), Hooks);
      TurnOnAll(p, hooked, start, end, MultiAgent);
  }

  lemma MergeClassified(lines: seq<Line>)
    requires All(Classified, lines)
    ensures All(Classified, MergeLines(lines))
  {
    HooksKind();
    MultiAgentKind();
    TableKind();
    MergeAll(Classified, lines);
  }

  lemma OnOneLine(flag: Flag)
    ensures OneLine(On(flag))
  {
    match flag
    case Hooks => assert PlainLine("hooks = true");
    case MultiAgent => assert PlainLine("multi_agent = true");
  }

  lemma TableOneLine()
    ensures OneLine(HEADER) && OneLine(GAP)
  {
  }

  lemma MergeOneLine(lines: seq<Line>)
    requires All(OneLine, lines)
    ensures All(OneLine, MergeLines(lines))
  {
    OnOneLine(Hooks);
    OnOneLine(MultiAgent);
    TableOneLine();
    MergeAll(OneLine, lines);
  }

  lemma TextsReadBack(lines: seq<Line>)
    requires All(Classified, lines)
    ensures ReadAll(Texts(lines)) == lines
  {
    hide KindOf;
    assert forall i :: 0 <= i < |lines| ==> Classified(lines[i]);
  }

  lemma TextsArePlain(lines: seq<Line>)
    requires All(OneLine, lines)
    ensures forall l :: l in Texts(lines) ==> PlainLine(l)
  {
    hide PlainLine;
    assert forall i :: 0 <= i < |lines| ==> OneLine(lines[i]) && PlainLine(lines[i].text);
  }

  lemma LinesAreGood(text: string)
    requires NoLoneCr(text)
    ensures All(Classified, ReadAll(Lines(text))) && All(OneLine, ReadAll(Lines(text)))
  {
    LinesArePlain(text);
  }

  /** Merging the merged text changes nothing, for texts without lone carriage returns. */
  lemma MergeTextTwice(text: string)
    requires NoLoneCr(text)
    ensures MergeText(MergeText(text)) == MergeText(text)
  {
    hide NoLoneCr, Classified, OneLine, All, Lines, Unsplit, MergeLines, ReadAll, PlainLine;
    var lines := ReadAll(Lines(text));
    var merged := MergeLines(lines);
    LinesAreGood(text);
    MergeClassified(lines);
    MergeOneLine(lines);
    MergeStaysIffOn(lines);
    MergeTurnsOn(lines);
    TextsArePlain(merged);
    SplitUnsplit(Doc(Texts(merged), false, true));
    TextsReadBack(merged);
  }
}
