/**
 What the merged `[features]` table assigns, judged by a reading of its own and not by the merge's: a line
 assigns a flag when the flag's name comes first and an equals sign after it, with or without blanks between.
 */
module FeatureTables {
  import opened Prelude
  import opened Text
  import opened FeatureFlags

  predicate Assigns(text: string, flag: Flag) {
    var t := Trim(text);
    Name(flag) <= t && StartsWith(TrimStart(t[|Name(flag)|..]), '=')
  }

  /** The header of the table, with or without blanks around its name and a comment behind it. */
  predicate NamesFeatures(text: string) {
    var t := Trim(text);
    StartsWith(t, '[') && NamesFeaturesInside(TrimStart(t[1..]))
  }

  predicate NamesFeaturesInside(inner: string) {
    "features" <= inner && ClosesHeader(TrimStart(inner[8..]))
  }

  predicate ClosesHeader(rest: string) {
    StartsWith(rest, ']') && (TrimStart(rest[1..]) == "" || TrimStart(rest[1..])[0] == '#')
  }

  function Count(p: Line -> bool, lines: seq<Line>): nat {
    if lines == [] then 0 else (if p(lines[0]) then 1 else 0) + Count(p, lines[1..])
  }

  function Assigner(flag: Flag): Line -> bool {
    (l: Line) => Assigns(l.text, flag)
  }

  predicate IsHeader(l: Line) {
    NamesFeatures(l.text)
  }

  /** How many headers of the table the text has. */
  function Headers(lines: seq<Line>): nat {
    Count(IsHeader, lines)
  }

  /** The lines of the table that the merge rewrites, down to the next header. */
  function Body(lines: seq<Line>, start: nat): seq<Line>
    requires start < |lines|
  {
    lines[start + 1..TableEnd(lines, start + 1)]
  }

  /** How often that table assigns the flag. */
  function Assigned(lines: seq<Line>, flag: Flag): nat {
    match FeaturesAt(lines)
    case None => 0
    case Some(start) => Count(Assigner(flag), Body(lines, start))
  }

  /** The merge recognizes an assignment of the flag in that table. */
  predicate Recognized(lines: seq<Line>, flag: Flag) {
    match FeaturesAt(lines)
    case None => false
    case Some(start) => FindFlag(lines, start + 1, BodyEnd(lines, start), flag).Some?
  }

  // ---- counting ----

  lemma {:induction false} CountAppend(p: Line -> bool, a: seq<Line>, b: seq<Line>)
    ensures Count(p, a + b) == Count(p, a) + Count(p, b)
  {
    if a == [] {
      assert a + b == b;
    } else {
      assert (a + b)[0] == a[0] && (a + b)[1..] == a[1..] + b;
      CountAppend(p, a[1..], b);
    }
  }

  lemma CountOne(p: Line -> bool, l: Line)
    ensures Count(p, [l]) == if p(l) then 1 else 0
  {
    assert [l][1..] == [];
  }

  lemma CountInserted(p: Line -> bool, a: seq<Line>, x: Line, b: seq<Line>)
    ensures Count(p, a + [x] + b) == Count(p, a + b) + if p(x) then 1 else 0
  {
    CountAppend(p, a + [x], b);
    CountAppend(p, a, [x]);
    CountAppend(p, a, b);
    CountOne(p, x);
  }

  lemma CountReplaced(p: Line -> bool, lines: seq<Line>, i: nat, x: Line)
    requires i < |lines|
    ensures Count(p, lines[i := x]) + (if p(lines[i]) then 1 else 0) == Count(p, lines) + if p(x) then 1 else 0
  {
    var a, b := lines[..i], lines[i + 1..];
    assert lines == a + [lines[i]] + b && lines[i := x] == a + [x] + b;
    CountInserted(p, a, lines[i], b);
    CountInserted(p, a, x, b);
  }

  // ---- recognized lines ----

  lemma NamesDiffer(text: string)
    ensures !(Assigns(text, Hooks) && Assigns(text, MultiAgent))
  {
    assert "hooks"[0] == 'h' && "multi_agent"[0] == 'm';
  }

  lemma NameThenEquals(t: string, name: string)
    requires name + " =" <= t || name + "=" <= t
    ensures name <= t && StartsWith(TrimStart(t[|name|..]), '=')
  {
    var rest := t[|name|..];
    if name + "=" <= t {
      assert rest[0] == (name + "=")[|name|];
    } else {
      assert rest[0] == (name + " =")[|name|] && rest[1] == (name + " =")[|name| + 1];
      assert TrimStart(rest) == TrimStart(rest[1..]) && rest[1..][0] == '=';
    }
  }

  lemma PrefixAssigns(text: string, flag: Flag)
    requires Name(flag) + " =" <= Trim(text) || Name(flag) + "=" <= Trim(text)
    ensures Assigns(text, flag)
  {
    hide Trim, Name, TrimStart;
    NameThenEquals(Trim(text), Name(flag));
  }

  lemma KindMeansPrefix(text: string, flag: Flag)
    requires KindOf(text) == Assignment(flag)
    ensures Name(flag) + " =" <= Trim(text)
  {
    hide Trim, Name;
  }

  /** What the merge recognizes does assign that flag, and no other. */
  lemma RecognizedAssigns(l: Line, flag: Flag, other: Flag)
    requires Classified(l) && l.kind == Assignment(flag)
    ensures Assigns(l.text, other) <==> other == flag
  {
    hide Assigns, Trim;
    KindMeansPrefix(l.text, flag);
    PrefixAssigns(l.text, flag);
    NamesDiffer(l.text);
  }

  lemma OnAssigns(flag: Flag, other: Flag)
    ensures Classified(On(flag)) && (Assigns(On(flag).text, other) <==> other == flag)
  {
    hide KindOf, Assigns;
    HooksKind();
    MultiAgentKind();
    RecognizedAssigns(On(flag), flag, other);
  }

  lemma InsideNames(rest: string)
    requires ClosesHeader(rest)
    ensures NamesFeaturesInside(TrimStart("features" + rest))
  {
    hide ClosesHeader;
    var inner := "features" + rest;
    assert inner[0] == "features"[0] == 'f' && inner[8..] == rest && inner[..8] == "features";
    assert TrimStart(rest) == rest by { ClosesAtOnce(rest); }
  }

  lemma ClosesAtOnce(rest: string)
    requires ClosesHeader(rest)
    ensures TrimStart(rest) == rest
  {
  }

  /** The header that the merge recognizes does name the table. */
  lemma RecognizedNames(l: Line)
    requires Classified(l) && l.kind.Features?
    ensures NamesFeatures(l.text)
  {
    hide NamesFeaturesInside, Trim, TrimStart;
    KindMeansHeader(l.text);
    assert "[features]"[1..] == "features" + "]" && "[features]"[0] == '[';
    BareBracket();
    InsideNames("]");
  }

  lemma KindMeansHeader(text: string)
    requires KindOf(text) == Features
    ensures Trim(text) == "[features]"
  {
    hide Trim, Name;
  }

  lemma BareBracket()
    ensures ClosesHeader("]")
  {
    assert "]"[1..] == "";
  }

  // ---- one flag ----

  lemma RewrittenCounts(lines: seq<Line>, start: nat, h: nat, i: nat, flag: Flag, other: Flag)
    requires start < i < h <= |lines| && Classified(lines[i]) && lines[i].kind == Assignment(flag)
    ensures Count(Assigner(other), lines[i := On(flag)][start + 1..h]) == Count(Assigner(other), lines[start + 1..h])
  {
    hide Assigns, KindOf, Count, On;
    var body := lines[start + 1..h];
    OnAssigns(flag, other);
    RecognizedAssigns(lines[i], flag, other);
    CountReplaced(Assigner(other), body, i - start - 1, On(flag));
    assert lines[i := On(flag)][start + 1..h] == body[i - start - 1 := On(flag)];
  }

  lemma ExtendedCounts(lines: seq<Line>, start: nat, end: nat, h: nat, flag: Flag, other: Flag)
    requires start < end <= h <= |lines|
    ensures Count(Assigner(other), (lines[..end] + [On(flag)] + lines[end..])[start + 1..h + 1]) ==
            Count(Assigner(other), lines[start + 1..h]) + if other == flag then 1 else 0
  {
    hide Assigns, KindOf, Count, On;
    OnAssigns(flag, other);
    var upper, lower := lines[start + 1..end], lines[end..h];
    CountInserted(Assigner(other), upper, On(flag), lower);
    assert lines[start + 1..h] == upper + lower;
    assert (lines[..end] + [On(flag)] + lines[end..])[start + 1..h + 1] == upper + [On(flag)] + lower;
  }

  /** Turning a flag on adds an assignment of it exactly where none was recognized, and none of the other. */
  lemma TurnOnCounts(lines: seq<Line>, start: nat, end: nat, h: nat, flag: Flag, other: Flag) returns (h': nat)
    requires EndsBody(lines, start, end, h) && All(Classified, lines)
    ensures var (out, e) := TurnOn(lines, start, end, flag);
            && EndsBody(out, start, e, h') && All(Classified, out) && out[..start + 1] == lines[..start + 1]
            && Count(Assigner(other), out[start + 1..h']) ==
               Count(Assigner(other), lines[start + 1..h]) +
               if other == flag then Missing(FindFlag(lines, start + 1, end, flag)) else 0
  {
    hide Assigns, KindOf, EndsBody, Count, FindFlag, On, All;
    BodyBounds(lines, start, end, h);
    OnAssigns(flag, flag);
    TurnOnAll(Classified, lines, start, end, flag);
    match FindFlag(lines, start + 1, end, flag) {
      case Some(i) =>
        h' := h;
        RewrittenBody(lines, start, end, h, flag, i);
        AllAt(lines, i);
        RewrittenCounts(lines, start, h, i, flag, other);
      case None =>
        h' := h + 1;
        ExtendedBody(lines, start, end, h, flag);
        ExtendedCounts(lines, start, end, h, flag, other);
    }
  }

  lemma AllAt(lines: seq<Line>, i: nat)
    requires All(Classified, lines) && i < |lines|
    ensures Classified(lines[i])
  {
  }

  lemma BodyBounds(lines: seq<Line>, start: nat, end: nat, h: nat)
    requires EndsBody(lines, start, end, h)
    ensures start < end <= h <= |lines|
  {
  }

  // ---- the merge ----

  lemma MergedTable(lines: seq<Line>, start: nat, flag: Flag)
    requires FeaturesAt(lines) == Some(start) && All(Classified, lines)
    ensures Assigned(MergeLines(lines), flag) == Assigned(lines, flag) + if Recognized(lines, flag) then 0 else 1
  {
    hide FeaturesAt, TurnOn, EndsBody, All, Count, FindFlag, MergeLines, TableEnd, WithoutBlanks, Assigns;
    var end := BodyEnd(lines, start);
    var h := BodyEndIs(lines, start);
    EndIs(lines, start, end, h);
    var (hooked, mid) := TurnOn(lines, start, end, Hooks);
    var h1 := TurnOnCounts(lines, start, end, h, Hooks, flag);
    BodyBounds(lines, start, end, h);
    FindsOther(lines, start, end, Hooks, MultiAgent);
    var (out, e) := TurnOn(hooked, start, mid, MultiAgent);
    var h2 := TurnOnCounts(hooked, start, mid, h1, MultiAgent, flag);
    BodyBounds(out, start, e, h2);
    SamePrefixSameFeatures(lines, out, start);
    EndIs(out, start, e, h2);
    MergeIsTwice(lines, start);
  }

  lemma EndIs(lines: seq<Line>, start: nat, end: nat, h: nat)
    requires start < |lines| && EndsBody(lines, start, end, h)
    ensures TableEnd(lines, start + 1) == h
  {
    TableEndIs(lines, start + 1, h);
  }

  lemma NewTable(lines: seq<Line>, flag: Flag)
    requires FeaturesAt(lines) == None
    ensures Assigned(MergeLines(lines), flag) == 1
  {
    hide FeaturesAt, Assigns, Count, KindOf;
    var upper := if lines != [] && lines[|lines| - 1].text != "" then lines + [GAP] else lines;
    FeaturesAtFirst(lines);
    TableAppended(upper, HEADER, On(Hooks), On(MultiAgent));
    var out, start := upper + [HEADER, On(Hooks), On(MultiAgent)], |upper|;
    AppendedBody(upper);
    OnAssigns(Hooks, flag);
    OnAssigns(MultiAgent, flag);
    CountAppend(Assigner(flag), [On(Hooks)], [On(MultiAgent)]);
    CountOne(Assigner(flag), On(Hooks));
    CountOne(Assigner(flag), On(MultiAgent));
    assert [On(Hooks)] + [On(MultiAgent)] == [On(Hooks), On(MultiAgent)];
  }

  lemma AppendedBody(upper: seq<Line>)
    ensures Body(upper + [HEADER, On(Hooks), On(MultiAgent)], |upper|) == [On(Hooks), On(MultiAgent)]
  {
    var out, start := upper + [HEADER, On(Hooks), On(MultiAgent)], |upper|;
    assert out[start + 1] == On(Hooks) && out[start + 2] == On(MultiAgent);
    TableEndIs(out, start + 1, start + 3);
  }

  /** The merge adds one assignment of a flag exactly where it recognizes none, and removes none. */
  lemma MergeAddsAssignment(lines: seq<Line>, flag: Flag)
    requires All(Classified, lines)
    ensures Assigned(MergeLines(lines), flag) == Assigned(lines, flag) + if Recognized(lines, flag) then 0 else 1
  {
    hide MergeLines;
    match FeaturesAt(lines)
    case None => NewTable(lines, flag);
    case Some(start) => MergedTable(lines, start, flag);
  }

  lemma TurnOnHeaders(lines: seq<Line>, start: nat, end: nat, flag: Flag)
    requires start < end <= |lines| && All(Classified, lines)
    ensures var (out, e) := TurnOn(lines, start, end, flag);
            All(Classified, out) && Headers(out) == Headers(lines)
  {
    hide Assigns, KindOf, NamesFeatures, Count, FindFlag;
    OnAssigns(flag, flag);
    OnIsNoHeader(flag);
    match FindFlag(lines, start + 1, end, flag) {
      case Some(i) =>
        NoHeader(lines[i], flag);
        CountReplaced(IsHeader, lines, i, On(flag));
      case None =>
        CountInserted(IsHeader, lines[..end], On(flag), lines[end..]);
        assert lines[..end] + lines[end..] == lines;
    }
  }

  lemma NoHeader(l: Line, flag: Flag)
    requires Classified(l) && l.kind == Assignment(flag)
    ensures !NamesFeatures(l.text)
  {
    hide Trim;
    assert Name(flag)[0] != '[';
    assert (Name(flag) + " =")[0] == Name(flag)[0];
  }

  /** The merge adds a header exactly where it recognizes none. */
  lemma MergeAddsHeader(lines: seq<Line>)
    requires All(Classified, lines)
    ensures Headers(MergeLines(lines)) == Headers(lines) + if FeaturesAt(lines).Some? then 0 else 1
  {
    hide KindOf, NamesFeatures, Count, FeaturesAt, TurnOn;
    match FeaturesAt(lines)
    case None => NewHeader(lines);
    case Some(start) =>
      TurnOnHeaders(lines, start, BodyEnd(lines, start), Hooks);
      var (hooked, end) := TurnOn(lines, start, BodyEnd(lines, start), Hooks);
      TurnOnHeaders(hooked, start, end, MultiAgent);
      MergeIsTwice(lines, start);
  }

  lemma NewHeader(lines: seq<Line>)
    requires FeaturesAt(lines) == None
    ensures Headers(MergeLines(lines)) == Headers(lines) + 1
  {
    hide KindOf, NamesFeatures, Count, FeaturesAt;
    TableHeaders();
    GapNamesNothing();
    CountAppend(IsHeader, lines, [GAP]);
    CountOne(IsHeader, GAP);
    CountAppend(IsHeader, lines + [GAP], [HEADER, On(Hooks), On(MultiAgent)]);
    CountAppend(IsHeader, lines, [HEADER, On(Hooks), On(MultiAgent)]);
  }

  lemma TableHeaders()
    ensures Headers([HEADER, On(Hooks), On(MultiAgent)]) == 1
  {
    hide KindOf, NamesFeatures, Count, On;
    OnIsNoHeader(Hooks);
    OnIsNoHeader(MultiAgent);
    TableKind();
    RecognizedNames(HEADER);
    CountThree(IsHeader, HEADER, On(Hooks), On(MultiAgent));
  }

  lemma CountThree(p: Line -> bool, a: Line, b: Line, c: Line)
    ensures Count(p, [a, b, c]) == (if p(a) then 1 else 0) + (if p(b) then 1 else 0) + if p(c) then 1 else 0
  {
    hide Count;
    CountInserted(p, [a], b, [c]);
    CountAppend(p, [a], [c]);
    CountOne(p, a);
    CountOne(p, c);
    assert [a] + [b] + [c] == [a, b, c];
  }

  lemma OnIsNoHeader(flag: Flag)
    ensures !NamesFeatures(On(flag).text)
  {
    hide KindOf, NamesFeatures, Assigns;
    OnAssigns(flag, flag);
    NoHeader(On(flag), flag);
  }

  lemma GapNamesNothing()
    ensures !NamesFeatures("")
  {
  }

  // ---- when the merged table is one that TOML accepts ----

  /** One header, and each flag assigned once below it: TOML refuses a table or a key given twice. */
  ghost predicate SetOnce(lines: seq<Line>) {
    Headers(lines) == 1 && forall flag: Flag :: Assigned(lines, flag) == 1
  }

  /** No header and no assignment that the merge overlooks or meets a second time. */
  ghost predicate WellSpelled(lines: seq<Line>) {
    && Headers(lines) <= 1 && (Headers(lines) == 1 ==> FeaturesAt(lines).Some?)
    && forall flag: Flag :: Assigned(lines, flag) <= 1 && (Assigned(lines, flag) == 1 ==> Recognized(lines, flag))
  }

  lemma FeaturesAreCounted(lines: seq<Line>)
    requires All(Classified, lines) && FeaturesAt(lines).Some?
    ensures Headers(lines) >= 1
  {
    hide KindOf, NamesFeatures, FeaturesAt;
    var i := FeaturesAt(lines).value;
    RecognizedNames(lines[i]);
    assert lines == lines[..i] + [lines[i]] + lines[i + 1..];
    CountInserted(IsHeader, lines[..i], lines[i], lines[i + 1..]);
  }

  lemma {:induction false} CountedThere(p: Line -> bool, lines: seq<Line>, i: nat)
    requires i < |lines| && p(lines[i])
    ensures Count(p, lines) >= 1
  {
    if i > 0 {
      CountedThere(p, lines[1..], i - 1);
    }
  }

  lemma RecognizedIsCounted(lines: seq<Line>, flag: Flag)
    requires All(Classified, lines) && Recognized(lines, flag)
    ensures Assigned(lines, flag) >= 1
  {
    hide KindOf, Assigns, FeaturesAt, TableEnd, FindFlag, Count;
    var start := FeaturesAt(lines).value;
    var i := FindFlag(lines, start + 1, BodyEnd(lines, start), flag).value;
    RecognizedAssigns(lines[i], flag, flag);
    assert Body(lines, start)[i - start - 1] == lines[i];
    CountedThere(Assigner(flag), Body(lines, start), i - start - 1);
  }

  /** After the merge both flags are on, and the table is there once with each flag assigned once exactly when
      the text before had at most one such header and at most one assignment of each flag below it, and those
      spelled in the form that the merge recognizes. */
  lemma MergeIsCleanIff(lines: seq<Line>)
    requires All(Classified, lines)
    ensures FlagsOn(MergeLines(lines)) && (SetOnce(MergeLines(lines)) <==> WellSpelled(lines))
  {
    hide MergeLines, Headers, Assigned, Recognized, FeaturesAt, FlagsOn, All;
    MergeTurnsOn(lines);
    MergeAddsHeader(lines);
    if FeaturesAt(lines).Some? { FeaturesAreCounted(lines); }
    forall flag: Flag
      ensures Assigned(MergeLines(lines), flag) == Assigned(lines, flag) + if Recognized(lines, flag) then 0 else 1
      ensures Recognized(lines, flag) ==> Assigned(lines, flag) >= 1
    {
      MergeAddsAssignment(lines, flag);
      if Recognized(lines, flag) { RecognizedIsCounted(lines, flag); }
    }
  }

  // ---- two texts that are not ----

  const TIGHT: seq<Line> := [HEADER, Line("hooks=false", Other)]

  lemma TightKind()
    ensures KindOf("hooks=false") == Other && Assigns("hooks=false", Hooks)
  {
    hide KindOf, TrimStart, TrimEnd;
    var t := "hooks=false";
    TrimmedAlready(t);
    assert "hooks =" <= t ==> t[5] == "hooks ="[5];
    OtherFirstChar("multi_agent =", t);
    KindOfTrimmed(t);
    assert "hooks" + "=" <= t;
    PrefixAssigns(t, Hooks);
  }

  /** Without a space before the equals sign an assignment is overlooked, and the merged table has two. */
  lemma TightAssignmentStays()
    ensures All(Classified, TIGHT)
    ensures MergeLines(TIGHT) == TIGHT + [On(Hooks), On(MultiAgent)]
    ensures FlagsOn(MergeLines(TIGHT)) && Assigned(MergeLines(TIGHT), Hooks) == 2
  {
    hide KindOf, Assigns;
    TightKind();
    TableKind();
    MergeTurnsOn(TIGHT);
    TightMerged();
    TightCount();
    MergeAddsAssignment(TIGHT, Hooks);
  }

  lemma TightMerged()
    ensures FeaturesAt(TIGHT) == Some(0) && TableEnd(TIGHT, 1) == 2 && BodyEnd(TIGHT, 0) == 2
    ensures FindFlag(TIGHT, 1, 2, Hooks) == None
    ensures MergeLines(TIGHT) == TIGHT + [On(Hooks), On(MultiAgent)]
  {
    FeaturesAtIs(TIGHT, 0);
    BodyEndFrom(TIGHT, 0, 2, 2);
    TableEndIs(TIGHT, 1, 2);
    var hooked := TIGHT + [On(Hooks)];
    assert TIGHT[..2] + [On(Hooks)] + TIGHT[2..] == hooked;
    FindFlagFirst(TIGHT, 1, 2, Hooks);
    FindFlagFirst(hooked, 1, 3, MultiAgent);
    assert hooked[..3] + [On(MultiAgent)] + hooked[3..] == TIGHT + [On(Hooks), On(MultiAgent)];
  }

  lemma TightCount()
    requires Assigns("hooks=false", Hooks)
    ensures Assigned(TIGHT, Hooks) == 1
  {
    hide Assigns;
    TightMerged();
    assert TIGHT[1..2] == [TIGHT[1]];
    CountOne(Assigner(Hooks), TIGHT[1]);
  }

  const NOTED: seq<Line> := [Line("[features] # note", Table)]

  /** A comment behind the header hides it, and the merged text has two. */
  lemma NotedHeaderStays()
    ensures All(Classified, NOTED)
    ensures MergeLines(NOTED) == NOTED + [GAP, HEADER, On(Hooks), On(MultiAgent)]
    ensures FlagsOn(MergeLines(NOTED)) && Headers(MergeLines(NOTED)) == 2
  {
    hide KindOf, NamesFeatures, Count;
    NotedKind();
    MergeTurnsOn(NOTED);
    MergeAddsHeader(NOTED);
    CountOne(IsHeader, NOTED[0]);
    assert FeaturesAt(NOTED[1..]) == None;
  }

  lemma NotedKind()
    ensures KindOf("[features] # note") == Table && NamesFeatures("[features] # note")
  {
    hide KindOf, NamesFeatures, Trim;
    var t := "[features] # note";
    TrimmedAlready(t);
    OtherTable(t);
    assert t[1..] == "features" + "] # note" && "] # note" == "] " + "# note";
    NoteBehind("# note");
    InsideNames("] # note");
    OpensAndNames(t);
  }

  lemma OtherTable(t: string)
    requires |t| > 10 && t[0] == '[' && Trim(t) == t
    ensures KindOf(t) == Table
  {
    hide Trim;
    assert |"[features]"| == 10;
  }

  lemma OpensAndNames(t: string)
    requires t != "" && t[0] == '[' && Trim(t) == t && NamesFeaturesInside(TrimStart(t[1..]))
    ensures NamesFeatures(t)
  {
    hide Trim, TrimStart, NamesFeaturesInside;
  }

  lemma NoteBehind(note: string)
    requires StartsWith(note, '#')
    ensures ClosesHeader("] " + note)
  {
    hide TrimStart;
    var rest := ("] " + note)[1..];
    assert rest == " " + note;
    BlankThenNote(note);
  }

  lemma BlankThenNote(note: string)
    requires StartsWith(note, '#')
    ensures TrimStart(" " + note) == note
  {
    assert (" " + note)[1..] == note;
  }
}
