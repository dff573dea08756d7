/** What the merge makes of a whole configuration text, line by line and by character. */
module FeatureTexts {
  import opened Prelude
  import opened Text
  import opened FeatureFlags

  /** The lines, each with a bare newline behind it. */
  function Ended(lines: seq<string>): string {
    if lines == [] then "" else lines[0] + "\n" + Ended(lines[1..])
  }

  lemma {:induction false} UnsplitIsEnded(lines: seq<string>)
    requires lines != []
    ensures Unsplit(Doc(lines, false, true)) == Ended(lines)
  {
    if |lines| == 1 {
      assert lines[1..] == [];
      assert lines[0] + "\n" + "" == lines[0] + "\n";
    } else {
      UnsplitIsEnded(lines[1..]);
      assert lines[0] + "\n" + Join(lines[1..], "\n") + "\n" == lines[0] + "\n" + (Join(lines[1..], "\n") + "\n");
    }
  }

  // ---- what stays ----

  predicate NoHeaderBefore(lines: seq<string>, s: nat) {
    s <= |lines| && forall j :: 0 <= j < s ==> Trim(lines[j]) != "[features]"
  }

  /** Between `s` and `i` no line starts a table or gives the name a value. */
  predicate NothingBetween(lines: seq<string>, s: nat, i: nat, name: string) {
    i <= |lines| && forall j :: s < j < i ==> !(name + " =" <= Trim(lines[j])) && !StartsWith(Trim(lines[j]), '[')
  }

  /** The first `name =` line of the first `[features]` table. */
  ghost predicate IsFirst(lines: seq<string>, i: nat, name: string) {
    && i < |lines| && name + " =" <= Trim(lines[i])
    && exists s: nat ::
         s < i && Trim(lines[s]) == "[features]" && NoHeaderBefore(lines, s) && NothingBetween(lines, s, i, name)
  }

  ghost predicate SetsTrue(before: seq<string>, i: nat, now: string) {
    (IsFirst(before, i, "hooks") && now == "hooks = true") ||
    (IsFirst(before, i, "multi_agent") && now == "multi_agent = true")
  }

  ghost predicate Climbs(place: seq<nat>) {
    forall i, j :: 0 <= i < j < |place| ==> place[i] < place[j]
  }

  /** Every line stands where `place` says, as it was or set to true; and what else is there was added. */
  ghost predicate StandAt(before: seq<string>, after: seq<string>, place: seq<nat>) {
    && |place| == |before| && Climbs(place)
    && (forall i :: 0 <= i < |before| ==>
          place[i] < |after| && (after[place[i]] == before[i] || SetsTrue(before, i, after[place[i]])))
    && (forall k :: 0 <= k < |after| && k !in place ==>
          after[k] in ["", "[features]", "hooks = true", "multi_agent = true"])
  }

  /** Both flags are true in the first `[features]` table. */
  ghost predicate BothTrue(lines: seq<string>) {
    exists h: nat, m: nat :: h < |lines| && m < |lines| &&
      IsFirst(lines, h, "hooks") && lines[h] == "hooks = true" &&
      IsFirst(lines, m, "multi_agent") && lines[m] == "multi_agent = true"
  }

  /** The text `after` is the text `before` with both flags on, every other line in its order. */
  ghost predicate MergesInto(before: string, after: string) {
    exists lines: seq<string>, place: seq<nat> ::
      after == Ended(lines) && BothTrue(lines) && StandAt(Lines(before), lines, place)
  }

  // ---- kinds and characters ----

  lemma KindsAre(l: Line)
    requires Classified(l)
    ensures l.kind.Features? <==> Trim(l.text) == "[features]"
    ensures OpensTable(l) <==> StartsWith(Trim(l.text), '[')
    ensures l.kind == Assignment(Hooks) <==> "hooks" + " =" <= Trim(l.text)
    ensures l.kind == Assignment(MultiAgent) <==> "multi_agent" + " =" <= Trim(l.text)
  {
    hide Trim;
    var t := Trim(l.text);
    FirstChars();
    assert "hooks" + " =" <= t ==> t[0] == ("hooks" + " =")[0] == 'h';
    assert "multi_agent" + " =" <= t ==> t[0] == ("multi_agent" + " =")[0] == 'm';
  }

  lemma FirstChars()
    ensures "[features]"[0] == '[' && ("hooks" + " =")[0] == 'h' && ("multi_agent" + " =")[0] == 'm'
  {
  }

  lemma FirstIsFirst(lines: seq<Line>, start: nat, end: nat, flag: Flag)
    requires All(Classified, lines) && FeaturesAt(lines) == Some(start) && start < end <= TableEnd(lines, start + 1)
    requires FindFlag(lines, start + 1, end, flag).Some?
    ensures IsFirst(Texts(lines), FindFlag(lines, start + 1, end, flag).value, Name(flag))
  {
    hide KindOf, Trim, TableEnd, FeaturesAt, FindFlag;
    var i, texts := FindFlag(lines, start + 1, end, flag).value, Texts(lines);
    FeaturesAtFirst(lines);
    FindFlagFirst(lines, start + 1, end, flag);
    TableEndIs(lines, start + 1, TableEnd(lines, start + 1));
    forall j | 0 <= j < |lines|
      ensures texts[j] == lines[j].text && Classified(lines[j])
      ensures lines[j].kind.Features? <==> Trim(texts[j]) == "[features]"
      ensures OpensTable(lines[j]) <==> StartsWith(Trim(texts[j]), '[')
      ensures lines[j].kind == Assignment(flag) <==> Name(flag) + " =" <= Trim(texts[j])
    {
      KindsAre(lines[j]);
    }
    assert NoHeaderBefore(texts, start) && NothingBetween(texts, start, i, Name(flag));
  }

  lemma OnIsTrue(lines: seq<Line>)
    requires All(Classified, lines) && FlagsOn(lines)
    ensures BothTrue(Texts(lines))
  {
    hide KindOf, TableEnd, FeaturesAt, FindFlag, IsFirst;
    var start := FeaturesAt(lines).value;
    var end := BodyEnd(lines, start);
    FirstIsFirst(lines, start, end, Hooks);
    FirstIsFirst(lines, start, end, MultiAgent);
    var h, m := FindFlag(lines, start + 1, end, Hooks).value, FindFlag(lines, start + 1, end, MultiAgent).value;
    assert Texts(lines)[h] == "hooks = true" && Texts(lines)[m] == "multi_agent = true";
  }

  // ---- where the lines stand ----

  function Placing(n: nat, end: nat, added: nat): seq<nat> {
    seq(n, i requires 0 <= i < n => if i < end then i else i + added)
  }

  lemma PlacingFacts(n: nat, end: nat, added: nat)
    requires end <= n
    ensures Climbs(Placing(n, end, added))
    ensures forall k :: 0 <= k < n + added && k !in Placing(n, end, added) ==> end <= k < end + added
  {
    var place := Placing(n, end, added);
    forall k | 0 <= k < n + added && !(end <= k < end + added)
      ensures k in place
    {
      assert place[if k < end then k else k - added] == k;
    }
  }

  /** `out` is `lines` with line `index` replaced by `x`, or with `x` put at `end`. */
  ghost predicate TurnedOnce(lines: seq<Line>, out: seq<Line>, end: nat, index: Option<nat>, x: Line) {
    && end <= |lines| && |out| == |lines| + Missing(index)
    && (forall i :: 0 <= i < end ==> out[i] == if index == Some(i) then x else lines[i])
    && (forall i :: end <= i < |lines| ==> out[i + Missing(index)] == lines[i])
    && (index.Some? ==> index.value < end) && (index.None? ==> out[end] == x)
  }

  ghost predicate TurnedTwice(lines: seq<Line>, out: seq<Line>, end: nat, h: Option<nat>, m: Option<nat>, x: Line,
      y: Line) {
    var added := Missing(h) + Missing(m);
    && end <= |lines| && |out| == |lines| + added
    && (forall i :: 0 <= i < end ==> out[i] == if m == Some(i) then y else if h == Some(i) then x else lines[i])
    && (forall i :: end <= i < |lines| ==> out[i + added] == lines[i])
    && (forall k :: end <= k < end + added ==> out[k] == x || out[k] == y)
  }

  lemma OnceThenOnce(lines: seq<Line>, mid: seq<Line>, out: seq<Line>, end: nat, h: Option<nat>, m: Option<nat>,
      x: Line, y: Line)
    requires TurnedOnce(lines, mid, end, h, x) && TurnedOnce(mid, out, end + Missing(h), m, y)
    requires m.Some? ==> m.value < end
    ensures TurnedTwice(lines, out, end, h, m, x, y)
  {
    var a, b := Missing(h), Missing(m);
    forall i | end <= i < |lines|
      ensures out[i + (a + b)] == lines[i]
    {
      assert mid[i + a] == lines[i] && out[i + a + b] == mid[i + a];
    }
    forall i | 0 <= i < end
      ensures out[i] == if m == Some(i) then y else if h == Some(i) then x else lines[i]
    {
      assert out[i] == if m == Some(i) then y else mid[i];
    }
    if a == 1 { assert out[end] == mid[end] == x; }
  }

  lemma OnceTurned(lines: seq<Line>, start: nat, end: nat, flag: Flag)
    requires start < end <= |lines|
    ensures TurnedOnce(lines, TurnOn(lines, start, end, flag).0, end, FindFlag(lines, start + 1, end, flag), On(flag))
    ensures TurnOn(lines, start, end, flag).1 == end + Missing(FindFlag(lines, start + 1, end, flag))
  {
    hide FindFlag, On;
  }

  /** What both steps leave on each line, and add between `end` and what follows. */
  lemma TwiceTurned(lines: seq<Line>, start: nat, end: nat)
    requires start < end <= |lines|
    ensures var h, m := FindFlag(lines, start + 1, end, Hooks), FindFlag(lines, start + 1, end, MultiAgent);
            var (hooked, mid) := TurnOn(lines, start, end, Hooks);
            TurnedTwice(lines, TurnOn(hooked, start, mid, MultiAgent).0, end, h, m, On(Hooks), On(MultiAgent))
  {
    hide FindFlag, TurnOn, On, TurnedOnce, TurnedTwice;
    var (hooked, mid) := TurnOn(lines, start, end, Hooks);
    FindsOther(lines, start, end, Hooks, MultiAgent);
    OnceTurned(lines, start, end, Hooks);
    OnceTurned(hooked, start, mid, MultiAgent);
    BothFound(lines, start, end);
    OnceThenOnce(lines, hooked, TurnOn(hooked, start, mid, MultiAgent).0, end, FindFlag(lines, start + 1, end, Hooks),
      FindFlag(lines, start + 1, end, MultiAgent), On(Hooks), On(MultiAgent));
  }

  lemma BothFound(lines: seq<Line>, start: nat, end: nat)
    requires start < end <= |lines|
    ensures var h, m := FindFlag(lines, start + 1, end, Hooks), FindFlag(lines, start + 1, end, MultiAgent);
            (h.Some? ==> h.value < end) && (m.Some? ==> m.value < end) && (h.Some? && m.Some? ==> h != m)
  {
  }

  lemma TableStands(lines: seq<Line>, start: nat)
    requires All(Classified, lines) && FeaturesAt(lines) == Some(start)
    ensures exists place: seq<nat> :: StandAt(Texts(lines), Texts(MergeLines(lines)), place)
  {
    hide KindOf, TableEnd, FeaturesAt, FindFlag, IsFirst, TurnOn, MergeLines, WithoutBlanks, TurnedTwice, StandAt;
    var end := BodyEnd(lines, start);
    var h, m := FindFlag(lines, start + 1, end, Hooks), FindFlag(lines, start + 1, end, MultiAgent);
    MergeIsTwice(lines, start);
    TwiceTurned(lines, start, end);
    if h.Some? { FirstIsFirst(lines, start, end, Hooks); }
    if m.Some? { FirstIsFirst(lines, start, end, MultiAgent); }
    BothFound(lines, start, end);
    TurnedStands(lines, MergeLines(lines), end, h, m);
  }

  lemma TurnedStands(lines: seq<Line>, out: seq<Line>, end: nat, h: Option<nat>, m: Option<nat>)
    requires TurnedTwice(lines, out, end, h, m, On(Hooks), On(MultiAgent)) && (h.Some? && m.Some? ==> h != m)
    requires h.Some? ==> IsFirst(Texts(lines), h.value, "hooks")
    requires m.Some? ==> IsFirst(Texts(lines), m.value, "multi_agent")
    ensures StandAt(Texts(lines), Texts(out), Placing(|lines|, end, Missing(h) + Missing(m)))
  {
    hide IsFirst;
    PlacingFacts(|lines|, end, Missing(h) + Missing(m));
  }

  lemma NewTableStands(lines: seq<Line>)
    requires FeaturesAt(lines) == None
    ensures exists place: seq<nat> :: StandAt(Texts(lines), Texts(MergeLines(lines)), place)
  {
    hide FeaturesAt, SetsTrue;
    var n := |lines|;
    PlacingFacts(n, n, |MergeLines(lines)| - n);
    assert StandAt(Texts(lines), Texts(MergeLines(lines)), Placing(n, n, |MergeLines(lines)| - n));
  }

  lemma ReadIsClassified(texts: seq<string>)
    ensures All(Classified, ReadAll(texts)) && Texts(ReadAll(texts)) == texts
  {
  }

  lemma MergedIsClassified(lines: seq<Line>)
    requires All(Classified, lines)
    ensures All(Classified, MergeLines(lines)) && MergeLines(lines) != []
  {
    MergeClassified(lines);
    MergeTurnsOn(lines);
  }

  /** For every text, with or without lone carriage returns. */
  lemma MergeTextMerges(text: string)
    ensures MergesInto(text, MergeText(text))
  {
    hide KindOf, MergeLines, Lines, All, BothTrue, StandAt, FeaturesAt, FlagsOn, Ended, Unsplit, Texts, ReadAll;
    var lines := ReadAll(Lines(text));
    var merged := MergeLines(lines);
    ReadIsClassified(Lines(text));
    MergedIsClassified(lines);
    MergeTurnsOn(lines);
    OnIsTrue(merged);
    TextsLength(merged);
    UnsplitIsEnded(Texts(merged));
    match FeaturesAt(lines)
    case None => NewTableStands(lines);
    case Some(start) => TableStands(lines, start);
  }

  lemma TextsLength(lines: seq<Line>)
    ensures |Texts(lines)| == |lines|
  {
  }

  const TABLE := ["[features]", "hooks = true", "multi_agent = true"]

  /** Without a configuration the file is the table. */
  lemma MergeOfNothing()
    ensures MergeText("") == Ended(TABLE)
  {
    hide Unsplit, Ended, MergeLines, ReadAll, Lines, Texts;
    NothingMerged();
    UnsplitIsEnded(TABLE);
  }

  lemma NothingMerged()
    ensures Texts(MergeLines(ReadAll(Lines("")))) == TABLE
  {
    assert ReadAll(Lines("")) == [];
    var merged := MergeLines([]);
    assert merged == [HEADER, On(Hooks), On(MultiAgent)];
  }
}
