/** Which tokens a document has, and what a query without spaces therefore matches. */
module ScriptSearch {
  import opened Prelude
  import opened Text
  import opened ScriptTokens

  predicate NoneNoSpace(s: string) {
    forall i :: 0 <= i < |s| ==> !IsNoSpace(s[i])
  }

  /** The default analyzer makes tokens out of the characters it is given. */
  ghost predicate KeepsToItsRuns(other: string -> seq<Token>) {
    forall run, t :: t in other(run) && NoneNoSpace(run) ==> NoneNoSpace(t.text)
  }

  lemma TokenOfSomeRun(text: string, runs: seq<Run>, other: string -> seq<Token>, t: Token) returns (k: nat)
    requires InRange(text, runs) && t in Flatten(TokenLists(text, runs, other))
    ensures k < |runs| && t in RunTokens(text, runs[k], other)
  {
    k := FromFlatten(TokenLists(text, runs, other), t);
  }

  lemma RunTokensAreTokens(text: string, runs: seq<Run>, other: string -> seq<Token>, k: nat, t: Token)
    requires InRange(text, runs) && k < |runs| && t in RunTokens(text, runs[k], other)
    ensures t in Flatten(TokenLists(text, runs, other))
  {
    InFlatten(TokenLists(text, runs, other), k, t);
  }

  ghost predicate HasToken(text: string, other: string -> seq<Token>, w: string) {
    exists t :: t in SegmentOf(text, other) && t.text == w
  }

  ghost predicate OccursAt(w: string, text: string, i: int) {
    0 <= i && i + |w| <= |text| && text[i..i + |w|] == w
  }

  ghost predicate Occurs(w: string, text: string) {
    exists i :: OccursAt(w, text, i)
  }

  /** A character that stands in no pair. */
  ghost predicate AloneAt(c: char, text: string, i: int) {
    && 0 <= i < |text| && text[i] == c
    && (i > 0 ==> !IsNoSpace(text[i - 1])) && (i + 1 < |text| ==> !IsNoSpace(text[i + 1]))
  }

  // ---- tokens of one run ----

  /** `t` is characters `i` to `j` of the run: two neighbours, or the only one. */
  ghost predicate IsGram(text: string, r: Run, i: int, j: int, t: Token) {
    && 0 <= r.from <= i < j <= r.to <= |text|
    && t == Token(text[i..j], ByteAt(text, i), ByteAt(text, j))
    && (if r.to == r.from + 1 then i == r.from && j == r.to else j == i + 2)
  }

  lemma GramsOfRun(text: string, r: Run, other: string -> seq<Token>, t: Token)
    requires IsUniform(text, r) && r.script && t in RunTokens(text, r, other)
    ensures exists i, j :: IsGram(text, r, i, j, t)
  {
    var run := text[r.from..r.to];
    if |run| == 1 {
      ByteAtSum(text, r.from, r.to);
      assert IsGram(text, r, r.from, r.to, t);
    } else {
      var k :| 0 <= k < |run| - 1 && t == ScriptBigrams(run, ByteAt(text, r.from))[k];
      GramAt(text, r, k);
      assert IsGram(text, r, r.from + k, r.from + k + 2, t);
    }
  }

  lemma ByteInRun(text: string, from: nat, to: nat, k: nat)
    requires from + k <= to <= |text|
    ensures ByteAt(text, from) + ByteAt(text[from..to], k) == ByteAt(text, from + k)
  {
    ByteAtSum(text, from, from + k);
    assert text[from..to][..k] == text[from..from + k];
  }

  lemma SliceInRun(text: string, from: nat, to: nat, k: nat, m: nat)
    requires k <= m && from + m <= to <= |text|
    ensures text[from..to][k..m] == text[from + k..from + m]
  {
    assert forall i :: 0 <= i < m - k ==> text[from..to][k..m][i] == text[from + k..from + m][i];
  }

  lemma GramAt(text: string, r: Run, k: nat)
    requires r.from + k + 2 <= r.to <= |text|
    ensures ScriptBigrams(text[r.from..r.to], ByteAt(text, r.from))[k] ==
            Token(text[r.from + k..r.from + k + 2], ByteAt(text, r.from + k), ByteAt(text, r.from + k + 2))
  {
    ByteInRun(text, r.from, r.to, k);
    ByteInRun(text, r.from, r.to, k + 2);
    SliceInRun(text, r.from, r.to, k, k + 2);
  }

  // ---- tokens of a text ----

  /** Every gram of every run of a script without spaces slices back to its own text. */
  lemma GramsSliceBack(text: string, r: Run, other: string -> seq<Token>, t: Token)
    requires r in RunsOf(text, |text|) && r.script && IsUniform(text, r) && t in RunTokens(text, r, other)
    ensures Slice(text, t.from, t.to) == Some(t.text) && AllNoSpace(t.text)
  {
    GramsOfRun(text, r, other, t);
    var i, j :| IsGram(text, r, i, j, t);
    SliceOfBytes(text, i, j);
  }

  lemma {:induction false} ByteOfBoundary(text: string, b: nat)
    requires Boundary(text, b).Some?
    ensures ByteAt(text, Boundary(text, b).value) == b
    decreases |text|
  {
    if b > 0 {
      ByteOfBoundary(text[1..], b - Utf8Len(text[0]));
      var i := Boundary(text, b).value;
      assert text[..i][1..] == text[1..][..i - 1];
    }
  }

  /** A token of any other run has the text it was given, and its byte offsets slice out of the whole text what they
      sliced out of the run. */
  lemma OtherTokensSlice(text: string, r: Run, other: string -> seq<Token>, k: nat)
    requires r.from <= r.to <= |text| && !r.script
    requires var run := text[r.from..r.to]; k < |other(run)| && Slice(run, other(run)[k].from, other(run)[k].to).Some?
    ensures var run, tokens := text[r.from..r.to], RunTokens(text, r, other);
            && |tokens| == |other(run)| && tokens[k].text == other(run)[k].text
            && Slice(text, tokens[k].from, tokens[k].to) == Slice(run, other(run)[k].from, other(run)[k].to)
  {
    hide ByteAt, Boundary;
    var run := text[r.from..r.to];
    var t := other(run)[k];
    ByteOfBoundary(run, t.from);
    ByteOfBoundary(run, t.to);
    var i, j := Boundary(run, t.from).value, Boundary(run, t.to).value;
    ByteInRun(text, r.from, r.to, i);
    ByteInRun(text, r.from, r.to, j);
    SliceOfBytes(text, r.from + i, r.from + j);
    SliceInRun(text, r.from, r.to, i, j);
  }

  lemma RunAround(text: string, runs: seq<Run>, n: nat, i: nat) returns (k: nat)
    requires n <= |text| && Tiles(text, runs, n) && i < n
    ensures k < |runs| && runs[k].from <= i < runs[k].to
    decreases |runs|
  {
    var last := |runs| - 1;
    assert IsUniform(text, runs[last]);
    if runs[last].from <= i {
      k := last;
    } else {
      assert IsUniform(text, runs[last - 1]);
      k := RunAround(text, runs[..last], runs[last].from, i);
    }
  }

  /** Two neighbouring characters of the same kind are in one run. */
  lemma SameRun(text: string, runs: seq<Run>, k: nat, i: nat)
    requires Tiles(text, runs, |text|) && k < |runs| && runs[k].from <= i < runs[k].to
    requires i + 1 < |text| && IsNoSpace(text[i]) == IsNoSpace(text[i + 1])
    ensures i + 1 < runs[k].to
  {
    assert IsUniform(text, runs[k]);
    if k + 1 < |runs| {
      assert IsUniform(text, runs[k + 1]);
      assert IsNoSpace(text[runs[k + 1].from]) == runs[k + 1].script;
    }
  }

  lemma BigramCount(run: string, offset: nat)
    ensures |run| >= 2 ==> |ScriptBigrams(run, offset)| == |run| - 1
  {
  }

  lemma PairIsToken(text: string, other: string -> seq<Token>, w: string, i: nat)
    requires |w| == 2 && AllNoSpace(w) && OccursAt(w, text, i)
    ensures HasToken(text, other, w)
  {
    hide RunsOf, ScriptBigrams, IsNoSpace;
    var runs := RunsOf(text, |text|);
    RunsTile(text, |text|);
    RunsInRange(text);
    assert text[i] == w[0] && text[i + 1] == w[1];
    var k := RunAround(text, runs, |text|, i);
    SameRun(text, runs, k, i);
    assert IsUniform(text, runs[k]);
    var r := runs[k];
    GramAt(text, r, i - r.from);
    BigramCount(text[r.from..r.to], ByteAt(text, r.from));
    var t := Token(text[i..i + 2], ByteAt(text, i), ByteAt(text, i + 2));
    assert t in RunTokens(text, r, other);
    RunTokensAreTokens(text, runs, other, k, t);
  }

  lemma TokenIsGram(text: string, other: string -> seq<Token>, t: Token) returns (r: Run, i: int, j: int)
    requires KeepsToItsRuns(other) && t in SegmentOf(text, other) && t.text != "" && AllNoSpace(t.text)
    ensures r in RunsOf(text, |text|) && IsUniform(text, r) && r.script && IsGram(text, r, i, j, t)
  {
    var runs := RunsOf(text, |text|);
    RunsTile(text, |text|);
    RunsInRange(text);
    var k := TokenOfSomeRun(text, runs, other, t);
    r := runs[k];
    assert IsUniform(text, r);
    assert IsNoSpace(t.text[0]);
    if !r.script { OtherTokensArePlain(text, r, other, t); }
    GramsOfRun(text, r, other, t);
    i, j :| IsGram(text, r, i, j, t);
  }

  lemma OtherTokensArePlain(text: string, r: Run, other: string -> seq<Token>, t: Token)
    requires KeepsToItsRuns(other) && IsUniform(text, r) && !r.script && t in RunTokens(text, r, other)
    ensures NoneNoSpace(t.text)
  {
    var run := text[r.from..r.to];
    assert NoneNoSpace(run);
    var m :| 0 <= m < |other(run)| && t == Shifted(other(run), ByteAt(text, r.from))[m];
    assert other(run)[m] in other(run);
  }

  /** A pair of such characters is a token exactly when it occurs. */
  lemma PairIsTokenIff(text: string, other: string -> seq<Token>, w: string)
    requires KeepsToItsRuns(other) && |w| == 2 && AllNoSpace(w)
    ensures HasToken(text, other, w) <==> Occurs(w, text)
  {
    if Occurs(w, text) {
      var i :| OccursAt(w, text, i);
      PairIsToken(text, other, w, i);
    }
    if HasToken(text, other, w) {
      var t :| t in SegmentOf(text, other) && t.text == w;
      var r, i, j := TokenIsGram(text, other, t);
      assert OccursAt(w, text, i);
    }
  }

  lemma AloneRun(text: string, c: char, i: nat) returns (k: nat)
    requires IsNoSpace(c) && AloneAt(c, text, i)
    ensures k < |RunsOf(text, |text|)| && RunsOf(text, |text|)[k] == Run(i, i + 1, true)
  {
    RunsTile(text, |text|);
    k := RunAround(text, RunsOf(text, |text|), |text|, i);
    var r := RunsOf(text, |text|)[k];
    assert IsUniform(text, r);
    assert IsNoSpace(text[i]) == r.script;
  }

  lemma AloneGram(text: string, c: char, i: nat, other: string -> seq<Token>) returns (t: Token)
    requires i < |text| && text[i] == c
    ensures t in RunTokens(text, Run(i, i + 1, true), other) && t.text == [c]
  {
    t := Token([c], ByteAt(text, i), ByteAt(text, i) + ByteLen([c]));
    assert text[i..i + 1] == [c];
    assert RunTokens(text, Run(i, i + 1, true), other) == [t];
  }

  lemma AloneIsToken(text: string, other: string -> seq<Token>, c: char, i: nat)
    requires IsNoSpace(c) && AloneAt(c, text, i)
    ensures HasToken(text, other, [c])
  {
    var k := AloneRun(text, c, i);
    var t := AloneGram(text, c, i, other);
    RunsInRange(text);
    RunTokensAreTokens(text, RunsOf(text, |text|), other, k, t);
  }

  lemma RunEndsAlone(text: string, r: Run)
    requires r in RunsOf(text, |text|) && r.script && r.to == r.from + 1
    ensures r.to <= |text| && AloneAt(text[r.from], text, r.from)
  {
    var runs := RunsOf(text, |text|);
    RunsTile(text, |text|);
    var k :| 0 <= k < |runs| && runs[k] == r;
    assert IsUniform(text, r);
    if k > 0 {
      assert IsUniform(text, runs[k - 1]);
      assert IsNoSpace(text[runs[k - 1].to - 1]) == runs[k - 1].script;
    }
    if k + 1 < |runs| {
      assert IsUniform(text, runs[k + 1]);
      assert IsNoSpace(text[runs[k + 1].from]) == runs[k + 1].script;
    }
  }

  /** A single such character is a token exactly where it has no neighbour of its kind. */
  lemma SingleIsTokenIff(text: string, other: string -> seq<Token>, c: char)
    requires KeepsToItsRuns(other) && IsNoSpace(c)
    ensures HasToken(text, other, [c]) <==> exists i :: AloneAt(c, text, i)
  {
    if i :| AloneAt(c, text, i) {
      AloneIsToken(text, other, c, i);
    }
    if HasToken(text, other, [c]) {
      var t :| t in SegmentOf(text, other) && t.text == [c];
      var r, i, j := TokenIsGram(text, other, t);
      assert |text[i..j]| == 1;
      RunEndsAlone(text, r);
      assert text[i..j][0] == text[i];
    }
  }

  // ---- queries ----

  /** The unit of one query run: every gram is required. */
  ghost predicate RunHits(run: string, text: string, other: string -> seq<Token>) {
    forall t :: t in ScriptBigrams(run, 0) ==> HasToken(text, other, t.text)
  }

  /** A query hits when some unit of some run does, in the body or in the heading path. */
  ghost predicate Hits(query: string, body: string, heading: string, other: string -> seq<Token>) {
    exists r :: r in RunsOf(query, |query|) && UnitHits(query, r, body, heading, other)
  }

  ghost predicate UnitHits(query: string, r: Run, body: string, heading: string, other: string -> seq<Token>) {
    0 <= r.from <= r.to <= |query| &&
    var run := query[r.from..r.to];
    if r.script then RunHits(run, body, other) || RunHits(run, heading, other)
    else exists t :: t in other(run) && (HasToken(body, other, t.text) || HasToken(heading, other, t.text))
  }

  function Pair(run: string, k: nat): string
    requires k + 2 <= |run|
  {
    run[k..k + 2]
  }

  ghost predicate EveryPairOccurs(run: string, text: string) {
    forall k :: 0 <= k < |run| - 1 ==> Occurs(Pair(run, k), text)
  }

  lemma GramIsPair(run: string, k: nat)
    requires k + 2 <= |run|
    ensures ScriptBigrams(run, 0)[k].text == Pair(run, k) && ScriptBigrams(run, 0)[k] in ScriptBigrams(run, 0)
  {
  }

  /** Two characters or more: a hit is exactly that every adjacent pair occurs somewhere. */
  lemma RunHitsIff(run: string, text: string, other: string -> seq<Token>)
    requires KeepsToItsRuns(other) && |run| >= 2 && AllNoSpace(run)
    ensures RunHits(run, text, other) <==> EveryPairOccurs(run, text)
  {
    var grams := ScriptBigrams(run, 0);
    forall k | 0 <= k < |run| - 1
      ensures HasToken(text, other, Pair(run, k)) <==> Occurs(Pair(run, k), text)
      ensures grams[k].text == Pair(run, k) && grams[k] in grams
    {
      GramIsPair(run, k);
      PairIsTokenIff(text, other, Pair(run, k));
    }
    if EveryPairOccurs(run, text) {
      forall t | t in grams
        ensures HasToken(text, other, t.text)
      {
        var k :| 0 <= k < |grams| && grams[k] == t;
        assert Occurs(Pair(run, k), text);
      }
    }
  }

  lemma PairsOccur(run: string, text: string, i: nat)
    requires OccursAt(run, text, i)
    ensures EveryPairOccurs(run, text)
  {
    forall k | 0 <= k < |run| - 1
      ensures Occurs(Pair(run, k), text)
    {
      SliceInRun(text, i, i + |run|, k, k + 2);
      assert OccursAt(Pair(run, k), text, i + k);
    }
  }

  /** A run that occurs in the text hits it; for two characters the converse holds. */
  lemma ContiguousHits(run: string, text: string, other: string -> seq<Token>)
    requires KeepsToItsRuns(other) && |run| >= 2 && AllNoSpace(run)
    ensures Occurs(run, text) ==> RunHits(run, text, other)
    ensures |run| == 2 ==> (RunHits(run, text, other) <==> Occurs(run, text))
  {
    RunHitsIff(run, text, other);
    if Occurs(run, text) {
      var i :| OccursAt(run, text, i);
      PairsOccur(run, text, i);
    }
    if |run| == 2 {
      assert Pair(run, 0) == run;
    }
  }

  /** A lone character hits exactly where it stands alone. */
  lemma SingleHitsIff(c: char, text: string, other: string -> seq<Token>)
    requires KeepsToItsRuns(other) && IsNoSpace(c)
    ensures RunHits([c], text, other) <==> exists i :: AloneAt(c, text, i)
  {
    SingleIsTokenIff(text, other, c);
    var grams := ScriptBigrams([c], 0);
    assert grams[0] in grams && grams[0].text == [c];
  }

  lemma OneRun(query: string)
    requires query != "" && AllNoSpace(query)
    ensures RunsOf(query, |query|) == [Run(0, |query|, true)]
  {
    RunsTile(query, |query|);
    assert IsUniform(query, Run(0, |query|, true));
    TilingIsUnique(query, RunsOf(query, |query|), [Run(0, |query|, true)], |query|);
  }

  lemma QueryIsOneUnit(query: string, body: string, heading: string, other: string -> seq<Token>)
    requires query != "" && AllNoSpace(query)
    ensures Hits(query, body, heading, other) <==> RunHits(query, body, other) || RunHits(query, heading, other)
  {
    OneRun(query);
    var r := Run(0, |query|, true);
    assert query[0..|query|] == query;
    assert Hits(query, body, heading, other) <==> UnitHits(query, r, body, heading, other) by {
      assert r in RunsOf(query, |query|);
    }
  }

  /** For a whole query of such characters: contiguous occurrence in body or heading is a hit. */
  lemma QueryHits(query: string, body: string, heading: string, other: string -> seq<Token>)
    requires KeepsToItsRuns(other) && |query| >= 2 && AllNoSpace(query)
    ensures Hits(query, body, heading, other) <==> EveryPairOccurs(query, body) || EveryPairOccurs(query, heading)
    ensures Occurs(query, body) || Occurs(query, heading) ==> Hits(query, body, heading, other)
  {
    QueryIsOneUnit(query, body, heading, other);
    RunHitsIff(query, body, other);
    RunHitsIff(query, heading, other);
    ContiguousHits(query, body, other);
    ContiguousHits(query, heading, other);
  }

  lemma OneOtherRun(query: string)
    requires query != "" && NoneNoSpace(query)
    ensures RunsOf(query, |query|) == [Run(0, |query|, false)]
  {
    RunsTile(query, |query|);
    assert IsUniform(query, Run(0, |query|, false));
    TilingIsUnique(query, RunsOf(query, |query|), [Run(0, |query|, false)], |query|);
  }

  /** For a whole query of other characters: one of its words in the body or in the heading path is a hit. */
  lemma WordQueryHits(query: string, body: string, heading: string, other: string -> seq<Token>)
    requires query != "" && NoneNoSpace(query)
    ensures Hits(query, body, heading, other) <==>
            exists t :: t in other(query) && (HasToken(body, other, t.text) || HasToken(heading, other, t.text))
  {
    OneOtherRun(query);
    var r := Run(0, |query|, false);
    assert query[0..|query|] == query && r in RunsOf(query, |query|);
    if t :| t in other(query) && (HasToken(body, other, t.text) || HasToken(heading, other, t.text)) {
      assert UnitHits(query, r, body, heading, other);
    }
  }

  /** An empty query hits nothing. */
  lemma EmptyQueryMisses(body: string, heading: string, other: string -> seq<Token>)
    ensures !Hits("", body, heading, other)
  {
    RunsTile("", 0);
  }

  // ---- what a hit says about the word ----

  /** All pairs of the run, each followed by a space. */
  function Scattered(run: string): (text: string)
    ensures |text| == if run == "" then 0 else 3 * (|run| - 1)
  {
    if run == "" then ""
    else seq(3 * (|run| - 1), i requires 0 <= i < 3 * (|run| - 1) => if i % 3 == 2 then ' ' else run[i / 3 + i % 3])
  }

  lemma PairsAreScattered(run: string)
    ensures EveryPairOccurs(run, Scattered(run))
  {
    var text := Scattered(run);
    forall k | 0 <= k < |run| - 1
      ensures Occurs(Pair(run, k), text)
    {
      assert text[3 * k..3 * k + 2] == Pair(run, k);
      assert OccursAt(Pair(run, k), text, 3 * k);
    }
  }

  lemma SpaceInWindow(run: string, i: nat)
    requires |run| >= 3 && i + |run| <= |Scattered(run)|
    ensures !AllNoSpace(Scattered(run)[i..i + |run|])
  {
    hide Scattered;
    var j := 2 - i % 3;
    assert Scattered(run)[i + j] == ' ' by { SpaceAt(run, i + j); }
    assert Scattered(run)[i..i + |run|][j] == ' ';
  }

  lemma SpaceAt(run: string, i: nat)
    requires i < |Scattered(run)| && i % 3 == 2
    ensures Scattered(run)[i] == ' '
  {
  }

  /** Every third character is a space, so no longer window is free of spaces. */
  lemma NeverWhole(run: string)
    requires |run| >= 3 && AllNoSpace(run)
    ensures !Occurs(run, Scattered(run))
  {
    hide Scattered;
    forall i: nat | i + |run| <= |Scattered(run)|
      ensures !OccursAt(run, Scattered(run), i)
    {
      SpaceInWindow(run, i);
    }
  }

  /** Every text that a run hits contains that run exactly when it has at most two characters. */
  lemma HitMeansWordIff(run: string, other: string -> seq<Token>)
    requires KeepsToItsRuns(other) && AllNoSpace(run)
    ensures (forall text :: RunHits(run, text, other) ==> Occurs(run, text)) <==> |run| <= 2
  {
    if |run| >= 3 {
      PairsAreScattered(run);
      NeverWhole(run);
      RunHitsIff(run, Scattered(run), other);
    } else {
      forall text | RunHits(run, text, other)
        ensures Occurs(run, text)
      {
        ShortHit(run, text, other);
      }
    }
  }

  lemma ShortHit(run: string, text: string, other: string -> seq<Token>)
    requires KeepsToItsRuns(other) && AllNoSpace(run) && |run| <= 2 && RunHits(run, text, other)
    ensures Occurs(run, text)
  {
    if run == "" {
      assert OccursAt(run, text, 0);
    } else if |run| == 1 {
      var c := run[0];
      assert run == [c];
      SingleHitsIff(c, text, other);
      var i :| AloneAt(c, text, i);
      assert OccursAt(run, text, i);
    } else {
      ContiguousHits(run, text, other);
    }
  }

  /** A run hits every text that contains it exactly when it is not a lone character. */
  lemma WordMeansHitIff(run: string, other: string -> seq<Token>)
    requires KeepsToItsRuns(other) && AllNoSpace(run)
    ensures (forall text :: Occurs(run, text) ==> RunHits(run, text, other)) <==> |run| != 1
  {
    if |run| == 1 {
      var c := run[0];
      assert run == [c];
      LoneIsMissed(c, other);
    } else {
      forall text | Occurs(run, text)
        ensures RunHits(run, text, other)
      {
        if |run| >= 2 { ContiguousHits(run, text, other); }
      }
    }
  }

  lemma LoneIsMissed(c: char, other: string -> seq<Token>)
    requires KeepsToItsRuns(other) && IsNoSpace(c)
    ensures Occurs([c], [c, c]) && !RunHits([c], [c, c], other)
  {
    assert OccursAt([c], [c, c], 0);
    SingleHitsIff(c, [c, c], other);
  }

  /** The same for whole queries, whose words may stand in the body or in the heading path. */
  lemma QueryHitMeansWordIff(query: string, other: string -> seq<Token>)
    requires KeepsToItsRuns(other) && query != "" && AllNoSpace(query)
    ensures (forall body, heading :: Hits(query, body, heading, other) ==>
            Occurs(query, body) || Occurs(query, heading))
            <==> |query| <= 2
    ensures (forall body, heading :: Occurs(query, body) || Occurs(query, heading) ==>
            Hits(query, body, heading, other))
            <==> |query| != 1
  {
    HitMeansWordIff(query, other);
    WordMeansHitIff(query, other);
    forall body, heading
      ensures Hits(query, body, heading, other) <==> RunHits(query, body, other) || RunHits(query, heading, other)
    {
      QueryIsOneUnit(query, body, heading, other);
    }
    var text :| |query| >= 3 ==> RunHits(query, text, other) && !Occurs(query, text);
    assert |query| >= 3 ==> Hits(query, text, text, other);
    var missed :| |query| == 1 ==> Occurs(query, missed) && !RunHits(query, missed, other);
    assert |query| == 1 ==> !Hits(query, missed, missed, other);
  }
}
