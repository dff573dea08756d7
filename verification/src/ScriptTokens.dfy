/**
 Script-aware tokens: text is cut into runs of scripts written without spaces and runs of anything
 else; the first kind becomes overlapping pairs of characters. Runs are kept by character index here,
 and turned into the byte offsets the index stores.
 */
module ScriptTokens {
  import opened Prelude
  import opened Text

  /** Thai, Lao, Myanmar, Khmer, CJK and its extension A, Hiragana, Katakana, Hangul. */
  predicate IsNoSpace(c: char) {
    var code := c as int;
    || 0x0E00 <= code <= 0x0E7F || 0x0E80 <= code <= 0x0EFF || 0x1000 <= code <= 0x109F || 0x1780 <= code <= 0x17FF
    || 0x4E00 <= code <= 0x9FFF || 0x3400 <= code <= 0x4DBF || 0x3040 <= code <= 0x309F || 0x30A0 <= code <= 0x30FF
    || 0xAC00 <= code <= 0xD7A3
  }

  /** Seen from the code points, the nine blocks are seven ranges: Thai and Lao join, and so do the two kana. */
  lemma NoSpaceIff(c: char)
    ensures IsNoSpace(c) <==>
            || '\U{0E00}' <= c < '\U{0F00}'
            || '\U{1000}' <= c < '\U{10A0}'
            || '\U{1780}' <= c < '\U{1800}'
            || '\U{3040}' <= c < '\U{3100}'
            || '\U{3400}' <= c < '\U{4DC0}'
            || '\U{4E00}' <= c < '\U{A000}'
            || '\U{AC00}' <= c < '\U{D7A4}'
  {
  }

  predicate AllNoSpace(s: string) {
    forall i :: 0 <= i < |s| ==> IsNoSpace(s[i])
  }

  // ---- byte offsets ----

  function ByteAt(text: string, i: nat): nat
    requires i <= |text|
  {
    ByteLen(text[..i])
  }

  /** The character index of a byte offset, if it falls on a character boundary. */
  function Boundary(text: string, b: nat): (i: Option<nat>)
    ensures i.Some? ==> i.value <= |text|
    decreases |text|
  {
    if b == 0 then Some(0)
    else if text == "" || b < Utf8Len(text[0]) then None
    else
      match Boundary(text[1..], b - Utf8Len(text[0]))
      case None => None
      case Some(i) => Some(i + 1)
  }

  /** Slicing by bytes; no value where the original would panic. */
  function Slice(text: string, from: nat, to: nat): Option<string> {
    var i, j := Boundary(text, from), Boundary(text, to);
    if i.Some? && j.Some? && i.value <= j.value then Some(text[i.value..j.value]) else None
  }

  lemma {:induction false} BoundaryOfByte(text: string, i: nat)
    requires i <= |text|
    ensures Boundary(text, ByteAt(text, i)) == Some(i)
  {
    if i > 0 {
      assert text[..i][1..] == text[1..][..i - 1];
      BoundaryOfByte(text[1..], i - 1);
    }
  }

  lemma SliceOfBytes(text: string, i: nat, j: nat)
    requires i <= j <= |text|
    ensures Slice(text, ByteAt(text, i), ByteAt(text, j)) == Some(text[i..j])
  {
    BoundaryOfByte(text, i);
    BoundaryOfByte(text, j);
  }

  lemma ByteAtSum(text: string, i: nat, j: nat)
    requires i <= j <= |text|
    ensures ByteAt(text, i) + ByteLen(text[i..j]) == ByteAt(text, j)
  {
    assert text[..j] == text[..i] + text[i..j];
    ByteLenAppend(text[..i], text[i..j]);
  }

  lemma ByteAtNext(text: string, i: nat)
    requires i < |text|
    ensures ByteAt(text, i + 1) == ByteAt(text, i) + Utf8Len(text[i])
  {
    ByteAtSum(text, i, i + 1);
    assert text[i..i + 1][1..] == "";
  }

  // ---- runs ----

  datatype Run = Run(from: nat, to: nat, script: bool)

  /** The runs of the first `n` characters. */
  function RunsOf(text: string, n: nat): seq<Run>
    requires n <= |text|
  {
    if n == 0 then []
    else
      var before := RunsOf(text, n - 1);
      if before != [] && before[|before| - 1].script == IsNoSpace(text[n - 1]) then
        before[..|before| - 1] + [before[|before| - 1].(to := n)]
      else before + [Run(n - 1, n, IsNoSpace(text[n - 1]))]
  }

  ghost predicate IsUniform(text: string, r: Run) {
    r.from < r.to <= |text| && forall i :: r.from <= i < r.to ==> IsNoSpace(text[i]) == r.script
  }

  /** Runs tile the first `n` characters, each of one kind, and neighbours differ in kind. */
  ghost predicate Tiles(text: string, runs: seq<Run>, n: nat) {
    && (if runs == [] then n == 0 else runs[0].from == 0 && runs[|runs| - 1].to == n)
    && (forall k :: 0 <= k < |runs| ==> IsUniform(text, runs[k]))
    && (forall k :: 0 < k < |runs| ==> runs[k - 1].to == runs[k].from && runs[k - 1].script != runs[k].script)
  }

  lemma TilesExtended(text: string, runs: seq<Run>, n: nat)
    requires 0 < n < |text| && Tiles(text, runs, n) && runs[|runs| - 1].script == IsNoSpace(text[n])
    ensures Tiles(text, runs[..|runs| - 1] + [runs[|runs| - 1].(to := n + 1)], n + 1)
  {
    assert IsUniform(text, runs[|runs| - 1]);
    assert IsUniform(text, runs[|runs| - 1].(to := n + 1));
  }

  lemma TilesPushed(text: string, runs: seq<Run>, n: nat)
    requires n < |text| && Tiles(text, runs, n)
    requires runs != [] ==> runs[|runs| - 1].script != IsNoSpace(text[n])
    ensures Tiles(text, runs + [Run(n, n + 1, IsNoSpace(text[n]))], n + 1)
  {
    assert IsUniform(text, Run(n, n + 1, IsNoSpace(text[n])));
  }

  lemma NoRunsYet(text: string, runs: seq<Run>, n: nat)
    requires Tiles(text, runs, n)
    ensures runs == [] <==> n == 0
  {
    if runs != [] { assert IsUniform(text, runs[|runs| - 1]); }
  }

  lemma RunsNext(text: string, n: nat)
    requires n < |text|
    ensures var before, script := RunsOf(text, n), IsNoSpace(text[n]);
            RunsOf(text, n + 1) ==
            if before != [] && before[|before| - 1].script == script then
              before[..|before| - 1] + [before[|before| - 1].(to := n + 1)]
            else before + [Run(n, n + 1, script)]
  {
  }

  lemma {:induction false} RunsTile(text: string, n: nat)
    requires n <= |text|
    ensures Tiles(text, RunsOf(text, n), n)
  {
    hide Tiles, RunsOf, IsNoSpace;
    if n == 0 {
      StartOfRuns(text);
    } else {
      var before := RunsOf(text, n - 1);
      RunsTile(text, n - 1);
      RunsNext(text, n - 1);
      NoRunsYet(text, before, n - 1);
      if before != [] && before[|before| - 1].script == IsNoSpace(text[n - 1]) {
        TilesExtended(text, before, n - 1);
      } else {
        TilesPushed(text, before, n - 1);
      }
    }
  }

  /** The last run of a tiling reaches back exactly to the last change of kind. */
  lemma LastRunAgrees(text: string, a: seq<Run>, b: seq<Run>, n: nat)
    requires 0 < n <= |text| && Tiles(text, a, n) && Tiles(text, b, n)
    ensures a[|a| - 1] == b[|b| - 1]
  {
    LastRunReaches(text, a, b, n);
    LastRunReaches(text, b, a, n);
    assert IsUniform(text, a[|a| - 1]) && IsUniform(text, b[|b| - 1]);
    assert IsNoSpace(text[n - 1]) == a[|a| - 1].script == b[|b| - 1].script;
  }

  lemma LastRunReaches(text: string, a: seq<Run>, b: seq<Run>, n: nat)
    requires 0 < n <= |text| && Tiles(text, a, n) && Tiles(text, b, n)
    ensures b[|b| - 1].from <= a[|a| - 1].from
  {
    var x, y := a[|a| - 1], b[|b| - 1];
    KindChangesAt(text, b, n);
    assert IsUniform(text, x);
    assert IsNoSpace(text[n - 1]) == x.script;
    assert forall i :: x.from <= i < n ==> IsNoSpace(text[i]) == IsNoSpace(text[n - 1]);
  }

  lemma KindChangesAt(text: string, runs: seq<Run>, n: nat)
    requires 0 < n <= |text| && Tiles(text, runs, n)
    ensures var last := runs[|runs| - 1];
            last.from < n && (last.from > 0 ==> IsNoSpace(text[last.from - 1]) != IsNoSpace(text[n - 1]))
  {
    var last := runs[|runs| - 1];
    assert IsUniform(text, last);
    if |runs| > 1 {
      assert IsUniform(text, runs[|runs| - 2]);
      assert IsNoSpace(text[last.from - 1]) == runs[|runs| - 2].script;
    }
  }

  /** There is only one such tiling, so the runs are maximal. */
  lemma {:induction false} TilingIsUnique(text: string, a: seq<Run>, b: seq<Run>, n: nat)
    requires n <= |text| && Tiles(text, a, n) && Tiles(text, b, n)
    ensures a == b
    decreases n
  {
    if n > 0 {
      LastRunAgrees(text, a, b, n);
      var x := a[|a| - 1];
      assert IsUniform(text, x);
      assert Tiles(text, a[..|a| - 1], x.from) && Tiles(text, b[..|b| - 1], x.from);
      TilingIsUnique(text, a[..|a| - 1], b[..|b| - 1], x.from);
      assert a == a[..|a| - 1] + [x] && b == b[..|b| - 1] + [x];
    }
  }

  function InBytes(text: string, r: Run): Run
    requires r.from <= |text| && r.to <= |text|
  {
    Run(ByteAt(text, r.from), ByteAt(text, r.to), r.script)
  }

  ghost predicate AreBytesOf(text: string, bytes: seq<Run>, runs: seq<Run>) {
    |bytes| == |runs| &&
    forall k :: 0 <= k < |runs| ==> runs[k].from <= |text| && runs[k].to <= |text| && bytes[k] == InBytes(text, runs[k])
  }

  lemma AreBytesSnoc(text: string, bytes: seq<Run>, runs: seq<Run>, r: Run)
    requires AreBytesOf(text, bytes, runs) && r.from <= |text| && r.to <= |text|
    ensures AreBytesOf(text, bytes + [InBytes(text, r)], runs + [r])
  {
  }

  lemma StartOfRuns(text: string)
    ensures ByteAt(text, 0) == 0 && RunsOf(text, 0) == [] && Tiles(text, [], 0) && AreBytesOf(text, [], [])
  {
  }

  /** The loop over characters: closes a run, by byte offsets, whenever the kind changes. */
  method SplitScriptRuns(text: string) returns (bytes: seq<Run>)
    ensures AreBytesOf(text, bytes, RunsOf(text, |text|))
  {
    bytes := [];
    var start, idx := 0, 0;
    var current: Option<bool> := None;
    StartOfRuns(text);
    hide RunsOf, ByteAt, AreBytesOf, IsNoSpace, Utf8Len;
    for n := 0 to |text|
      invariant idx == ByteAt(text, n)
      invariant current.Some? <==> n > 0
      invariant n == 0 ==> bytes == [] && start == 0
      invariant n > 0 ==> var runs := RunsOf(text, n);
                          && runs != [] && runs[|runs| - 1].from < n && runs[|runs| - 1].to == n
                          && current == Some(runs[|runs| - 1].script) && start == ByteAt(text, runs[|runs| - 1].from)
                          && AreBytesOf(text, bytes, runs[..|runs| - 1])
    {
      var isScript := IsNoSpace(text[n]);
      RunsNext(text, n);
      ByteAtNext(text, n);
      ghost var before := RunsOf(text, n);
      if current.None? {
        current := Some(isScript);
      } else if current.value != isScript {
        bytes := bytes + [Run(start, idx, current.value)];
        AreBytesSnoc(text, bytes[..|bytes| - 1], before[..|before| - 1], before[|before| - 1]);
        assert before[..|before| - 1] + [before[|before| - 1]] == before;
        start := idx;
        current := Some(isScript);
      }
      idx := idx + Utf8Len(text[n]);
    }
    if current.Some? {
      ghost var runs := RunsOf(text, |text|);
      AreBytesSnoc(text, bytes, runs[..|runs| - 1], runs[|runs| - 1]);
      assert runs[..|runs| - 1] + [runs[|runs| - 1]] == runs;
      bytes := bytes + [Run(start, idx, current.value)];
    }
  }

  // ---- tokens ----

  /** A token with the byte offsets of its text in the whole input. */
  datatype Token = Token(text: string, from: nat, to: nat)

  /** Overlapping pairs of a run that starts at byte `offset`; a lone character stands for itself. */
  function ScriptBigrams(run: string, offset: nat): seq<Token> {
    if run == "" then []
    else if |run| == 1 then [Token(run, offset, offset + ByteLen(run))]
    else
      seq(|run| - 1, k requires 0 <= k < |run| - 1 =>
        Token(run[k..k + 2], offset + ByteAt(run, k), offset + ByteAt(run, k + 2)))
  }

  /** The loop over adjacent characters with their offsets. */
  method BigramLoop(run: string, offset: nat) returns (tokens: seq<Token>)
    ensures tokens == ScriptBigrams(run, offset)
  {
    if run == "" { return []; }
    assert run[..1][1..] == "";
    if |run| == 1 {
      assert run[..1] == run && run[1..] == "";
      assert ByteLen(run) == Utf8Len(run[0]);
      return [Token(run, offset, offset + Utf8Len(run[0]))];
    }
    tokens := [];
    var offA, offB := 0, Utf8Len(run[0]);
    for k := 0 to |run| - 1
      invariant offA == ByteAt(run, k) && offB == ByteAt(run, k + 1)
      invariant |tokens| == k
      invariant forall j :: 0 <= j < k ==> tokens[j] == ScriptBigrams(run, offset)[j]
    {
      ByteAtNext(run, k + 1);
      assert [run[k], run[k + 1]] == run[k..k + 2];
      tokens := tokens + [Token([run[k], run[k + 1]], offset + offA, offset + offB + Utf8Len(run[k + 1]))];
      offA, offB := offB, offB + Utf8Len(run[k + 1]);
    }
  }

  function Shifted(tokens: seq<Token>, offset: nat): seq<Token> {
    seq(|tokens|, k requires 0 <= k < |tokens| => Token(tokens[k].text, offset + tokens[k].from, offset + tokens[k].to))
  }

  /** The tokens of one run; `other` is the default analyzer on a run of the other kind. */
  function RunTokens(text: string, r: Run, other: string -> seq<Token>): seq<Token>
    requires r.from <= r.to <= |text|
  {
    if r.script then ScriptBigrams(text[r.from..r.to], ByteAt(text, r.from))
    else Shifted(other(text[r.from..r.to]), ByteAt(text, r.from))
  }

  ghost predicate InRange(text: string, runs: seq<Run>) {
    forall k :: 0 <= k < |runs| ==> runs[k].from <= runs[k].to <= |text|
  }

  function TokenLists(text: string, runs: seq<Run>, other: string -> seq<Token>): (r: seq<seq<Token>>)
    requires InRange(text, runs)
    ensures |r| == |runs|
  {
    seq(|runs|, k requires 0 <= k < |runs| => RunTokens(text, runs[k], other))
  }

  lemma RunsInRange(text: string)
    ensures InRange(text, RunsOf(text, |text|))
  {
    RunsTile(text, |text|);
    forall k | 0 <= k < |RunsOf(text, |text|)|
      ensures RunsOf(text, |text|)[k].from <= RunsOf(text, |text|)[k].to <= |text|
    {
      assert IsUniform(text, RunsOf(text, |text|)[k]);
    }
  }

  ghost function SegmentOf(text: string, other: string -> seq<Token>): seq<Token> {
    RunsInRange(text);
    Flatten(TokenLists(text, RunsOf(text, |text|), other))
  }

  /** The tokens of the run between two byte offsets. */
  method TokenizeRun(text: string, ghost r: Run, bytes: Run, other: string -> seq<Token>) returns (tokens: seq<Token>)
    requires r.from <= r.to <= |text| && bytes == InBytes(text, r)
    ensures tokens == RunTokens(text, r, other)
  {
    SliceOfBytes(text, r.from, r.to);
    var run := Slice(text, bytes.from, bytes.to).value;
    if bytes.script {
      tokens := BigramLoop(run, bytes.from);
    } else {
      tokens := Shifted(other(run), bytes.from);
    }
  }

  /** Segmentation: slices every run out of the text by bytes and tokenizes it by its kind. */
  method Segment(text: string, other: string -> seq<Token>) returns (tokens: seq<Token>)
    ensures tokens == SegmentOf(text, other)
  {
    var bytes := SplitScriptRuns(text);
    ghost var runs := RunsOf(text, |text|);
    RunsInRange(text);
    ghost var lists := TokenLists(text, runs, other);
    tokens := [];
    for k := 0 to |bytes|
      invariant tokens == Flatten(lists[..k])
    {
      FlattenSnoc(lists, k);
      var more := TokenizeRun(text, runs[k], bytes[k], other);
      tokens := tokens + more;
    }
    assert lists[..|lists|] == lists;
  }
}
