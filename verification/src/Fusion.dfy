/** Reciprocal rank fusion of two ranked lists, over the reals. */
module Fusion {
  import opened Prelude
  import opened Sorting

  datatype Hit = Hit(id: string, score: real)

  // ---- the order of the result ----

  /** Strings by code point, which is the order of their UTF-8 bytes. */
  predicate StringLe(a: string, b: string) {
    a == "" || (b != "" && (a[0] < b[0] || (a[0] == b[0] && StringLe(a[1..], b[1..]))))
  }

  lemma {:induction false} StringLeTotal(a: string, b: string)
    ensures StringLe(a, b) || StringLe(b, a)
    ensures StringLe(a, b) && StringLe(b, a) ==> a == b
  {
    if a != "" && b != "" {
      StringLeTotal(a[1..], b[1..]);
      assert a == [a[0]] + a[1..] && b == [b[0]] + b[1..];
    }
  }

  lemma {:induction false} StringLeTransitive(a: string, b: string, c: string)
    requires StringLe(a, b) && StringLe(b, c)
    ensures StringLe(a, c)
  {
    if a != "" && a[0] == b[0] == c[0] {
      StringLeTransitive(a[1..], b[1..], c[1..]);
    }
  }

  /** Where the strings first differ the smaller character decides; a prefix comes first. */
  ghost predicate Precedes(a: string, b: string) {
    a <= b || exists k: nat :: DiffersAt(a, b, k)
  }

  ghost predicate DiffersAt(a: string, b: string, k: nat) {
    k < |a| && k < |b| && a[..k] == b[..k] && a[k] < b[k]
  }

  lemma PrecedesTail(a: string, b: string)
    requires a != "" && b != "" && a[0] == b[0]
    ensures Precedes(a, b) <==> Precedes(a[1..], b[1..])
  {
    assert a == [a[0]] + a[1..] && b == [b[0]] + b[1..];
    if k: nat :| DiffersAt(a, b, k) {
      assert k > 0 && a[1..][..k - 1] == a[..k][1..] && b[1..][..k - 1] == b[..k][1..];
      assert DiffersAt(a[1..], b[1..], k - 1);
    }
    if k: nat :| DiffersAt(a[1..], b[1..], k) {
      assert a[..k + 1] == [a[0]] + a[1..][..k] && b[..k + 1] == [b[0]] + b[1..][..k];
      assert DiffersAt(a, b, k + 1);
    }
  }

  lemma {:induction false} StringLeIff(a: string, b: string)
    ensures StringLe(a, b) <==> Precedes(a, b)
  {
    if a != "" && b != "" {
      if a[0] == b[0] {
        StringLeIff(a[1..], b[1..]);
        PrecedesTail(a, b);
      } else {
        assert DiffersAt(a, b, 0) <==> a[0] < b[0];
        assert forall k: nat :: DiffersAt(a, b, k) && k > 0 ==> a[..k][0] == b[..k][0];
      }
    }
  }

  /** Higher score first; ties by id. */
  predicate Before(a: Hit, b: Hit) {
    a.score > b.score || (a.score == b.score && StringLe(a.id, b.id))
  }

  lemma BeforeIsTotalOrder()
    ensures TotalOrder(Before)
  {
    forall a: Hit, b: Hit
      ensures Before(a, b) || Before(b, a)
      ensures Before(a, b) && Before(b, a) ==> a == b
    {
      StringLeTotal(a.id, b.id);
    }
    forall a: Hit, b: Hit, c: Hit | Before(a, b) && Before(b, c)
      ensures Before(a, c)
    {
      if a.score == b.score == c.score { StringLeTransitive(a.id, b.id, c.id); }
    }
  }

  // ---- scores ----

  /** What one list contributes to an id: the reciprocal of `k` plus the rank, for every place it has. */
  function Contribution(list: seq<string>, id: string, k: real): (r: real)
    requires k > 0.0
    ensures r >= 0.0 && (id in list <==> r > 0.0)
  {
    if list == [] then 0.0
    else
      var n := |list| - 1;
      assert list == list[..n] + [list[n]];
      Contribution(list[..n], id, k) + if list[n] == id then 1.0 / (k + n as real) else 0.0
  }

  function Score(lex: seq<string>, vec: seq<string>, id: string, k: real): real
    requires k > 0.0
  {
    Contribution(lex, id, k) + Contribution(vec, id, k)
  }

  function ScoreOr(scores: map<string, real>, id: string): real {
    if id in scores then scores[id] else 0.0
  }

  /** The map holds, for `seen` and nothing else, the old score plus the list's contribution. */
  ghost predicate Added(before: map<string, real>, scores: map<string, real>, list: seq<string>, k: real)
    requires k > 0.0
  {
    && (forall id :: id in scores <==> id in before || id in list)
    && (forall id :: id in scores ==> scores[id] == ScoreOr(before, id) + Contribution(list, id, k))
  }

  method AddList(before: map<string, real>, list: seq<string>, k: real) returns (scores: map<string, real>)
    requires k > 0.0
    ensures Added(before, scores, list, k)
  {
    scores := before;
    for n := 0 to |list|
      invariant Added(before, scores, list[..n], k)
    {
      assert list[..n + 1] == list[..n] + [list[n]];
      scores := scores[list[n] := ScoreOr(scores, list[n]) + 1.0 / (k + n as real)];
    }
    assert list[..|list|] == list;
  }

  // ---- the ranking ----

  /** Every id of either list once, with its fused score. */
  ghost predicate IsFusion(hits: seq<Hit>, lex: seq<string>, vec: seq<string>, k: real)
    requires k > 0.0
  {
    && (forall i, j :: 0 <= i < j < |hits| ==> hits[i].id != hits[j].id)
    && (forall h :: h in hits <==> (h.id in lex || h.id in vec) && h.score == Score(lex, vec, h.id, k))
  }

  lemma {:induction false} CountsOnce(hits: seq<Hit>, h: Hit)
    requires forall i, j :: 0 <= i < j < |hits| ==> hits[i].id != hits[j].id
    ensures multiset(hits)[h] == if h in hits then 1 else 0
  {
    if hits != [] {
      CountsOnce(hits[1..], h);
      assert hits == [hits[0]] + hits[1..];
    }
  }

  lemma SameFusion(a: seq<Hit>, b: seq<Hit>, lex: seq<string>, vec: seq<string>, k: real)
    requires k > 0.0 && IsFusion(a, lex, vec, k) && IsFusion(b, lex, vec, k)
    ensures multiset(a) == multiset(b)
  {
    forall h: Hit
      ensures multiset(a)[h] == multiset(b)[h]
    {
      CountsOnce(a, h);
      CountsOnce(b, h);
      assert h in a <==> h in b;
    }
  }

  /** The whole ranking before truncation: a fusion in the order of the result. */
  ghost predicate IsRanking(hits: seq<Hit>, lex: seq<string>, vec: seq<string>, k: real)
    requires k > 0.0
  {
    IsFusion(hits, lex, vec, k) && Sorted(hits, Before)
  }

  /** There is one ranking, whatever order the map was walked in and whichever list came first. */
  lemma RankingIsUnique(a: seq<Hit>, b: seq<Hit>, lex: seq<string>, vec: seq<string>, k: real)
    requires k > 0.0 && IsRanking(a, lex, vec, k) && (IsRanking(b, lex, vec, k) || IsRanking(b, vec, lex, k))
    ensures a == b
  {
    if !IsRanking(b, lex, vec, k) { SwappedFusion(b, vec, lex, k); }
    SameFusion(a, b, lex, vec, k);
    BeforeIsTotalOrder();
    SortedIsUnique(a, b, Before);
  }

  lemma SwappedFusion(hits: seq<Hit>, lex: seq<string>, vec: seq<string>, k: real)
    requires k > 0.0 && IsFusion(hits, lex, vec, k)
    ensures IsFusion(hits, vec, lex, k)
  {
    forall h
      ensures h in hits <==> (h.id in vec || h.id in lex) && h.score == Score(vec, lex, h.id, k)
    {
      assert Score(vec, lex, h.id, k) == Score(lex, vec, h.id, k);
    }
  }

  lemma SortedFusion(hits: seq<Hit>, lex: seq<string>, vec: seq<string>, k: real)
    requires k > 0.0 && IsFusion(hits, lex, vec, k)
    ensures IsRanking(StableSort(hits, Before), lex, vec, k)
  {
    var sorted := StableSort(hits, Before);
    BeforeIsTotalOrder();
    SortSorts(hits, Before);
    SortMembers(hits, Before);
    forall i, j | 0 <= i < j < |sorted|
      ensures sorted[i].id != sorted[j].id
    {
      if sorted[i].id == sorted[j].id {
        TwiceCounted(sorted, i, j);
        CountsOnce(hits, sorted[i]);
      }
    }
  }

  lemma TwiceCounted(xs: seq<Hit>, i: nat, j: nat)
    requires i < j < |xs|
    ensures xs[i] == xs[j] ==> multiset(xs)[xs[i]] >= 2
  {
    assert xs == xs[..i] + [xs[i]] + xs[i + 1..j] + [xs[j]] + xs[j + 1..];
  }

  /** Collects the map's entries in whatever order they come. */
  method Collect(scores: map<string, real>) returns (hits: seq<Hit>)
    ensures forall i, j :: 0 <= i < j < |hits| ==> hits[i].id != hits[j].id
    ensures forall h :: h in hits <==> h.id in scores && h.score == scores[h.id]
  {
    hits := [];
    var left := scores.Keys;
    while left != {}
      invariant left <= scores.Keys
      invariant forall i, j :: 0 <= i < j < |hits| ==> hits[i].id != hits[j].id
      invariant forall h :: h in hits <==> h.id in scores && h.id !in left && h.score == scores[h.id]
      decreases |left|
    {
      var id :| id in left;
      assert forall i :: 0 <= i < |hits| ==> hits[i] in hits && hits[i].id != id;
      hits := hits + [Hit(id, scores[id])];
      left := left - {id};
    }
  }

  /** The best ids come first, ties by the order of their characters, and none that is left out scores higher than
      one that is returned. */
  ghost predicate BestFirst(hits: seq<Hit>, lex: seq<string>, vec: seq<string>, k: real)
    requires k > 0.0
  {
    && (forall i, j :: 0 <= i < j < |hits| ==>
          hits[i].score > hits[j].score || (hits[i].score == hits[j].score && Precedes(hits[i].id, hits[j].id)))
    && (forall id: string, h: Hit :: (id in lex || id in vec) && h in hits && Score(lex, vec, id, k) > h.score ==>
          Hit(id, Score(lex, vec, id, k)) in hits)
  }

  lemma TopIsBest(all: seq<Hit>, lex: seq<string>, vec: seq<string>, k: real, topK: nat)
    requires k > 0.0 && IsRanking(all, lex, vec, k)
    ensures BestFirst(Take(all, topK), lex, vec, k)
  {
    hide Score, StringLe, Precedes;
    var hits := Take(all, topK);
    forall i, j | 0 <= i < j < |hits|
      ensures hits[i].score > hits[j].score || (hits[i].score == hits[j].score && Precedes(hits[i].id, hits[j].id))
    {
      assert Before(all[i], all[j]);
      StringLeIff(all[i].id, all[j].id);
    }
    forall id: string, h: Hit | (id in lex || id in vec) && h in hits && Score(lex, vec, id, k) > h.score
      ensures Hit(id, Score(lex, vec, id, k)) in hits
    {
      var best := Hit(id, Score(lex, vec, id, k));
      assert best in all;
      var i :| 0 <= i < |all| && all[i] == best;
      var j :| 0 <= j < |hits| && hits[j] == h;
      assert !Before(h, best) && i <= j;
      assert hits[i] == best;
    }
  }

  /** Accumulates both lists, sorts, truncates. */
  method Fuse(lex: seq<string>, vec: seq<string>, k: real, topK: nat) returns (hits: seq<Hit>)
    requires k > 0.0
    ensures exists all :: IsRanking(all, lex, vec, k) && hits == Take(all, topK)
    ensures BestFirst(hits, lex, vec, k)
  {
    var scores := AddList(map[], lex, k);
    scores := AddList(scores, vec, k);
    hits := Collect(scores);
    assert IsFusion(hits, lex, vec, k);
    SortedFusion(hits, lex, vec, k);
    hits := StableSort(hits, Before);
    assert IsRanking(hits, lex, vec, k);
    TopIsBest(hits, lex, vec, k, topK);
    hits := Take(hits, topK);
  }

  /** A smaller `topK` gives a prefix, of the same ranking whichever list comes first. */
  lemma SmallerIsPrefix(a: seq<Hit>, b: seq<Hit>, lex: seq<string>, vec: seq<string>, k: real, m: nat, n: nat)
    requires k > 0.0 && m <= n && IsRanking(a, lex, vec, k) && (IsRanking(b, lex, vec, k) || IsRanking(b, vec, lex, k))
    ensures Take(a, m) <= Take(b, n)
  {
    RankingIsUnique(a, b, lex, vec, k);
  }

  // ---- ranks decide ----

  ghost predicate NoRepeats(list: seq<string>) {
    forall i, j :: 0 <= i < j < |list| ==> list[i] != list[j]
  }

  lemma {:induction false} ContributionOfRank(list: seq<string>, r: nat, k: real)
    requires k > 0.0 && NoRepeats(list) && r < |list|
    ensures Contribution(list, list[r], k) == 1.0 / (k + r as real)
  {
    var n := |list| - 1;
    if r < n {
      ContributionOfRank(list[..n], r, k);
    } else {
      assert list[r] !in list[..n];
    }
  }

  /** In the list, `a` is ranked above `b`, or `b` is not there at all. */
  ghost predicate RankedAbove(list: seq<string>, a: string, b: string) {
    b !in list || exists i, j :: 0 <= i < j < |list| && list[i] == a && list[j] == b
  }

  lemma AboveContributesMore(list: seq<string>, a: string, b: string, k: real)
    requires k > 0.0 && NoRepeats(list) && RankedAbove(list, a, b)
    ensures Contribution(list, a, k) >= Contribution(list, b, k)
    ensures b in list ==> Contribution(list, a, k) > Contribution(list, b, k)
  {
    if b in list {
      var i, j :| 0 <= i < j < |list| && list[i] == a && list[j] == b;
      ContributionOfRank(list, i, k);
      ContributionOfRank(list, j, k);
      Reciprocal(k + i as real, k + j as real);
    }
  }

  lemma Reciprocal(x: real, y: real)
    requires 0.0 < x < y
    ensures 1.0 / x > 1.0 / y
  {
    assert 1.0 / x * x == 1.0 && 1.0 / y * y == 1.0;
  }

  /** What both lists rank above another id stands before it in the fusion. */
  lemma AgreementIsKept(lex: seq<string>, vec: seq<string>, a: string, b: string, k: real)
    requires k > 0.0 && NoRepeats(lex) && NoRepeats(vec)
    requires RankedAbove(lex, a, b) && RankedAbove(vec, a, b) && (b in lex || b in vec)
    ensures Score(lex, vec, a, k) > Score(lex, vec, b, k)
  {
    AboveContributesMore(lex, a, b, k);
    AboveContributesMore(vec, a, b, k);
  }
}
