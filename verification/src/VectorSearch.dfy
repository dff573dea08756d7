/** Exact top-k search, as a function of the committed rows. */
module VectorSearch {
  import opened Prelude
  import opened Sorting
  import opened VectorTables
  import opened VectorFacts

  const MAX_TOP_K: nat := 1000

  datatype Hit = Hit(id: ChunkId, score: real)

  function Dot(a: Vec, b: Vec): real {
    if a == [] || b == [] then 0.0 else a[0] * b[0] + Dot(a[1..], b[1..])
  }

  /** The products of the components, in order, added up. */
  ghost predicate SumsProducts(a: Vec, b: Vec, sums: seq<real>) {
    && |a| == |b| && |sums| == |a| + 1 && sums[0] == 0.0
    && forall i :: 0 <= i < |a| ==> sums[i + 1] == sums[i] + a[i] * b[i]
  }

  lemma {:induction false} DotFrom(a: Vec, b: Vec, sums: seq<real>, n: nat)
    requires SumsProducts(a, b, sums) && n <= |a|
    ensures sums[n] + Dot(a[n..], b[n..]) == sums[|a|]
    decreases |a| - n
  {
    if n < |a| {
      assert a[n..][1..] == a[n + 1..] && b[n..][1..] == b[n + 1..];
      DotFrom(a, b, sums, n + 1);
    }
  }

  /** The score of two vectors of one width is the sum of their componentwise products. */
  lemma DotIsSum(a: Vec, b: Vec, sums: seq<real>)
    requires SumsProducts(a, b, sums)
    ensures Dot(a, b) == sums[|a|]
  {
    DotFrom(a, b, sums, 0);
    assert a[0..] == a && b[0..] == b;
  }

  /** One hit per live row, in row order. */
  function Scored(t: Tables, vectors: seq<Vec>, query: Vec, rows: seq<nat>): (hits: seq<Hit>)
    requires forall i :: 0 <= i < |rows| ==> rows[i] < |vectors| && rows[i] in t.rowToChunk
    ensures |hits| == |rows|
    ensures forall i :: 0 <= i < |rows| ==> hits[i] == Hit(t.rowToChunk[rows[i]], Dot(query, vectors[rows[i]]))
  {
    seq(|rows|, i requires 0 <= i < |rows| => Hit(t.rowToChunk[rows[i]], Dot(query, vectors[rows[i]])))
  }

  predicate ScoresHigher(a: Hit, b: Hit) {
    a.score >= b.score
  }

  function SearchHits(d: Disk, query: Vec, topK: nat): seq<Hit>
    requires Inv(d) && d.db.Some?
  {
    var t := d.db.value;
    if topK == 0 || |query| != t.dims then []
    else Take(StableSort(Scored(t, d.vectors.value, query, LiveRows(t)), ScoresHigher), Min(topK, MAX_TOP_K))
  }

  function HitFor(content: map<ChunkId, Vec>, query: Vec, id: ChunkId): Hit
    requires id in content
  {
    Hit(id, Dot(query, content[id]))
  }

  ghost predicate NoTwice(hits: seq<Hit>) {
    forall i, j :: 0 <= i < j < |hits| ==> hits[i].id != hits[j].id
  }

  ghost predicate ExactScores(hits: seq<Hit>, content: map<ChunkId, Vec>, query: Vec) {
    forall h :: h in hits ==> h.id in content && h == HitFor(content, query, h.id)
  }

  ghost predicate CoversAll(hits: seq<Hit>, content: map<ChunkId, Vec>, query: Vec) {
    forall id :: id in content ==> HitFor(content, query, id) in hits
  }

  /** No chunk left out scores higher than one that is returned. */
  ghost predicate NoBetterLeftOut(hits: seq<Hit>, content: map<ChunkId, Vec>, query: Vec) {
    forall id, h :: id in content && h in hits && HitFor(content, query, id).score > h.score ==>
      HitFor(content, query, id) in hits
  }

  lemma ScoredCovers(d: Disk, query: Vec)
    requires Inv(d) && d.db.Some?
    ensures CoversAll(Scored(d.db.value, d.vectors.value, query, LiveRows(d.db.value)), Denotes(d), query)
  {
    forall id | id in Denotes(d)
      ensures HitFor(Denotes(d), query, id) in Scored(d.db.value, d.vectors.value, query, LiveRows(d.db.value))
    {
      ScoredSomewhere(d, query, id);
    }
  }

  lemma ScoredCount(d: Disk, query: Vec)
    requires Inv(d) && d.db.Some?
    ensures |Scored(d.db.value, d.vectors.value, query, LiveRows(d.db.value))| == |Denotes(d)|
  {
    SlotCount(d.db.value);
    assert Denotes(d).Keys == d.db.value.chunkToRow.Keys;
  }

  /** Every stored chunk is scored once, by its own vector. */
  lemma ScoredIsContent(d: Disk, query: Vec)
    requires Inv(d) && d.db.Some?
    ensures var hits := Scored(d.db.value, d.vectors.value, query, LiveRows(d.db.value));
            && |hits| == |Denotes(d)|
            && NoTwice(hits)
            && ExactScores(hits, Denotes(d), query)
            && CoversAll(hits, Denotes(d), query)
  {
    hide CoversAll;
    var t, content := d.db.value, Denotes(d);
    var rows := LiveRows(t);
    var hits := Scored(t, d.vectors.value, query, rows);
    LiveNamesFacts(t);
    assert forall i :: 0 <= i < |rows| ==> hits[i].id == LiveNames(t)[i];
    ScoredCovers(d, query);
    ScoredCount(d, query);
  }

  lemma ScoredSomewhere(d: Disk, query: Vec, id: ChunkId)
    requires Inv(d) && d.db.Some? && id in Denotes(d)
    ensures HitFor(Denotes(d), query, id) in Scored(d.db.value, d.vectors.value, query, LiveRows(d.db.value))
  {
    var t := d.db.value;
    LiveBelowFacts(t, t.nextRow);
    assert t.chunkToRow[id] in LiveRows(t);
    var i :| 0 <= i < |LiveRows(t)| && LiveRows(t)[i] == t.chunkToRow[id];
    assert Scored(t, d.vectors.value, query, LiveRows(t))[i] == HitFor(Denotes(d), query, id);
  }

  /** Asked for nothing, or with a vector of another width, it returns nothing; and never more than a thousand. */
  lemma SearchBounds(d: Disk, query: Vec, topK: nat)
    requires Inv(d) && d.db.Some?
    ensures topK == 0 || |query| != d.db.value.dims ==> SearchHits(d, query, topK) == []
    ensures |SearchHits(d, query, topK)| <= 1000
  {
    hide StableSort, Scored, LiveRows;
  }

  /** The search returns the best chunks of the abstract content, each with its exact score,
      none twice, and leaves out no chunk that scores higher than one it returns. */
  lemma SearchIsExact(d: Disk, query: Vec, topK: nat)
    requires Inv(d) && d.db.Some? && |query| == d.db.value.dims && topK > 0
    ensures var hits := SearchHits(d, query, topK);
            && |hits| == Min(Min(topK, MAX_TOP_K), |Denotes(d)|)
            && Sorted(hits, ScoresHigher)
            && NoTwice(hits)
            && ExactScores(hits, Denotes(d), query)
            && NoBetterLeftOut(hits, Denotes(d), query)
  {
    ScoredIsContent(d, query);
    BestHits(Scored(d.db.value, d.vectors.value, query, LiveRows(d.db.value)), Denotes(d), query, Min(topK, MAX_TOP_K));
  }

  lemma BestHits(all: seq<Hit>, content: map<ChunkId, Vec>, query: Vec, n: nat)
    requires NoTwice(all) && ExactScores(all, content, query) && CoversAll(all, content, query)
    ensures var hits := Take(StableSort(all, ScoresHigher), n);
            && |hits| == Min(n, |all|)
            && Sorted(hits, ScoresHigher)
            && NoTwice(hits)
            && ExactScores(hits, content, query)
            && NoBetterLeftOut(hits, content, query)
  {
    var sorted := StableSort(all, ScoresHigher);
    var hits := Take(sorted, n);
    SortSorts(all, ScoresHigher);
    SortMembers(all, ScoresHigher);
    OncePerChunk(all, sorted);
    assert forall h :: h in hits ==> h in sorted;
    forall id, h | id in content && h in hits && HitFor(content, query, id).score > h.score
      ensures HitFor(content, query, id) in hits
    {
      BetterComesFirst(sorted, HitFor(content, query, id), h, |hits|);
    }
  }

  lemma BetterComesFirst(sorted: seq<Hit>, best: Hit, h: Hit, n: nat)
    requires Sorted(sorted, ScoresHigher) && n <= |sorted|
    requires best in sorted && h in sorted[..n] && best.score > h.score
    ensures best in sorted[..n]
  {
    var i :| 0 <= i < |sorted| && sorted[i] == best;
    var j :| 0 <= j < n && sorted[j] == h;
    assert !ScoresHigher(h, best);
    assert i <= j;
  }

  lemma OncePerChunk(all: seq<Hit>, sorted: seq<Hit>)
    requires multiset(all) == multiset(sorted)
    requires NoTwice(all)
    ensures NoTwice(sorted)
  {
    forall i, j | 0 <= i < j < |sorted|
      ensures sorted[i].id != sorted[j].id
    {
      if sorted[i] == sorted[j] {
        assert sorted == sorted[..i] + [sorted[i]] + sorted[i + 1..j] + [sorted[j]] + sorted[j + 1..];
        assert multiset(sorted)[sorted[i]] >= 2;
        OnceEach(all, sorted[i]);
        assert false;
      }
      assert sorted[i] in multiset(all) && sorted[j] in multiset(all);
    }
  }

  lemma {:induction false} OnceEach(all: seq<Hit>, h: Hit)
    requires NoTwice(all)
    ensures multiset(all)[h] <= 1
  {
    if all != [] {
      OnceEach(all[1..], h);
      assert all == [all[0]] + all[1..];
      if h == all[0] {
        assert h !in all[1..];
      }
    }
  }
}
