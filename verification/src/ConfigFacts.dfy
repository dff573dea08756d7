/** What one restructure keeps: every block intact, in the canonical order. */
module ConfigFacts {
  import opened Prelude
  import opened Sorting
  import opened ConfigLayout

  // ---- order ----

  lemma InsertByGroup(b: Block, known: seq<Block>, unknown: seq<Block>, system: seq<Block>)
    requires forall y :: y in known ==> IsKnown(y)
    requires forall y :: y in unknown ==> IsUnknown(y)
    requires forall y :: y in system ==> IsSystem(y)
    ensures Insert(b, known + unknown + system, SectionOrder) ==
            if IsKnown(b) then Insert(b, known, SectionOrder) + unknown + system
            else if IsUnknown(b) then known + ([b] + unknown) + system
            else known + unknown + ([b] + system)
  {
    var later := unknown + system;
    assert known + unknown + system == known + later;
    if IsKnown(b) {
      assert later != [] ==> later[0] in unknown || later[0] in system;
      InsertStops(b, known, later, SectionOrder);
      assert Insert(b, known, SectionOrder) + later == Insert(b, known, SectionOrder) + unknown + system;
    } else if IsUnknown(b) {
      assert later != [] ==> later[0] in unknown || later[0] in system;
      InsertSkips(b, known, later, SectionOrder);
      assert Insert(b, later, SectionOrder) == [b] + later;
    } else {
      InsertSkips(b, known + unknown, system, SectionOrder);
      assert system != [] ==> system[0] in system;
    }
  }

  /** Sorting the known bucket and appending the other two is one stable sort of all blocks. */
  lemma {:induction false} ReorderIsStableSort(blocks: seq<Block>)
    ensures Reorder(blocks) == StableSort(blocks, SectionOrder)
  {
    if blocks != [] {
      var b, rest := blocks[0], blocks[1..];
      ReorderIsStableSort(rest);
      SectionOrderIsTotal();
      SortMembers(Filter(IsKnown, rest), SectionOrder);
      InsertByGroup(b, StableSort(Filter(IsKnown, rest), SectionOrder), Filter(IsUnknown, rest),
        Filter(IsSystem, rest));
    }
  }

  lemma SectionOrderIsTotal()
    ensures TotalPreorder(SectionOrder)
  {
  }

  function At(place: Place): Block -> bool {
    (b: Block) => b.place == place
  }

  /** The order is canonical, nothing is lost or added, and blocks the order does not tell apart,
      such as all unknown keys, keep their original order. */
  lemma ReorderOrders(blocks: seq<Block>)
    ensures Sorted(Reorder(blocks), SectionOrder)
    ensures multiset(Reorder(blocks)) == multiset(blocks)
    ensures Filter(IsUnknown, Reorder(blocks)) == Filter(IsUnknown, blocks)
    ensures Filter(IsSystem, Reorder(blocks)) == Filter(IsSystem, blocks)
    ensures forall place: Place :: Filter(At(place), Reorder(blocks)) == Filter(At(place), blocks)
  {
    ReorderIsStableSort(blocks);
    SectionOrderIsTotal();
    SortSorts(blocks, SectionOrder);
    SortIsStable(blocks, SectionOrder, IsUnknown);
    SortIsStable(blocks, SectionOrder, IsSystem);
    forall place: Place
      ensures Filter(At(place), Reorder(blocks)) == Filter(At(place), blocks)
    {
      SortIsStable(blocks, SectionOrder, At(place));
    }
  }

  // ---- segmentation ----

  lemma {:induction false} FirstKeyFacts(lines: seq<Line>, from: nat)
    requires from <= |lines|
    ensures forall i :: from <= i < FirstKey(lines, from) ==> !lines[i].kind.Key?
    decreases |lines| - from
  {
    if from < |lines| && !lines[from].kind.Key? {
      FirstKeyFacts(lines, from + 1);
    }
  }

  lemma {:induction false} FirstKeyIs(lines: seq<Line>, from: nat, k: nat)
    requires from <= k <= |lines|
    requires forall i :: from <= i < k ==> !lines[i].kind.Key?
    requires k < |lines| ==> lines[k].kind.Key?
    ensures FirstKey(lines, from) == k
    decreases k - from
  {
    if from < k {
      FirstKeyIs(lines, from + 1, k);
    }
  }

  lemma {:induction false} LeadStartFacts(lines: seq<Line>, k: nat)
    requires k <= |lines|
    ensures forall i :: LeadStart(lines, k) <= i < k ==> lines[i].kind.Comment?
    ensures LeadStart(lines, k) > 0 ==> !lines[LeadStart(lines, k) - 1].kind.Comment?
  {
    if k > 0 && lines[k - 1].kind.Comment? {
      LeadStartFacts(lines, k - 1);
    }
  }

  lemma {:induction false} LeadStartIs(lines: seq<Line>, s: nat, k: nat)
    requires s <= k <= |lines|
    requires forall i :: s <= i < k ==> lines[i].kind.Comment?
    requires s > 0 ==> !lines[s - 1].kind.Comment?
    ensures LeadStart(lines, k) == s
    decreases k
  {
    if s < k {
      LeadStartIs(lines, s, k - 1);
    }
  }

  lemma {:induction false} TrimmedEndFacts(lines: seq<Line>, start: nat, end: nat)
    requires start < end <= |lines|
    ensures forall i :: TrimmedEnd(lines, start, end) <= i < end ==> lines[i].kind.Blank?
    ensures TrimmedEnd(lines, start, end) > start + 1 ==> !lines[TrimmedEnd(lines, start, end) - 1].kind.Blank?
  {
    if end > start + 1 && lines[end - 1].kind.Blank? {
      TrimmedEndFacts(lines, start, end - 1);
    }
  }

  lemma {:induction false} TrimmedEndIs(lines: seq<Line>, start: nat, e: nat, end: nat)
    requires start < e <= end <= |lines|
    requires forall i :: e <= i < end ==> lines[i].kind.Blank?
    requires !lines[e - 1].kind.Blank?
    ensures TrimmedEnd(lines, start, end) == e
    decreases end
  {
    if e < end {
      TrimmedEndIs(lines, start, e, end - 1);
    }
  }

  lemma {:induction false} TrimTailFacts(lines: seq<Line>)
    ensures TrimTail(lines) != [] ==> !TrimTail(lines)[|TrimTail(lines)| - 1].kind.Blank?
    ensures forall i :: |TrimTail(lines)| <= i < |lines| ==> lines[i].kind.Blank?
  {
    if lines != [] && lines[|lines| - 1].kind.Blank? {
      TrimTailFacts(lines[..|lines| - 1]);
    }
  }

  /** A block: lead comments, its key line, a body without keys, and no blank line at its end. */
  ghost predicate WellFormed(b: Block) {
    var k := FirstKey(b.lines, 0);
    && k < |b.lines|
    && (forall i :: 0 <= i < k ==> b.lines[i].kind.Comment?)
    && b.lines[k].kind == Key(b.key, b.place)
    && (forall i :: k < i < |b.lines| ==> !b.lines[i].kind.Key?)
    && !b.lines[|b.lines| - 1].kind.Blank?
    && NoBanners(b.lines)
  }

  ghost predicate NoBanners(lines: seq<Line>) {
    forall l :: l in lines ==> !l.kind.Structural?
  }

  ghost predicate AllBlank(lines: seq<Line>) {
    forall i :: 0 <= i < |lines| ==> lines[i].kind.Blank?
  }

  /** Blocks with the lines that follow each of them. */
  ghost function Interleave(blocks: seq<Block>, gaps: seq<seq<Line>>): seq<Line>
    requires |blocks| == |gaps|
  {
    if blocks == [] then [] else blocks[0].lines + gaps[0] + Interleave(blocks[1..], gaps[1..])
  }

  ghost function GapAt(lines: seq<Line>, k: nat): seq<Line>
    requires k < |lines| && lines[k].kind.Key?
  {
    lines[TrimmedEnd(lines, LeadStart(lines, k), BlockEnd(lines, k))..BlockEnd(lines, k)]
  }

  ghost function GapsFrom(lines: seq<Line>, k: nat): (gaps: seq<seq<Line>>)
    requires k < |lines| && lines[k].kind.Key?
    ensures |gaps| == |BlocksFrom(lines, k)|
    decreases |lines| - k
  {
    var next := FirstKey(lines, k + 1);
    [GapAt(lines, k)] + if next < |lines| then GapsFrom(lines, next) else []
  }

  /** A cut of comment lines, the key line `k` and what follows it up to the next key. */
  lemma CutIsWellFormed(lines: seq<Line>, start: nat, k: nat, e: nat)
    requires start <= k < e <= |lines| && lines[k].kind.Key? && NoBanners(lines)
    requires forall i :: start <= i < k ==> lines[i].kind.Comment?
    requires forall i :: k < i < e ==> !lines[i].kind.Key?
    requires !lines[e - 1].kind.Blank?
    ensures WellFormed(Block(lines[k].kind.key, lines[k].kind.place, lines[start..e]))
  {
    SliceElements(lines, start, e);
    FirstKeyIs(lines[start..e], 0, k - start);
    assert lines[start..e][e - start - 1] == lines[e - 1];
  }

  lemma BlockAtIsWellFormed(lines: seq<Line>, k: nat)
    requires k < |lines| && lines[k].kind.Key?
    requires NoBanners(lines)
    ensures WellFormed(BlockAt(lines, k))
  {
    hide WellFormed, NoBanners;
    var start, end := LeadStart(lines, k), BlockEnd(lines, k);
    var e := TrimmedEnd(lines, start, end);
    LeadStartFacts(lines, k);
    TrimmedEndFacts(lines, start, end);
    FirstKeyFacts(lines, k + 1);
    assert k < e;
    CutIsWellFormed(lines, start, k, e);
  }

  /** Blocks and gaps of blank lines cover everything from the first block's lead comments on. */
  lemma {:induction false} SegmentTiles(lines: seq<Line>, k: nat)
    requires k < |lines| && lines[k].kind.Key?
    ensures lines[LeadStart(lines, k)..] == Interleave(BlocksFrom(lines, k), GapsFrom(lines, k))
    decreases |lines| - k
  {
    var next, end := FirstKey(lines, k + 1), BlockEnd(lines, k);
    CutTwice(lines, LeadStart(lines, k), TrimmedEnd(lines, LeadStart(lines, k), end), end);
    if next < |lines| {
      SegmentTiles(lines, next);
      InterleaveCons(BlockAt(lines, k), BlocksFrom(lines, next), GapAt(lines, k), GapsFrom(lines, next));
    } else {
      InterleaveCons(BlockAt(lines, k), [], GapAt(lines, k), []);
    }
  }

  lemma CutTwice(lines: seq<Line>, start: nat, e: nat, end: nat)
    requires start <= e <= end <= |lines|
    ensures lines[start..] == lines[start..e] + lines[e..end] + lines[end..]
  {
  }

  lemma InterleaveCons(b: Block, blocks: seq<Block>, gap: seq<Line>, gaps: seq<seq<Line>>)
    requires |blocks| == |gaps|
    ensures Interleave([b] + blocks, [gap] + gaps) == b.lines + gap + Interleave(blocks, gaps)
  {
    assert ([b] + blocks)[1..] == blocks && ([gap] + gaps)[1..] == gaps;
  }

  lemma {:induction false} GapsAreBlank(lines: seq<Line>, k: nat)
    requires k < |lines| && lines[k].kind.Key?
    ensures forall gap :: gap in GapsFrom(lines, k) ==> AllBlank(gap)
    decreases |lines| - k
  {
    var next := FirstKey(lines, k + 1);
    TrimmedEndFacts(lines, LeadStart(lines, k), BlockEnd(lines, k));
    assert AllBlank(GapAt(lines, k));
    if next < |lines| {
      GapsAreBlank(lines, next);
    }
  }

  lemma {:induction false} BlocksAreWellFormed(lines: seq<Line>, k: nat)
    requires k < |lines| && lines[k].kind.Key?
    requires NoBanners(lines)
    ensures forall b :: b in BlocksFrom(lines, k) ==> WellFormed(b)
    decreases |lines| - k
  {
    var next := FirstKey(lines, k + 1);
    BlockAtIsWellFormed(lines, k);
    if next < |lines| {
      BlocksAreWellFormed(lines, next);
    }
  }
}
