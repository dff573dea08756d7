/** Repeated restructuring converges, and when the first pass is already final. */
module ConfigFixpoint {
  import opened Prelude
  import opened Sorting
  import opened ConfigLayout
  import opened ConfigFacts
  import opened ConfigConvergence

  /** `b` is `a` without some of its blank lines. */
  ghost predicate BlanksDropped(a: seq<Line>, b: seq<Line>) {
    if a == [] then b == []
    else
      || (b != [] && a[0] == b[0] && BlanksDropped(a[1..], b[1..]))
      || (a[0].kind.Blank? && BlanksDropped(a[1..], b))
  }

  ghost function BlankCount(lines: seq<Line>): nat {
    if lines == [] then 0 else (if lines[0].kind.Blank? then 1 else 0) + BlankCount(lines[1..])
  }

  lemma {:induction false} DropsNothing(a: seq<Line>)
    ensures BlanksDropped(a, a)
  {
    if a != [] {
      DropsNothing(a[1..]);
    }
  }

  lemma {:induction false} DropsAll(a: seq<Line>)
    requires AllBlank(a)
    ensures BlanksDropped(a, [])
  {
    if a != [] {
      DropsAll(a[1..]);
    }
  }

  lemma {:induction false} DropsBoth(a: seq<Line>, b: seq<Line>, c: seq<Line>, d: seq<Line>)
    requires BlanksDropped(a, b) && BlanksDropped(c, d)
    ensures BlanksDropped(a + c, b + d)
  {
    if a == [] {
      assert a + c == c && b + d == d;
    } else {
      assert (a + c)[0] == a[0] && (a + c)[1..] == a[1..] + c;
      if b != [] && a[0] == b[0] && BlanksDropped(a[1..], b[1..]) {
        assert (b + d)[0] == b[0] && (b + d)[1..] == b[1..] + d;
        DropsBoth(a[1..], b[1..], c, d);
      } else {
        DropsBoth(a[1..], b, c, d);
      }
    }
  }

  /** Dropping blank lines shortens a text by as many blanks as it loses, or changes nothing. */
  lemma {:induction false} DropsCount(a: seq<Line>, b: seq<Line>)
    requires BlanksDropped(a, b)
    ensures |b| <= |a| && BlankCount(a) - BlankCount(b) == |a| - |b|
    ensures |a| == |b| ==> a == b
    decreases |a|
  {
    if a != [] {
      if b != [] && a[0] == b[0] && BlanksDropped(a[1..], b[1..]) {
        DropsCount(a[1..], b[1..]);
      } else {
        DropsCount(a[1..], b);
      }
    }
  }

  // ---- the blank lines a pass drops ----

  /** The blank lines directly above the comments a block ends in. */
  function LooseBlanks(b: Block): nat {
    TrailStart(b) - |Strip(b).lines|
  }

  /** How many blank lines the next pass drops. */
  function Dropped(b: Block, rest: seq<Block>): nat
    decreases |rest|
  {
    if rest == [] then 0
    else (if SameSection(b, rest[0]) then LooseBlanks(b) else 0) + Dropped(rest[0], rest[1..])
  }

  lemma {:induction false} TrimTailIs(lines: seq<Line>, n: nat)
    requires 0 < n <= |lines| && !lines[n - 1].kind.Blank?
    requires AllBlank(lines[n..])
    ensures TrimTail(lines) == lines[..n]
  {
    if n < |lines| {
      assert lines[n..][|lines| - 1 - n].kind.Blank?;
      var shorter := lines[..|lines| - 1];
      assert forall i :: 0 <= i < |shorter| - n ==> shorter[n..][i] == lines[n..][i];
      TrimTailIs(shorter, n);
    }
  }

  /** Comments put in front of a block change nothing about its end. */
  lemma PrependLoosens(comments: seq<Line>, b: Block)
    requires WellFormed(b)
    ensures LooseBlanks(Prepend(comments, b)) == LooseBlanks(b)
  {
    hide LeadStart, TrimTail, FirstKey;
    var joined, n := Prepend(comments, b), |Strip(b).lines|;
    StripFacts(b);
    NoCommentAbove(b.lines, 0, b);
    LeadStartFacts(b.lines, |b.lines|);
    assert forall i :: |comments| <= i < |joined.lines| ==> joined.lines[i] == b.lines[i - |comments|];
    LeadStartIs(joined.lines, |comments| + TrailStart(b), |joined.lines|);
    TrimTailIs(joined.lines[..TrailStart(joined)], |comments| + n);
  }

  lemma {:induction false} DroppedPrepend(comments: seq<Line>, b: Block, rest: seq<Block>)
    requires WellFormed(b)
    ensures Dropped(Prepend(comments, b), rest) == Dropped(b, rest)
  {
    PrependLoosens(comments, b);
  }

  // ---- one more pass over a written-out text ----

  /** The next pass writes the same text without the blank lines it drops. */
  ghost predicate WritesLess(before: seq<Block>, after: seq<Block>, prev: Option<Option<SectionNumber>>, emitted: bool,
      n: nat) {
    && BlanksDropped(Emit(before, prev, emitted), Emit(after, prev, emitted))
    && |Emit(before, prev, emitted)| == |Emit(after, prev, emitted)| + n
  }

  lemma {:induction false} ReattachDrops(b: Block, rest: seq<Block>, prev: Option<Option<SectionNumber>>, emitted: bool)
    requires WellFormed(b) && AllWellFormed(rest)
    ensures WritesLess([b] + rest, Reattach(b, rest), prev, emitted, Dropped(b, rest))
    decreases |rest|
  {
    if rest == [] {
      DropsNothing(Emit([b] + rest, prev, emitted));
      assert [b] + rest == [b];
    } else {
      HeadAndTail(rest);
      assert [rest[0]] + rest[1..] == rest;
      if SameSection(b, rest[0]) {
        var joined := Prepend(Trail(b), rest[0]);
        PrependIsWellFormed(b, rest[0]);
        DroppedPrepend(Trail(b), rest[0], rest[1..]);
        ReattachDrops(joined, rest[1..], Some(SectionIndex(b)), true);
        var blanks := SplitBlock(b);
        JoinedDrops(b, blanks, rest[0], rest[1..], Reattach(joined, rest[1..]), prev, emitted,
          Dropped(joined, rest[1..]));
      } else {
        ReattachDrops(rest[0], rest[1..], Some(SectionIndex(b)), true);
        ApartDrops(b, rest, Reattach(rest[0], rest[1..]), prev, emitted, Dropped(rest[0], rest[1..]));
      }
    }
  }

  lemma ApartDrops(b: Block, rest: seq<Block>, below: seq<Block>, prev: Option<Option<SectionNumber>>, emitted: bool,
      n: nat)
    requires WritesLess(rest, below, Some(SectionIndex(b)), true, n)
    ensures WritesLess([b] + rest, [b] + below, prev, emitted, n)
  {
    var section := SectionIndex(b);
    var head := Separator(section, prev, emitted) + b.lines;
    EmitCons(b, rest, prev, emitted);
    EmitCons(b, below, prev, emitted);
    DropsNothing(head);
    DropsBoth(head, head, Emit(rest, Some(section), true), Emit(below, Some(section), true));
  }

  lemma JoinedDrops(b: Block, blanks: seq<Line>, first: Block, rest: seq<Block>, below: seq<Block>,
                    prev: Option<Option<SectionNumber>>, emitted: bool, n: nat)
    requires SameSection(b, first)
    requires AllBlank(blanks) && |blanks| == LooseBlanks(b) && b.lines == Strip(b).lines + blanks + Trail(b)
    requires WritesLess([Prepend(Trail(b), first)] + rest, below, Some(SectionIndex(b)), true, n)
    ensures WritesLess([b] + ([first] + rest), [Strip(b)] + below, prev, emitted, LooseBlanks(b) + n)
  {
    var section := SectionIndex(b);
    EmitCons(b, [first] + rest, prev, emitted);
    EmitCons(Strip(b), below, prev, emitted);
    EmitPrepend(Trail(b), first, rest, section);
    DropMiddle(Separator(section, prev, emitted), Strip(b).lines, blanks, Trail(b),
               Emit([first] + rest, Some(section), true), Emit(below, Some(section), true));
  }

  lemma SplitBlock(b: Block) returns (blanks: seq<Line>)
    requires WellFormed(b)
    ensures AllBlank(blanks) && |blanks| == LooseBlanks(b) && b.lines == Strip(b).lines + blanks + Trail(b)
  {
    StripFacts(b);
    blanks := b.lines[|Strip(b).lines|..TrailStart(b)];
  }

  lemma DropMiddle(separator: seq<Line>, kept: seq<Line>, blanks: seq<Line>, trail: seq<Line>, upper: seq<Line>,
      lower: seq<Line>)
    requires AllBlank(blanks) && BlanksDropped(trail + upper, lower)
    ensures BlanksDropped(separator + (kept + blanks + trail) + upper, separator + kept + lower)
  {
    var head := separator + kept;
    assert separator + (kept + blanks + trail) + upper == head + (blanks + (trail + upper));
    DropsNothing(head);
    DropsAll(blanks);
    DropsBoth(blanks, [], trail + upper, lower);
    assert [] + lower == lower;
    DropsBoth(head, head, blanks + (trail + upper), lower);
  }

  lemma EmitPrepend(comments: seq<Line>, b: Block, rest: seq<Block>, section: Option<SectionNumber>)
    requires SectionIndex(b) == section
    ensures Emit([Prepend(comments, b)] + rest, Some(section), true) == comments + Emit([b] + rest, Some(section), true)
  {
    EmitCons(b, rest, Some(section), true);
    EmitCons(Prepend(comments, b), rest, Some(section), true);
  }

  // ---- canonical segments ----

  /** Segments as `Ordered` returns them: what a written-out text was made of. */
  ghost predicate Canonical(s: Segments) {
    && s.blocks != [] && AllWellFormed(s.blocks)
    && Sorted(s.blocks, SectionOrder)
    && NoBanners(s.preamble)
    && (forall i :: 0 <= i < |s.preamble| ==> !s.preamble[i].kind.Key?)
  }

  function Next(s: Segments): Segments
    requires s.blocks != []
  {
    s.(blocks := Reattach(s.blocks[0], s.blocks[1..]))
  }

  lemma {:induction false} ReattachKeepsPlaces(b: Block, rest: seq<Block>)
    requires WellFormed(b) && AllWellFormed(rest)
    ensures AllWellFormed(Reattach(b, rest))
    ensures forall i :: 0 <= i <= |rest| ==> Reattach(b, rest)[i].place == ([b] + rest)[i].place
    decreases |rest|
  {
    if rest != [] {
      HeadAndTail(rest);
      HeadAgain(rest);
      if SameSection(b, rest[0]) {
        StripIsWellFormed(b);
        PrependIsWellFormed(b, rest[0]);
        ReattachKeepsPlaces(Prepend(Trail(b), rest[0]), rest[1..]);
      } else {
        ReattachKeepsPlaces(rest[0], rest[1..]);
      }
    }
  }

  lemma HeadAgain(rest: seq<Block>)
    requires rest != []
    ensures forall i :: 0 <= i < |rest| ==> ([rest[0]] + rest[1..])[i] == rest[i]
  {
  }

  lemma NextIsCanonical(s: Segments)
    requires Canonical(s)
    ensures Canonical(Next(s))
  {
    HeadAndTail(s.blocks);
    ReattachKeepsPlaces(s.blocks[0], s.blocks[1..]);
    assert [s.blocks[0]] + s.blocks[1..] == s.blocks;
    var r := Next(s).blocks;
    assert forall i :: 0 <= i < |r| ==> r[i].place == s.blocks[i].place;
  }

  // ---- whole texts ----

  lemma NoBannersAfterTrim(s: Segments)
    requires Canonical(s)
    ensures NoBanners(TrimTail(s.preamble))
  {
  }

  /** The banners of a written-out text come off without touching anything else. */
  lemma CleanAssembled(s: Segments)
    requires Canonical(s)
    ensures var head := TrimTail(s.preamble);
            Clean(Assemble(s)) == head + (if head != [] then [BLANK_LINE] else []) + Glue(s.blocks[0], s.blocks[1..])
  {
    hide Emit, Glue, SectionIndex;
    var head := TrimTail(s.preamble);
    HeadAndTail(s.blocks);
    NoBannersAfterTrim(s);
    assert [s.blocks[0]] + s.blocks[1..] == s.blocks;
    assert forall r :: r in s.blocks[1..] ==> WellFormed(r);
    CleanEmit(s.blocks[0], s.blocks[1..], None, head != []);
    FilterAll(IsContent, head);
    FilterAppend(IsContent, head, Emit(s.blocks, None, head != []));
  }

  lemma TrimTailOfBlank(head: seq<Line>)
    requires head != [] ==> !head[|head| - 1].kind.Blank?
    ensures TrimTail(head + [BLANK_LINE]) == head && TrimTail(head) == head
  {
    assert (head + [BLANK_LINE])[..|head|] == head;
  }

  lemma SegmentAssembled(s: Segments)
    requires Canonical(s)
    ensures var head := TrimTail(s.preamble);
            Segment(Clean(Assemble(s))) ==
            Some(Segments(head + (if head != [] then [BLANK_LINE] else []), Reattach(s.blocks[0], s.blocks[1..])))
  {
    var head := TrimTail(s.preamble);
    var upper := head + if head != [] then [BLANK_LINE] else [];
    var b, rest := s.blocks[0], s.blocks[1..];
    CleanAssembled(s);
    HeadAndTail(s.blocks);
    NoKeysAbove(s);
    SegmentGlued(upper, b, rest);
  }

  lemma NoKeysAbove(s: Segments)
    requires Canonical(s)
    ensures forall i :: 0 <= i < |TrimTail(s.preamble)| ==> !TrimTail(s.preamble)[i].kind.Key?
  {
  }

  lemma SegmentGlued(upper: seq<Line>, b: Block, rest: seq<Block>)
    requires WellFormed(b) && AllWellFormed(rest)
    requires forall i :: 0 <= i < |upper| ==> !upper[i].kind.Key?
    requires upper != [] ==> upper[|upper| - 1].kind.Blank?
    ensures Segment(upper + Glue(b, rest)) == Some(Segments(upper, Reattach(b, rest)))
  {
    hide Glue, Reattach, WellFormed, AllWellFormed, StandsAt, BlocksFrom, LeadStart;
    var lines, p := upper + Glue(b, rest), |upper|;
    ConcatParts(upper, Glue(b, rest));
    Resegment(lines, p, b, rest);
    HeadStands(lines, p, b, rest);
    HeadLead(lines, p, b);
    FirstKeyIs(lines, 0, KeyOf(p, b));
  }

  lemma RestructureOf(lines: seq<Line>, g: Segments)
    requires Segment(Clean(lines)) == Some(g) && Reorder(g.blocks) == g.blocks
    ensures RestructureLines(lines) == Some(Assemble(g))
  {
  }

  lemma OrderedStays(s: Segments)
    requires Canonical(s)
    ensures Reorder(s.blocks) == s.blocks
  {
    ReorderIsStableSort(s.blocks);
    SortOfSorted(s.blocks, SectionOrder);
  }

  lemma AssembleAfterBlank(preamble: seq<Line>, blocks: seq<Block>)
    ensures var head := TrimTail(preamble);
            Assemble(Segments(head + (if head != [] then [BLANK_LINE] else []), blocks)) ==
              Assemble(Segments(preamble, blocks))
  {
    hide TrimTail, Emit;
    TrimTailFacts(preamble);
    TrimTailOfBlank(TrimTail(preamble));
    assert TrimTail(preamble) + [] == TrimTail(preamble);
  }

  /** Restructuring a written-out text writes its blocks again, reattached. */
  lemma SecondPass(s: Segments)
    requires Canonical(s)
    ensures RestructureLines(Assemble(s)) == Some(Assemble(Next(s)))
  {
    var head := TrimTail(s.preamble);
    var g := Segments(head + (if head != [] then [BLANK_LINE] else []), Next(s).blocks);
    SegmentAssembled(s);
    NextIsCanonical(s);
    OrderedStays(Next(s));
    RestructureOf(Assemble(s), g);
    AssembleAfterBlank(s.preamble, Next(s).blocks);
  }

  /** After one restructure, the next only deletes blank lines: as many as stand directly above
      comments that end a block followed by one of its own section. */
  lemma NextOnlyDropsBlanks(s: Segments)
    requires Canonical(s)
    ensures BlanksDropped(Assemble(s), Assemble(Next(s)))
    ensures |Assemble(s)| == |Assemble(Next(s))| + Dropped(s.blocks[0], s.blocks[1..])
  {
    var head := TrimTail(s.preamble);
    HeadAndTail(s.blocks);
    assert [s.blocks[0]] + s.blocks[1..] == s.blocks;
    ReattachDrops(s.blocks[0], s.blocks[1..], None, head != []);
    DropsNothing(head);
    DropsBoth(head, head, Emit(s.blocks, None, head != []), Emit(Next(s).blocks, None, head != []));
  }

  /** A block followed by one of its section, ending in comments below a blank line. */
  predicate LooseEnd(blocks: seq<Block>, i: nat)
    requires i < |blocks| - 1
  {
    SameSection(blocks[i], blocks[i + 1]) && LooseBlanks(blocks[i]) > 0
  }

  predicate HasLooseEnd(blocks: seq<Block>) {
    exists i: nat :: i < |blocks| - 1 && LooseEnd(blocks, i)
  }

  lemma {:induction false} DroppedIffLoose(b: Block, rest: seq<Block>)
    ensures Dropped(b, rest) > 0 <==> HasLooseEnd([b] + rest)
    decreases |rest|
  {
    var all := [b] + rest;
    if rest != [] {
      assert [rest[0]] + rest[1..] == rest;
      DroppedIffLoose(rest[0], rest[1..]);
      assert SameSection(b, rest[0]) && LooseBlanks(b) > 0 <==> LooseEnd(all, 0);
      if HasLooseEnd(rest) {
        var i: nat :| i < |rest| - 1 && LooseEnd(rest, i);
        assert LooseEnd(all, i + 1);
      }
      if HasLooseEnd(all) {
        var i: nat :| i < |all| - 1 && LooseEnd(all, i);
        assert i > 0 ==> LooseEnd(rest, i - 1);
      }
    }
  }

  /** One pass is final exactly when no block leaves such a loose end. */
  lemma FixpointIffNoLooseEnd(s: Segments)
    requires Canonical(s)
    ensures RestructureLines(Assemble(s)) == Some(Assemble(s)) <==> !HasLooseEnd(s.blocks)
  {
    hide Assemble, Next, RestructureLines, HasLooseEnd, Dropped, BlanksDropped;
    SecondPass(s);
    NextOnlyDropsBlanks(s);
    DroppedIffLoose(s.blocks[0], s.blocks[1..]);
    assert [s.blocks[0]] + s.blocks[1..] == s.blocks;
    DropsCount(Assemble(s), Assemble(Next(s)));
  }

  /** `n` passes, or `None` when one of them declines. */
  function Passes(lines: seq<Line>, n: nat): Option<seq<Line>>
    decreases n
  {
    if n == 0 then Some(lines)
    else
      match Passes(lines, n - 1)
      case None => None
      case Some(before) => RestructureLines(before)
  }

  function NextN(s: Segments, n: nat): (r: Segments)
    requires s.blocks != []
    ensures r.blocks != []
  {
    if n == 0 then s else Next(NextN(s, n - 1))
  }

  lemma {:induction false} NextNIsCanonical(s: Segments, n: nat)
    requires Canonical(s)
    ensures Canonical(NextN(s, n))
  {
    if n > 0 {
      NextNIsCanonical(s, n - 1);
      NextIsCanonical(NextN(s, n - 1));
    }
  }

  lemma PassFrom(s: Segments, n: nat)
    requires Canonical(s)
    ensures RestructureLines(Assemble(NextN(s, n))) == Some(Assemble(NextN(s, n + 1)))
  {
    NextNIsCanonical(s, n);
    SecondPass(NextN(s, n));
  }

  lemma NoPass(s: Segments)
    requires Canonical(s)
    ensures s.blocks != [] && Passes(Assemble(s), 0) == Some(Assemble(NextN(s, 0)))
  {
  }

  lemma PassesStep(lines: seq<Line>, n: nat, before: seq<Line>, after: seq<Line>)
    requires n > 0 && Passes(lines, n - 1) == Some(before) && RestructureLines(before) == Some(after)
    ensures Passes(lines, n) == Some(after)
  {
    hide RestructureLines;
  }

  lemma {:induction false} PassesAre(s: Segments, n: nat)
    requires Canonical(s)
    ensures Passes(Assemble(s), n) == Some(Assemble(NextN(s, n)))
  {
    hide *;
    NoPass(s);
    if n == 0 {
    } else {
      PassesAre(s, n - 1);
      PassFrom(s, n - 1);
      PassesStep(Assemble(s), n, Assemble(NextN(s, n - 1)), Assemble(NextN(s, n)));
    }
  }

  lemma {:induction false} NextNShift(s: Segments, n: nat)
    requires s.blocks != []
    ensures NextN(Next(s), n) == NextN(s, n + 1)
  {
    if n > 0 {
      NextNShift(s, n - 1);
    }
  }

  lemma {:induction false} Shrinks(s: Segments) returns (n: nat)
    requires Canonical(s)
    ensures n <= BlankCount(Assemble(s))
    ensures Assemble(NextN(s, n + 1)) == Assemble(NextN(s, n))
    decreases |Assemble(s)|
  {
    hide Assemble, Next, BlankCount, BlanksDropped;
    NextOnlyDropsBlanks(s);
    DropsCount(Assemble(s), Assemble(Next(s)));
    if Assemble(Next(s)) == Assemble(s) {
      n := 0;
      NextNShift(s, 0);
    } else {
      NextIsCanonical(s);
      var m := Shrinks(Next(s));
      NextNShift(s, m);
      NextNShift(s, m + 1);
      n := m + 1;
    }
  }

  /** Repetition reaches a final text after at most as many passes as the text has blank lines. */
  lemma Converges(s: Segments) returns (n: nat)
    requires Canonical(s)
    ensures n <= BlankCount(Assemble(s))
    ensures Passes(Assemble(s), n).Some? && Passes(Assemble(s), n + 1) == Passes(Assemble(s), n)
  {
    n := Shrinks(s);
    PassesAre(s, n);
    PassesAre(s, n + 1);
  }
}
