/**
 Restructuring again. The second pass sees blocks of one section without a separator between
 them, so comments that end one block become lead comments of the next, and the blank lines
 above such comments, now at the end of a block, are dropped. Nothing else ever changes.
 */
module ConfigConvergence {
  import opened Prelude
  import opened ConfigLayout
  import opened ConfigFacts

  function TrailStart(b: Block): nat {
    LeadStart(b.lines, |b.lines|)
  }

  /** The comment lines a block ends in. */
  function Trail(b: Block): seq<Line> {
    b.lines[TrailStart(b)..]
  }

  /** The block without them and without the blank lines above them. */
  function Strip(b: Block): Block {
    b.(lines := TrimTail(b.lines[..TrailStart(b)]))
  }

  function Prepend(comments: seq<Line>, b: Block): Block {
    b.(lines := comments + b.lines)
  }

  predicate SameSection(a: Block, b: Block) {
    SectionIndex(a) == SectionIndex(b)
  }

  /** What cutting the written-out blocks `b`, `rest` gives back. */
  function Reattach(b: Block, rest: seq<Block>): (r: seq<Block>)
    ensures |r| == 1 + |rest|
    decreases |rest|
  {
    if rest == [] then [b]
    else if SameSection(b, rest[0]) then [Strip(b)] + Reattach(Prepend(Trail(b), rest[0]), rest[1..])
    else [b] + Reattach(rest[0], rest[1..])
  }

  /** The blocks as they stand in a written-out text once its banners are stripped. */
  ghost function Glue(b: Block, rest: seq<Block>): seq<Line>
    decreases |rest|
  {
    if rest == [] then b.lines
    else b.lines + Between(b, rest[0]) + Glue(rest[0], rest[1..])
  }

  ghost function Between(a: Block, b: Block): seq<Line> {
    if SameSection(a, b) then [] else [BLANK_LINE]
  }

  ghost predicate AllWellFormed(blocks: seq<Block>) {
    forall b :: b in blocks ==> WellFormed(b)
  }

  lemma HeadAndTail(rest: seq<Block>)
    requires rest != [] && AllWellFormed(rest)
    ensures WellFormed(rest[0]) && AllWellFormed(rest[1..])
  {
  }

  // ---- banners come off again ----

  lemma CleanBlock(separator: seq<Line>, b: Block, rest: seq<Line>)
    requires NoBanners(b.lines)
    ensures Clean(separator + b.lines + rest) == Clean(separator) + b.lines + Clean(rest)
  {
    FilterAll(IsContent, b.lines);
    FilterAppend(IsContent, separator + b.lines, rest);
    FilterAppend(IsContent, separator, b.lines);
  }

  lemma CleanSeparator(section: Option<SectionNumber>, prev: Option<Option<SectionNumber>>, emitted: bool)
    ensures Clean(Separator(section, prev, emitted)) == if emitted && prev != Some(section) then [BLANK_LINE] else []
  {
    FilterNone(IsContent, Banner(section));
    FilterAppend(IsContent, [BLANK_LINE], Banner(section));
    FilterAll(IsContent, [BLANK_LINE]);
    assert [] + Banner(section) == Banner(section);
  }

  lemma EmitCons(b: Block, rest: seq<Block>, prev: Option<Option<SectionNumber>>, emitted: bool)
    ensures Emit([b] + rest, prev, emitted) ==
            Separator(SectionIndex(b), prev, emitted) + b.lines + Emit(rest, Some(SectionIndex(b)), true)
  {
    assert ([b] + rest)[1..] == rest;
  }

  ghost function LeadBlank(b: Block, prev: Option<Option<SectionNumber>>, emitted: bool): seq<Line> {
    if emitted && prev != Some(SectionIndex(b)) then [BLANK_LINE] else []
  }

  lemma {:induction false} CleanEmit(b: Block, rest: seq<Block>, prev: Option<Option<SectionNumber>>, emitted: bool)
    requires NoBanners(b.lines)
    requires forall r :: r in rest ==> NoBanners(r.lines)
    ensures Clean(Emit([b] + rest, prev, emitted)) == LeadBlank(b, prev, emitted) + Glue(b, rest)
    decreases |rest|
  {
    var section := SectionIndex(b);
    CleanEmitStep(b, rest, prev, emitted);
    if rest != [] {
      CleanEmit(rest[0], rest[1..], Some(section), true);
      assert [rest[0]] + rest[1..] == rest;
      Regroup(LeadBlank(b, prev, emitted), b.lines, Between(b, rest[0]), Glue(rest[0], rest[1..]));
    }
  }

  lemma CleanEmitStep(b: Block, rest: seq<Block>, prev: Option<Option<SectionNumber>>, emitted: bool)
    requires NoBanners(b.lines)
    ensures Clean(Emit([b] + rest, prev, emitted)) ==
            LeadBlank(b, prev, emitted) + b.lines + Clean(Emit(rest, Some(SectionIndex(b)), true))
  {
    EmitCons(b, rest, prev, emitted);
    CleanBlock(Separator(SectionIndex(b), prev, emitted), b, Emit(rest, Some(SectionIndex(b)), true));
    CleanSeparator(SectionIndex(b), prev, emitted);
  }

  // ---- one block of the second pass ----

  lemma StripFacts(b: Block)
    requires WellFormed(b)
    ensures FirstKey(b.lines, 0) < |Strip(b).lines| <= TrailStart(b)
    ensures Strip(b).lines == b.lines[..|Strip(b).lines|]
    ensures forall i :: |Strip(b).lines| <= i < TrailStart(b) ==> b.lines[i].kind.Blank?
    ensures !b.lines[|Strip(b).lines| - 1].kind.Blank?
  {
    var k, t := FirstKey(b.lines, 0), TrailStart(b);
    var upper := b.lines[..t];
    LeadStartStops(b.lines, k, |b.lines|);
    TrimTailFacts(upper);
    assert upper[k].kind.Key?;
    assert forall i :: 0 <= i < t ==> upper[i] == b.lines[i];
  }

  lemma StripIsWellFormed(b: Block)
    requires WellFormed(b)
    ensures WellFormed(Strip(b))
  {
    StripFacts(b);
    FirstKeyFacts(b.lines, 0);
    FirstKeyIs(Strip(b).lines, 0, FirstKey(b.lines, 0));
  }

  lemma PrependIsWellFormed(a: Block, b: Block)
    requires WellFormed(b)
    requires NoBanners(a.lines)
    ensures WellFormed(Prepend(Trail(a), b))
    ensures FirstKey(Prepend(Trail(a), b).lines, 0) == |Trail(a)| + FirstKey(b.lines, 0)
  {
    var lines := Trail(a) + b.lines;
    LeadStartFacts(a.lines, |a.lines|);
    FirstKeyFacts(b.lines, 0);
    assert forall i :: 0 <= i < |Trail(a)| ==> Trail(a)[i].kind.Comment?;
    assert forall i :: |Trail(a)| <= i < |lines| ==> lines[i] == b.lines[i - |Trail(a)|];
    FirstKeyIs(lines, 0, |Trail(a)| + FirstKey(b.lines, 0));
  }

  /** `part` stands in `lines` from `p` on. */
  ghost predicate StandsAt<T>(lines: seq<T>, p: nat, part: seq<T>) {
    p + |part| <= |lines| && forall i :: p <= i < p + |part| ==> lines[i] == part[i - p]
  }

  /** Where the next block's lead comments start, or the end. */
  ghost predicate NextStarts(lines: seq<Line>, k: nat, next: nat, q: nat) {
    && k < next <= |lines| && FirstKey(lines, k + 1) == next
    && q == if next < |lines| then LeadStart(lines, next) else |lines|
  }

  lemma HeadLead(lines: seq<Line>, p: nat, b: Block)
    requires WellFormed(b) && StandsAt(lines, p, b.lines)
    requires p > 0 ==> !lines[p - 1].kind.Comment?
    ensures var k := p + FirstKey(b.lines, 0);
            k < |lines| && lines[k].kind == Key(b.key, b.place) && LeadStart(lines, k) == p
            && (forall i :: p <= i < k ==> !lines[i].kind.Key?)
            && (forall i :: k < i < p + |b.lines| ==> !lines[i].kind.Key?)
  {
    LeadStartIs(lines, p, p + FirstKey(b.lines, 0));
  }

  /** The block cut at `p`: `b`'s first `n` lines, when only blanks follow them up to `q`. */
  lemma CutHead(lines: seq<Line>, p: nat, k: nat, b: Block, n: nat, next: nat, q: nat)
    requires StandsAt(lines, p, b.lines)
    requires k < |lines| && lines[k].kind == Key(b.key, b.place) && LeadStart(lines, k) == p
    requires 0 < n <= |b.lines| && p + n <= q
    requires NextStarts(lines, k, next, q)
    requires forall i :: p + n <= i < q ==> lines[i].kind.Blank?
    requires !b.lines[n - 1].kind.Blank?
    ensures BlocksFrom(lines, k) == [b.(lines := b.lines[..n])] + if next < |lines| then BlocksFrom(lines, next) else []
  {
    hide TrimmedEnd, LeadStart;
    assert lines[p + n - 1] == b.lines[n - 1];
    TrimmedEndIs(lines, p, p + n, q);
    assert lines[p..p + n] == b.lines[..n];
  }

  // ---- all blocks of the second pass ----

  ghost function CutFrom(lines: seq<Line>, k: nat): seq<Block> {
    if k < |lines| && lines[k].kind.Key? then BlocksFrom(lines, k) else []
  }

  ghost function KeyOf(p: nat, b: Block): nat {
    p + FirstKey(b.lines, 0)
  }

  /** Cutting `lines` from `p` on, where the glued blocks stand. */
  lemma {:induction false} Resegment(lines: seq<Line>, p: nat, b: Block, rest: seq<Block>)
    requires WellFormed(b) && AllWellFormed(rest)
    requires p <= |lines| && lines[p..] == Glue(b, rest)
    requires p > 0 ==> !lines[p - 1].kind.Comment?
    ensures CutFrom(lines, KeyOf(p, b)) == Reattach(b, rest)
    decreases |rest|, 1
  {
    HeadStands(lines, p, b, rest);
    if rest == [] {
      CutLast(lines, p, b);
    } else {
      HeadAndTail(rest);
      if SameSection(b, rest[0]) {
        ResegmentJoined(lines, p, b, rest);
      } else {
        ResegmentApart(lines, p, b, rest);
      }
    }
  }

  lemma {:induction false} ResegmentJoined(lines: seq<Line>, p: nat, b: Block, rest: seq<Block>)
    requires WellFormed(b) && rest != [] && WellFormed(rest[0]) && AllWellFormed(rest[1..]) && SameSection(b, rest[0])
    requires p <= |lines| && lines[p..] == Glue(b, rest) && StandsAt(lines, p, b.lines)
    requires p > 0 ==> !lines[p - 1].kind.Comment?
    ensures CutFrom(lines, KeyOf(p, b)) == Reattach(b, rest)
    decreases |rest|, 0
  {
    var joined := Prepend(Trail(b), rest[0]);
    JoinedStands(lines, p, b, rest);
    Resegment(lines, p + TrailStart(b), joined, rest[1..]);
    CutJoined(lines, p, b, joined);
  }

  lemma {:induction false} ResegmentApart(lines: seq<Line>, p: nat, b: Block, rest: seq<Block>)
    requires WellFormed(b) && rest != [] && WellFormed(rest[0]) && AllWellFormed(rest[1..]) && !SameSection(b, rest[0])
    requires p <= |lines| && lines[p..] == Glue(b, rest) && StandsAt(lines, p, b.lines)
    requires p > 0 ==> !lines[p - 1].kind.Comment?
    ensures CutFrom(lines, KeyOf(p, b)) == Reattach(b, rest)
    decreases |rest|, 0
  {
    hide Glue, StandsAt, WellFormed, BlocksFrom, CutFrom, KeyOf, FirstKey, AllWellFormed, SameSection;
    GlueApart(lines, p, b, rest);
    HeadStands(lines, p + |b.lines| + 1, rest[0], rest[1..]);
    Resegment(lines, p + |b.lines| + 1, rest[0], rest[1..]);
    CutApart(lines, p, b, rest[0]);
  }

  lemma JoinedStands(lines: seq<Line>, p: nat, b: Block, rest: seq<Block>)
    requires WellFormed(b) && rest != [] && WellFormed(rest[0]) && SameSection(b, rest[0])
    requires p <= |lines| && lines[p..] == Glue(b, rest) && StandsAt(lines, p, b.lines)
    ensures var q, joined := p + TrailStart(b), Prepend(Trail(b), rest[0]);
            && 0 < q <= |lines| && lines[q..] == Glue(joined, rest[1..]) && !lines[q - 1].kind.Comment?
            && WellFormed(joined) && StandsAt(lines, q, joined.lines)
  {
    GlueJoined(lines, p, b, rest);
    PrependIsWellFormed(b, rest[0]);
    NoCommentAbove(lines, p, b);
    HeadStands(lines, p + TrailStart(b), Prepend(Trail(b), rest[0]), rest[1..]);
  }

  lemma NoCommentAbove(lines: seq<Line>, p: nat, b: Block)
    requires WellFormed(b) && StandsAt(lines, p, b.lines)
    ensures TrailStart(b) > 0 && !lines[p + TrailStart(b) - 1].kind.Comment?
  {
    LeadStartStops(b.lines, FirstKey(b.lines, 0), |b.lines|);
    LeadStartFacts(b.lines, |b.lines|);
    assert lines[p + TrailStart(b) - 1] == b.lines[TrailStart(b) - 1];
  }

  lemma CutLast(lines: seq<Line>, p: nat, b: Block)
    requires WellFormed(b) && StandsAt(lines, p, b.lines) && |lines| == p + |b.lines|
    requires p > 0 ==> !lines[p - 1].kind.Comment?
    ensures CutFrom(lines, KeyOf(p, b)) == [b]
  {
    HeadLead(lines, p, b);
    FirstKeyIs(lines, KeyOf(p, b) + 1, |lines|);
    CutHead(lines, p, KeyOf(p, b), b, |b.lines|, |lines|, |lines|);
    assert b.lines[..|b.lines|] == b.lines;
  }

  /** The key after `b`'s own is that of the block that starts at `q`. */
  lemma NextKey(lines: seq<Line>, p: nat, b: Block, q: nat, next: Block)
    requires WellFormed(b) && StandsAt(lines, p, b.lines)
    requires p > 0 ==> !lines[p - 1].kind.Comment?
    requires WellFormed(next) && StandsAt(lines, q, next.lines)
    requires 0 < q && !lines[q - 1].kind.Comment?
    requires KeyOf(p, b) < q <= p + |b.lines| + 1
    requires q == p + |b.lines| + 1 ==> lines[q - 1] == BLANK_LINE
    ensures NextStarts(lines, KeyOf(p, b), KeyOf(q, next), q)
  {
    HeadLead(lines, p, b);
    HeadLead(lines, q, next);
    FirstKeyIs(lines, KeyOf(p, b) + 1, KeyOf(q, next));
  }

  lemma CutJoined(lines: seq<Line>, p: nat, b: Block, joined: Block)
    requires WellFormed(b) && StandsAt(lines, p, b.lines)
    requires p > 0 ==> !lines[p - 1].kind.Comment?
    requires WellFormed(joined) && StandsAt(lines, p + TrailStart(b), joined.lines)
    requires p + TrailStart(b) > 0 && !lines[p + TrailStart(b) - 1].kind.Comment?
    ensures CutFrom(lines, KeyOf(p, b)) == [Strip(b)] + CutFrom(lines, KeyOf(p + TrailStart(b), joined))
  {
    hide LeadStart, FirstKey, BlocksFrom;
    var q := p + TrailStart(b);
    HeadLead(lines, p, b);
    StripFacts(b);
    NextKey(lines, p, b, q, joined);
    CutHead(lines, p, KeyOf(p, b), b, |Strip(b).lines|, KeyOf(q, joined), q);
  }

  lemma CutApart(lines: seq<Line>, p: nat, b: Block, first: Block)
    requires WellFormed(b) && StandsAt(lines, p, b.lines)
    requires p > 0 ==> !lines[p - 1].kind.Comment?
    requires p + |b.lines| < |lines| && lines[p + |b.lines|] == BLANK_LINE
    requires WellFormed(first) && StandsAt(lines, p + |b.lines| + 1, first.lines)
    ensures CutFrom(lines, KeyOf(p, b)) == [b] + CutFrom(lines, KeyOf(p + |b.lines| + 1, first))
  {
    hide LeadStart, FirstKey, BlocksFrom;
    var q := p + |b.lines| + 1;
    HeadLead(lines, p, b);
    NextKey(lines, p, b, q, first);
    CutHead(lines, p, KeyOf(p, b), b, |b.lines|, KeyOf(q, first), q);
    assert b.lines[..|b.lines|] == b.lines;
  }

  lemma GlueApart(lines: seq<Line>, p: nat, b: Block, rest: seq<Block>)
    requires rest != [] && !SameSection(b, rest[0])
    requires p <= |lines| && lines[p..] == Glue(b, rest)
    ensures p + |b.lines| < |lines| && lines[p + |b.lines|] == BLANK_LINE
    ensures lines[p + |b.lines| + 1..] == Glue(rest[0], rest[1..])
  {
    DropHead(lines, p, b.lines + [BLANK_LINE], Glue(rest[0], rest[1..]));
  }

  lemma DropHead<T>(lines: seq<T>, p: nat, head: seq<T>, below: seq<T>)
    requires p <= |lines| && lines[p..] == head + below
    ensures StandsAt(lines, p, head)
    ensures lines[p + |head|..] == below
  {
    forall i | p <= i < p + |head|
      ensures lines[i] == head[i - p]
    {
      assert lines[i] == lines[p..][i - p];
    }
    assert lines[p + |head|..] == lines[p..][|head|..];
  }

  lemma HeadStands(lines: seq<Line>, p: nat, b: Block, rest: seq<Block>)
    requires p <= |lines| && lines[p..] == Glue(b, rest)
    ensures StandsAt(lines, p, b.lines)
    ensures rest == [] ==> |lines| == p + |b.lines|
  {
    if rest == [] {
      DropHead(lines, p, b.lines, []);
    } else {
      DropHead(lines, p, b.lines, Between(b, rest[0]) + Glue(rest[0], rest[1..]));
    }
  }

  lemma GlueJoined(lines: seq<Line>, p: nat, b: Block, rest: seq<Block>)
    requires rest != [] && SameSection(b, rest[0])
    requires p <= |lines| && lines[p..] == Glue(b, rest)
    ensures p + TrailStart(b) <= |lines|
    ensures lines[p + TrailStart(b)..] == Glue(Prepend(Trail(b), rest[0]), rest[1..])
  {
    var below := Glue(rest[0], rest[1..]);
    PrependGlue(Trail(b), rest[0], rest[1..]);
    assert b.lines + [] + below == b.lines[..TrailStart(b)] + (Trail(b) + below);
    DropHead(lines, p, b.lines[..TrailStart(b)], Trail(b) + below);
  }

  lemma PrependGlue(comments: seq<Line>, b: Block, rest: seq<Block>)
    ensures Glue(Prepend(comments, b), rest) == comments + Glue(b, rest)
  {
  }
}
