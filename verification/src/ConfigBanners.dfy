/** What a restructured file carries of the restructurer's own: one banner for each section in use, and the note. */
module ConfigBanners {
  import opened Prelude
  import opened Text
  import opened Sorting
  import opened ConfigLayout
  import opened ConfigFacts
  import opened ConfigConvergence
  import opened ConfigFixpoint
  import opened ConfigTexts
  import opened ConfigKeys

  // ---- the banners differ ----

  lemma TitleMarks(si: SectionNumber)
    ensures |TITLES[si]| >= 2 && TITLES[si][..2] == ["Ge", "Va", "Ag", "Se", "To", "Au", "Sy"][si]
  {
  }

  lemma BannerMarks(si: SectionNumber)
    ensures var t := BannerLine(si).text; |t| >= 7 && t[5..7] == TITLES[si][..2] && t[2] == '\U{2500}'
  {
    hide SectionBanner, TITLES, SECTIONS;
    ShortTitles();
    SectionsAre();
    TitleMarks(si);
    BannerIs(TITLES[si]);
    var t := BannerLine(si).text;
    assert t[5] == TITLES[si][0] && t[6] == TITLES[si][1];
  }

  lemma OwnLinesDiffer(si: SectionNumber, sj: SectionNumber)
    ensures BannerLine(si) == BannerLine(sj) <==> si == sj
    ensures BannerLine(si) != NOTE_LINE && NOTE_LINE.text[2] == 'M'
  {
    BannerMarks(si);
    BannerMarks(sj);
    TitleMarks(si);
    TitleMarks(sj);
  }

  // ---- one for each section ----

  /** The first six sections, then what no section lists, then `stats`. */
  function Rank(section: Option<SectionNumber>): nat {
    match section
    case None => 6
    case Some(si) => if si == 6 then 7 else si
  }

  ghost predicate Grouped(blocks: seq<Block>) {
    forall i, j :: 0 <= i < j < |blocks| ==> Rank(SectionIndex(blocks[i])) <= Rank(SectionIndex(blocks[j]))
  }

  ghost predicate HasSection(blocks: seq<Block>, si: SectionNumber) {
    exists b :: b in blocks && SectionIndex(b) == Some(si)
  }

  function One(b: bool): nat {
    if b then 1 else 0
  }

  lemma SeparatorCounts(section: Option<SectionNumber>, prev: Option<Option<SectionNumber>>, emitted: bool,
      si: SectionNumber)
    ensures var own := multiset(Separator(section, prev, emitted));
            && own[BannerLine(si)] == One(prev != Some(section) && section == Some(si))
            && own[NOTE_LINE] == One(prev != Some(section) && section == Some(6))
  {
    hide SectionBanner, SECTIONS;
    OwnLinesDiffer(si, if section.Some? then section.value else si);
    OwnLinesDiffer(if section.Some? then section.value else si, si);
  }

  lemma NoneCounted(lines: seq<Line>, l: Line)
    requires NoBanners(lines) && l.kind.Structural?
    ensures multiset(lines)[l] == 0
  {
    assert l !in lines;
  }

  lemma FirstOrRest(blocks: seq<Block>, prev: Option<Option<SectionNumber>>, si: SectionNumber)
    requires blocks != [] && Grouped(blocks)
    requires prev.Some? ==> Rank(prev.value) <= Rank(SectionIndex(blocks[0]))
    ensures Grouped(blocks[1..]) && (|blocks| > 1 ==> Rank(SectionIndex(blocks[0])) <= Rank(SectionIndex(blocks[1])))
    ensures var section := SectionIndex(blocks[0]);
            One(prev != Some(section) && section == Some(si)) +
            One(section != Some(si) && HasSection(blocks[1..], si)) ==
            One(prev != Some(Some(si)) && HasSection(blocks, si))
  {
    hide SectionIndex;
    assert blocks == [blocks[0]] + blocks[1..];
    if b :| b in blocks && SectionIndex(b) == Some(si) {
      assert Rank(SectionIndex(blocks[0])) <= Rank(SectionIndex(b));
    }
  }

  lemma EmitCounts(blocks: seq<Block>, prev: Option<Option<SectionNumber>>, emitted: bool, l: Line)
    requires blocks != [] && NoBanners(blocks[0].lines) && l.kind.Structural?
    ensures var section := SectionIndex(blocks[0]);
            multiset(Emit(blocks, prev, emitted))[l] ==
            multiset(Separator(section, prev, emitted))[l] + multiset(Emit(blocks[1..], Some(section), true))[l]
  {
    hide Separator;
    NoneCounted(blocks[0].lines, l);
  }

  lemma {:induction false} EmitBanners(blocks: seq<Block>, prev: Option<Option<SectionNumber>>, emitted: bool,
      si: SectionNumber)
    requires Grouped(blocks) && forall b :: b in blocks ==> NoBanners(b.lines)
    requires prev.Some? && blocks != [] ==> Rank(prev.value) <= Rank(SectionIndex(blocks[0]))
    ensures var own := multiset(Emit(blocks, prev, emitted));
            && own[BannerLine(si)] == One(prev != Some(Some(si)) && HasSection(blocks, si))
            && own[NOTE_LINE] == One(prev != Some(Some(6)) && HasSection(blocks, 6))
  {
    hide Separator, SectionIndex, NoBanners, HasSection, Rank, Grouped, One, Emit;
    if blocks == [] {
      NothingEmitted(prev, emitted, si);
    } else {
      var section := SectionIndex(blocks[0]);
      FirstOrRest(blocks, prev, si);
      FirstOrRest(blocks, prev, 6);
      EmitBanners(blocks[1..], Some(section), true, si);
      SeparatorCounts(section, prev, emitted, si);
      EmitCounts(blocks, prev, emitted, BannerLine(si));
      EmitCounts(blocks, prev, emitted, NOTE_LINE);
    }
  }

  lemma NothingEmitted(prev: Option<Option<SectionNumber>>, emitted: bool, si: SectionNumber)
    ensures Emit([], prev, emitted) == [] && !HasSection([], si) && !HasSection([], 6) && One(false) == 0
  {
  }

  // ---- where they stand ----

  lemma {:induction false} PairStands(blocks: seq<Block>, prev: Option<Option<SectionNumber>>, emitted: bool, i: nat)
    requires 0 < i < |blocks|
    ensures var a, b := blocks[i - 1], blocks[i];
            IsInfix(a.lines + Separator(SectionIndex(b), Some(SectionIndex(a)), true) + b.lines,
                    Emit(blocks, prev, emitted))
  {
    hide Separator, SectionIndex, IsInfix;
    var a, b, rest := blocks[i - 1], blocks[i], blocks[1..];
    var pair := a.lines + Separator(SectionIndex(b), Some(SectionIndex(a)), true) + b.lines;
    var first, section := Separator(SectionIndex(blocks[0]), prev, emitted), SectionIndex(blocks[0]);
    if i == 1 {
      assert rest[0] == b;
      InfixOfItself(pair);
      InfixAround(pair, first, pair, Emit(rest[1..], Some(SectionIndex(b)), true));
      assert first + pair + Emit(rest[1..], Some(SectionIndex(b)), true) == Emit(blocks, prev, emitted);
    } else {
      PairStands(rest, Some(section), true, i - 1);
      InfixAround(pair, first + blocks[0].lines, Emit(rest, Some(section), true), []);
      assert first + blocks[0].lines + Emit(rest, Some(section), true) + [] == Emit(blocks, prev, emitted);
    }
  }

  /** The lines above the block that opens a section: its banner, and for the system section the note. */
  ghost predicate IsLead(own: seq<Line>, section: Option<SectionNumber>) {
    match section
    case None => own == []
    case Some(si) =>
      && |own| == (if TITLES[si] == "System" then 2 else 1)
      && IsBanner(own[0].text, TITLES[si]) && (|own| == 2 ==> own[1].text == NOTE_TEXT)
  }

  lemma LeadIs(section: Option<SectionNumber>, prev: Option<Option<SectionNumber>>, emitted: bool)
      returns (own: seq<Line>)
    ensures IsLead(own, section)
    ensures Separator(section, prev, emitted) ==
            if prev == Some(section) then [] else (if emitted then [BLANK_LINE] else []) + own
  {
    hide SectionBanner, SECTIONS, IsBanner, TITLES;
    own := Banner(section);
    if section.Some? {
      ShortTitles();
      SectionsAre();
      BannerIs(TITLES[section.value]);
      OnlySystem(section.value);
    }
  }

  lemma OnlySystem(si: SectionNumber)
    ensures TITLES[si] == "System" <==> si == 6
  {
    TitleMarks(si);
    assert "System"[..2] == "Sy";
  }

  /** Blocks of one section follow each other directly. Otherwise a blank line parts them, and the block that opens a
      section stands below that section's banner, `stats` below the note as well. */
  lemma NeighboursAre(s: Segments, i: nat) returns (own: seq<Line>)
    requires 0 < i < |s.blocks|
    ensures var a, b := s.blocks[i - 1], s.blocks[i];
            if SectionIndex(a) == SectionIndex(b) then IsInfix(a.lines + b.lines, Assemble(s))
            else IsLead(own, SectionIndex(b)) && IsInfix(a.lines + ([BLANK_LINE] + own) + b.lines, Assemble(s))
  {
    hide Separator, SectionIndex, IsInfix, IsLead, Emit;
    var a, b, head := s.blocks[i - 1], s.blocks[i], TrimTail(s.preamble);
    var between := Separator(SectionIndex(b), Some(SectionIndex(a)), true);
    own := LeadIs(SectionIndex(b), Some(SectionIndex(a)), true);
    PairStands(s.blocks, None, head != [], i);
    InfixAround(a.lines + between + b.lines, head, Emit(s.blocks, None, head != []), []);
    assert head + Emit(s.blocks, None, head != []) + [] == Assemble(s);
    assert a.lines + [] == a.lines;
  }

  /** The first block opens its section below the preamble. */
  lemma FirstOpens(s: Segments) returns (own: seq<Line>)
    requires s.blocks != []
    ensures IsLead(own, SectionIndex(s.blocks[0]))
    ensures var head := TrimTail(s.preamble);
            head + (if head != [] then [BLANK_LINE] else []) + own + s.blocks[0].lines <= Assemble(s)
  {
    hide SectionIndex, IsLead, Separator;
    var head := TrimTail(s.preamble);
    own := LeadIs(SectionIndex(s.blocks[0]), None, head != []);
  }

  // ---- on whole texts ----

  lemma AssembledBanners(s: Segments, si: SectionNumber)
    requires Canonical(s)
    ensures var own := multiset(Assemble(s));
            own[BannerLine(si)] == One(HasSection(s.blocks, si)) && own[NOTE_LINE] == One(HasSection(s.blocks, 6))
  {
    hide SectionBanner, SECTIONS, SectionIndex, Emit, SectionOrder, HasSection;
    var head := TrimTail(s.preamble);
    SortedIsGrouped(s.blocks);
    WellFormedHasNone(s.blocks);
    EmitBanners(s.blocks, None, head != [], si);
    NoneCounted(head, BannerLine(si));
    NoneCounted(head, NOTE_LINE);
  }

  lemma SortedIsGrouped(blocks: seq<Block>)
    requires Sorted(blocks, SectionOrder)
    ensures Grouped(blocks)
  {
    hide SectionIndex;
    forall i, j | 0 <= i < j < |blocks|
      ensures Rank(SectionIndex(blocks[i])) <= Rank(SectionIndex(blocks[j]))
    {
      OrderRanks(blocks[i], blocks[j]);
    }
  }

  lemma OrderRanks(a: Block, b: Block)
    requires SectionOrder(a, b)
    ensures Rank(SectionIndex(a)) <= Rank(SectionIndex(b))
  {
  }

  lemma WellFormedHasNone(blocks: seq<Block>)
    requires AllWellFormed(blocks)
    ensures forall b :: b in blocks ==> NoBanners(b.lines)
  {
    hide NoBanners;
  }

  /** Some line of the file spells a key that the list has in this section. */
  ghost predicate InUse(text: string, si: SectionNumber) {
    exists l, key, ki: nat :: l in ContentLines(text) && SpellsKey(l, key) && IsAt(key, si, ki)
  }

  lemma CountCons<T>(x: T, xs: seq<T>, y: T)
    ensures multiset([x] + xs)[y] == One(x == y) + multiset(xs)[y]
  {
  }

  lemma TextsCons(x: Line, rest: seq<Line>)
    ensures Texts([x] + rest) == [x.text] + Texts(rest) && Texts([]) == []
  {
  }

  ghost predicate AllRead(lines: seq<Line>) {
    forall l :: l in lines ==> l == Read(l.text)
  }

  lemma ReadParts(x: Line, rest: seq<Line>)
    requires AllRead([x] + rest)
    ensures AllRead(rest) && x == Read(x.text)
  {
    assert forall l :: l in rest ==> l in [x] + rest;
  }

  lemma {:induction false} TextCount(lines: seq<Line>, l: Line)
    requires l == Read(l.text) && AllRead(lines)
    ensures multiset(Texts(lines))[l.text] == multiset(lines)[l]
  {
    hide KindOf, Texts, AllRead;
    if lines == [] {
      TextsCons(l, []);
    } else {
      var x, rest := lines[0], lines[1..];
      assert lines == [x] + rest;
      ReadParts(x, rest);
      TextCount(rest, l);
      TextsCons(x, rest);
      CountCons(x, rest, l);
      CountCons(x.text, Texts(rest), l.text);
      assert x.text == l.text <==> x == l;
    }
  }

  lemma {:induction false} BlocksAreKeys(lines: seq<Line>, k: nat, b: Block)
    requires k < |lines| && lines[k].kind.Key? && b in BlocksFrom(lines, k)
    ensures exists n :: k <= n < |lines| && lines[n].kind.Key? && b == BlockAt(lines, n)
    decreases |lines| - k
  {
    hide BlockAt;
    var next := FirstKey(lines, k + 1);
    if b != BlockAt(lines, k) {
      BlocksAreKeys(lines, next, b);
    }
  }

  lemma SectionIffKey(lines: seq<Line>, si: SectionNumber)
    requires Ordered(lines).Some?
    ensures HasSection(Ordered(lines).value.blocks, si) <==>
            exists l :: l in Clean(lines) && l.kind.Key? && l.kind.place.Known? && l.kind.place.section == si
  {
    hide Reorder, SectionOrder, LeadStart, TrimmedEnd, BlockEnd, FirstKey, BlocksFrom;
    var cleaned := Clean(lines);
    var first := FirstKey(cleaned, 0);
    var blocks := BlocksFrom(cleaned, first);
    FirstKeyFacts(cleaned, 0);
    ReorderOrders(blocks);
    if b :| b in Reorder(blocks) && SectionIndex(b) == Some(si) {
      assert b in multiset(Reorder(blocks)) && b in multiset(blocks) && b in blocks;
      BlocksAreKeys(cleaned, first, b);
    }
    if l :| l in cleaned && l.kind.Key? && l.kind.place.Known? && l.kind.place.section == si {
      var k :| 0 <= k < |cleaned| && cleaned[k] == l;
      BlockIsCut(cleaned, first, k);
      var b := BlockAt(cleaned, k);
      assert b in multiset(blocks) && b in multiset(Reorder(blocks)) && b in Reorder(blocks);
    }
  }

  lemma InUseIff(text: string, si: SectionNumber)
    ensures InUse(text, si) <==>
            exists l :: l in Clean(ReadAll(Lines(text))) && l.kind.Key? && l.kind.place.Known? &&
                        l.kind.place.section == si
  {
    hide SpellsKey, IsAt, KindOf, IsStructural, Lines, Clean, KEYS;
    var lines := Clean(ReadAll(Lines(text)));
    ContentAre(Lines(text));
    if l :| l in lines && l.kind.Key? && l.kind.place.Known? && l.kind.place.section == si {
      KeyLineIff(l.text, l.kind.key);
      PlaceIff(l.kind.key, si, l.kind.place.within);
      var k :| 0 <= k < |lines| && lines[k] == l;
      assert ContentLines(text)[k] == l.text;
    }
    if t, key, ki: nat :| t in ContentLines(text) && SpellsKey(t, key) && IsAt(key, si, ki) {
      var k :| 0 <= k < |lines| && ContentLines(text)[k] == t;
      assert lines[k] in lines;
      KeyLineIff(t, key);
      PlaceIff(key, si, ki);
    }
  }

  /** A rewritten file carries the banner of each section that it has a key of exactly once, and no other one; and
      exactly with the banner of `stats` the note. */
  lemma BannersStandOnce(text: string, isMapping: string -> bool, out: string, si: SectionNumber, banner: string)
    requires NoLoneCr(text) && RestructureConfig(text, isMapping) == Some(out) && IsBanner(banner, TITLES[si])
    ensures multiset(Lines(out))[banner] == if InUse(text, si) then 1 else 0
    ensures multiset(Lines(out))[NOTE_TEXT] == if InUse(text, 6) then 1 else 0
  {
    hide SectionBanner, SECTIONS, TITLES, IsBanner, Lines, RestructureConfig, Ordered, Assemble, Unsplit, NoLoneCr,
         KindOf, Clean, InUse, HasSection;
    var lines := ReadAll(Split(text).lines);
    RestructuredIs(text, isMapping, out);
    ReadAllIsFaithful(text);
    OrderedIsCanonical(lines);
    AssembledIsFaithful(lines);
    var s := Ordered(lines).value;
    EndsWell(s);
    WrittenReadsBack(Assemble(s), Split(text).crlf, Split(text).ends);
    AssembledBanners(s, si);
    SectionIffKey(lines, si);
    SectionIffKey(lines, 6);
    InUseIff(text, si);
    InUseIff(text, 6);
    ShortTitles();
    SectionsAre();
    BannerIff(banner, TITLES[si]);
    BannersReadBack(si);
    NoteReadsBack();
    TextCount(Assemble(s), BannerLine(si));
    TextCount(Assemble(s), NOTE_LINE);
  }
}
