/** The restructurer's promises on whole texts: conservation, and when it is idempotent. */
module ConfigTexts {
  import opened Prelude
  import opened Text
  import opened ConfigLayout
  import opened ConfigFacts
  import opened ConfigConvergence
  import opened ConfigFixpoint

  lemma OrderedIsCanonical(lines: seq<Line>)
    requires Ordered(lines).Some?
    ensures Canonical(Ordered(lines).value)
  {
    hide WellFormed, Reorder, SectionOrder;
    var cleaned := Clean(lines);
    var first := FirstKey(cleaned, 0);
    var blocks := BlocksFrom(cleaned, first);
    FirstKeyFacts(cleaned, 0);
    BlocksAreWellFormed(cleaned, first);
    ReorderOrders(blocks);
    assert |multiset(Reorder(blocks))| == |multiset(blocks)|;
    forall b | b in Reorder(blocks)
      ensures WellFormed(b)
    {
      assert b in multiset(Reorder(blocks));
    }
  }

  // ---- conservation ----

  ghost function GlueGaps(b: Block, rest: seq<Block>): (gaps: seq<seq<Line>>)
    ensures |gaps| == 1 + |rest|
    decreases |rest|
  {
    if rest == [] then [[]] else [Between(b, rest[0])] + GlueGaps(rest[0], rest[1..])
  }

  lemma {:induction false} GlueInterleaves(b: Block, rest: seq<Block>)
    ensures Glue(b, rest) == Interleave([b] + rest, GlueGaps(b, rest))
    ensures forall gap :: gap in GlueGaps(b, rest) ==> AllBlank(gap)
    decreases |rest|
  {
    if rest == [] {
      InterleaveCons(b, [], [], []);
      assert [b] + rest == [b] + [];
      assert [[]] + [] == GlueGaps(b, rest);
    } else {
      GlueInterleaves(rest[0], rest[1..]);
      assert [rest[0]] + rest[1..] == rest;
      InterleaveCons(b, rest, Between(b, rest[0]), GlueGaps(rest[0], rest[1..]));
    }
  }

  /** Blocks separated by blank lines only. */
  ghost predicate Tiled(lines: seq<Line>, blocks: seq<Block>, gaps: seq<seq<Line>>) {
    |gaps| == |blocks| && lines == Interleave(blocks, gaps) && forall gap :: gap in gaps ==> AllBlank(gap)
  }

  lemma CutTiles(lines: seq<Line>) returns (cut: Segments, gaps: seq<seq<Line>>)
    requires Segment(lines).Some?
    ensures cut == Segment(lines).value
    ensures cut.preamble <= lines && Tiled(lines[|cut.preamble|..], cut.blocks, gaps)
  {
    var first := FirstKey(lines, 0);
    cut := Segment(lines).value;
    gaps := GapsFrom(lines, first);
    SegmentTiles(lines, first);
    GapsAreBlank(lines, first);
  }

  lemma WrittenTiles(s: Segments) returns (lead: seq<Line>, rest: seq<Line>, gaps: seq<seq<Line>>)
    requires Canonical(s)
    ensures Clean(Assemble(s)) == TrimTail(s.preamble) + lead + rest && AllBlank(lead) && Tiled(rest, s.blocks, gaps)
  {
    CleanAssembled(s);
    lead := if TrimTail(s.preamble) != [] then [BLANK_LINE] else [];
    rest, gaps := Glue(s.blocks[0], s.blocks[1..]), GlueGaps(s.blocks[0], s.blocks[1..]);
    GlueInterleaves(s.blocks[0], s.blocks[1..]);
    assert [s.blocks[0]] + s.blocks[1..] == s.blocks;
  }

  /** Apart from this module's own banners and from blank lines between blocks, the input is a
      preamble and blocks, and the output is that preamble and the same blocks, each with its
      lines intact, permuted into the canonical order. */
  lemma RestructureConserves(lines: seq<Line>)
    returns (cut: Segments, gaps: seq<seq<Line>>, lead: seq<Line>, rest: seq<Line>, newGaps: seq<seq<Line>>)
    requires Ordered(lines).Some?
    ensures cut.preamble <= Clean(lines) && Tiled(Clean(lines)[|cut.preamble|..], cut.blocks, gaps)
    ensures Clean(Assemble(Ordered(lines).value)) == TrimTail(cut.preamble) + lead + rest
    ensures AllBlank(lead) && Tiled(rest, Reorder(cut.blocks), newGaps)
    ensures multiset(Reorder(cut.blocks)) == multiset(cut.blocks)
  {
    cut, gaps := CutTiles(Clean(lines));
    OrderedIsCanonical(lines);
    lead, rest, newGaps := WrittenTiles(Ordered(lines).value);
    ReorderOrders(cut.blocks);
  }

  // ---- reading what was written ----

  /** A line of a text without lone carriage returns, classified as its text says. */
  ghost predicate ReadsBack(l: Line) {
    l == Read(l.text) && PlainLine(l.text)
  }

  ghost predicate Faithful(lines: seq<Line>) {
    forall l :: l in lines ==> ReadsBack(l)
  }

  lemma BannersReadBack(section: SectionNumber)
    ensures ReadsBack(BannerLine(section))
  {
    var banner := SectionBanner(SECTIONS[section].title);
    assert banner[0] == '#';
    assert TrimStart(banner) == banner;
    PlainBanner(section);
  }

  lemma {:induction false} PlainRepeat(n: nat)
    ensures PlainLine(Repeat('\U{2500}', n))
  {
    if n > 0 {
      PlainRepeat(n - 1);
    }
  }

  lemma TitlesArePlain()
    ensures PlainLine("General") && PlainLine("Vault layout") && PlainLine("Search") && PlainLine("System")
  {
  }

  lemma LongTitlesArePlain()
    ensures PlainLine("Agent behavior") && PlainLine("Automation")
  {
  }

  lemma LongestTitleIsPlain()
    ensures PlainLine("Token optimization")
  {
  }

  lemma PlainTitle(section: SectionNumber)
    ensures PlainLine(SECTIONS[section].title)
  {
    hide PlainLine;
    TitlesArePlain();
    LongTitlesArePlain();
    LongestTitleIsPlain();
  }

  lemma PlainConcat(a: string, b: string)
    requires PlainLine(a) && PlainLine(b)
    ensures PlainLine(a + b)
  {
  }

  lemma PlainBanner(section: SectionNumber)
    ensures PlainLine(SectionBanner(SECTIONS[section].title))
  {
    var title := SECTIONS[section].title;
    var start := "# \U{2500}\U{2500} ";
    PlainTitle(section);
    PlainConcat(start, title);
    PlainConcat(start + title, " ");
    PlainRepeat(Max(BANNER_WIDTH - |start + title + " "|, 1));
    PlainConcat(start + title + " ", Repeat('\U{2500}', Max(BANNER_WIDTH - |start + title + " "|, 1)));
  }

  lemma PlainNote()
    ensures PlainLine(SYSTEM_MANAGED_NOTE)
  {
  }

  lemma NoteReadsBack()
    ensures ReadsBack(NOTE_LINE)
  {
    PlainNote();
    NoteIsStructural();
  }

  lemma NoteIsStructural()
    ensures KindOf(SYSTEM_MANAGED_NOTE) == Structural
  {
    TrimmedAlready(SYSTEM_MANAGED_NOTE);
    assert IsManagedNote(SYSTEM_MANAGED_NOTE);
  }

  lemma BlankReadsBack()
    ensures ReadsBack(BLANK_LINE)
  {
    hide SectionBanner;
    forall i | 0 <= i < |SECTIONS|
      ensures TrimStart("") != SectionBanner(SECTIONS[i].title)
    {
      BannerIsSome(SECTIONS[i].title);
    }
    assert Trim("") == "";
    assert |SYSTEM_MANAGED_NOTE| > 0;
  }

  lemma BannerIsSome(title: string)
    ensures SectionBanner(title) != ""
  {
    hide Repeat;
  }

  lemma SeparatorIsFaithful(section: Option<SectionNumber>, prev: Option<Option<SectionNumber>>, emitted: bool)
    ensures Faithful(Separator(section, prev, emitted))
  {
    hide ReadsBack, BannerLine;
    BlankReadsBack();
    NoteReadsBack();
    if section.Some? {
      BannersReadBack(section.value);
    }
  }

  lemma {:induction false} EmitIsFaithful(blocks: seq<Block>, prev: Option<Option<SectionNumber>>, emitted: bool)
    requires forall b :: b in blocks ==> Faithful(b.lines)
    ensures Faithful(Emit(blocks, prev, emitted))
  {
    if blocks != [] {
      EmitIsFaithful(blocks[1..], Some(SectionIndex(blocks[0])), true);
      SeparatorIsFaithful(SectionIndex(blocks[0]), prev, emitted);
      assert Faithful(blocks[0].lines);
    }
  }

  lemma {:induction false} BlocksWithin(lines: seq<Line>, k: nat)
    requires k < |lines| && lines[k].kind.Key?
    requires Faithful(lines)
    ensures forall b :: b in BlocksFrom(lines, k) ==> Faithful(b.lines)
    decreases |lines| - k
  {
    var next := FirstKey(lines, k + 1);
    assert Faithful(BlockAt(lines, k).lines);
    if next < |lines| {
      BlocksWithin(lines, next);
    }
  }

  lemma AssembledIsFaithful(lines: seq<Line>)
    requires Faithful(lines) && Ordered(lines).Some?
    ensures Faithful(Assemble(Ordered(lines).value))
  {
    hide BlocksFrom, Reorder, Emit, LeadStart, TrimTail, FirstKey;
    var cleaned := Clean(lines);
    var first := FirstKey(cleaned, 0);
    var blocks := BlocksFrom(cleaned, first);
    BlocksWithin(cleaned, first);
    ReorderOrders(blocks);
    forall b | b in Reorder(blocks)
      ensures Faithful(b.lines)
    {
      assert b in multiset(Reorder(blocks));
    }
    var head := TrimTail(cleaned[..LeadStart(cleaned, first)]);
    EmitIsFaithful(Reorder(blocks), None, head != []);
    assert forall l :: l in head ==> l in cleaned;
  }

  /** A written-out text ends in a line that is not blank. */
  lemma {:induction false} EmitEndsWell(blocks: seq<Block>, prev: Option<Option<SectionNumber>>, emitted: bool)
    requires blocks != [] && AllWellFormed(blocks)
    ensures Emit(blocks, prev, emitted) != []
    ensures !Emit(blocks, prev, emitted)[|Emit(blocks, prev, emitted)| - 1].kind.Blank?
  {
    assert WellFormed(blocks[0]);
    if |blocks| > 1 {
      EmitEndsWell(blocks[1..], Some(SectionIndex(blocks[0])), true);
    } else {
      assert Emit(blocks[1..], Some(SectionIndex(blocks[0])), true) == [];
    }
  }

  lemma EndsWell(s: Segments)
    requires Canonical(s)
    ensures Assemble(s) != [] && !Assemble(s)[|Assemble(s)| - 1].kind.Blank?
  {
    EmitEndsWell(s.blocks, None, TrimTail(s.preamble) != []);
  }

  lemma TextsArePlain(lines: seq<Line>)
    requires Faithful(lines)
    ensures forall t :: t in Texts(lines) ==> PlainLine(t)
    ensures ReadAll(Texts(lines)) == lines
    ensures lines != [] && !lines[|lines| - 1].kind.Blank? ==> Texts(lines)[|lines| - 1] != ""
  {
    assert forall i :: 0 <= i < |lines| ==> ReadsBack(lines[i]);
    if lines != [] && !lines[|lines| - 1].kind.Blank? {
      HasText(lines[|lines| - 1]);
    }
  }

  lemma HasText(l: Line)
    requires ReadsBack(l) && !l.kind.Blank?
    ensures l.text != ""
  {
    BlankReadsBack();
  }

  /** Writing out faithful lines and reading them again gives the same lines. */
  lemma WrittenReadsBack(lines: seq<Line>, crlf: bool, ends: bool)
    requires Faithful(lines) && lines != [] && !lines[|lines| - 1].kind.Blank?
    ensures var d := Split(Unsplit(Doc(Texts(lines), crlf, ends)));
            d.lines == Texts(lines) && ReadAll(d.lines) == lines && d.ends == ends &&
              (d.crlf <==> crlf && (|lines| > 1 || ends))
  {
    hide Lines, ContainsCrlf, EndsWithNewline, Unsplit, PlainLine, KindOf;
    TextsArePlain(lines);
    SplitUnsplit(Doc(Texts(lines), crlf, ends));
  }

  lemma NewlineUnused(lines: seq<string>, crlf: bool, ends: bool)
    requires |lines| == 1 && !ends
    ensures Unsplit(Doc(lines, crlf, ends)) == Unsplit(Doc(lines, !crlf, ends))
  {
  }

  lemma ReadAllIsFaithful(text: string)
    requires NoLoneCr(text)
    ensures Faithful(ReadAll(Split(text).lines))
  {
    LinesArePlain(text);
  }

  lemma {:induction false} DroppedIsFaithful(a: seq<Line>, b: seq<Line>)
    requires BlanksDropped(a, b) && Faithful(a)
    ensures Faithful(b)
  {
    if a != [] {
      assert a[0] in a;
      if b != [] && a[0] == b[0] && BlanksDropped(a[1..], b[1..]) {
        DroppedIsFaithful(a[1..], b[1..]);
      } else {
        DroppedIsFaithful(a[1..], b);
      }
    }
  }

  lemma RestructureOfText(text: string, isMapping: string -> bool, lines: seq<Line>)
    requires isMapping(text) && !StartsWith(TrimStart(text), '{')
    requires RestructureLines(ReadAll(Split(text).lines)) == Some(lines)
    ensures RestructureConfig(text, isMapping) == Some(Unsplit(Split(text).(lines := Texts(lines))))
  {
  }

  /** Writing lines again in the style read back from them gives the same text only for the same lines. */
  lemma SameTextIffSameLines(once: seq<Line>, twice: seq<Line>, crlf: bool, ends: bool)
    requires Faithful(once) && once != [] && !once[|once| - 1].kind.Blank?
    requires Faithful(twice) && twice != [] && !twice[|twice| - 1].kind.Blank?
    ensures var out := Unsplit(Doc(Texts(once), crlf, ends));
            Unsplit(Split(out).(lines := Texts(twice))) == out <==> twice == once
  {
    var out := Unsplit(Doc(Texts(once), crlf, ends));
    WrittenReadsBack(once, crlf, ends);
    WrittenReadsBack(twice, Split(out).crlf, ends);
    if twice == once && Split(out).crlf != crlf {
      NewlineUnused(Texts(once), crlf, ends);
    }
  }

  lemma RestructuredIs(text: string, isMapping: string -> bool, out: string)
    requires RestructureConfig(text, isMapping) == Some(out)
    ensures var d := Split(text);
            var ordered := Ordered(ReadAll(d.lines));
            ordered.Some? && out == Unsplit(Doc(Texts(Assemble(ordered.value)), d.crlf, d.ends))
  {
    hide Ordered, Assemble, Unsplit, Lines, ReadAll, Texts;
  }

  /** `doctor --fix` leaves a text that `doctor` calls canonical exactly when the parser declines it or no
      block followed by one of its own section ends in comments below a blank line. */
  lemma RestructureIsIdempotentIff(text: string, isMapping: string -> bool, out: string)
    requires NoLoneCr(text)
    ensures RestructureConfig(text, isMapping) == Some(out) ==>
              Ordered(ReadAll(Split(text).lines)).Some? &&
              (LayoutMatches(out, isMapping) <==>
               Declines(out, isMapping) || !HasLooseEnd(Ordered(ReadAll(Split(text).lines)).value.blocks))
  {
    hide *;
    if RestructureConfig(text, isMapping) == Some(out) {
      var d := Split(text);
      var lines := ReadAll(d.lines);
      RestructuredIs(text, isMapping, out);
      var s := Ordered(lines).value;
      ReadAllIsFaithful(text);
      OrderedIsCanonical(lines);
      AssembledIsFaithful(lines);
      TwoPasses(s, d.crlf, d.ends, isMapping);
    }
  }

  /** The shapes the restructurer does not touch, before it looks at lines. */
  predicate Declines(text: string, isMapping: string -> bool) {
    !isMapping(text) || StartsWith(TrimStart(text), '{')
  }

  lemma DeclinedMatches(text: string, isMapping: string -> bool)
    requires Declines(text, isMapping)
    ensures LayoutMatches(text, isMapping)
  {
  }

  lemma TwoPasses(s: Segments, crlf: bool, ends: bool, isMapping: string -> bool)
    requires Canonical(s) && Faithful(Assemble(s))
    ensures var out := Unsplit(Doc(Texts(Assemble(s)), crlf, ends));
            LayoutMatches(out, isMapping) <==> Declines(out, isMapping) || !HasLooseEnd(s.blocks)
  {
    hide Assemble, HasLooseEnd, Faithful, Unsplit, Texts, BlanksDropped, RestructureLines, StartsWith, TrimStart,
         Lines, Split, ReadAll;
    var once, twice := Assemble(s), Assemble(Next(s));
    var out := Unsplit(Doc(Texts(once), crlf, ends));
    EndsWell(s);
    NextIsCanonical(s);
    EndsWell(Next(s));
    NextOnlyDropsBlanks(s);
    DroppedIsFaithful(once, twice);
    WrittenReadsBack(once, crlf, ends);
    SecondPass(s);
    if Declines(out, isMapping) { DeclinedMatches(out, isMapping); } else { RestructureOfText(out, isMapping, twice); }
    SameTextIffSameLines(once, twice, crlf, ends);
    FixpointIffNoLooseEnd(s);
  }
}
