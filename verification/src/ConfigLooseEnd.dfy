/** A file whose first pass is not final: idempotence does fail. */
module ConfigLooseEnd {
  import opened Prelude
  import opened Text
  import opened Sorting
  import opened ConfigLayout
  import opened ConfigFixpoint
  import opened ConfigTexts

  const CHECKPOINT := Line("checkpoint:", Key("checkpoint", Known(2, 0)))
  const RECAP := Line("recap:", Key("recap", Known(2, 1)))
  const NOTE := Line("# c", Comment)

  /** A comment between two keys of one section, apart from both by a blank line. */
  const LOOSE: seq<Line> := [CHECKPOINT, BLANK_LINE, NOTE, BLANK_LINE, RECAP]

  const LOOSE_TEXTS: seq<string> := ["checkpoint:", "", "# c", "", "recap:"]

  const LOOSE_TEXT := Unsplit(Doc(LOOSE_TEXTS, false, true))

  const LOOSE_BLOCKS: seq<Block> := [
    Block("checkpoint", Known(2, 0), [CHECKPOINT, BLANK_LINE, NOTE]),
    Block("recap", Known(2, 1), [RECAP])
  ]

  // ---- reading it ----

  lemma BannerStart(title: string)
    ensures var banner := SectionBanner(title); |banner| > 2 && banner[0] == '#' && banner[2] == '\U{2500}'
  {
    hide Repeat;
    var prefix := "# \U{2500}\U{2500} " + title + " ";
    assert prefix[0] == '#' && prefix[2] == '\U{2500}';
  }

  lemma NotABanner(l: string, title: string)
    requires l == "" || l[0] != '#' || (|l| > 2 && l[2] == 'c')
    ensures l != SectionBanner(title)
  {
    BannerStart(title);
    hide SectionBanner;
  }

  lemma NoBanner(l: string)
    requires TrimStart(l) == l && (l == "" || l[0] != '#' || (|l| > 2 && l[2] == 'c'))
    ensures !IsBannerLine(l)
  {
    hide SectionBanner, TrimStart, SECTIONS;
    forall i | 0 <= i < |SECTIONS|
      ensures TrimStart(l) != SectionBanner(SECTIONS[i].title)
    {
      NotABanner(l, SECTIONS[i].title);
    }
  }

  lemma NoNote(l: string)
    requires l == "" || (!IsWhite(l[0]) && !IsWhite(l[|l| - 1]) && |l| < 20)
    ensures !IsManagedNote(l)
  {
    assert TrimEnd(l) == l && Trim(l) == l;
  }

  lemma ColonLast(key: string)
    requires ':' !in key
    ensures IndexOf(key + ":", ':') == |key|
  {
    assert forall k :: 0 <= k < |key| ==> (key + ":")[k] in key;
    assert (key + ":")[|key|] == ':';
  }

  lemma KeyLine(key: string)
    requires 0 < |key| < 15 && ':' !in key && !IsWhite(key[0]) && !IsWhite(key[|key| - 1]) && key[0] != '#'
    ensures TrimStart(key + ":") == key + ":" && Trim(key + ":") == key + ":"
    ensures key[0] != '-' ==> TopLevelKey(key + ":") == Some(key)
  {
    var l := key + ":";
    assert l[0] == key[0];
    TrimmedAlready(l);
    TrimmedAlready(key);
    ColonLast(key);
    assert l[..|key|] == key;
    hide TrimStart, TrimEnd, IndexOf, IsWhite;
    assert LeadLen(l) == 0 && Trim(l) == l && !StartsWith(l, '#');
  }

  predicate IsShortKey(key: string) {
    0 < |key| < 15 && ':' !in key && !IsWhite(key[0]) && !IsWhite(key[|key| - 1]) && key[0] != '#' && key[0] != '-'
  }

  lemma ShortKeys()
    ensures IsShortKey("checkpoint") && IsShortKey("recap")
    ensures "checkpoint" + ":" == "checkpoint:" && "recap" + ":" == "recap:"
  {
  }

  lemma ReadKey(key: string)
    requires IsShortKey(key)
    ensures Read(key + ":") == Line(key + ":", Key(key, PlaceOf(key)))
  {
    var l := key + ":";
    KeyLine(key);
    assert l[0] == key[0];
    NoBanner(l);
    NoNote(l);
    hide IsBannerLine, IsManagedNote, TopLevelKey, TrimStart, Trim, PlaceOf;
  }

  lemma ReadBlank()
    ensures Read("") == BLANK_LINE
  {
    NoBanner("");
    NoNote("");
  }

  lemma ReadNote()
    ensures Read("# c") == NOTE
  {
    var l := "# c";
    TrimmedAlready(l);
    NoBanner(l);
    NoNote(l);
    hide IsStructural, TrimStart, Trim;
  }

  lemma Places()
    ensures PlaceOf("checkpoint") == Known(2, 0) && PlaceOf("recap") == Known(2, 1)
  {
    NotThere(0, "checkpoint");
    NotThere(1, "checkpoint");
    NotThere(0, "recap");
    NotThere(1, "recap");
    assert KeyPosition(SECTIONS[2].keys, "checkpoint") == 0;
    assert SECTIONS[2].keys[0] != "recap" && SECTIONS[2].keys[1..] == ["recap"];
    assert KeyPosition(SECTIONS[2].keys, "recap") == 1;
  }

  lemma NotThere(si: nat, key: string)
    requires si < 2 && key in ["checkpoint", "recap"]
    ensures KeyPosition(SECTIONS[si].keys, key) == |SECTIONS[si].keys|
  {
  }

  lemma ReadKeys()
    ensures Read("checkpoint:") == CHECKPOINT && Read("recap:") == RECAP
  {
    ShortKeys();
    Places();
    hide IsShortKey, Read, KindOf, PlaceOf, SectionOf, SectionFrom, KeyPosition;
    ReadKey("checkpoint");
    ReadKey("recap");
  }

  lemma ReadsAre(texts: seq<string>, lines: seq<Line>)
    requires |texts| == |lines| && forall i :: 0 <= i < |texts| ==> Read(texts[i]) == lines[i]
    ensures ReadAll(texts) == lines
  {
  }

  lemma ReadLoose()
    ensures ReadAll(LOOSE_TEXTS) == LOOSE
  {
    ReadKeys();
    ReadBlank();
    ReadNote();
    hide Read, ReadAll, KindOf;
    ReadsAre(LOOSE_TEXTS, LOOSE);
  }

  // ---- cutting and ordering it ----

  lemma LooseKeys()
    ensures FirstKey(LOOSE, 0) == 0 && FirstKey(LOOSE, 1) == 4 && FirstKey(LOOSE, 5) == 5
  {
    assert FirstKey(LOOSE, 4) == 4 && FirstKey(LOOSE, 3) == 4 && FirstKey(LOOSE, 2) == 4;
  }

  lemma LooseCut()
    ensures Segment(LOOSE) == Some(Segments([], LOOSE_BLOCKS))
  {
    LooseKeys();
    hide FirstKey;
    assert LeadStart(LOOSE, 0) == 0 && LeadStart(LOOSE, 4) == 4;
    assert TrimmedEnd(LOOSE, 0, 4) == 3 && TrimmedEnd(LOOSE, 4, 5) == 5;
    assert BlockAt(LOOSE, 0) == LOOSE_BLOCKS[0] && BlockAt(LOOSE, 4) == LOOSE_BLOCKS[1];
    assert BlocksFrom(LOOSE, 4) == [LOOSE_BLOCKS[1]];
    assert BlocksFrom(LOOSE, 0) == LOOSE_BLOCKS;
    assert LOOSE[..0] == [];
  }

  lemma LooseOrder()
    ensures Clean(LOOSE) == LOOSE && Reorder(LOOSE_BLOCKS) == LOOSE_BLOCKS
  {
    hide Filter, StableSort;
    FilterAll(IsContent, LOOSE);
    FilterAll(IsKnown, LOOSE_BLOCKS);
    FilterNone(IsUnknown, LOOSE_BLOCKS);
    FilterNone(IsSystem, LOOSE_BLOCKS);
    assert Sorted(LOOSE_BLOCKS, SectionOrder);
    SortOfSorted(LOOSE_BLOCKS, SectionOrder);
  }

  lemma LooseEndThere()
    ensures HasLooseEnd(LOOSE_BLOCKS)
  {
    var b := LOOSE_BLOCKS[0];
    assert LeadStart(b.lines, 3) == 2;
    assert b.lines[..2] == [CHECKPOINT, BLANK_LINE] && b.lines[..2][..1] == [CHECKPOINT];
    assert TrimTail(b.lines[..2]) == [CHECKPOINT];
    assert LooseEnd(LOOSE_BLOCKS, 0);
  }

  lemma LooseIsOrdered()
    ensures Ordered(LOOSE) == Some(Segments([], LOOSE_BLOCKS)) && HasLooseEnd(LOOSE_BLOCKS)
  {
    LooseCut();
    LooseOrder();
    LooseEndThere();
    hide Segment, Clean, Reorder, HasLooseEnd;
  }

  // ---- the whole text ----

  lemma LooseReadsBack()
    ensures NoLoneCr(LOOSE_TEXT) && Split(LOOSE_TEXT).lines == LOOSE_TEXTS
  {
    NoCrInside(LOOSE_TEXTS);
    hide Lines, ContainsCrlf, EndsWithNewline, Join;
    SplitUnsplit(Doc(LOOSE_TEXTS, false, true));
  }

  lemma {:induction false} NoCrInside(lines: seq<string>)
    requires forall l :: l in lines ==> '\r' !in l
    ensures '\r' !in Join(lines, "\n")
  {
    if |lines| > 1 {
      NoCrInside(lines[1..]);
    }
  }

  /** What the fixer writes starts with a banner, so it is not taken for flow style. */
  lemma StartsWithBanner(d: Doc)
    requires d.lines != [] && d.lines[0] != "" && d.lines[0][0] == '#'
    ensures !StartsWith(TrimStart(Unsplit(d)), '{')
  {
    assert Unsplit(d)[0] == '#';
  }

  lemma LooseIsWritten() returns (lines: seq<Line>)
    ensures RestructureLines(LOOSE) == Some(lines) && lines != [] && lines[0] == BannerLine(2)
  {
    LooseIsOrdered();
    hide Ordered;
    lines := Assemble(Segments([], LOOSE_BLOCKS));
    assert TrimTail([]) == [];
    assert Separator(Some(2), None, false) == [BannerLine(2)];
  }

  lemma LooseIsNotFinal(isMapping: string -> bool, out: string)
    requires RestructureConfig(LOOSE_TEXT, isMapping) == Some(out) && !Declines(out, isMapping)
    ensures !LayoutMatches(out, isMapping)
  {
    LooseReadsBack();
    ReadLoose();
    LooseIsOrdered();
    hide RestructureConfig, LayoutMatches, Declines, Ordered, ReadAll, NoLoneCr, HasLooseEnd;
    RestructureIsIdempotentIff(LOOSE_TEXT, isMapping, out);
  }

  /** The fixer rewrites the file, and what it wrote is not canonical while the parser accepts it. */
  lemma OnePassIsNotEnough(isMapping: string -> bool) returns (out: string)
    requires isMapping(LOOSE_TEXT)
    ensures RestructureConfig(LOOSE_TEXT, isMapping) == Some(out)
    ensures isMapping(out) ==> !LayoutMatches(out, isMapping)
  {
    LooseReadsBack();
    ReadLoose();
    var lines := LooseIsWritten();
    BannerStart(SECTIONS[2].title);
    LooseIsPlainStart();
    hide ReadAll, RestructureLines, RestructureConfig, LayoutMatches, Unsplit, SectionBanner, TrimStart;
    var d := Split(LOOSE_TEXT).(lines := Texts(lines));
    out := Unsplit(d);
    RestructureOfText(LOOSE_TEXT, isMapping, lines);
    StartsWithBanner(d);
    if isMapping(out) { LooseIsNotFinal(isMapping, out); }
  }

  lemma LooseIsPlainStart()
    ensures !StartsWith(TrimStart(LOOSE_TEXT), '{')
  {
    assert LOOSE_TEXT[0] == 'c';
  }
}
