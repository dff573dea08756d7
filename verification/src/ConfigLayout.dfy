/**
 The config restructurer: strip the module's own banners, cut the lines into top-level blocks,
 put the blocks in section order, and write them out under fresh banners.
 */
module ConfigLayout {
  import opened Prelude
  import opened Text
  import opened Sorting

  const BANNER_WIDTH: nat := 60
  const SYSTEM_MANAGED_NOTE := "# Managed by OneBrain \U{2014} do not edit."

  datatype Section = Section(title: string, keys: seq<string>)

  const SECTIONS: seq<Section> := [
    Section("General", ["update_channel"]),
    Section("Vault layout", ["folders"]),
    Section("Agent behavior", ["checkpoint", "recap"]),
    Section("Search", ["search"]),
    Section("Token optimization", ["token_optimization"]),
    Section("Automation", ["schedule", "notifications"]),
    Section("System", ["stats"])
  ]

  const SYSTEM_SECTION: nat := 6

  function Repeat(c: char, n: nat): string {
    if n == 0 then "" else [c] + Repeat(c, n - 1)
  }

  function SectionBanner(title: string): string {
    var prefix := "# \U{2500}\U{2500} " + title + " ";
    prefix + Repeat('\U{2500}', Max(BANNER_WIDTH - |prefix|, 1))
  }

  /** Exactly one of the banners this module writes, at any indentation. */
  predicate IsBannerLine(l: string) {
    exists i :: 0 <= i < |SECTIONS| && TrimStart(l) == SectionBanner(SECTIONS[i].title)
  }

  predicate IsManagedNote(l: string) {
    Trim(l) == SYSTEM_MANAGED_NOTE
  }

  predicate IsStructural(l: string) {
    IsBannerLine(l) || IsManagedNote(l)
  }

  /** An unindented line that is no comment and no list item, up to its first colon. */
  function TopLevelKey(l: string): Option<string> {
    if IsBlank(l) || IsComment(l) || LeadLen(l) != 0 || StartsWith(l, '-') then None
    else
      var key := TrimEnd(l[..IndexOf(l, ':')]);
      if key == "" then None else Some(key)
  }

  function KeyPosition(keys: seq<string>, key: string): (i: nat)
    ensures i <= |keys|
    ensures i < |keys| ==> keys[i] == key
  {
    if keys == [] || keys[0] == key then 0 else 1 + KeyPosition(keys[1..], key)
  }

  function SectionFrom(si: nat, key: string): (r: Option<(nat, nat)>)
    requires si <= |SECTIONS|
    ensures r.Some? ==> si <= r.value.0 < |SECTIONS| && r.value.1 < |SECTIONS[r.value.0].keys|
    ensures r.Some? ==> SECTIONS[r.value.0].keys[r.value.1] == key
    decreases |SECTIONS| - si
  {
    if si == |SECTIONS| then None
    else
      var ki := KeyPosition(SECTIONS[si].keys, key);
      if ki < |SECTIONS[si].keys| then Some((si, ki)) else SectionFrom(si + 1, key)
  }

  function SectionOf(key: string): (r: Option<(nat, nat)>)
    ensures r.Some? ==> r.value.0 < |SECTIONS| && r.value.1 < |SECTIONS[r.value.0].keys|
    ensures r.Some? ==> SECTIONS[r.value.0].keys[r.value.1] == key
  {
    SectionFrom(0, key)
  }

  /** Where a key belongs: its section and its position there, if any section lists it. */
  datatype Place = Unknown | Known(section: SectionNumber, within: nat)

  type SectionNumber = i: nat | i < 7

  function PlaceOf(key: string): Place {
    match SectionOf(key)
    case None => Unknown
    case Some((si, ki)) => Known(si, ki)
  }

  /** Everything the restructurer asks of a line. */
  datatype Kind = Structural | Blank | Comment | Key(key: string, place: Place) | Other

  function KindOf(l: string): Kind {
    if IsStructural(l) then Structural
    else if IsBlank(l) then Blank
    else if IsComment(l) then Comment
    else
      match TopLevelKey(l)
      case None => Other
      case Some(key) => Key(key, PlaceOf(key))
  }

  datatype Line = Line(text: string, kind: Kind)

  function Read(text: string): Line {
    Line(text, KindOf(text))
  }

  function ReadAll(texts: seq<string>): seq<Line> {
    seq(|texts|, i requires 0 <= i < |texts| => Read(texts[i]))
  }

  function Texts(lines: seq<Line>): seq<string> {
    seq(|lines|, i requires 0 <= i < |lines| => lines[i].text)
  }

  const BLANK_LINE := Line("", Blank)
  const NOTE_LINE := Line(SYSTEM_MANAGED_NOTE, Structural)

  function BannerLine(section: SectionNumber): Line {
    Line(SectionBanner(SECTIONS[section].title), Structural)
  }

  datatype Block = Block(key: string, place: Place, lines: seq<Line>)

  /** The section a block is written under; `None` for a key no section lists. */
  function SectionIndex(b: Block): Option<SectionNumber> {
    if b.place.Known? then Some(b.place.section) else None
  }

  // ---- cutting into blocks ----

  /** The first key line at or after `from`. */
  function FirstKey(lines: seq<Line>, from: nat): (k: nat)
    requires from <= |lines|
    ensures from <= k <= |lines|
    ensures k < |lines| ==> lines[k].kind.Key?
    decreases |lines| - from
  {
    if from == |lines| || lines[from].kind.Key? then from else FirstKey(lines, from + 1)
  }

  /** The top of the comment lines directly above `k`. */
  function LeadStart(lines: seq<Line>, k: nat): (s: nat)
    requires k <= |lines|
    ensures s <= k
  {
    if k > 0 && lines[k - 1].kind.Comment? then LeadStart(lines, k - 1) else k
  }

  /** The end of `lines[start..end]` without its trailing blanks; at least one line stays. */
  function TrimmedEnd(lines: seq<Line>, start: nat, end: nat): (e: nat)
    requires start < end <= |lines|
    ensures start < e <= end
  {
    if end > start + 1 && lines[end - 1].kind.Blank? then TrimmedEnd(lines, start, end - 1) else end
  }

  function BlockEnd(lines: seq<Line>, k: nat): (end: nat)
    requires k < |lines| && lines[k].kind.Key?
    ensures k < end <= |lines|
  {
    var next := FirstKey(lines, k + 1);
    if next < |lines| then LeadStartStops(lines, k, next); LeadStart(lines, next) else |lines|
  }

  /** Lead comments never reach back over a line that is none. */
  lemma {:induction false} LeadStartStops(lines: seq<Line>, k: nat, next: nat)
    requires k < next <= |lines| && !lines[k].kind.Comment?
    ensures k < LeadStart(lines, next)
    decreases next
  {
    if next > k + 1 && lines[next - 1].kind.Comment? {
      LeadStartStops(lines, k, next - 1);
    }
  }

  /** The block of the key line `k`. */
  function BlockAt(lines: seq<Line>, k: nat): Block
    requires k < |lines| && lines[k].kind.Key?
  {
    var start := LeadStart(lines, k);
    Block(lines[k].kind.key, lines[k].kind.place, lines[start..TrimmedEnd(lines, start, BlockEnd(lines, k))])
  }

  /** The blocks of the key line `k` and of all key lines below it. */
  function BlocksFrom(lines: seq<Line>, k: nat): seq<Block>
    requires k < |lines| && lines[k].kind.Key?
    decreases |lines| - k
  {
    var next := FirstKey(lines, k + 1);
    [BlockAt(lines, k)] + if next < |lines| then BlocksFrom(lines, next) else []
  }

  datatype Segments = Segments(preamble: seq<Line>, blocks: seq<Block>)

  function Segment(lines: seq<Line>): Option<Segments> {
    var first := FirstKey(lines, 0);
    if first == |lines| then None
    else Some(Segments(lines[..LeadStart(lines, first)], BlocksFrom(lines, first)))
  }

  // ---- ordering ----

  predicate IsSystem(b: Block) {
    SectionIndex(b) == Some(SYSTEM_SECTION)
  }

  predicate IsKnown(b: Block) {
    SectionIndex(b).Some? && !IsSystem(b)
  }

  predicate IsUnknown(b: Block) {
    SectionIndex(b).None?
  }

  /** Known keys, then unknown keys, then the system section. */
  function Group(b: Block): nat {
    if IsKnown(b) then 0 else if IsUnknown(b) then 1 else 2
  }

  /** Groups in turn; known keys by section and by position in it. */
  predicate SectionOrder(a: Block, b: Block) {
    if Group(a) != Group(b) then Group(a) < Group(b)
    else Group(a) == 0 ==>
      a.place.section < b.place.section || (a.place.section == b.place.section && a.place.within <= b.place.within)
  }

  /** Three buckets: known blocks sorted, unknown blocks as they came, system blocks last. */
  function Reorder(blocks: seq<Block>): seq<Block> {
    StableSort(Filter(IsKnown, blocks), SectionOrder) + Filter(IsUnknown, blocks) + Filter(IsSystem, blocks)
  }

  // ---- writing out ----

  function TrimTail(lines: seq<Line>): (r: seq<Line>)
    ensures |r| <= |lines| && r == lines[..|r|]
  {
    if lines != [] && lines[|lines| - 1].kind.Blank? then TrimTail(lines[..|lines| - 1]) else lines
  }

  function Banner(section: Option<SectionNumber>): seq<Line>
  {
    match section
    case None => []
    case Some(si) =>
      [BannerLine(si)] + if si == SYSTEM_SECTION then [NOTE_LINE] else []
  }

  /** `prev` is `None` before the first block, then the section of the block before. */
  function Separator(section: Option<SectionNumber>, prev: Option<Option<SectionNumber>>, emitted: bool): seq<Line>
  {
    if prev == Some(section) then [] else (if emitted then [BLANK_LINE] else []) + Banner(section)
  }

  function Emit(blocks: seq<Block>, prev: Option<Option<SectionNumber>>, emitted: bool): seq<Line> {
    if blocks == [] then []
    else
      var section := SectionIndex(blocks[0]);
      Separator(section, prev, emitted) + blocks[0].lines + Emit(blocks[1..], Some(section), true)
  }

  function Assemble(s: Segments): seq<Line> {
    var head := TrimTail(s.preamble);
    head + Emit(s.blocks, None, head != [])
  }

  predicate IsContent(l: Line) {
    !l.kind.Structural?
  }

  function Clean(lines: seq<Line>): seq<Line> {
    Filter(IsContent, lines)
  }

  /** The ordered segments of a text's lines. */
  function Ordered(lines: seq<Line>): Option<Segments> {
    match Segment(Clean(lines))
    case None => None
    case Some(s) => Some(s.(blocks := Reorder(s.blocks)))
  }

  function RestructureLines(lines: seq<Line>): Option<seq<Line>> {
    match Ordered(lines)
    case None => None
    case Some(s) => Some(Assemble(s))
  }

  /** `isMapping` is the YAML parser's verdict on the whole text. */
  function RestructureConfig(text: string, isMapping: string -> bool): Option<string> {
    if !isMapping(text) || StartsWith(TrimStart(text), '{') then None
    else
      var d := Split(text);
      match RestructureLines(ReadAll(d.lines))
      case None => None
      case Some(lines) => Some(Unsplit(d.(lines := Texts(lines))))
  }

  predicate LayoutMatches(text: string, isMapping: string -> bool) {
    match RestructureConfig(text, isMapping)
    case None => true
    case Some(out) => out == text
  }

  // ---- the loops ----

  method FindLeadStart(lines: seq<Line>, k: nat) returns (s: nat)
    requires k <= |lines|
    ensures s == LeadStart(lines, k)
  {
    s := k;
    while s > 0 && lines[s - 1].kind.Comment?
      invariant s <= k && LeadStart(lines, s) == LeadStart(lines, k)
    {
      s := s - 1;
    }
  }

  /** `keys[n]` is a key line and the next entry, or `end`, is the first key line after it. */
  ghost predicate KeyLink(lines: seq<Line>, keys: seq<nat>, end: nat, n: nat)
    requires n < |keys|
  {
    && keys[n] < |lines| && lines[keys[n]].kind.Key?
    && FirstKey(lines, keys[n] + 1) == if n + 1 < |keys| then keys[n + 1] else end
  }

  ghost predicate AreKeys(lines: seq<Line>, keys: seq<nat>, end: nat) {
    && (FirstKey(lines, 0) == if keys == [] then end else keys[0])
    && forall n :: 0 <= n < |keys| ==> KeyLink(lines, keys, end, n)
  }

  lemma KeyFound(lines: seq<Line>, keys: seq<nat>, i: nat)
    requires i < |lines| && lines[i].kind.Key? && AreKeys(lines, keys, i)
    ensures AreKeys(lines, keys + [i], FirstKey(lines, i + 1))
  {
    var more, end := keys + [i], FirstKey(lines, i + 1);
    forall n | 0 <= n < |more|
      ensures KeyLink(lines, more, end, n)
    {
      assert n < |keys| ==> KeyLink(lines, keys, i, n);
    }
  }

  method FindKeys(lines: seq<Line>) returns (keys: seq<nat>)
    ensures AreKeys(lines, keys, |lines|)
  {
    keys := [];
    for i := 0 to |lines|
      invariant AreKeys(lines, keys, FirstKey(lines, i))
    {
      if lines[i].kind.Key? {
        KeyFound(lines, keys, i);
        keys := keys + [i];
      }
    }
  }

  /** The block of `keys[n]` ends where the next one's lead comments start. */
  method CutBlock(lines: seq<Line>, keys: seq<nat>, n: nat) returns (block: Block)
    requires n < |keys| && AreKeys(lines, keys, |lines|)
    ensures keys[n] < |lines| && lines[keys[n]].kind.Key? && block == BlockAt(lines, keys[n])
  {
    assert KeyLink(lines, keys, |lines|, n);
    var start := FindLeadStart(lines, keys[n]);
    var end := |lines|;
    if n + 1 < |keys| {
      assert KeyLink(lines, keys, |lines|, n + 1);
      LeadStartStops(lines, keys[n], keys[n + 1]);
      end := FindLeadStart(lines, keys[n + 1]);
    }
    var blockEnd := end;
    while blockEnd > start + 1 && lines[blockEnd - 1].kind.Blank?
      invariant start < blockEnd <= end
      invariant TrimmedEnd(lines, start, blockEnd) == TrimmedEnd(lines, start, end)
    {
      blockEnd := blockEnd - 1;
    }
    block := Block(lines[keys[n]].kind.key, lines[keys[n]].kind.place, lines[start..blockEnd]);
  }

  /** The blocks still to be cut when `n` are done. */
  ghost function BlocksLeft(lines: seq<Line>, keys: seq<nat>, n: nat): seq<Block>
    requires AreKeys(lines, keys, |lines|)
  {
    if n < |keys| then
      assert KeyLink(lines, keys, |lines|, n);
      BlocksFrom(lines, keys[n])
    else
      []
  }

  lemma BlocksLeftStep(lines: seq<Line>, keys: seq<nat>, n: nat)
    requires AreKeys(lines, keys, |lines|) && n < |keys|
    ensures KeyLink(lines, keys, |lines|, n)
    ensures BlocksLeft(lines, keys, n) == [BlockAt(lines, keys[n])] + BlocksLeft(lines, keys, n + 1)
  {
    assert KeyLink(lines, keys, |lines|, n);
  }

  method SegmentLines(lines: seq<Line>) returns (r: Option<Segments>)
    ensures r == Segment(lines)
  {
    var keys := FindKeys(lines);
    if keys == [] { return None; }
    assert KeyLink(lines, keys, |lines|, 0);
    var preambleEnd := FindLeadStart(lines, keys[0]);
    var blocks: seq<Block> := [];
    for n := 0 to |keys|
      invariant blocks + BlocksLeft(lines, keys, n) == BlocksLeft(lines, keys, 0)
    {
      BlocksLeftStep(lines, keys, n);
      var block := CutBlock(lines, keys, n);
      blocks := blocks + [block];
    }
    assert blocks == BlocksFrom(lines, keys[0]);
    return Some(Segments(lines[..preambleEnd], blocks));
  }

  method ReorderBlocks(blocks: seq<Block>) returns (out: seq<Block>)
    ensures out == Reorder(blocks)
  {
    var known, unknown, system := [], [], [];
    for i := 0 to |blocks|
      invariant known == Filter(IsKnown, blocks[..i])
      invariant unknown == Filter(IsUnknown, blocks[..i])
      invariant system == Filter(IsSystem, blocks[..i])
    {
      FilterSnoc(IsKnown, blocks, i);
      FilterSnoc(IsUnknown, blocks, i);
      FilterSnoc(IsSystem, blocks, i);
      match blocks[i].place {
        case Unknown => unknown := unknown + [blocks[i]];
        case Known(si, _) =>
          if si == SYSTEM_SECTION {
            system := system + [blocks[i]];
          } else {
            known := known + [blocks[i]];
          }
      }
    }
    assert blocks[..|blocks|] == blocks;
    out := StableSort(known, SectionOrder) + unknown + system;
  }

  method WriteSeparator(section: Option<SectionNumber>, prev: Option<Option<SectionNumber>>, emitted: bool)
      returns (out: seq<Line>)
    ensures out == Separator(section, prev, emitted)
  {
    out := [];
    if prev != Some(section) {
      if emitted {
        out := out + [BLANK_LINE];
      }
      if section.Some? {
        out := out + [BannerLine(section.value)];
        if section.value == SYSTEM_SECTION {
          out := out + [NOTE_LINE];
        }
      }
    }
  }

  method TrimPreamble(preamble: seq<Line>) returns (head: seq<Line>)
    ensures head == TrimTail(preamble)
  {
    var end: nat := |preamble|;
    assert preamble[..end] == preamble;
    while end > 0 && preamble[end - 1].kind.Blank?
      invariant end <= |preamble| && TrimTail(preamble[..end]) == TrimTail(preamble)
    {
      assert preamble[..end][..end - 1] == preamble[..end - 1];
      end := end - 1;
    }
    head := preamble[..end];
  }

  method AssembleBlocks(s: Segments) returns (out: seq<Line>)
    ensures out == Assemble(s)
  {
    out := TrimPreamble(s.preamble);
    var emittedAny := out != [];
    var prev: Option<Option<SectionNumber>> := None;
    ghost var all := out + Emit(s.blocks, prev, emittedAny);
    assert s.blocks[0..] == s.blocks;
    EmitNothing(s.blocks);
    hide Emit, Assemble, Separator, SectionIndex;
    for i := 0 to |s.blocks|
      invariant out + Emit(s.blocks[i..], prev, emittedAny) == all
    {
      var block := s.blocks[i];
      var section := SectionIndex(block);
      var separator := WriteSeparator(section, prev, emittedAny);
      EmitStep(out, s.blocks, i, prev, emittedAny);
      out, prev, emittedAny := out + separator + block.lines, Some(section), true;
    }
  }

  lemma EmitNothing(blocks: seq<Block>)
    ensures forall prev, emitted :: Emit(blocks[|blocks|..], prev, emitted) == []
  {
  }

  lemma EmitStep(out: seq<Line>, blocks: seq<Block>, i: nat, prev: Option<Option<SectionNumber>>, emitted: bool)
    requires i < |blocks|
    ensures var section := SectionIndex(blocks[i]);
            out + Emit(blocks[i..], prev, emitted) ==
            out + Separator(section, prev, emitted) + blocks[i].lines + Emit(blocks[i + 1..], Some(section), true)
  {
    hide Separator, SectionIndex;
    assert blocks[i..][1..] == blocks[i + 1..];
    var section := SectionIndex(blocks[i]);
    Regroup(out, Separator(section, prev, emitted), blocks[i].lines, Emit(blocks[i + 1..], Some(section), true));
  }
}
