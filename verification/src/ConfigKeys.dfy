/** Which lines of a config file are keys, by their characters, and that what stands below a key stays there. */
module ConfigKeys {
  import opened Prelude
  import opened Text
  import opened ConfigLayout
  import opened ConfigFacts
  import opened ConfigTexts

  // ---- keys ----

  /** An unindented line, no comment and no list item, that starts with the key; behind it white space at most, and
      then the first colon or the end of the line. */
  ghost predicate SpellsAt(l: string, key: string, n: nat) {
    && key != "" && key <= l && |key| <= n <= |l|
    && !IsWhite(l[0]) && l[0] != '#' && l[0] != '-'
    && ':' !in key && !IsWhite(key[|key| - 1])
    && AllWhite(l[|key|..n]) && (n == |l| || l[n] == ':')
  }

  ghost predicate SpellsKey(l: string, key: string) {
    exists n: nat :: SpellsAt(l, key, n)
  }

  lemma ColonIsDark()
    ensures !IsWhite(':')
  {
  }

  lemma DarkStart(l: string)
    requires l != "" && !IsWhite(l[0])
    ensures TrimStart(l) == l && LeadLen(l) == 0 && !IsBlank(l)
  {
    hide IsWhite;
    BlankIsAllWhite(l);
  }

  lemma KeySpells(l: string, key: string)
    requires TopLevelKey(l) == Some(key)
    ensures SpellsKey(l, key)
  {
    hide IsWhite, TrimEnd, Trim;
    var n := IndexOf(l, ':');
    BlankIsAllWhite(l);
    TrimEndFacts(l[..n]);
    assert l[..n][|key|..] == l[|key|..n];
    assert TrimStart(l) == l;
    assert key[0] == l[0];
    assert key == l[..|key|];
    assert SpellsAt(l, key, n);
  }

  lemma {:induction false} FirstColon(l: string, n: nat)
    requires n <= |l| && (forall k :: 0 <= k < n ==> l[k] != ':') && (n < |l| ==> l[n] == ':')
    ensures IndexOf(l, ':') == n
  {
    if n > 0 {
      FirstColon(l[1..], n - 1);
    }
  }

  lemma SpelledIsKey(l: string, key: string)
    requires SpellsKey(l, key)
    ensures TopLevelKey(l) == Some(key)
  {
    hide IsWhite, TrimEnd, TrimStart, IsBlank;
    var n: nat :| SpellsAt(l, key, n);
    DarkStart(l);
    ColonIsDark();
    forall k | 0 <= k < n
      ensures l[k] != ':'
    {
      if k < |key| { assert l[k] == key[k] && key[k] in key; } else { assert l[k] == l[|key|..n][k - |key|]; }
    }
    FirstColon(l, n);
    assert forall k :: |key| <= k < n ==> l[..n][k] == l[|key|..n][k - |key|];
    assert l[..n][|key| - 1] == key[|key| - 1];
    TrimEndTo(l[..n], |key|);
    assert l[..n][..|key|] == key;
  }

  /** A line is a key line exactly when it is none of the module's own and spells a key. */
  lemma KeyLineIff(l: string, key: string)
    ensures (Read(l).kind.Key? && Read(l).kind.key == key) <==> !IsStructural(l) && SpellsKey(l, key)
    ensures Read(l).kind.Key? ==> Read(l).kind.place == PlaceOf(Read(l).kind.key)
  {
    hide IsStructural, SpellsKey, IsBlank, IsComment, LeadLen, PlaceOf;
    if TopLevelKey(l) == Some(key) { KeySpells(l, key); }
    if SpellsKey(l, key) {
      SpelledIsKey(l, key);
    }
  }

  ghost predicate SpellsSome(l: string) {
    exists key: string :: SpellsKey(l, key)
  }

  lemma IsKeyIff(l: string)
    ensures Read(l).kind.Key? <==> !IsStructural(l) && SpellsSome(l)
  {
    hide IsStructural, SpellsKey, Read;
    if Read(l).kind.Key? { KeyLineIff(l, Read(l).kind.key); }
    if !IsStructural(l) && SpellsSome(l) {
      var key: string :| SpellsKey(l, key);
      KeyLineIff(l, key);
    }
  }

  lemma SpelledIsDark(l: string)
    ensures SpellsSome(l) ==> l != "" && !IsWhite(l[0]) && l[0] != '#' && l[0] != '-'
  {
  }

  // ---- the module's own lines ----

  ghost predicate IsDashes(s: string) {
    s != "" && forall i :: 0 <= i < |s| ==> s[i] == '\U{2500}'
  }

  /** `# ── title ───`, sixty characters wide. */
  ghost predicate IsBanner(s: string, title: string) {
    exists dashes: string :: IsDashes(dashes) && s == "# \U{2500}\U{2500} " + title + " " + dashes && |s| == 60
  }

  lemma {:induction false} RepeatIs(c: char, n: nat)
    ensures |Repeat(c, n)| == n && forall i :: 0 <= i < n ==> Repeat(c, n)[i] == c
  {
    if n > 0 {
      RepeatIs(c, n - 1);
    }
  }

  lemma BannerIs(title: string)
    requires |title| <= 53
    ensures IsBanner(SectionBanner(title), title)
  {
    hide Repeat;
    var prefix := "# \U{2500}\U{2500} " + title + " ";
    assert |prefix| == |title| + 6;
    var dashes := Repeat('\U{2500}', 60 - |prefix|);
    RepeatIs('\U{2500}', 60 - |prefix|);
    assert IsDashes(dashes) && SectionBanner(title) == prefix + dashes;
  }

  lemma OneBanner(s: string, t: string, title: string)
    requires IsBanner(s, title) && IsBanner(t, title)
    ensures s == t
  {
    var a: string :| IsDashes(a) && s == "# \U{2500}\U{2500} " + title + " " + a && |s| == 60;
    var b: string :| IsDashes(b) && t == "# \U{2500}\U{2500} " + title + " " + b && |t| == 60;
    assert a == b;
  }

  lemma BannerIff(s: string, title: string)
    requires |title| <= 53
    ensures s == SectionBanner(title) <==> IsBanner(s, title)
  {
    hide SectionBanner;
    BannerIs(title);
    if IsBanner(s, title) { OneBanner(s, SectionBanner(title), title); }
  }

  const TITLES := ["General", "Vault layout", "Agent behavior", "Search", "Token optimization", "Automation", "System"]

  const KEYS := [
    ["update_channel"], ["folders"], ["checkpoint", "recap"], ["search"], ["token_optimization"],
    ["schedule", "notifications"], ["stats"]
  ]

  lemma SectionsAre()
    ensures |SECTIONS| == |TITLES| == |KEYS| == 7
    ensures forall i :: 0 <= i < 7 ==> SECTIONS[i] == Section(TITLES[i], KEYS[i])
  {
  }

  predicate IsAt(key: string, si: nat, ki: nat) {
    si < |KEYS| && ki < |KEYS[si]| && KEYS[si][ki] == key
  }

  lemma {:induction false} KeyPositionFirst(keys: seq<string>, key: string)
    ensures forall i :: 0 <= i < KeyPosition(keys, key) ==> keys[i] != key
  {
    if keys != [] && keys[0] != key {
      KeyPositionFirst(keys[1..], key);
      assert forall i :: 0 < i < |keys| ==> keys[i] == keys[1..][i - 1];
    }
  }

  lemma {:induction false} NotInSections(si: nat, key: string)
    requires si <= |SECTIONS| && SectionFrom(si, key).None?
    ensures forall s, k :: si <= s < |SECTIONS| && 0 <= k < |SECTIONS[s].keys| ==> SECTIONS[s].keys[k] != key
    decreases |SECTIONS| - si
  {
    hide SECTIONS, KeyPosition;
    if si < |SECTIONS| {
      KeyPositionFirst(SECTIONS[si].keys, key);
      NotInSections(si + 1, key);
    }
  }

  /** No key stands in two places, by its length or by its first letter. */
  lemma KeysDiffer(si: nat, ki: nat, sj: nat, kj: nat, key: string)
    requires IsAt(key, si, ki) && IsAt(key, sj, kj)
    ensures si == sj && ki == kj
  {
    KeyMarks(si, ki);
    KeyMarks(sj, kj);
  }

  lemma KeyMarks(si: nat, ki: nat)
    requires si < |KEYS| && ki < |KEYS[si]|
    ensures var key := KEYS[si][ki];
            && |key| == [[14], [7], [10, 5], [6], [18], [8, 13], [5]][si][ki]
            && key[0] == [['u'], ['f'], ['c', 'r'], ['s'], ['t'], ['s', 'n'], ['s']][si][ki]
  {
  }

  /** A key's place is where the list has it. */
  lemma PlaceIff(key: string, si: SectionNumber, ki: nat)
    ensures PlaceOf(key) == Known(si, ki) <==> IsAt(key, si, ki)
  {
    hide SECTIONS, KEYS, TITLES, KeyPosition, SectionFrom;
    SectionsAre();
    match SectionOf(key)
    case None => NotInSections(0, key);
    case Some((sj, kj)) => if IsAt(key, si, ki) { KeysDiffer(si, ki, sj, kj, key); }
  }

  /** A banner stands behind white space at most; the note also before some. */
  ghost predicate SpellsBanner(l: string, title: string) {
    exists i: nat :: i <= |l| && AllWhite(l[..i]) && IsBanner(l[i..], title)
  }

  const NOTE_TEXT := "# Managed by OneBrain \U{2014} do not edit."

  lemma BannerLineIff(l: string, title: string)
    requires |title| <= 53
    ensures TrimStart(l) == SectionBanner(title) <==> SpellsBanner(l, title)
  {
    hide IsWhite, TrimStart, SectionBanner, AllWhite;
    BannerIff(TrimStart(l), title);
    TrimStartFacts(l);
    if IsBanner(TrimStart(l), title) {
      assert l[|l| - |TrimStart(l)|..] == TrimStart(l);
    }
    if SpellsBanner(l, title) {
      var i: nat :| i <= |l| && AllWhite(l[..i]) && IsBanner(l[i..], title);
      BannerStarts(l, i, title);
    }
  }

  lemma BannerStarts(l: string, i: nat, title: string)
    requires i <= |l| && AllWhite(l[..i]) && IsBanner(l[i..], title)
    ensures TrimStart(l) == l[i..]
  {
    hide IsWhite, TrimStart;
    assert l[i..][0] == "# "[0] == '#';
    assert forall k :: 0 <= k < i ==> l[..i][k] == l[k];
    assert !IsWhite('#') by { HashIsDark(); }
    TrimStartFrom(l, i);
  }

  lemma HashIsDark()
    ensures !IsWhite('#')
  {
  }

  lemma ShortTitles()
    ensures forall i :: 0 <= i < |SECTIONS| ==> |SECTIONS[i].title| <= 53 && SECTIONS[i].title == TITLES[i]
    ensures |SECTIONS| == |TITLES|
  {
  }

  /** Exactly the lines that the restructurer writes itself, and drops before it reads. */
  lemma StructuralIff(l: string)
    ensures IsStructural(l) <==> (exists i :: 0 <= i < |TITLES| && SpellsBanner(l, TITLES[i])) || Trims(l, NOTE_TEXT)
  {
    hide TrimStart, Trim, SectionBanner, SpellsBanner, Trims, SECTIONS;
    TrimIff(l, NOTE_TEXT);
    ShortTitles();
    forall i | 0 <= i < |SECTIONS|
      ensures TrimStart(l) == SectionBanner(SECTIONS[i].title) <==> SpellsBanner(l, TITLES[i])
    {
      BannerLineIff(l, SECTIONS[i].title);
    }
  }

  // ---- the order of the blocks ----

  predicate IsStats(p: Place) {
    p.Known? && p.section == 6
  }

  /** Keys of the first six sections by section and by position in it, then keys that no section lists, then `stats`. */
  predicate ComesBefore(p: Place, q: Place) {
    && (p.Known? && q.Known? && !IsStats(p) && !IsStats(q) ==>
          p.section < q.section || (p.section == q.section && p.within <= q.within))
    && (p.Unknown? ==> q.Unknown? || IsStats(q))
    && (IsStats(p) ==> IsStats(q))
  }

  lemma BlocksComeInOrder(blocks: seq<Block>, i: nat, j: nat)
    requires i < j < |Reorder(blocks)|
    ensures ComesBefore(Reorder(blocks)[i].place, Reorder(blocks)[j].place)
  {
    hide Reorder;
    ReorderOrders(blocks);
    assert SectionOrder(Reorder(blocks)[i], Reorder(blocks)[j]);
  }

  // ---- what stands below a key ----

  ghost predicate IsInfix<T>(part: seq<T>, whole: seq<T>) {
    exists j: nat :: InfixAt(part, whole, j)
  }

  ghost predicate InfixAt<T>(part: seq<T>, whole: seq<T>, j: nat) {
    j + |part| <= |whole| && whole[j..j + |part|] == part
  }

  lemma SliceOfSlice<T>(s: seq<T>, n: nat, m: nat, i: nat, j: nat)
    requires n <= m <= |s| && i <= j <= m - n
    ensures s[n..m][i..j] == s[n + i..n + j]
  {
    assert |s[n..m][i..j]| == |s[n + i..n + j]|;
    forall k | 0 <= k < j - i
      ensures s[n..m][i..j][k] == s[n + i..n + j][k]
    {
      assert s[n..m][i + k] == s[n + (i + k)];
    }
  }

  lemma InfixInside<T>(a: seq<T>, i: nat, j: nat, whole: seq<T>)
    requires i <= j <= |a| && IsInfix(a, whole)
    ensures IsInfix(a[i..j], whole)
  {
    var n: nat :| InfixAt(a, whole, n);
    SliceOfSlice(whole, n, n + |a|, i, j);
    assert InfixAt(a[i..j], whole, n + i);
  }

  lemma InfixAround<T>(part: seq<T>, left: seq<T>, middle: seq<T>, right: seq<T>)
    requires IsInfix(part, middle)
    ensures IsInfix(part, left + middle + right)
  {
    var n: nat :| InfixAt(part, middle, n);
    assert InfixAt(part, left + middle + right, |left| + n);
  }

  lemma {:induction false} EmitHolds(blocks: seq<Block>, prev: Option<Option<SectionNumber>>, emitted: bool, b: Block)
    requires b in blocks
    ensures IsInfix(b.lines, Emit(blocks, prev, emitted))
  {
    hide Separator, IsInfix;
    var section := SectionIndex(blocks[0]);
    var separator, rest := Separator(section, prev, emitted), Emit(blocks[1..], Some(section), true);
    if b == blocks[0] {
      InfixOfItself(b.lines);
      InfixAround(b.lines, separator, b.lines, rest);
    } else {
      EmitHolds(blocks[1..], Some(section), true, b);
      InfixAround(b.lines, separator + blocks[0].lines, rest, []);
      assert separator + blocks[0].lines + rest + [] == separator + blocks[0].lines + rest;
    }
  }

  lemma InfixOfItself<T>(a: seq<T>)
    ensures IsInfix(a, a)
  {
    assert InfixAt(a, a, 0);
  }

  lemma {:induction false} BlockIsCut(lines: seq<Line>, first: nat, k: nat)
    requires first <= k < |lines| && lines[first].kind.Key? && lines[k].kind.Key?
    ensures BlockAt(lines, k) in BlocksFrom(lines, first)
    decreases k - first
  {
    hide BlockAt;
    if first < k {
      var next := FirstKey(lines, first + 1);
      FirstKeyFacts(lines, first + 1);
      BlockIsCut(lines, next, k);
    }
  }

  /** The comments right above a key belong to that key. */
  ghost predicate LeadsKey(lines: seq<Line>, i: nat) {
    exists n: nat :: i < n < |lines| && lines[n].kind.Key? && forall m :: i <= m < n ==> lines[m].kind.Comment?
  }

  /** Line `i` stands below the key line `k`, no other key between, and is neither blank nor the next key's comment. */
  ghost predicate StandsBelow(lines: seq<Line>, k: nat, i: nat) {
    && k < i < |lines| && lines[k].kind.Key? && (forall m :: k < m <= i ==> !lines[m].kind.Key?)
    && !lines[i].kind.Blank? && !LeadsKey(lines, i)
  }

  lemma EndsBelow(lines: seq<Line>, k: nat, i: nat)
    requires StandsBelow(lines, k, i)
    ensures i < BlockEnd(lines, k)
  {
    hide FirstKey, LeadStart;
    var next := FirstKey(lines, k + 1);
    if next < |lines| {
      LeadStartFacts(lines, next);
      LeadsOrStops(lines, i, next);
      KeyBetween(lines, k, i, next);
    }
  }

  lemma KeyBetween(lines: seq<Line>, k: nat, i: nat, next: nat)
    requires StandsBelow(lines, k, i) && k < next < |lines| && lines[next].kind.Key?
    ensures i < next
  {
  }

  lemma LeadsOrStops(lines: seq<Line>, i: nat, next: nat)
    requires i < |lines| && next < |lines| && lines[next].kind.Key? && !lines[i].kind.Key? && !LeadsKey(lines, i)
    requires forall m :: LeadStart(lines, next) <= m < next ==> lines[m].kind.Comment?
    ensures LeadStart(lines, next) <= i ==> next <= i
  {
  }

  lemma InBlock(lines: seq<Line>, k: nat, i: nat)
    requires StandsBelow(lines, k, i)
    ensures IsInfix(lines[k..i + 1], BlockAt(lines, k).lines)
  {
    hide FirstKey, BlockEnd, LeadStart, LeadsKey, IsInfix, TrimmedEnd;
    var start, end := LeadStart(lines, k), BlockEnd(lines, k);
    EndsBelow(lines, k, i);
    TrimmedEndFacts(lines, start, end);
    var e := TrimmedEnd(lines, start, end);
    assert i < e;
    SliceOfSlice(lines, start, e, k - start, i + 1 - start);
    InfixSlice(lines[start..e], k - start, i + 1 - start);
  }

  lemma InfixSlice<T>(a: seq<T>, i: nat, j: nat)
    requires i <= j <= |a|
    ensures IsInfix(a[i..j], a)
  {
    assert InfixAt(a[i..j], a, i);
  }

  /** Whatever the order of the blocks, what stands together in one of them stands together in the output. */
  lemma BlockStays(lines: seq<Line>, k: nat, part: seq<Line>)
    requires Ordered(lines).Some? && k < |Clean(lines)| && Clean(lines)[k].kind.Key?
    requires IsInfix(part, BlockAt(Clean(lines), k).lines)
    ensures IsInfix(part, Assemble(Ordered(lines).value))
  {
    hide IsInfix, BlockAt, Emit, Reorder, SectionOrder, TrimTail, LeadStart, BlocksFrom, FirstKey;
    var cleaned := Clean(lines);
    var first := FirstKey(cleaned, 0);
    FirstKeyFacts(cleaned, 0);
    BlockIsCut(cleaned, first, k);
    var b, blocks := BlockAt(cleaned, k), BlocksFrom(cleaned, first);
    var head := TrimTail(cleaned[..LeadStart(cleaned, first)]);
    ReorderOrders(blocks);
    assert b in multiset(blocks) && b in multiset(Reorder(blocks)) && b in Reorder(blocks);
    EmitHolds(Reorder(blocks), None, head != [], b);
    InfixOfInfix(part, b.lines, Emit(Reorder(blocks), None, head != []));
    InfixAround(part, head, Emit(Reorder(blocks), None, head != []), []);
    assert head + Emit(Reorder(blocks), None, head != []) + [] == Assemble(Ordered(lines).value);
  }

  lemma BelowStays(lines: seq<Line>, k: nat, i: nat)
    requires Ordered(lines).Some? && StandsBelow(Clean(lines), k, i)
    ensures IsInfix(Clean(lines)[k..i + 1], Assemble(Ordered(lines).value))
  {
    hide IsInfix, StandsBelow, Clean, Ordered, Assemble, BlockAt;
    KeyOf(Clean(lines), k, i);
    InBlock(Clean(lines), k, i);
    BlockStays(lines, k, Clean(lines)[k..i + 1]);
  }

  /** From line `i` on there is nothing but comments down to the key line `n`. */
  ghost predicate LeadsDownTo(lines: seq<Line>, i: nat, n: nat) {
    i <= n < |lines| && lines[n].kind.Key? && forall m :: i <= m < n ==> lines[m].kind.Comment?
  }

  lemma {:induction false} LeadReaches(lines: seq<Line>, i: nat, n: nat)
    requires i <= n <= |lines| && forall m :: i <= m < n ==> lines[m].kind.Comment?
    ensures LeadStart(lines, n) <= i
    decreases n
  {
    if i < n {
      LeadReaches(lines, i, n - 1);
    }
  }

  lemma LeadStays(lines: seq<Line>, i: nat, n: nat)
    requires Ordered(lines).Some? && LeadsDownTo(Clean(lines), i, n)
    ensures IsInfix(Clean(lines)[i..n + 1], Assemble(Ordered(lines).value))
  {
    hide IsInfix, Clean, Ordered, Assemble, BlockEnd, LeadStart, TrimmedEnd;
    var cleaned := Clean(lines);
    LeadReaches(cleaned, i, n);
    var start, end := LeadStart(cleaned, n), BlockEnd(cleaned, n);
    TrimmedEndFacts(cleaned, start, end);
    var e := TrimmedEnd(cleaned, start, end);
    assert n < e;
    SliceOfSlice(cleaned, start, e, i - start, n + 1 - start);
    InfixSlice(cleaned[start..e], i - start, n + 1 - start);
    BlockStays(lines, n, cleaned[i..n + 1]);
  }

  lemma KeyOf(lines: seq<Line>, k: nat, i: nat)
    requires StandsBelow(lines, k, i)
    ensures k < i < |lines| && lines[k].kind.Key?
  {
  }

  lemma InfixOfInfix<T>(a: seq<T>, b: seq<T>, c: seq<T>)
    requires IsInfix(a, b) && IsInfix(b, c)
    ensures IsInfix(a, c)
  {
    var i: nat :| InfixAt(a, b, i);
    InfixInside(b, i, i + |a|, c);
  }

  // ---- on whole texts ----

  /** The lines of a text that are not the restructurer's own. */
  function ContentLines(text: string): seq<string> {
    Texts(Clean(ReadAll(Lines(text))))
  }

  lemma {:induction false} ContentAre(texts: seq<string>)
    ensures forall l :: l in Clean(ReadAll(texts)) ==> l == Read(l.text) && !IsStructural(l.text)
  {
    hide KindOf, IsStructural;
    forall l | l in Clean(ReadAll(texts))
      ensures l == Read(l.text) && !IsStructural(l.text)
    {
      assert l in ReadAll(texts) && IsContent(l);
      ContentKind(l.text);
    }
  }

  lemma ContentKind(text: string)
    ensures Read(text).kind.Structural? <==> IsStructural(text)
    ensures !IsStructural(text) ==> (Read(text).kind.Blank? <==> IsBlank(text))
    ensures !IsStructural(text) && !IsBlank(text) ==> (Read(text).kind.Comment? <==> IsComment(text))
    ensures Read(text).kind.Blank? ==> IsBlank(text)
    ensures Read(text).kind.Comment? ==> IsComment(text)
  {
    hide IsStructural, IsBlank, IsComment, TopLevelKey;
  }

  lemma InfixOfTexts(part: seq<Line>, whole: seq<Line>)
    requires IsInfix(part, whole)
    ensures IsInfix(Texts(part), Texts(whole))
  {
    var j: nat :| InfixAt(part, whole, j);
    assert InfixAt(Texts(part), Texts(whole), j);
  }

  /** From line `i` on there is nothing but comments down to the next key. */
  ghost predicate LeadsNext(texts: seq<string>, i: nat) {
    exists n: nat :: i < n < |texts| && SpellsSome(texts[n]) && forall m :: i <= m < n ==> IsComment(texts[m])
  }

  lemma TextsStay(text: string, isMapping: string -> bool, out: string, i: nat, j: nat)
    requires NoLoneCr(text) && RestructureConfig(text, isMapping) == Some(out)
    requires var lines := ReadAll(Lines(text));
             i <= j <= |Clean(lines)| &&
             (Ordered(lines).Some? ==> IsInfix(Clean(lines)[i..j], Assemble(Ordered(lines).value)))
    ensures IsInfix(ContentLines(text)[i..j], Lines(out))
  {
    hide IsInfix, Lines, RestructureConfig, Ordered, Assemble, Unsplit, NoLoneCr, KindOf, Clean, Faithful;
    var lines := ReadAll(Split(text).lines);
    var cleaned := Clean(lines);
    RestructuredIs(text, isMapping, out);
    ReadAllIsFaithful(text);
    OrderedIsCanonical(lines);
    AssembledIsFaithful(lines);
    var s := Ordered(lines).value;
    EndsWell(s);
    WrittenReadsBack(Assemble(s), Split(text).crlf, Split(text).ends);
    InfixOfTexts(cleaned[i..j], Assemble(s));
    assert Texts(cleaned[i..j]) == ContentLines(text)[i..j];
  }

  /** On the characters of a file that is rewritten: every line that spells no key, is not blank and is none of the
      comments right above the next key stays below the last key above it, with all that stands between them. So
      does every indented line that is no comment. */
  lemma BelowKeyStays(text: string, isMapping: string -> bool, out: string, k: nat, i: nat)
    requires NoLoneCr(text) && RestructureConfig(text, isMapping) == Some(out)
    requires k < i < |ContentLines(text)| && SpellsSome(ContentLines(text)[k])
    requires forall m :: k < m <= i ==> !SpellsSome(ContentLines(text)[m])
    requires !IsBlank(ContentLines(text)[i]) && !LeadsNext(ContentLines(text), i)
    ensures IsInfix(ContentLines(text)[k..i + 1], Lines(out))
  {
    hide SpellsSome, IsInfix, Lines, RestructureConfig, Ordered, Assemble, NoLoneCr, KindOf, Clean, IsBlank, LeadsNext,
         StandsBelow;
    BelowIsBelow(Lines(text), k, i);
    if Ordered(ReadAll(Lines(text))).Some? {
      BelowStays(ReadAll(Lines(text)), k, i);
    }
    TextsStay(text, isMapping, out, k, i + 1);
  }

  /** And the comments right above a key, indented or not, stay right above it. */
  lemma CommentsStayAbove(text: string, isMapping: string -> bool, out: string, i: nat, n: nat)
    requires NoLoneCr(text) && RestructureConfig(text, isMapping) == Some(out)
    requires i <= n < |ContentLines(text)| && SpellsSome(ContentLines(text)[n])
    requires forall m :: i <= m < n ==> IsComment(ContentLines(text)[m])
    ensures IsInfix(ContentLines(text)[i..n + 1], Lines(out))
  {
    hide SpellsSome, IsInfix, Lines, RestructureConfig, Ordered, Assemble, NoLoneCr, KindOf, Clean, IsComment;
    LeadsOfTexts(Lines(text), i, n);
    if Ordered(ReadAll(Lines(text))).Some? {
      LeadStays(ReadAll(Lines(text)), i, n);
    }
    TextsStay(text, isMapping, out, i, n + 1);
  }

  lemma LeadsOfTexts(texts: seq<string>, i: nat, n: nat)
    requires var t := Texts(Clean(ReadAll(texts)));
             i <= n < |t| && SpellsSome(t[n]) && forall m :: i <= m < n ==> IsComment(t[m])
    ensures LeadsDownTo(Clean(ReadAll(texts)), i, n)
  {
    hide IsStructural, IsBlank, IsComment, SpellsSome, Clean, KindOf;
    var lines := Clean(ReadAll(texts));
    ContentAre(texts);
    assert lines[n] in lines;
    IsKeyIff(lines[n].text);
    forall m | i <= m < n
      ensures lines[m].kind.Comment?
    {
      assert lines[m] in lines && IsComment(Texts(lines)[m]);
      ContentKind(lines[m].text);
      CommentIsNotBlank(lines[m].text);
    }
  }

  /** An indented line spells no key, and unless it is a comment it leads none. */
  lemma IndentedIsBelow(texts: seq<string>, i: nat)
    requires i < |texts| && texts[i] != "" && IsWhite(texts[i][0])
    ensures !SpellsSome(texts[i]) && (!IsComment(texts[i]) ==> !LeadsNext(texts, i))
  {
    hide IsWhite, IsComment;
    SpelledIsDark(texts[i]);
  }

  lemma BelowIsBelow(texts: seq<string>, k: nat, i: nat)
    requires k < i < |Clean(ReadAll(texts))|
    requires var t := Texts(Clean(ReadAll(texts)));
             SpellsSome(t[k]) && (forall m :: k < m <= i ==> !SpellsSome(t[m])) && !IsBlank(t[i]) && !LeadsNext(t, i)
    ensures StandsBelow(Clean(ReadAll(texts)), k, i)
  {
    hide IsStructural, IsBlank, IsComment, SpellsSome, Clean, KindOf;
    var lines := Clean(ReadAll(texts));
    var t := Texts(lines);
    ContentAre(texts);
    forall m | 0 <= m < |lines|
      ensures lines[m].kind.Key? <==> SpellsSome(t[m])
      ensures lines[m].kind.Comment? ==> IsComment(t[m])
      ensures lines[m].kind.Blank? ==> IsBlank(t[m])
    {
      assert lines[m] in lines;
      IsKeyIff(lines[m].text);
      ContentKind(lines[m].text);
    }
    LeadsIsLeads(lines, t, i);
  }

  lemma LeadsIsLeads(lines: seq<Line>, t: seq<string>, i: nat)
    requires |t| == |lines|
    requires forall m :: 0 <= m < |lines| ==> (lines[m].kind.Key? ==> SpellsSome(t[m]))
    requires forall m :: 0 <= m < |lines| ==> (lines[m].kind.Comment? ==> IsComment(t[m]))
    ensures LeadsKey(lines, i) ==> LeadsNext(t, i)
  {
    hide IsComment, SpellsSome;
  }
}
