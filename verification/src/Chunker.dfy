/**
 The markdown chunker: sections between headings, cut into overlapping windows of words. A line is
 read once, as a heading or as its words.
 */
module Chunker {
  import opened Prelude
  import opened Text
  import opened Decimals

  // ---- words ----

  function WordLen(s: string): (n: nat)
    ensures n <= |s|
    ensures s != "" && !IsWhite(s[0]) ==> n > 0
    ensures forall i :: 0 <= i < n ==> !IsWhite(s[i])
    ensures n < |s| ==> IsWhite(s[n])
  {
    if s == "" || IsWhite(s[0]) then 0 else 1 + WordLen(s[1..])
  }

  function Words(s: string): seq<string>
    decreases |s|
  {
    if s == "" then []
    else if IsWhite(s[0]) then Words(s[1..])
    else [s[..WordLen(s)]] + Words(s[WordLen(s)..])
  }

  lemma {:induction false} WordLenIs(s: string, n: nat)
    requires n <= |s| && (forall i :: 0 <= i < n ==> !IsWhite(s[i])) && (n < |s| ==> IsWhite(s[n]))
    ensures WordLen(s) == n
  {
    if n > 0 {
      WordLenIs(s[1..], n - 1);
    }
  }

  /** White space between two texts keeps their words apart. */
  lemma {:induction false} WordsApart(a: string, c: char, b: string)
    requires IsWhite(c)
    ensures Words(a + [c] + b) == Words(a) + Words(b)
    decreases |a|
  {
    hide WordLen, IsWhite;
    var s := a + [c] + b;
    if a == "" {
      assert s[1..] == b;
    } else if IsWhite(a[0]) {
      assert s[1..] == a[1..] + [c] + b;
      WordsApart(a[1..], c, b);
    } else {
      var n := WordLen(a);
      assert forall i :: 0 <= i < n ==> s[i] == a[i];
      assert s[n] == if n < |a| then a[n] else c;
      WordLenIs(s, n);
      assert s[..n] == a[..n] && s[n..] == a[n..] + [c] + b;
      WordsApart(a[n..], c, b);
    }
  }

  ghost predicate AreWords(words: seq<string>) {
    forall k :: 0 <= k < |words| ==> words[k] != "" && forall i :: 0 <= i < |words[k]| ==> !IsWhite(words[k][i])
  }

  lemma OneWord(w: string)
    requires w != "" && forall i :: 0 <= i < |w| ==> !IsWhite(w[i])
    ensures Words(w) == [w]
  {
    WordLenIs(w, |w|);
    assert w[..|w|] == w;
  }

  /** A window's text gives its words back. */
  lemma {:induction false} WordsOfJoined(words: seq<string>)
    requires AreWords(words)
    ensures Words(Join(words, " ")) == words
    decreases |words|
  {
    if |words| == 1 {
      OneWord(words[0]);
      assert words == [words[0]];
    } else if |words| > 1 {
      OneWord(words[0]);
      assert words[0] + " " + Join(words[1..], " ") == words[0] + [' '] + Join(words[1..], " ");
      WordsApart(words[0], ' ', Join(words[1..], " "));
      assert forall k :: 0 <= k < |words| - 1 ==> words[1..][k] == words[k + 1];
      WordsOfJoined(words[1..]);
    }
  }

  lemma {:induction false} WordsAreWords(s: string)
    ensures AreWords(Words(s))
    decreases |s|
  {
    if s != "" {
      if IsWhite(s[0]) { WordsAreWords(s[1..]); } else { WordsAreWords(s[WordLen(s)..]); }
    }
  }

  // ---- windows ----

  function EffectiveOverlap(max: nat, overlap: nat): nat {
    Min(overlap, if max == 0 then 0 else max - 1)
  }

  function WindowsFrom<T>(words: seq<T>, start: nat, max: nat, stride: nat): seq<seq<T>>
    requires start <= |words| && 0 < stride <= max
    decreases |words| - start
  {
    var end := Min(start + max, |words|);
    [words[start..end]] + if end == |words| then [] else WindowsFrom(words, start + stride, max, stride)
  }

  function Windows<T>(words: seq<T>, max: nat, overlap: nat): seq<seq<T>> {
    if words == [] then []
    else if |words| <= max || max == 0 then [words]
    else WindowsFrom(words, 0, max, max - EffectiveOverlap(max, overlap))
  }

  /** The loop that slides the window. */
  method Slide<T>(words: seq<T>, max: nat, stride: nat) returns (windows: seq<seq<T>>)
    requires 0 < stride <= max
    ensures windows == WindowsFrom(words, 0, max, stride)
  {
    windows := [];
    var start := 0;
    hide WindowsFrom;
    while true
      invariant start <= |words|
      invariant windows + WindowsFrom(words, start, max, stride) == WindowsFrom(words, 0, max, stride)
      decreases |words| - start
    {
      var end := Min(start + max, |words|);
      if end == |words| {
        LastWindow(words, start, max, stride);
        windows := windows + [words[start..end]];
        break;
      }
      NextWindow(windows, words, start, max, stride);
      windows := windows + [words[start..end]];
      start := start + stride;
    }
  }

  method SplitIntoWindows<T>(words: seq<T>, max: nat, overlap: nat) returns (windows: seq<seq<T>>)
    ensures windows == Windows(words, max, overlap)
  {
    if words == [] { return []; }
    if |words| <= max || max == 0 { return [words]; }
    windows := Slide(words, max, max - EffectiveOverlap(max, overlap));
  }

  lemma LastWindow<T>(words: seq<T>, start: nat, max: nat, stride: nat)
    requires start <= |words| <= start + max && 0 < stride <= max
    ensures WindowsFrom(words, start, max, stride) == [words[start..|words|]]
  {
  }

  lemma NextWindow<T>(done: seq<seq<T>>, words: seq<T>, start: nat, max: nat, stride: nat)
    requires start + max < |words| && 0 < stride <= max
    ensures done + WindowsFrom(words, start, max, stride) ==
            done + [words[start..start + max]] + WindowsFrom(words, start + stride, max, stride)
  {
    WindowsStep(words, start, max, stride);
  }

  lemma WindowsStep<T>(words: seq<T>, start: nat, max: nat, stride: nat)
    requires start + max < |words| && 0 < stride <= max
    ensures WindowsFrom(words, start, max, stride) ==
            [words[start..start + max]] + WindowsFrom(words, start + stride, max, stride)
  {
  }

  /** What the windows add up to when each loses its first `o` words. */
  function Tails<T>(windows: seq<seq<T>>, o: nat): seq<T> {
    if windows == [] then [] else windows[0][Min(o, |windows[0]|)..] + Tails(windows[1..], o)
  }

  lemma TailsCons<T>(w: seq<T>, rest: seq<seq<T>>, o: nat)
    requires o <= |w|
    ensures Tails([w] + rest, o) == w[o..] + Tails(rest, o)
  {
    assert ([w] + rest)[1..] == rest;
  }

  /** The overlap with the window before, exactly, and at least one new word. */
  ghost predicate Overlap<T>(a: seq<T>, b: seq<T>, o: nat) {
    o <= |a| && o < |b| && b[..o] == a[|a| - o..]
  }

  /** Every window but the last is full, and each overlaps the next. */
  ghost predicate AreWindows<T>(windows: seq<seq<T>>, max: nat, o: nat) {
    windows == [] ||
    (&& o < |windows[0]| <= max
     && (|windows| > 1 ==> |windows[0]| == max && Overlap(windows[0], windows[1], o))
     && AreWindows(windows[1..], max, o))
  }

  lemma SharedSlice<T>(words: seq<T>, start: nat, max: nat, o: nat)
    requires o < max && start + max < |words|
    ensures var a, b := words[start..start + max], words[start + max - o..Min(start + max - o + max, |words|)];
            Overlap(a, b, o) && a[o..] + words[start + max..] == words[start + o..]
  {
    assert words[start..start + max][max - o..] == words[start + max - o..start + max];
  }

  lemma {:induction false} WindowsFromLaws<T>(words: seq<T>, start: nat, max: nat, o: nat)
    requires o < max && start + o < |words|
    ensures AreWindows(WindowsFrom(words, start, max, max - o), max, o)
    ensures WindowsFrom(words, start, max, max - o)[0] == words[start..Min(start + max, |words|)]
    decreases |words| - start
  {
    hide Overlap;
    if start + max < |words| {
      WindowsStep(words, start, max, max - o);
      WindowsFromLaws(words, start + max - o, max, o);
      SharedSlice(words, start, max, o);
    }
  }

  lemma JoinLast<T>(words: seq<T>, start: nat, max: nat, o: nat)
    requires o < max && start + o < |words| <= start + max
    ensures Tails(WindowsFrom(words, start, max, max - o), o) == words[start + o..]
  {
    LastWindow(words, start, max, max - o);
    assert words[start..|words|] == words[start..];
    OneTail(words[start..], o);
  }

  lemma OneTail<T>(w: seq<T>, o: nat)
    requires o <= |w|
    ensures Tails([w], o) == w[o..]
  {
    TailsCons(w, [], o);
    assert [w] + [] == [w];
    assert w[o..] + [] == w[o..];
  }

  lemma {:induction false} WindowsJoin<T>(words: seq<T>, start: nat, max: nat, o: nat)
    requires o < max && start + o < |words|
    ensures Tails(WindowsFrom(words, start, max, max - o), o) == words[start + o..]
    decreases |words| - start
  {
    hide WindowsFrom, Tails, Overlap;
    if start + max < |words| {
      WindowsStep(words, start, max, max - o);
      TailsCons(words[start..start + max], WindowsFrom(words, start + max - o, max, max - o), o);
      WindowsJoin(words, start + max - o, max, o);
      SharedSlice(words, start, max, o);
    } else {
      JoinLast(words, start, max, o);
    }
  }

  lemma FirstAndTails<T>(words: seq<T>, ws: seq<seq<T>>, o: nat)
    requires ws != [] && o <= |ws[0]| && o <= |words|
    requires Tails(ws, o) == words[o..] && ws[0][..o] == words[..o]
    ensures ws[0] + Tails(ws[1..], o) == words
  {
    assert ws[0] == ws[0][..o] + ws[0][o..];
    assert words == words[..o] + words[o..];
    Regroup([], ws[0][..o], ws[0][o..], Tails(ws[1..], o));
  }

  /** Windows hold at most `max` words if that is positive, overlap their neighbours by exactly the effective overlap,
      each bring new words, and put together without the overlaps they are the words they were cut from. */
  lemma WindowsLaws<T>(words: seq<T>, max: nat, overlap: nat)
    requires words != []
    ensures var ws, o := Windows(words, max, overlap), EffectiveOverlap(max, overlap);
            && ws != [] && ws[0] != [] && (max > 0 ==> |ws[0]| <= max)
            && (|ws| > 1 ==> AreWindows(ws, max, o))
            && ws[0] + Tails(ws[1..], o) == words
  {
    var ws, o := Windows(words, max, overlap), EffectiveOverlap(max, overlap);
    if |words| > max > 0 {
      WindowsFromLaws(words, 0, max, o);
      WindowsJoin(words, 0, max, o);
      assert ws[0] == words[..max];
      FirstAndTails(words, ws, o);
    } else {
      assert words + [] == words;
    }
  }

  // ---- headings ----

  function HashRun(s: string): (n: nat)
    ensures n <= |s|
  {
    if s != "" && s[0] == '#' then 1 + HashRun(s[1..]) else 0
  }

  /** One to six hashes, then a space, a tab or the end of the line. */
  function ParseHeading(line: string): Option<(nat, string)> {
    var t := TrimStart(line);
    var n := HashRun(t);
    if n == 0 || n > 6 then None
    else
      var rest := t[n..];
      if rest != "" && rest[0] != ' ' && rest[0] != '\t' then None else Some((n, Trim(rest)))
  }

  /** A line as the chunker takes it. */
  datatype Line = Head(level: nat, text: string) | Body(words: seq<string>)

  function ReadLine(l: string): Line {
    match ParseHeading(l)
    case None => Body(Words(l))
    case Some((level, text)) => Head(level, text)
  }

  /** Behind white space a run of `level` hashes, one to six, then a space, a tab or the end of the line, and
      around white space the text. */
  ghost predicate SpellsAt(l: string, i: nat, level: nat, text: string) {
    && 1 <= level <= 6 && i + level <= |l|
    && AllWhite(l[..i]) && (forall k :: i <= k < i + level ==> l[k] == '#')
    && (i + level == |l| || l[i + level] == ' ' || l[i + level] == '\t')
    && Trims(l[i + level..], text)
  }

  ghost predicate SpellsHeading(l: string, level: nat, text: string) {
    exists i: nat :: SpellsAt(l, i, level, text)
  }

  lemma {:induction false} HashRunIs(s: string, n: nat)
    requires n <= |s| && (forall k :: 0 <= k < n ==> s[k] == '#') && (n < |s| ==> s[n] != '#')
    ensures HashRun(s) == n
  {
    if n > 0 {
      HashRunIs(s[1..], n - 1);
    }
  }

  lemma {:induction false} HashRunFacts(s: string)
    ensures forall k :: 0 <= k < HashRun(s) ==> s[k] == '#'
  {
    if s != "" && s[0] == '#' {
      HashRunFacts(s[1..]);
      assert forall k :: 0 < k < |s| ==> s[k] == s[1..][k - 1];
    }
  }

  lemma HeadSpells(l: string, level: nat, text: string)
    requires ReadLine(l) == Head(level, text)
    ensures SpellsHeading(l, level, text)
  {
    hide IsWhite, TrimStart, Trim, Words, HashRun, AllWhite, Trims;
    var t := TrimStart(l);
    var i := |l| - |t|;
    TrimStartFacts(l);
    HashRunFacts(t);
    assert l[i + level..] == t[level..];
    forall k | i <= k < i + level
      ensures l[k] == '#'
    {
      assert l[k] == t[k - i];
    }
    TrimIff(t[level..], text);
    assert i + level < |l| ==> l[i + level] == t[level];
    assert SpellsAt(l, i, level, text);
  }

  lemma SpelledIsHead(l: string, level: nat, text: string)
    requires SpellsHeading(l, level, text)
    ensures ReadLine(l) == Head(level, text)
  {
    hide IsWhite, TrimStart, Trim, Words, HashRun, Trims;
    var i: nat :| SpellsAt(l, i, level, text);
    assert forall k :: 0 <= k < i ==> l[k] == l[..i][k];
    assert !IsWhite('#') by { HashIsDark(); }
    TrimStartFrom(l, i);
    var t := l[i..];
    assert forall k :: 0 <= k < level ==> t[k] == l[i + k];
    HashRunIs(t, level);
    assert t[level..] == l[i + level..];
    TrimIff(t[level..], text);
  }

  lemma HashIsDark()
    ensures !IsWhite('#')
  {
  }

  /** A line is read as a heading exactly when it spells one. */
  lemma HeadIff(l: string, level: nat, text: string)
    ensures ReadLine(l) == Head(level, text) <==> SpellsHeading(l, level, text)
    ensures ReadLine(l).Body? ==> ReadLine(l) == Body(Words(l))
  {
    hide SpellsHeading;
    if ReadLine(l) == Head(level, text) { HeadSpells(l, level, text); }
    if SpellsHeading(l, level, text) { SpelledIsHead(l, level, text); }
  }

  ghost predicate IsPlainLine(l: string) {
    forall level: nat, text: string :: !SpellsHeading(l, level, text)
  }

  lemma PlainIff(l: string)
    ensures ReadLine(l).Body? <==> IsPlainLine(l)
  {
    hide SpellsHeading, ReadLine;
    if ReadLine(l).Head? {
      HeadIff(l, ReadLine(l).level, ReadLine(l).text);
    }
    if !IsPlainLine(l) {
      var level: nat, text: string :| SpellsHeading(l, level, text);
      HeadIff(l, level, text);
    }
  }

  /** A heading with the line it is on; the line number serves the specification only. */
  datatype Heading = Heading(line: nat, level: nat, text: string)

  /** Headings at least as deep as the new one are closed. */
  function PopTo(open: seq<Heading>, level: nat): seq<Heading> {
    if open != [] && open[|open| - 1].level >= level then PopTo(open[..|open| - 1], level) else open
  }

  function Push(open: seq<Heading>, h: Heading): seq<Heading> {
    PopTo(open, h.level) + [h]
  }

  /** The headings open below the first `n` lines. */
  function Open(lines: seq<Line>, n: nat): seq<Heading>
    requires n <= |lines|
  {
    if n == 0 then []
    else
      match lines[n - 1]
      case Head(level, text) => Push(Open(lines, n - 1), Heading(n - 1, level, text))
      case Body(_) => Open(lines, n - 1)
  }

  ghost predicate Nested(open: seq<Heading>) {
    forall i, j :: 0 <= i < j < |open| ==> open[i].level < open[j].level && open[i].line < open[j].line
  }

  lemma {:induction false} PopToKeeps(open: seq<Heading>, level: nat)
    requires Nested(open)
    ensures PopTo(open, level) <= open
    ensures forall h :: h in PopTo(open, level) <==> h in open && h.level < level
  {
    if open != [] {
      var last := |open| - 1;
      if open[last].level >= level {
        PopToKeeps(open[..last], level);
        assert open == open[..last] + [open[last]];
      }
    }
  }

  /** Heading `h` stands above line `n`, and no later heading up to there is of the same or a smaller level. */
  ghost predicate NotYetClosed(lines: seq<Line>, n: nat, h: Heading)
    requires n <= |lines|
  {
    && h.line < n && lines[h.line] == Head(h.level, h.text)
    && forall k :: h.line < k < n && lines[k].Head? ==> lines[k].level > h.level
  }

  lemma PushedAre(lines: seq<Line>, n: nat, level: nat, text: string, h: Heading)
    requires n < |lines| && lines[n] == Head(level, text) && Nested(Open(lines, n))
    requires h in Open(lines, n) <==> NotYetClosed(lines, n, h)
    ensures h in Open(lines, n + 1) <==> NotYetClosed(lines, n + 1, h)
  {
    hide PopTo, Nested, Open;
    PopToKeeps(Open(lines, n), level);
    AtHeading(lines, n, level, text);
    assert h in Open(lines, n + 1) <==> (h in Open(lines, n) && h.level < level) || h == Heading(n, level, text);
  }

  lemma PushNests(open: seq<Heading>, h: Heading)
    requires Nested(open) && forall g :: g in open ==> g.line < h.line
    ensures Nested(Push(open, h)) && forall g :: g in Push(open, h) ==> g.line <= h.line
  {
    PopToKeeps(open, h.level);
    assert forall i :: 0 <= i < |PopTo(open, h.level)| ==> PopTo(open, h.level)[i] in PopTo(open, h.level);
  }

  lemma {:induction false} OpenIsNested(lines: seq<Line>, n: nat)
    requires n <= |lines|
    ensures Nested(Open(lines, n)) && forall h :: h in Open(lines, n) ==> h.line < n
  {
    if n > 0 {
      OpenIsNested(lines, n - 1);
      match lines[n - 1]
      case Head(level, text) => PushNests(Open(lines, n - 1), Heading(n - 1, level, text));
      case Body(_) =>
    }
  }

  /** The stack holds exactly the headings not yet closed. */
  lemma {:induction false} OpenIffNotClosed(lines: seq<Line>, n: nat, h: Heading)
    requires n <= |lines|
    ensures h in Open(lines, n) <==> NotYetClosed(lines, n, h)
  {
    if n > 0 {
      OpenIffNotClosed(lines, n - 1, h);
      match lines[n - 1]
      case Head(level, text) =>
        OpenIsNested(lines, n - 1);
        PushedAre(lines, n - 1, level, text, h);
      case Body(_) =>
    }
  }

  // ---- sections ----

  /** The words below the last heading above line `n`. */
  function WordsSince(lines: seq<Line>, n: nat): seq<string>
    requires n <= |lines|
  {
    if n == 0 then []
    else
      match lines[n - 1]
      case Head(_, _) => []
      case Body(words) => WordsSince(lines, n - 1) + words
  }

  /** A section that ends above line `end`, under the headings open there. */
  datatype Section = Section(end: nat, open: seq<Heading>, words: seq<string>)

  function Closed(lines: seq<Line>, n: nat): seq<Section>
    requires n <= |lines|
    decreases n, 0
  {
    if n == 0 then [] else if lines[n - 1].Head? then Flushed(lines, n - 1) else Closed(lines, n - 1)
  }

  /** A section without words is dropped. */
  function Flushed(lines: seq<Line>, n: nat): seq<Section>
    requires n <= |lines|
    decreases n, 1
  {
    if WordsSince(lines, n) == [] then Closed(lines, n)
    else Closed(lines, n) + [Section(n, Open(lines, n), WordsSince(lines, n))]
  }

  function Sections(lines: seq<Line>): seq<Section> {
    Flushed(lines, |lines|)
  }

  ghost predicate IsSection(lines: seq<Line>, s: Section) {
    s.end <= |lines| && s.open == Open(lines, s.end) && s.words == WordsSince(lines, s.end) != []
  }

  ghost predicate AreSections(lines: seq<Line>, sections: seq<Section>) {
    forall k :: 0 <= k < |sections| ==> IsSection(lines, sections[k])
  }

  lemma {:induction false} SectionsAre(lines: seq<Line>, n: nat)
    requires n <= |lines|
    ensures AreSections(lines, Closed(lines, n)) && AreSections(lines, Flushed(lines, n))
  {
    if n > 0 {
      SectionsAre(lines, n - 1);
    }
  }

  function SectionWords(sections: seq<Section>): seq<string> {
    if sections == [] then [] else SectionWords(sections[..|sections| - 1]) + sections[|sections| - 1].words
  }

  /** The words of all lines that are no headings. */
  function BodyWords(lines: seq<Line>, n: nat): seq<string>
    requires n <= |lines|
  {
    if n == 0 then [] else BodyWords(lines, n - 1) + if lines[n - 1].Head? then [] else lines[n - 1].words
  }

  /** The words of the lines of a text that spell no heading. */
  ghost function PlainWords(texts: seq<string>): seq<string> {
    if texts == [] then []
    else
      var n := |texts| - 1;
      PlainWords(texts[..n]) + if IsPlainLine(texts[n]) then Words(texts[n]) else []
  }

  lemma {:induction false} BodyWordsArePlain(texts: seq<string>, n: nat)
    requires n <= |texts|
    ensures BodyWords(ReadAll(texts), n) == PlainWords(texts[..n])
  {
    hide ReadLine, IsPlainLine, Words;
    if n > 0 {
      BodyWordsArePlain(texts, n - 1);
      PlainIff(texts[n - 1]);
      HeadIff(texts[n - 1], 0, "");
      assert texts[..n][..n - 1] == texts[..n - 1];
    }
  }

  lemma FlushedWords(lines: seq<Line>, n: nat)
    requires n <= |lines|
    ensures SectionWords(Flushed(lines, n)) == SectionWords(Closed(lines, n)) + WordsSince(lines, n)
  {
    var f := Flushed(lines, n);
    if WordsSince(lines, n) != [] {
      assert f[..|f| - 1] == Closed(lines, n);
    }
  }

  lemma Assoc<T>(a: seq<T>, b: seq<T>, c: seq<T>)
    ensures a + (b + c) == a + b + c
  {
  }

  lemma {:induction false} ClosedAndSince(lines: seq<Line>, n: nat)
    requires n <= |lines|
    ensures SectionWords(Closed(lines, n)) + WordsSince(lines, n) == BodyWords(lines, n)
  {
    if n > 0 {
      ClosedAndSince(lines, n - 1);
      match lines[n - 1]
      case Head(_, _) => FlushedWords(lines, n - 1);
      case Body(words) => Assoc(SectionWords(Closed(lines, n - 1)), WordsSince(lines, n - 1), words);
    }
  }

  /** Sections hold every word of every line that is no heading, once and in order. */
  lemma SectionsConserve(lines: seq<Line>)
    ensures SectionWords(Sections(lines)) == BodyWords(lines, |lines|)
  {
    FlushedWords(lines, |lines|);
    ClosedAndSince(lines, |lines|);
  }

  // ---- chunks ----

  datatype Chunk = Chunk(id: string, docPath: string, headingPath: string, index: nat, text: string)

  function Texts(open: seq<Heading>): seq<string> {
    seq(|open|, k requires 0 <= k < |open| => open[k].text)
  }

  function ChunkOf(docPath: string, open: seq<Heading>, window: seq<string>, index: nat): Chunk {
    Chunk(docPath + "#" + Decimal(index), docPath, Join(Texts(open), " > "), index, Join(window, " "))
  }

  /** The headings open there, outermost first, with ` > ` between them. */
  lemma HeadingPathGrows(docPath: string, open: seq<Heading>, h: Heading, window: seq<string>, index: nat)
    ensures ChunkOf(docPath, [], window, index).headingPath == ""
    ensures ChunkOf(docPath, open + [h], window, index).headingPath ==
            if open == [] then h.text else ChunkOf(docPath, open, window, index).headingPath + " > " + h.text
    ensures ChunkOf(docPath, open, window, index).docPath == docPath
  {
    assert Texts(open + [h]) == Texts(open) + [h.text];
    JoinSnoc(Texts(open), h.text, " > ");
    assert Texts([]) == [];
  }

  lemma {:induction false} JoinSnoc(parts: seq<string>, last: string, sep: string)
    ensures Join(parts + [last], sep) == if parts == [] then last else Join(parts, sep) + sep + last
  {
    if parts != [] {
      assert (parts + [last])[1..] == parts[1..] + [last] && (parts + [last])[0] == parts[0];
      JoinSnoc(parts[1..], last, sep);
      if |parts| > 1 {
        Assoc(parts[0] + sep, Join(parts[1..], sep), sep + last);
        Assoc(Join(parts[1..], sep), sep, last);
        assert parts[0] + sep + (Join(parts[1..], sep) + sep + last) ==
               parts[0] + sep + Join(parts[1..], sep) + sep + last;
      }
    }
  }

  function Numbered(docPath: string, open: seq<Heading>, windows: seq<seq<string>>, first: nat): seq<Chunk> {
    seq(|windows|, k requires 0 <= k < |windows| => ChunkOf(docPath, open, windows[k], first + k))
  }

  function Chunks(docPath: string, sections: seq<Section>, max: nat, overlap: nat): seq<Chunk> {
    if sections == [] then []
    else
      var before := Chunks(docPath, sections[..|sections| - 1], max, overlap);
      var last := sections[|sections| - 1];
      before + Numbered(docPath, last.open, Windows(last.words, max, overlap), |before|)
  }

  /** Chunks are numbered from zero. */
  lemma {:induction false} ChunkNumbers(docPath: string, sections: seq<Section>, max: nat, overlap: nat, k: nat)
    requires k < |Chunks(docPath, sections, max, overlap)|
    ensures var c := Chunks(docPath, sections, max, overlap)[k]; c.index == k && c.id == docPath + "#" + Decimal(k)
  {
    var before := Chunks(docPath, sections[..|sections| - 1], max, overlap);
    if k < |before| {
      ChunkNumbers(docPath, sections[..|sections| - 1], max, overlap, k);
    }
  }

  lemma ChunkIdsDiffer(docPath: string, sections: seq<Section>, max: nat, overlap: nat, j: nat, k: nat)
    requires j < k < |Chunks(docPath, sections, max, overlap)|
    ensures Chunks(docPath, sections, max, overlap)[j].id != Chunks(docPath, sections, max, overlap)[k].id
  {
    ChunkNumbers(docPath, sections, max, overlap, j);
    ChunkNumbers(docPath, sections, max, overlap, k);
    SuffixOf(docPath + "#", Decimal(j));
    SuffixOf(docPath + "#", Decimal(k));
    if Decimal(j) == Decimal(k) { DecimalIsInjective(j, k); }
  }

  lemma SuffixOf(a: string, b: string)
    ensures (a + b)[|a|..] == b
  {
  }

  // ---- nothing is lost ----

  function ReadAll(texts: seq<string>): seq<Line> {
    seq(|texts|, i requires 0 <= i < |texts| => ReadLine(texts[i]))
  }

  lemma AreWordsAppend(a: seq<string>, b: seq<string>)
    requires AreWords(a) && AreWords(b)
    ensures AreWords(a + b)
  {
  }

  lemma LineWords(l: string)
    ensures ReadLine(l).Body? ==> AreWords(ReadLine(l).words)
  {
    hide Words, AreWords, ParseHeading;
    WordsAreWords(l);
  }

  lemma {:induction false} SinceAreWords(texts: seq<string>, n: nat)
    requires n <= |texts|
    ensures AreWords(WordsSince(ReadAll(texts), n))
  {
    hide AreWords, ReadLine;
    NoWords();
    if n > 0 {
      SinceAreWords(texts, n - 1);
      var line := ReadLine(texts[n - 1]);
      LineWords(texts[n - 1]);
      if line.Body? { AreWordsAppend(WordsSince(ReadAll(texts), n - 1), line.words); }
    }
  }

  lemma NoWords()
    ensures AreWords([])
  {
  }

  lemma {:induction false} WindowsFromAreWords(words: seq<string>, start: nat, max: nat, stride: nat)
    requires start <= |words| && 0 < stride <= max && AreWords(words)
    ensures forall w :: w in WindowsFrom(words, start, max, stride) ==> AreWords(w)
    decreases |words| - start
  {
    SliceElements(words, start, Min(start + max, |words|));
    if start + max < |words| {
      WindowsFromAreWords(words, start + stride, max, stride);
    }
  }

  lemma WindowsAreWords(words: seq<string>, max: nat, overlap: nat)
    requires AreWords(words)
    ensures forall w :: w in Windows(words, max, overlap) ==> AreWords(w)
  {
    if |words| > max > 0 {
      WindowsFromAreWords(words, 0, max, max - EffectiveOverlap(max, overlap));
    }
  }

  /** The words of each chunk's text. */
  function TextWords(chunks: seq<Chunk>): seq<seq<string>> {
    seq(|chunks|, k requires 0 <= k < |chunks| => Words(chunks[k].text))
  }

  /** The texts of a section's chunks give its windows back. */
  lemma NumberedGivesBack(docPath: string, open: seq<Heading>, windows: seq<seq<string>>, first: nat)
    requires forall w :: w in windows ==> AreWords(w)
    ensures TextWords(Numbered(docPath, open, windows, first)) == windows
  {
    forall k | 0 <= k < |windows|
      ensures Words(Join(windows[k], " ")) == windows[k]
    {
      WordsOfJoined(windows[k]);
    }
  }

  /** Windows put together without their overlaps. */
  function Unlapped(windows: seq<seq<string>>, o: nat): seq<string> {
    if windows == [] then [] else windows[0] + Tails(windows[1..], o)
  }

  /** What the texts of the chunks add up to without the overlaps, `counts[k]` of them being of section `k`. */
  function Recovered(chunks: seq<Chunk>, counts: seq<nat>, o: nat): seq<string>
    decreases |counts|
  {
    if counts == [] then []
    else
      var n := |chunks| - Min(counts[|counts| - 1], |chunks|);
      Recovered(chunks[..n], counts[..|counts| - 1], o) + Unlapped(TextWords(chunks[n..]), o)
  }

  /** How many chunks each section has. */
  function Counts(sections: seq<Section>, max: nat, overlap: nat): seq<nat> {
    seq(|sections|, k requires 0 <= k < |sections| => |Windows(sections[k].words, max, overlap)|)
  }

  lemma RecoveredStep(before: seq<Chunk>, more: seq<Chunk>, counts: seq<nat>, o: nat)
    requires counts != [] && counts[|counts| - 1] == |more|
    ensures Recovered(before + more, counts, o) ==
            Recovered(before, counts[..|counts| - 1], o) + Unlapped(TextWords(more), o)
  {
    ConcatParts(before, more);
  }

  lemma {:induction false} RecoveredIs(docPath: string, sections: seq<Section>, max: nat, overlap: nat)
    requires forall k :: 0 <= k < |sections| ==> sections[k].words != [] && AreWords(sections[k].words)
    ensures Recovered(Chunks(docPath, sections, max, overlap), Counts(sections, max, overlap),
            EffectiveOverlap(max, overlap)) ==
            SectionWords(sections)
  {
    if sections != [] {
      hide AreWords, Windows, Words, EffectiveOverlap, Recovered;
      var n := |sections| - 1;
      var last := sections[n];
      var windows := Windows(last.words, max, overlap);
      RecoveredIs(docPath, sections[..n], max, overlap);
      CountsSnoc(sections, max, overlap);
      assert Counts(sections, max, overlap)[..n] == Counts(sections[..n], max, overlap);
      var before := Chunks(docPath, sections[..n], max, overlap);
      WindowsAreWords(last.words, max, overlap);
      NumberedGivesBack(docPath, last.open, windows, |before|);
      WindowsLaws(last.words, max, overlap);
      RecoveredStep(before, Numbered(docPath, last.open, windows, |before|), Counts(sections, max, overlap),
        EffectiveOverlap(max, overlap));
    } else {
      assert Counts(sections, max, overlap) == [];
    }
  }

  lemma CountsSnoc(sections: seq<Section>, max: nat, overlap: nat)
    requires sections != []
    ensures var n := |sections| - 1;
            Counts(sections, max, overlap) ==
              Counts(sections[..n], max, overlap) + [|Windows(sections[n].words, max, overlap)|]
  {
    hide Windows;
  }

  lemma SumSnoc(ns: seq<nat>, n: nat)
    ensures Sum(ns + [n]) == Sum(ns) + n
  {
    assert (ns + [n])[..|ns|] == ns;
  }

  lemma {:induction false} CountsAddUp(docPath: string, sections: seq<Section>, max: nat, overlap: nat)
    ensures Sum(Counts(sections, max, overlap)) == |Chunks(docPath, sections, max, overlap)|
  {
    hide Windows, ChunkOf;
    if sections != [] {
      var n := |sections| - 1;
      CountsAddUp(docPath, sections[..n], max, overlap);
      CountsSnoc(sections, max, overlap);
      SumSnoc(Counts(sections[..n], max, overlap), |Windows(sections[n].words, max, overlap)|);
    }
  }

  function Sum(ns: seq<nat>): nat {
    if ns == [] then 0 else Sum(ns[..|ns| - 1]) + ns[|ns| - 1]
  }

  /** Nothing is lost: the chunks of a document, each split into its words again and put together section by
      section without the overlaps, are all its words outside headings, in order. */
  lemma NothingIsLost(docPath: string, texts: seq<string>, max: nat, overlap: nat)
    ensures var lines := ReadAll(texts);
            var chunks, counts := Chunks(docPath, Sections(lines), max, overlap), Counts(Sections(lines), max, overlap);
            Sum(counts) == |chunks| &&
              Recovered(chunks, counts, EffectiveOverlap(max, overlap)) == PlainWords(texts)
  {
    hide Sections, AreWords, Recovered, Chunks, Counts, SectionWords, BodyWords, WordsSince, Open, PlainWords, ReadLine;
    var lines := ReadAll(texts);
    BodyWordsArePlain(texts, |texts|);
    assert texts[..|texts|] == texts;
    SectionsOf(lines);
    forall k | 0 <= k < |Sections(lines)|
      ensures Sections(lines)[k].words != [] && AreWords(Sections(lines)[k].words)
    {
      assert IsSection(lines, Sections(lines)[k]);
      SinceAreWords(texts, Sections(lines)[k].end);
    }
    RecoveredIs(docPath, Sections(lines), max, overlap);
    CountsAddUp(docPath, Sections(lines), max, overlap);
    SectionsConserve(lines);
  }

  lemma SectionsOf(lines: seq<Line>)
    ensures AreSections(lines, Sections(lines))
  {
    SectionsAre(lines, |lines|);
  }

  // ---- the loop over lines ----

  lemma {:induction false} WhiteHasNoWords(s: string)
    requires AllWhite(s)
    ensures Words(s) == []
  {
    if s != "" {
      WhiteHasNoWords(s[1..]);
    }
  }

  lemma BlankHasNoWords(s: string)
    requires IsBlank(s)
    ensures Words(s) == []
  {
    BlankIsAllWhite(s);
    TrimStartFacts(s);
    WhiteHasNoWords(s);
  }

  /** A section buffer: lines, each with its newline. */
  ghost predicate IsBuffer(buf: string) {
    buf == "" || buf[|buf| - 1] == '\n'
  }

  lemma WordsOfLine(line: string)
    ensures Words(line + "\n") == Words(line)
  {
    WordsApart(line, '\n', "");
    assert line + ['\n'] + "" == line + "\n";
  }

  lemma PushedLine(buf: string, line: string)
    requires IsBuffer(buf)
    ensures IsBuffer(buf + (line + "\n")) && Words(buf + (line + "\n")) == Words(buf) + Words(line)
  {
    WordsOfLine(line);
    if buf == "" {
      assert buf + (line + "\n") == line + "\n";
    } else {
      PushedAfter(buf[..|buf| - 1], line + "\n");
      assert buf == buf[..|buf| - 1] + "\n";
    }
  }

  lemma PushedAfter(head: string, tail: string)
    ensures Words(head + "\n" + tail) == Words(head + "\n") + Words(tail)
  {
    WordsApart(head, '\n', tail);
    WordsOfLine(head);
    assert head + ['\n'] + tail == head + "\n" + tail;
  }

  method Pop(open: seq<Heading>, level: nat) returns (out: seq<Heading>)
    ensures out == PopTo(open, level)
  {
    out := open;
    while out != [] && out[|out| - 1].level >= level
      invariant PopTo(out, level) == PopTo(open, level)
      decreases |out|
    {
      out := out[..|out| - 1];
    }
  }

  method EmitWindows(docPath: string, open: seq<Heading>, windows: seq<seq<string>>, before: seq<Chunk>)
      returns (chunks: seq<Chunk>)
    ensures chunks == before + Numbered(docPath, open, windows, |before|)
  {
    hide ChunkOf;
    ghost var numbered := Numbered(docPath, open, windows, |before|);
    chunks := before;
    for k := 0 to |windows|
      invariant chunks == before + numbered[..k]
    {
      AppendNext(before, numbered, k);
      chunks := chunks + [ChunkOf(docPath, open, windows[k], |chunks|)];
    }
  }

  /** Turns the buffered section into chunks that follow those made so far. */
  method Flush(docPath: string, buf: string, open: seq<Heading>, max: nat, overlap: nat, before: seq<Chunk>)
      returns (chunks: seq<Chunk>)
    ensures chunks == before + Numbered(docPath, open, Windows(Words(buf), max, overlap), |before|)
  {
    if IsBlank(buf) {
      BlankHasNoWords(buf);
      return before;
    }
    hide *;
    var windows := SplitIntoWindows(Words(buf), max, overlap);
    chunks := EmitWindows(docPath, open, windows, before);
  }

  lemma AppendNext<T>(before: seq<T>, more: seq<T>, k: nat)
    requires k < |more|
    ensures before + more[..k] + [more[k]] == before + more[..k + 1] && |before + more[..k]| == |before| + k
  {
  }

  lemma FlushedChunks(docPath: string, lines: seq<Line>, n: nat, max: nat, overlap: nat)
    requires n <= |lines|
    ensures var before := Chunks(docPath, Closed(lines, n), max, overlap);
            Chunks(docPath, Flushed(lines, n), max, overlap) ==
            before + Numbered(docPath, Open(lines, n), Windows(WordsSince(lines, n), max, overlap), |before|)
  {
    var f := Flushed(lines, n);
    if WordsSince(lines, n) != [] {
      assert f[..|f| - 1] == Closed(lines, n);
    }
  }

  lemma AtStart(docPath: string, lines: seq<Line>, max: nat, overlap: nat)
    ensures Open(lines, 0) == [] && WordsSince(lines, 0) == [] && Chunks(docPath, Closed(lines, 0), max, overlap) == []
    ensures Words("") == []
  {
  }

  /** What a heading line does to the stack, the buffered words and the finished sections. */
  lemma AtHeading(lines: seq<Line>, n: nat, level: nat, text: string)
    requires n < |lines| && lines[n] == Head(level, text)
    ensures Open(lines, n + 1) == Push(Open(lines, n), Heading(n, level, text))
    ensures WordsSince(lines, n + 1) == [] && Closed(lines, n + 1) == Flushed(lines, n)
  {
  }

  lemma AtBody(lines: seq<Line>, n: nat, words: seq<string>)
    requires n < |lines| && lines[n] == Body(words)
    ensures Open(lines, n + 1) == Open(lines, n)
    ensures WordsSince(lines, n + 1) == WordsSince(lines, n) + words && Closed(lines, n + 1) == Closed(lines, n)
  {
  }

  /** The chunker: one pass over the lines, flushing the section at every heading and at the end. */
  method ChunkMarkdown(docPath: string, content: string, max: nat, overlap: nat) returns (chunks: seq<Chunk>)
    ensures chunks == Chunks(docPath, Sections(ReadAll(Lines(content))), max, overlap)
  {
    var texts := Lines(content);
    ghost var lines := ReadAll(texts);
    chunks := [];
    var open: seq<Heading> := [];
    var buf := "";
    AtStart(docPath, lines, max, overlap);
    hide Open, WordsSince, Closed, Flushed, Chunks, Numbered, Windows, Words, ParseHeading, Lines;
    for n := 0 to |texts|
      invariant open == Open(lines, n)
      invariant IsBuffer(buf) && Words(buf) == WordsSince(lines, n)
      invariant chunks == Chunks(docPath, Closed(lines, n), max, overlap)
    {
      match ParseHeading(texts[n]) {
        case Some((level, text)) =>
          chunks := Flush(docPath, buf, open, max, overlap, chunks);
          FlushedChunks(docPath, lines, n, max, overlap);
          AtHeading(lines, n, level, text);
          open := Pop(open, level);
          open := open + [Heading(n, level, text)];
          buf := "";
        case None =>
          PushedLine(buf, texts[n]);
          AtBody(lines, n, Words(texts[n]));
          buf := buf + (texts[n] + "\n");
      }
    }
    chunks := Flush(docPath, buf, open, max, overlap, chunks);
    FlushedChunks(docPath, lines, |texts|, max, overlap);
  }
}
