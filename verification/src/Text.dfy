/**
 Strings as the source sees them: Rust's white space, trimming, UTF-8 widths, and the
 line-splitting and re-joining that both config editors start and end with.
 */
module Text {
  /** Unicode's White_Space property, which `char::is_whitespace` tests. */
  predicate IsWhite(c: char) {
    || '\U{0009}' <= c <= '\U{000D}'
    || c == ' ' || c == '\U{0085}' || c == '\U{00A0}' || c == '\U{1680}'
    || '\U{2000}' <= c <= '\U{200A}'
    || c == '\U{2028}' || c == '\U{2029}' || c == '\U{202F}' || c == '\U{205F}' || c == '\U{3000}'
  }

  function TrimStart(s: string): (r: string)
    ensures |r| <= |s| && r == s[|s| - |r|..]
    ensures r != "" ==> !IsWhite(r[0])
  {
    if s != "" && IsWhite(s[0]) then TrimStart(s[1..]) else s
  }

  function TrimEnd(s: string): (r: string)
    ensures |r| <= |s| && r == s[..|r|]
    ensures r != "" ==> !IsWhite(r[|r| - 1])
  {
    if s != "" && IsWhite(s[|s| - 1]) then TrimEnd(s[..|s| - 1]) else s
  }

  function Trim(s: string): string {
    TrimStart(TrimEnd(s))
  }

  predicate AllWhite(s: string) {
    forall i :: 0 <= i < |s| ==> IsWhite(s[i])
  }

  lemma AllWhiteHead(s: string)
    ensures AllWhite(s) <==> s == "" || (IsWhite(s[0]) && AllWhite(s[1..]))
  {
    hide IsWhite;
    if s != "" { assert forall i :: 0 < i < |s| ==> s[i] == s[1..][i - 1]; }
  }

  lemma {:induction false} TrimStartFacts(s: string)
    ensures TrimStart(s) == "" <==> AllWhite(s)
    ensures AllWhite(s[..|s| - |TrimStart(s)|])
  {
    hide IsWhite, AllWhite;
    AllWhiteHead(s);
    if s != "" && IsWhite(s[0]) {
      TrimStartFacts(s[1..]);
      var n := |s| - |TrimStart(s)|;
      assert s[..n][1..] == s[1..][..n - 1] && s[..n][0] == s[0];
      AllWhiteHead(s[..n]);
    } else {
      assert s[..0] == "";
      AllWhiteHead("");
    }
  }

  lemma {:induction false} TrimEndFacts(s: string)
    ensures AllWhite(s[|TrimEnd(s)|..])
  {
    hide IsWhite;
    if s != "" && IsWhite(s[|s| - 1]) {
      var shorter := s[..|s| - 1];
      TrimEndFacts(shorter);
      assert s[|TrimEnd(s)|..] == shorter[|TrimEnd(s)|..] + [s[|s| - 1]];
    }
  }

  lemma TrimmedAlready(s: string)
    requires s != "" && !IsWhite(s[0]) && !IsWhite(s[|s| - 1])
    ensures TrimStart(s) == s && TrimEnd(s) == s && Trim(s) == s
  {
  }

  // ---- white space and trimming, by character ----

  /** All white characters. */
  const WHITE: seq<char> := [
    '\t', '\n', '\U{000B}', '\U{000C}', '\r', ' ', '\U{0085}', '\U{00A0}', '\U{1680}', '\U{2000}', '\U{2001}',
    '\U{2002}', '\U{2003}', '\U{2004}', '\U{2005}', '\U{2006}', '\U{2007}', '\U{2008}', '\U{2009}', '\U{200A}',
    '\U{2028}', '\U{2029}', '\U{202F}', '\U{205F}', '\U{3000}'
  ]

  lemma WhiteIsListed(c: char)
    ensures IsWhite(c) <==> c in WHITE
  {
  }

  /** `t` stands in `s` with nothing but white space around it, and has none at its ends. */
  ghost predicate Trims(s: string, t: string) {
    if t == "" then AllWhite(s)
    else !IsWhite(t[0]) && !IsWhite(t[|t| - 1]) && exists i: nat :: TrimsAt(s, t, i)
  }

  ghost predicate TrimsAt(s: string, t: string, i: nat) {
    i + |t| <= |s| && s[i..i + |t|] == t && AllWhite(s[..i]) && AllWhite(s[i + |t|..])
  }

  lemma {:induction false} TrimStartFrom(s: string, n: nat)
    requires n < |s| && !IsWhite(s[n]) && forall i :: 0 <= i < n ==> IsWhite(s[i])
    ensures TrimStart(s) == s[n..]
  {
    hide IsWhite;
    if n > 0 {
      TrimStartFrom(s[1..], n - 1);
    }
  }

  lemma {:induction false} TrimEndTo(s: string, n: nat)
    requires 0 < n <= |s| && !IsWhite(s[n - 1]) && forall i :: n <= i < |s| ==> IsWhite(s[i])
    ensures TrimEnd(s) == s[..n]
  {
    hide IsWhite;
    if n < |s| {
      TrimEndTo(s[..|s| - 1], n);
    }
  }

  lemma TrimsItself(s: string)
    ensures Trims(s, Trim(s))
  {
    hide IsWhite, TrimStart, TrimEnd;
    var e := TrimEnd(s);
    TrimEndFacts(s);
    TrimStartFacts(e);
    BlankIsAllWhite(s);
    TrimStartFacts(s);
    if Trim(s) != "" {
      var i := |e| - |Trim(s)|;
      assert s[..i] == e[..i] && s[i..i + |Trim(s)|] == e[i..] && s[i + |Trim(s)|..] == s[|e|..];
      assert Trim(s)[|Trim(s)| - 1] == e[|e| - 1];
      assert TrimsAt(s, Trim(s), i);
    }
  }

  lemma TrimIs(s: string, t: string)
    requires Trims(s, t)
    ensures Trim(s) == t
  {
    hide IsWhite, TrimStart, TrimEnd;
    if t == "" {
      BlankIsAllWhite(s);
      TrimStartFacts(s);
    } else {
      var i: nat :| TrimsAt(s, t, i);
      var n := i + |t|;
      assert forall k :: n <= k < |s| ==> s[n..][k - n] == s[k];
      assert s[i..n][|t| - 1] == s[n - 1] && s[i..n][0] == s[i];
      TrimEndTo(s, n);
      assert forall k :: 0 <= k < i ==> s[..n][k] == s[..i][k];
      TrimStartFrom(s[..n], i);
      assert s[..n][i..] == s[i..n];
    }
  }

  lemma TrimIff(s: string, t: string)
    ensures Trim(s) == t <==> Trims(s, t)
  {
    hide IsWhite, Trim, Trims;
    TrimsItself(s);
    if Trims(s, t) { TrimIs(s, t); }
  }

  /** The number of leading white characters. */
  function LeadLen(s: string): nat {
    |s| - |TrimStart(s)|
  }

  predicate StartsWith(s: string, c: char) {
    s != "" && s[0] == c
  }

  // ---- the line classes the config editors share ----

  predicate IsBlank(l: string) {
    Trim(l) == ""
  }

  predicate IsComment(l: string) {
    StartsWith(TrimStart(l), '#')
  }

  lemma BlankIsAllWhite(l: string)
    ensures IsBlank(l) <==> TrimStart(l) == ""
  {
    hide IsWhite, TrimStart, TrimEnd;
    TrimStartFacts(l);
    TrimStartFacts(TrimEnd(l));
    TrimEndFacts(l);
    if AllWhite(TrimEnd(l)) {
      assert l == TrimEnd(l) + l[|TrimEnd(l)|..];
      assert AllWhite(l);
    }
    assert AllWhite(l) ==> AllWhite(l[..|TrimEnd(l)|]);
  }

  lemma CommentIsNotBlank(l: string)
    ensures IsComment(l) ==> !IsBlank(l)
  {
    BlankIsAllWhite(l);
  }

  // ---- UTF-8 ----

  function Utf8Len(c: char): (n: nat)
    ensures 1 <= n <= 4
  {
    var code := c as int;
    if code < 0x80 then 1 else if code < 0x800 then 2 else if code < 0x1_0000 then 3 else 4
  }

  /** Encoded in UTF-8, a character up to U+007F takes one byte, up to U+07FF two, up to U+FFFF three. */
  lemma Utf8LenIs(c: char)
    ensures Utf8Len(c) == 1 <==> c <= '\U{007F}'
    ensures Utf8Len(c) <= 2 <==> c <= '\U{07FF}'
    ensures Utf8Len(c) <= 3 <==> c <= '\U{FFFF}'
  {
  }

  /** The number of bytes of a string. */
  function ByteLen(s: string): (n: nat)
    ensures n >= |s|
  {
    if s == "" then 0 else Utf8Len(s[0]) + ByteLen(s[1..])
  }

  lemma {:induction false} ByteLenAppend(s: string, t: string)
    ensures ByteLen(s + t) == ByteLen(s) + ByteLen(t)
  {
    if s == "" {
      assert s + t == t;
    } else {
      ByteLenAppend(s[1..], t);
      assert (s + t)[1..] == s[1..] + t;
    }
  }

  // ---- lines ----

  const NL := "\n"
  const CRLF := "\r\n"

  /** The index of the first `c`, or the length when there is none. */
  function IndexOf(s: string, c: char): (i: nat)
    ensures i <= |s|
    ensures forall k :: 0 <= k < i ==> s[k] != c
    ensures i < |s| ==> s[i] == c
  {
    if s == "" || s[0] == c then 0 else 1 + IndexOf(s[1..], c)
  }

  predicate EndsWithNewline(s: string) {
    s != "" && s[|s| - 1] == '\n'
  }

  function StripCr(s: string): string {
    if s != "" && s[|s| - 1] == '\r' then s[..|s| - 1] else s
  }

  /** `str::lines`: a final line without a newline keeps its bytes. */
  function Lines(s: string): seq<string>
    decreases |s|
  {
    if s == "" then []
    else
      var i := IndexOf(s, '\n');
      if i == |s| then [s] else [StripCr(s[..i])] + Lines(s[i + 1..])
  }

  function Join(lines: seq<string>, newline: string): string {
    if lines == [] then ""
    else if |lines| == 1 then lines[0]
    else lines[0] + newline + Join(lines[1..], newline)
  }

  predicate ContainsCrlf(s: string) {
    exists i :: 0 <= i < |s| - 1 && s[i] == '\r' && s[i + 1] == '\n'
  }

  /** A text as its lines, its newline style, and whether it ends in a newline. */
  datatype Doc = Doc(lines: seq<string>, crlf: bool, ends: bool)

  function Split(text: string): Doc {
    Doc(Lines(text), ContainsCrlf(text), EndsWithNewline(text))
  }

  function Newline(d: Doc): string {
    if d.crlf then CRLF else NL
  }

  function Unsplit(d: Doc): string {
    Join(d.lines, Newline(d)) + if d.ends then Newline(d) else ""
  }

  /** No carriage return outside a CRLF pair. */
  predicate NoLoneCr(text: string) {
    forall i :: 0 <= i < |text| && text[i] == '\r' ==> i + 1 < |text| && text[i + 1] == '\n'
  }

  predicate PlainLine(l: string) {
    '\n' !in l && '\r' !in l
  }

  lemma {:induction false} LinesArePlain(text: string)
    requires NoLoneCr(text)
    ensures forall l :: l in Lines(text) ==> PlainLine(l)
    decreases |text|
  {
    if text != "" {
      var i := IndexOf(text, '\n');
      forall k | 0 <= k < i - 1
        ensures text[k] != '\r'
      {
        assert text[k + 1] != '\n';
      }
      if i == |text| {
        assert i > 0 ==> text[i - 1] != '\r';
      } else {
        var rest := text[i + 1..];
        assert forall k :: 0 <= k < |rest| ==> rest[k] == text[i + 1 + k];
        LinesArePlain(rest);
        assert PlainLine(StripCr(text[..i]));
      }
    }
  }

  lemma CrsStripped(line: string, k: nat)
    requires PlainLine(StripCr(line)) && k < |line| && line[k] == '\r'
    ensures k == |line| - 1
  {
    assert forall j :: 0 <= j < |StripCr(line)| ==> StripCr(line)[j] == line[j];
  }

  lemma NoLoneCrAbove(text: string, i: nat)
    requires i < |text| && text[i] == '\n' && PlainLine(StripCr(text[..i])) && NoLoneCr(text[i + 1..])
    ensures NoLoneCr(text)
  {
    hide StripCr, PlainLine;
    var first, rest := text[..i], text[i + 1..];
    forall k | 0 <= k < |text| && text[k] == '\r'
      ensures k + 1 < |text| && text[k + 1] == '\n'
    {
      if k < i {
        CrsStripped(first, k);
      } else {
        assert rest[k - i - 1] == text[k];
        assert rest[k - i] == text[k + 1];
      }
    }
  }

  lemma LinesStep(text: string)
    requires text != ""
    ensures var i := IndexOf(text, '\n');
            Lines(text) == if i == |text| then [text] else [StripCr(text[..i])] + Lines(text[i + 1..])
  {
    hide StripCr, IndexOf;
  }

  /** There is no lone carriage return exactly where none is left inside the lines. */
  lemma {:induction false} NoLoneCrIff(text: string)
    ensures NoLoneCr(text) <==> forall l :: l in Lines(text) ==> PlainLine(l)
    decreases |text|
  {
    hide PlainLine, NoLoneCr, StripCr, Lines, IndexOf;
    if NoLoneCr(text) { LinesArePlain(text); }
    if text == "" {
      PlainHasNoLoneCr(text);
    } else if forall l :: l in Lines(text) ==> PlainLine(l) {
      var i := IndexOf(text, '\n');
      LinesStep(text);
      if i == |text| {
        assert text in Lines(text);
        PlainHasNoLoneCr(text);
      } else {
        assert StripCr(text[..i]) in Lines(text);
        assert forall l :: l in Lines(text[i + 1..]) ==> l in Lines(text);
        NoLoneCrIff(text[i + 1..]);
        NoLoneCrAbove(text, i);
      }
    }
  }

  lemma PlainHasNoLoneCr(l: string)
    ensures l == "" || PlainLine(l) ==> NoLoneCr(l)
  {
  }

  /** What follows the first line and its newline. */
  function Tail(d: Doc): string
    requires d.lines != []
  {
    if |d.lines| == 1 then "" else Unsplit(d.(lines := d.lines[1..]))
  }

  lemma UnsplitStep(d: Doc)
    requires d.lines != []
    requires |d.lines| > 1 || d.ends
    ensures Unsplit(d) == d.lines[0] + Newline(d) + Tail(d)
  {
  }

  /** Splitting undoes joining: a document of plain lines whose last line is not an empty
      unterminated one comes back as it was, up to a newline style it has no use for. */
  lemma {:induction false} SplitUnsplit(d: Doc)
    requires d.lines != []
    requires forall l :: l in d.lines ==> PlainLine(l)
    requires d.ends || d.lines[|d.lines| - 1] != ""
    ensures Lines(Unsplit(d)) == d.lines
    ensures EndsWithNewline(Unsplit(d)) == d.ends
    ensures ContainsCrlf(Unsplit(d)) <==> d.crlf && (|d.lines| > 1 || d.ends)
    decreases |d.lines|
  {
    hide Lines, ContainsCrlf;
    var line, tail := d.lines[0], Tail(d);
    assert PlainLine(line);
    if |d.lines| == 1 && !d.ends {
      OneLine(line);
      assert Unsplit(d) == line;
      assert d.lines == [line];
    } else {
      UnsplitStep(d);
      FirstLine(line, d.crlf, tail);
      CrlfOfParts(line, d.crlf, tail);
      EndOfParts(line + Newline(d), tail);
      EmptyText();
      if |d.lines| > 1 {
        var rest := d.(lines := d.lines[1..]);
        UnsplitNonEmpty(rest);
        SplitUnsplit(rest);
      }
    }
  }

  lemma EmptyText()
    ensures Lines("") == [] && !ContainsCrlf("") && !EndsWithNewline("")
  {
  }

  lemma OneLine(line: string)
    requires PlainLine(line) && line != ""
    ensures Lines(line) == [line] && !EndsWithNewline(line) && !ContainsCrlf(line)
  {
    assert forall k :: 0 <= k < |line| ==> line[k] in line;
  }

  lemma EndOfParts(head: string, tail: string)
    ensures tail != "" ==> (EndsWithNewline(head + tail) <==> EndsWithNewline(tail))
    ensures tail == "" ==> head + tail == head
  {
  }

  lemma {:induction false} UnsplitNonEmpty(d: Doc)
    requires d.lines != []
    requires d.ends || d.lines[|d.lines| - 1] != ""
    ensures Unsplit(d) != ""
  {
  }

  lemma FirstLine(line: string, crlf: bool, tail: string)
    requires PlainLine(line)
    ensures Lines(line + (if crlf then CRLF else NL) + tail) == [line] + Lines(tail)
  {
    var nl := if crlf then CRLF else NL;
    var text := line + nl + tail;
    var i := |line| + |nl| - 1;
    assert text[i] == '\n';
    assert forall k :: 0 <= k < i ==> text[k] != '\n';
    assert IndexOf(text, '\n') == i;
    assert text[i + 1..] == tail;
    assert text[..i] == if crlf then line + "\r" else line;
    assert StripCr(text[..i]) == line;
  }

  lemma CrlfOfParts(line: string, crlf: bool, tail: string)
    requires PlainLine(line)
    ensures ContainsCrlf(line + (if crlf then CRLF else NL) + tail) <==> crlf || ContainsCrlf(tail)
  {
    var nl := if crlf then CRLF else NL;
    var text := line + nl + tail;
    var n := |line| + |nl|;
    if crlf {
      assert text[|line|] == '\r' && text[|line| + 1] == '\n';
    } else {
      assert text[|line|] == '\n';
      if ContainsCrlf(tail) {
        var i :| 0 <= i < |tail| - 1 && tail[i] == '\r' && tail[i + 1] == '\n';
        assert text[n + i] == '\r' && text[n + i + 1] == '\n';
      }
      assert forall k :: 0 <= k < |line| ==> text[k] == line[k];
      if ContainsCrlf(text) {
        var i :| 0 <= i < |text| - 1 && text[i] == '\r' && text[i + 1] == '\n';
        assert tail[i - n] == '\r' && tail[i - n + 1] == '\n';
      }
    }
  }
}
