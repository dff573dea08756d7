/**
 The two fence scanners on whole texts: what each cuts into lines, and which lines of the text both keep.
 */
module FenceTexts {
  import opened Prelude
  import opened Text
  import opened Fences

  // ---- Python's lines ----

  /** Where Python's `splitlines` cuts; Rust's `lines` cuts at the line feed only. */
  predicate IsPyBreak(c: char) {
    || '\U{000A}' <= c <= '\U{000D}' || '\U{001C}' <= c <= '\U{001E}'
    || c == '\U{0085}' || c == '\U{2028}' || c == '\U{2029}'
  }

  lemma BreaksAreListed(c: char)
    ensures IsPyBreak(c) <==>
            c in ['\n', '\U{000B}', '\U{000C}', '\r', '\U{001C}', '\U{001D}', '\U{001E}', '\U{0085}', '\U{2028}',
              '\U{2029}']
  {
  }

  predicate Unbroken(s: string) {
    forall i :: 0 <= i < |s| ==> !IsPyBreak(s[i])
  }

  function BreakAt(s: string): (i: nat)
    ensures i <= |s| && Unbroken(s[..i])
    ensures i < |s| ==> IsPyBreak(s[i])
  {
    if s == "" || IsPyBreak(s[0]) then 0
    else
      var i := BreakAt(s[1..]);
      assert s[..i + 1] == [s[0]] + s[1..][..i];
      i + 1
  }

  /** A carriage return and its line feed are one break. */
  predicate IsCrlfAt(s: string, i: nat) {
    i + 1 < |s| && s[i] == '\r' && s[i + 1] == '\n'
  }

  /** `str.splitlines` */
  function PyLines(s: string): seq<string>
    decreases |s|
  {
    if s == "" then []
    else
      var i := BreakAt(s);
      if i == |s| then [s] else [s[..i]] + PyLines(s[if IsCrlfAt(s, i) then i + 2 else i + 1..])
  }

  // ---- the scanners on texts ----

  function RustKept(text: string): seq<string> {
    KeptLines(Lines(text), IsWhite)
  }

  function PyKept(text: string): seq<string> {
    KeptLines(PyLines(text), IsPyWhite)
  }

  method WithoutFencedBlocks(text: string) returns (out: string)
    ensures out == Join(PyKept(text), "\n")
  {
    var kept := PythonOutside(PyLines(text));
    out := Join(kept, "\n");
  }

  // ---- where they agree ----

  /** The breaks only Python knows, and the one character that may stand in its lines and is white for it alone. */
  predicate IsForeign(c: char) {
    c == '\U{001F}' || (IsPyBreak(c) && c != '\n' && c != '\r')
  }

  lemma ForeignIsListed(c: char)
    ensures IsForeign(c) <==>
            c in ['\U{000B}', '\U{000C}', '\U{001C}', '\U{001D}', '\U{001E}', '\U{001F}', '\U{0085}', '\U{2028}',
              '\U{2029}']
  {
  }

  /** A carriage return is foreign unless a line feed follows it. */
  predicate ForeignAt(text: string, i: nat)
    requires i < |text|
  {
    if text[i] == '\r' then !IsCrlfAt(text, i) else IsForeign(text[i])
  }

  predicate Common(text: string) {
    forall i :: 0 <= i < |text| ==> !ForeignAt(text, i)
  }

  lemma CommonTail(text: string, n: nat)
    requires Common(text) && n <= |text|
    ensures Common(text[n..])
  {
    forall i | 0 <= i < |text[n..]|
      ensures !ForeignAt(text[n..], i)
    {
      assert !ForeignAt(text, n + i);
    }
  }

  lemma {:induction false} BreakIs(s: string, i: nat)
    requires i <= |s| && (forall k :: 0 <= k < i ==> !IsPyBreak(s[k])) && (i < |s| ==> IsPyBreak(s[i]))
    ensures BreakAt(s) == i
  {
    if i > 0 {
      assert forall k :: 0 <= k < i - 1 ==> s[1..][k] == s[k + 1];
      BreakIs(s[1..], i - 1);
    }
  }

  lemma NoBreakBefore(text: string, i: nat)
    requires Common(text) && i <= |text| && '\n' !in text[..i] &&
             (i < |text| && text[i] == '\n' ==> i == 0 || text[i - 1] != '\r')
    ensures forall k :: 0 <= k < i ==> !IsPyBreak(text[k])
  {
    forall k | 0 <= k < i
      ensures !IsPyBreak(text[k])
    {
      assert !ForeignAt(text, k) && text[..i][k] == text[k];
      assert k + 1 < i ==> text[..i][k + 1] == text[k + 1];
    }
  }

  lemma StrippedTo(text: string, j: nat, i: nat)
    requires j <= |text| && i == if 0 < j && text[j - 1] == '\r' then j - 1 else j
    ensures StripCr(text[..j]) == text[..i]
  {
  }

  /** The break of the first line, as Python and as Rust see it. */
  lemma FirstBreak(text: string)
    requires Common(text) && IndexOf(text, '\n') < |text|
    ensures var i, j := BreakAt(text), IndexOf(text, '\n');
            i < |text| && text[..i] == StripCr(text[..j]) && (if IsCrlfAt(text, i) then i + 2 else i + 1) == j + 1
  {
    hide Common, ForeignAt, IsPyBreak, StripCr, BreakAt, IndexOf;
    var j := IndexOf(text, '\n');
    var i := if 0 < j && text[j - 1] == '\r' then j - 1 else j;
    StrippedTo(text, j, i);
    NoBreakBefore(text, i);
    assert IsPyBreak('\n') && IsPyBreak('\r') by { Breaks(); }
    BreakIs(text, i);
  }

  lemma Breaks()
    ensures IsPyBreak('\n') && IsPyBreak('\r')
  {
  }

  lemma NoBreak(text: string)
    requires Common(text) && IndexOf(text, '\n') == |text|
    ensures BreakAt(text) == |text|
  {
    assert text[..|text|] == text;
    NoBreakBefore(text, |text|);
    BreakIs(text, |text|);
  }

  lemma {:induction false} SameLines(text: string)
    requires Common(text)
    ensures PyLines(text) == Lines(text)
    decreases |text|
  {
    hide Common, IsPyBreak, StripCr, BreakAt, IndexOf, IsCrlfAt;
    if text != "" {
      var j := IndexOf(text, '\n');
      if j < |text| {
        FirstBreak(text);
        CommonTail(text, j + 1);
        SameLines(text[j + 1..]);
      } else {
        NoBreak(text);
      }
    }
  }

  lemma {:induction false} PlainInside(text: string)
    requires '\U{001F}' !in text
    ensures forall l :: l in PyLines(text) ==> !HasSeparator(l)
    decreases |text|
  {
    if text != "" {
      var i := BreakAt(text);
      PieceIsPlain(text, i);
      if i < |text| {
        PlainInside(text[if IsCrlfAt(text, i) then i + 2 else i + 1..]);
      } else {
        assert text[..i] == text;
      }
    }
  }

  lemma PieceIsPlain(text: string, i: nat)
    requires '\U{001F}' !in text && i <= |text| && Unbroken(text[..i])
    ensures !HasSeparator(text[..i])
  {
    forall k | 0 <= k < i
      ensures !('\U{001C}' <= text[..i][k] <= '\U{001F}')
    {
      assert text[..i][k] == text[k];
    }
  }

  lemma CommonLinesAgree(lines: seq<string>)
    requires forall l :: l in lines ==> !HasSeparator(l)
    ensures KeptLines(lines, IsWhite) == KeptLines(lines, IsPyWhite)
  {
    forall i | 0 <= i < |lines|
      ensures Undisputed(lines[i])
    {
      NoSeparatorNoDispute(lines[i]);
    }
    AgreeOnUndisputed(lines);
  }

  /** Both scanners keep the same lines of every text without foreign characters. */
  lemma CommonTextsAgree(text: string)
    requires Common(text)
    ensures RustKept(text) == PyKept(text)
  {
    hide Lines, PyLines, KeptLines, HasSeparator;
    forall i | 0 <= i < |text|
      ensures text[i] != '\U{001F}'
    {
      assert !ForeignAt(text, i);
    }
    SameLines(text);
    PlainInside(text);
    CommonLinesAgree(Lines(text));
  }

  // ---- and where they do not ----

  lemma OnePyLine(a: string, c: char, rest: string)
    requires Unbroken(a) && IsPyBreak(c) && (c == '\r' && rest != "" ==> rest[0] != '\n')
    ensures PyLines(a + [c] + rest) == [a] + PyLines(rest)
  {
    var s := a + [c] + rest;
    assert forall k :: 0 <= k < |a| ==> s[k] == a[k];
    BreakIs(s, |a|);
    assert s[|a|] == c && s[..|a|] == a && s[|a| + 1..] == rest;
    assert rest != "" ==> s[|a| + 1] == rest[0];
  }

  lemma LastPyLine(a: string)
    requires a != "" && Unbroken(a)
    ensures PyLines(a) == [a]
  {
    BreakIs(a, |a|);
  }

  lemma OneLineMore(a: string, rest: string)
    requires '\n' !in a && (a == "" || a[|a| - 1] != '\r')
    ensures Lines(a + "\n" + rest) == [a] + Lines(rest)
  {
    var s := a + "\n" + rest;
    assert s[|a|] == '\n';
    assert forall k :: 0 <= k < |a| ==> s[k] == a[k] && a[k] in a;
    assert IndexOf(s, '\n') == |a|;
    assert s[..|a|] == a && s[|a| + 1..] == rest && StripCr(a) == a;
  }

  lemma LastLine(a: string)
    requires a != "" && '\n' !in a
    ensures Lines(a) == [a]
  {
    assert forall k :: 0 <= k < |a| ==> a[k] in a;
    assert IndexOf(a, '\n') == |a|;
  }

  lemma PlainStart(line: string, white: char -> bool)
    requires line != "" && !white(line[0]) && !IsFenceChar(line[0])
    ensures MarkerOf(line, white) == None
  {
  }

  /** Text before a break that only Python knows, then a fence. */
  function HiddenFence(c: char): string {
    "a" + [c] + "```\nx"
  }

  /** A fence closed by a line with such a character after it. */
  function LooseCloser(c: char): string {
    "```\n```" + [c] + "\nx"
  }

  lemma OutsideOfTwo(ms: seq<Option<Marker>>)
    requires ms == [None, None]
    ensures Outside(ms, 0) == [0, 1]
  {
    assert Outside(ms, 2) == [] && Outside(ms, 1) == [1];
  }

  lemma OutsideBefore(ms: seq<Option<Marker>>, m: Marker)
    requires ms == [None, Some(m), None]
    ensures Outside(ms, 0) == [0]
  {
    assert Closer(ms, 3, m) == 3 && Closer(ms, 2, m) == 3;
    assert Outside(ms, 1) == [];
  }

  lemma OutsideAfter(ms: seq<Option<Marker>>, first: Marker, second: Marker)
    requires ms == [Some(first), Some(second), None]
    requires second.fence == first.fence && second.run == first.run
    ensures Outside(ms, 0) == if second.info then [] else [2]
  {
    assert Closer(ms, 3, first) == 3 && Closer(ms, 2, first) == 3;
    assert Closer(ms, 1, first) == if second.info then 3 else 1;
    assert Outside(ms, 3) == [] && Outside(ms, 2) == [2];
  }

  lemma OneKept(lines: seq<string>, i: nat)
    requires i < |lines|
    ensures At(lines, [i]) == [lines[i]]
  {
    AtSnoc(lines, [], i);
    assert [] + [i] == [i];
  }

  lemma RustMissesFence(c: char)
    requires c != '\n'
    ensures RustKept(HiddenFence(c)) == ["a" + [c] + "```", "x"]
  {
    var first := "a" + [c] + "```";
    RustHiddenLines(c);
    PlainStart(first, IsWhite);
    PlainStart("x", IsWhite);
    hide MarkerOf, Outside, At, Lines;
    var lines := [first, "x"];
    OutsideOfTwo(Markers(lines, IsWhite));
    OneKept(lines, 0);
    AtSnoc(lines, [0], 1);
    assert [0] + [1] == [0, 1];
  }

  lemma RustHiddenLines(c: char)
    requires c != '\n'
    ensures Lines(HiddenFence(c)) == ["a" + [c] + "```", "x"]
  {
    hide Lines;
    assert HiddenFence(c) == "a" + [c] + "```" + "\n" + "x";
    OneLineMore("a" + [c] + "```", "x");
    LastLine("x");
  }

  lemma PythonHiddenLines(c: char)
    requires IsPyBreak(c)
    ensures PyLines(HiddenFence(c)) == ["a", "```", "x"]
  {
    hide PyLines;
    assert HiddenFence(c) == "a" + [c] + ("```" + ['\n'] + "x");
    OnePyLine("a", c, "```" + ['\n'] + "x");
    OnePyLine("```", '\n', "x");
    LastPyLine("x");
    assert ["a"] + (["```"] + ["x"]) == ["a", "```", "x"];
  }

  lemma PythonSeesFence(c: char)
    requires IsPyBreak(c)
    ensures PyKept(HiddenFence(c)) == ["a"]
  {
    hide MarkerOf, Outside, At, PyLines, HiddenFence, IsPyBreak;
    PythonHiddenLines(c);
    PlainStart("a", IsPyWhite);
    BareFence(IsPyWhite);
    PlainStart("x", IsPyWhite);
    var lines := ["a", "```", "x"];
    OutsideBefore(Markers(lines, IsPyWhite), Marker('`', 3, false));
    OneKept(lines, 0);
  }

  lemma BareFence(white: char -> bool)
    requires !white('`')
    ensures MarkerOf("```", white) == Some(Marker('`', 3, false))
  {
    BacktickMarker("", white);
    assert "```" + "" == "```";
  }

  lemma CloserKept(c: char, white: char -> bool)
    requires c != '`' && !white('`') && !white('x')
    ensures KeptLines(["```", "```" + [c], "x"], white) == if white(c) then ["x"] else []
  {
    BareFence(white);
    BacktickMarker([c], white);
    assert OnlyWhite([c], white) == white(c) by { assert [c][0] == c; }
    PlainStart("x", white);
    hide MarkerOf, Outside, At;
    var lines := ["```", "```" + [c], "x"];
    OutsideAfter(Markers(lines, white), Marker('`', 3, false), Marker('`', 3, !white(c)));
    OneKept(lines, 2);
    assert At(lines, []) == [] by { NoneKept(lines); }
  }

  lemma NoneKept(lines: seq<string>)
    ensures At(lines, []) == []
  {
  }

  lemma CloserRustLines(c: char)
    requires !IsPyBreak(c)
    ensures Lines(LooseCloser(c)) == ["```", "```" + [c], "x"]
  {
    hide Lines;
    var second := "```" + [c];
    assert LooseCloser(c) == "```" + "\n" + (second + "\n" + "x");
    OneLineMore("```", second + "\n" + "x");
    OneLineMore(second, "x");
    LastLine("x");
    assert ["```"] + ([second] + ["x"]) == ["```", second, "x"];
  }

  lemma CloserPythonLines(c: char)
    requires !IsPyBreak(c)
    ensures PyLines(LooseCloser(c)) == ["```", "```" + [c], "x"]
  {
    hide PyLines;
    var second := "```" + [c];
    assert LooseCloser(c) == "```" + ['\n'] + (second + ['\n'] + "x");
    OnePyLine("```", '\n', second + ['\n'] + "x");
    OnePyLine(second, '\n', "x");
    LastPyLine("x");
    assert ["```"] + ([second] + ["x"]) == ["```", second, "x"];
  }

  /** Only `c` is foreign in the text. */
  ghost predicate OnlyForeign(c: char, text: string) {
    forall i :: 0 <= i < |text| && ForeignAt(text, i) ==> text[i] == c
  }

  /** Can `c` be foreign at all? A carriage return can. */
  predicate CanBeForeign(c: char) {
    c == '\r' || IsForeign(c)
  }

  function Dispute(c: char): string {
    if c == '\U{001F}' then LooseCloser(c) else HiddenFence(c)
  }

  lemma OnlyOneForeign(c: char)
    ensures OnlyForeign(c, Dispute(c))
  {
    forall i | 0 <= i < |Dispute(c)| && ForeignAt(Dispute(c), i)
      ensures Dispute(c)[i] == c
    {
      if c == '\U{001F}' {
        assert LooseCloser(c)[i] in ['`', '\n', c, 'x'];
      } else {
        assert HiddenFence(c)[i] in ['a', c, '`', '\n', 'x'];
      }
    }
  }

  /** Python drops a line that Rust keeps, or keeps one that Rust drops. */
  lemma DisputeShows(c: char)
    requires CanBeForeign(c)
    ensures RustKept(Dispute(c)) != PyKept(Dispute(c))
  {
    hide KeptLines, Lines, PyLines;
    if c == '\U{001F}' {
      CloserRustLines(c);
      CloserPythonLines(c);
      CloserKept(c, IsWhite);
      CloserKept(c, IsPyWhite);
    } else {
      RustMissesFence(c);
      PythonSeesFence(c);
      assert |RustKept(Dispute(c))| == 2 && |PyKept(Dispute(c))| == 1;
    }
  }

  /** The foreign characters are exactly those that can tell the scanners apart. */
  lemma AgreeIffNotForeign(c: char)
    ensures (forall text :: OnlyForeign(c, text) ==> RustKept(text) == PyKept(text)) <==> !CanBeForeign(c)
  {
    if CanBeForeign(c) {
      OnlyOneForeign(c);
      DisputeShows(c);
    } else {
      forall text | OnlyForeign(c, text)
        ensures RustKept(text) == PyKept(text)
      {
        assert forall i :: 0 <= i < |text| ==> !ForeignAt(text, i);
        CommonTextsAgree(text);
      }
    }
  }

  // ---- on files ----

  /** What the script's `read` makes of a file's text: every carriage return is a line feed, with the line feed
      that follows it, if one does. */
  function ReadText(file: string): string
    decreases |file|
  {
    if file == "" then ""
    else if file[0] == '\r' then "\n" + ReadText(file[if IsCrlfAt(file, 0) then 2 else 1..])
    else [file[0]] + ReadText(file[1..])
  }

  /** The character that a break is read as. */
  function BreakRead(c: char): char {
    if c == '\r' then '\n' else c
  }

  /** What is left behind a break. */
  function Behind(s: string, i: nat): string
    requires i < |s|
  {
    s[if IsCrlfAt(s, i) then i + 2 else i + 1..]
  }

  lemma ReadFirst(file: string)
    requires file != ""
    ensures ReadText(file) == [BreakRead(file[0])] + ReadText(if file[0] == '\r' then Behind(file, 0) else file[1..])
  {
  }

  lemma {:induction false} ReadUpTo(file: string, i: nat)
    requires i <= |file| && '\r' !in file[..i]
    ensures ReadText(file) == file[..i] + ReadText(file[i..])
  {
    hide ReadText, Behind;
    if i > 0 {
      assert file[0] == file[..i][0] && file[1..][i - 1..] == file[i..] && file[..i][1..] == file[1..][..i - 1];
      ReadFirst(file);
      ReadUpTo(file[1..], i - 1);
      assert file[..i] == [file[0]] + file[1..][..i - 1];
    } else {
      assert file[0..] == file;
    }
  }

  lemma NoReturn(s: string)
    requires Unbroken(s)
    ensures '\r' !in s
  {
  }

  lemma BehindBreak(file: string, i: nat)
    requires i < |file| && IsPyBreak(file[i])
    ensures Behind(file, i) == if file[i] == '\r' then Behind(file[i..], 0) else file[i..][1..]
  {
  }

  lemma ReadBreak(file: string, i: nat)
    requires i < |file| && Unbroken(file[..i]) && IsPyBreak(file[i])
    ensures ReadText(file) == file[..i] + [BreakRead(file[i])] + ReadText(Behind(file, i))
  {
    hide ReadText, IsPyBreak, BreakRead, Unbroken, Behind;
    NoReturn(file[..i]);
    ReadUpTo(file, i);
    ReadFirst(file[i..]);
    BehindBreak(file, i);
    assert file[..i] + ([BreakRead(file[i])] + ReadText(Behind(file, i))) ==
           file[..i] + [BreakRead(file[i])] + ReadText(Behind(file, i));
  }

  /** Translating the newlines does not change where `splitlines` cuts. */
  lemma {:induction false} ReadKeepsLines(file: string)
    ensures PyLines(ReadText(file)) == PyLines(file)
    decreases |file|
  {
    hide IsPyBreak, ReadText, Unbroken;
    if file != "" {
      var i := BreakAt(file);
      if i < |file| {
        var rest := Behind(file, i);
        ReadBreak(file, i);
        ReadKeepsLines(rest);
        BreakReadIsBreak(file[i]);
        OnePyLine(file[..i], BreakRead(file[i]), ReadText(rest));
      } else {
        ReadWhole(file);
      }
    } else {
      NothingRead();
    }
  }

  lemma BreakReadIsBreak(c: char)
    requires IsPyBreak(c)
    ensures IsPyBreak(BreakRead(c)) && BreakRead(c) != '\r'
  {
  }

  lemma NothingRead()
    ensures ReadText("") == ""
  {
  }

  lemma ReadWhole(file: string)
    requires Unbroken(file[..|file|])
    ensures ReadText(file) == file
  {
    assert file[..|file|] == file && file[|file|..] == "";
    NoReturn(file);
    ReadUpTo(file, |file|);
  }

  /** On files: the foreign characters are exactly those that can tell the scanners apart. */
  lemma FilesAgreeIffNotForeign(c: char)
    ensures (forall file :: OnlyForeign(c, file) ==> RustKept(file) == PyKept(ReadText(file))) <==> !CanBeForeign(c)
  {
    hide ReadText, RustKept, OnlyForeign;
    forall file: string
      ensures PyKept(ReadText(file)) == PyKept(file)
    {
      ReadKeepsLines(file);
    }
    AgreeIffNotForeign(c);
  }
}
