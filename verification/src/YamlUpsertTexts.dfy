/** Adding or replacing `parent.key` in a whole text: what splitting the result gives back. */
module YamlUpsertTexts {
  import opened Text
  import opened YamlLines
  import opened YamlEdit
  import opened YamlLaws
  import opened YamlUpsert
  import opened YamlTexts

  function NewlineOf(text: string): string {
    if ContainsCrlf(text) then CRLF else NL
  }

  /** A block at the end of the text, on a line of its own. */
  function AppendBlock(text: string, parent: string, key: string, value: string): string {
    var nl := NewlineOf(text);
    (if text == "" || EndsWithNewline(text) then text else text + nl) +
      (parent + ":" + nl + (KeyLine(2, key, value) + nl))
  }

  /** The parent has no line of its own, so the source appends a block to the text as it is. */
  predicate Appends(lines: seq<Line>, parent: string, key: string) {
    FindHeader(lines, 0, parent).None? && LocateTop(lines, [parent, key]).None?
  }

  function UpsertText(text: string, parent: string, key: string, value: string): string {
    var lines := ReadAll(Lines(text));
    if Appends(lines, parent, key) then AppendBlock(text, parent, key, value)
    else Unsplit(Split(text).(lines := Texts(UpsertChild(lines, parent, key, value))))
  }

  // ---- appending to a text ----

  lemma {:induction false} LinesOfConcat(a: string, b: string)
    requires a == "" || EndsWithNewline(a)
    ensures Lines(a + b) == Lines(a) + Lines(b)
    decreases |a|
  {
    hide Lines;
    if a == "" {
      EmptyText();
      assert a + b == b;
    } else {
      var i := FirstNewline(a, b);
      LinesOfConcat(a[i + 1..], b);
    }
  }

  /** The first line of `a` is the first line of `a + b`. */
  lemma FirstNewline(a: string, b: string) returns (i: nat)
    requires '\n' in a
    ensures i < |a| && a[i] == '\n' && (a[i + 1..] == "" || EndsWithNewline(a[i + 1..]) == EndsWithNewline(a))
    ensures Lines(a) == [StripCr(a[..i])] + Lines(a[i + 1..])
    ensures Lines(a + b) == [StripCr(a[..i])] + Lines(a[i + 1..] + b)
  {
    i := IndexOf(a, '\n');
    assert forall k :: 0 <= k < i ==> (a + b)[k] == a[k];
    SameIndex(a, b, i);
    assert (a + b)[..i] == a[..i] && (a + b)[i + 1..] == a[i + 1..] + b;
  }

  lemma {:induction false} SameIndex(a: string, b: string, i: nat)
    requires IndexOf(a, '\n') == i < |a|
    ensures IndexOf(a + b, '\n') == i
  {
    if i > 0 {
      assert (a + b)[1..] == a[1..] + b;
      SameIndex(a[1..], b, i - 1);
    }
  }

  lemma TailHasNoLoneCr(text: string, n: nat)
    requires NoLoneCr(text) && n <= |text|
    ensures NoLoneCr(text[n..])
  {
    forall i | 0 <= i < |text[n..]| && text[n..][i] == '\r'
      ensures i + 1 < |text[n..]| && text[n..][i + 1] == '\n'
    {
      assert text[n + i] == '\r';
    }
  }

  lemma OneUnendedLine(text: string)
    requires NoLoneCr(text) && '\n' !in text
    ensures PlainLine(text)
  {
    forall i | 0 <= i < |text| - 1
      ensures text[i] != '\r'
    {
      assert text[i + 1] in text;
    }
  }

  lemma {:induction false} LinesOfUnended(text: string, crlf: bool, b: string)
    requires NoLoneCr(text) && text != "" && !EndsWithNewline(text)
    ensures Lines(text + ((if crlf then CRLF else NL) + b)) == Lines(text) + Lines(b)
    decreases |text|
  {
    hide NoLoneCr, Lines, PlainLine;
    var nl := if crlf then CRLF else NL;
    if '\n' in text {
      var i := FirstNewline(text, nl + b);
      TailHasNoLoneCr(text, i + 1);
      TailUnended(text, i);
      LinesOfUnended(text[i + 1..], crlf, b);
    } else {
      OneUnendedLine(text);
      OneLine(text);
      FirstLine(text, crlf, b);
      assert text + (nl + b) == text + nl + b;
    }
  }

  lemma TailUnended(text: string, i: nat)
    requires i < |text| && text[i] == '\n' && !EndsWithNewline(text)
    ensures text[i + 1..] != "" && !EndsWithNewline(text[i + 1..])
  {
  }

  lemma PlainChild(indent: nat, key: string, value: string)
    requires PlainLine(key) && PlainLine(value)
    ensures PlainLine(key + ":") && PlainLine(KeyLine(indent, key, value))
    ensures key + ":" != "" && KeyLine(indent, key, value) != ""
  {
    hide PlainLine;
    PlainMarks();
    PlainSpaces(indent);
    PlainParts(key, ":");
    PlainParts(" ", value);
    PlainParts(key + ":", " " + value);
    PlainParts(Spaces(indent), key + ":" + (" " + value));
  }

  lemma PlainSpaces(n: nat)
    ensures PlainLine(Spaces(n))
  {
  }

  lemma TwoLines(first: string, second: string, crlf: bool)
    requires PlainLine(first) && PlainLine(second)
    ensures var nl := if crlf then CRLF else NL; Lines(first + nl + (second + nl)) == [first, second]
  {
    hide Lines, PlainLine;
    var nl := if crlf then CRLF else NL;
    FirstLine(first, crlf, second + nl);
    FirstLine(second, crlf, "");
    assert second + nl + "" == second + nl;
    EmptyText();
  }

  /** The appended text has the old lines, then the two of the block, and ends in a newline. */
  lemma AppendedLines(text: string, parent: string, key: string, value: string)
    requires NoLoneCr(text) && PlainLine(parent) && PlainLine(key) && PlainLine(value)
    ensures Lines(AppendBlock(text, parent, key, value)) == Lines(text) + [parent + ":", KeyLine(2, key, value)]
    ensures EndsWithNewline(AppendBlock(text, parent, key, value))
  {
    hide Lines, PlainLine, NoLoneCr, KeyLine, ContainsCrlf;
    var nl := NewlineOf(text);
    var added := parent + ":" + nl + (KeyLine(2, key, value) + nl);
    PlainChild(2, parent, value);
    PlainChild(2, key, value);
    TwoLines(parent + ":", KeyLine(2, key, value), ContainsCrlf(text));
    if text == "" || EndsWithNewline(text) {
      LinesOfConcat(text, added);
    } else {
      LinesOfUnended(text, ContainsCrlf(text), added);
      assert text + nl + added == text + (nl + added);
    }
    EndOfParts(if text == "" || EndsWithNewline(text) then text else text + nl, added);
    EndOfParts(parent + ":" + nl, KeyLine(2, key, value) + nl);
    EndOfParts(KeyLine(2, key, value), nl);
  }

  // ---- editing inside a text ----

  /** Lines that can be written out and read back in the style of `text`. */
  ghost predicate Writable(text: string, lines: seq<string>) {
    lines != [] && AllPlain(lines) && (!EndsWithNewline(text) ==> lines[|lines| - 1] != "")
  }

  lemma SpliceIsWritable(text: string, i: nat, j: nat, added: seq<string>)
    requires text != "" && AllPlain(Lines(text)) && i <= j <= |Lines(text)|
    requires added != [] && forall l :: l in added ==> l != "" && PlainLine(l)
    ensures Writable(text, Lines(text)[..i] + added + Lines(text)[j..])
  {
    hide PlainLine, Lines;
    if !EndsWithNewline(text) { LastLineIsNotEmpty(text); }
    var lines := Lines(text);
    var out := lines[..i] + added + lines[j..];
    forall k | 0 <= k < |out|
      ensures PlainLine(out[k])
    {
      assert out[k] == if k < i then lines[k] else if k < i + |added| then added[k - i] else lines[k - i - |added| + j];
    }
    assert out[|out| - 1] == if j == |lines| then added[|added| - 1] else lines[|lines| - 1];
  }

  lemma WrittenBack(text: string, lines: seq<string>)
    requires Writable(text, lines)
    ensures Lines(Unsplit(Split(text).(lines := lines))) == lines
    ensures EndsWithNewline(Unsplit(Split(text).(lines := lines))) == EndsWithNewline(text)
  {
    hide Lines, PlainLine, Unsplit;
    SplitUnsplit(Split(text).(lines := lines));
  }

  lemma TextsOfSplice(lines: seq<Line>, i: nat, j: nat, added: seq<Line>)
    requires i <= j <= |lines|
    ensures Texts(lines[..i] + added + lines[j..]) == Texts(lines)[..i] + Texts(added) + Texts(lines)[j..]
  {
  }

  /** Where the parent has a line, the child's insertion replaces at most that line by a header. */
  lemma InsertSplices(lines: seq<Line>, parent: string, key: string, value: string)
      returns (i: nat, j: nat, added: seq<Line>)
    requires FindHeader(lines, 0, parent).Some?
    ensures i <= j <= |lines| && InsertChild(lines, parent, key, value) == lines[..i] + added + lines[j..]
    ensures added != [] && forall k :: 0 <= k < |added| ==>
              added[k].text == parent + ":" || exists n :: added[k].text == KeyLine(n, key, value)
  {
    hide KeyLine, KindOf, FindHeader, ChildPlace;
    var p := FindHeader(lines, 0, parent).value;
    var slot := ChildSlot(lines, parent);
    var header, child := Read(parent + ":"), Read(KeyLine(slot.1, key, value));
    if lines[p].kind.opens {
      i, j, added := slot.0, slot.0, [child];
    } else {
      i, j, added := p, p + 1, [header, child];
    }
  }

  lemma AddedArePlain(added: seq<Line>, parent: string, key: string, value: string)
    requires PlainLine(parent) && PlainLine(key) && PlainLine(value)
    requires forall k :: 0 <= k < |added| ==>
             added[k].text == parent + ":" || exists n :: added[k].text == KeyLine(n, key, value)
    ensures forall l :: l in Texts(added) ==> l != "" && PlainLine(l)
  {
    forall k | 0 <= k < |added|
      ensures added[k].text != "" && PlainLine(added[k].text)
    {
      if added[k].text == parent + ":" {
        PlainChild(0, parent, value);
      } else {
        var n :| added[k].text == KeyLine(n, key, value);
        PlainChild(n, key, value);
      }
    }
  }

  lemma InsertedReadsBack(text: string, parent: string, key: string, value: string)
    requires NoLoneCr(text) && PlainLine(parent) && PlainLine(key) && PlainLine(value)
    requires FindHeader(ReadAll(Lines(text)), 0, parent).Some?
    ensures var out := InsertChild(ReadAll(Lines(text)), parent, key, value);
            var written := Unsplit(Split(text).(lines := Texts(out)));
            Lines(written) == Texts(out) && EndsWithNewline(written) == EndsWithNewline(text)
  {
    hide Lines, PlainLine, NoLoneCr, Unsplit, InsertChild, FindHeader, ReadAll, KeyLine;
    var lines := ReadAll(Lines(text));
    LinesArePlain(text);
    ReadIsFaithful(Lines(text));
    NoLinesNoHeader(text, parent);
    var i, j, added := InsertSplices(lines, parent, key, value);
    AddedArePlain(added, parent, key, value);
    TextsOfSplice(lines, i, j, added);
    SpliceIsWritable(text, i, j, Texts(added));
    WrittenBack(text, Texts(InsertChild(lines, parent, key, value)));
  }

  lemma NoLinesNoHeader(text: string, parent: string)
    requires FindHeader(ReadAll(Lines(text)), 0, parent).Some?
    ensures text != ""
  {
  }

  lemma InsertIsFaithful(lines: seq<Line>, parent: string, key: string, value: string)
    requires Faithful(lines)
    ensures Faithful(InsertChild(lines, parent, key, value))
  {
    hide KeyLine, KindOf, FindHeader, ChildPlace;
  }

  lemma UpsertIsFaithful(lines: seq<Line>, parent: string, key: string, value: string)
    requires Faithful(lines) && PlainKey(key)
    ensures Faithful(UpsertChild(lines, parent, key, value))
  {
    hide Faithful, Locate, PlainKey, SetLine, KindOf;
    if LocateTop(lines, [parent, key]).Some? {
      SetValueIsSeen(lines, [parent, key], value);
    } else {
      UpsertInserts(lines, parent, key, value);
      InsertIsFaithful(lines, parent, key, value);
    }
  }

  /** Splitting the edited text gives exactly the edited lines; it ends in a newline if the old one did or
      if a block was appended. */
  lemma UpsertTextReadsBack(text: string, parent: string, key: string, value: string)
    requires NoLoneCr(text) && PlainKey(parent) && PlainKey(key)
    requires PlainLine(parent) && PlainLine(key) && PlainLine(value)
    ensures var lines, out := ReadAll(Lines(text)), UpsertText(text, parent, key, value);
            && Lines(out) == Texts(UpsertChild(lines, parent, key, value))
            && ReadAll(Lines(out)) == UpsertChild(lines, parent, key, value)
            && (EndsWithNewline(out) <==> EndsWithNewline(text) || Appends(lines, parent, key))
  {
    hide Lines, PlainLine, NoLoneCr, Unsplit, FindHeader, ReadAll, KeyLine, PlainKey, KindOf, Locate, AppendBlock,
         SetLine, EndsWithNewline;
    var lines := ReadAll(Lines(text));
    ReadIsFaithful(Lines(text));
    PutNeedsKey(lines, [parent, key], value);
    UpsertIsFaithful(lines, parent, key, value);
    TextsReadBack(UpsertChild(lines, parent, key, value));
    if LocateTop(lines, [parent, key]).Some? {
      LinesArePlain(text);
      SetTextReadsBack(text, [parent, key], value, SetValue(lines, [parent, key], value).value);
    } else {
      UpsertInserts(lines, parent, key, value);
      if FindHeader(lines, 0, parent).None? {
        AppendedLines(text, parent, key, value);
      } else {
        InsertedReadsBack(text, parent, key, value);
      }
    }
  }
}
