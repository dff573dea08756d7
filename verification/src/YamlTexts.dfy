/** The put laws for whole texts: lines, newline style and final newline survive the edit. */
module YamlTexts {
  import opened Prelude
  import opened Text
  import opened YamlLines
  import opened YamlEdit
  import opened YamlLaws

  function ReadAll(texts: seq<string>): seq<Line> {
    seq(|texts|, i requires 0 <= i < |texts| => Read(texts[i]))
  }

  function Texts(lines: seq<Line>): seq<string> {
    seq(|lines|, i requires 0 <= i < |lines| => lines[i].text)
  }

  function SetValueText(text: string, segments: seq<string>, value: string): Option<string> {
    match SetValue(ReadAll(Lines(text)), segments, value)
    case None => None
    case Some(out) => Some(Unsplit(Split(text).(lines := Texts(out))))
  }

  lemma ReadIsFaithful(texts: seq<string>)
    ensures Faithful(ReadAll(texts)) && Texts(ReadAll(texts)) == texts
  {
    hide KindOf;
  }

  lemma TextsReadBack(lines: seq<Line>)
    requires Faithful(lines)
    ensures ReadAll(Texts(lines)) == lines
  {
    hide KindOf;
  }

  // ---- what splitting says about a text ----

  lemma {:induction false} LastLineIsNotEmpty(text: string)
    requires text != "" && !EndsWithNewline(text)
    ensures Lines(text) != [] && Lines(text)[|Lines(text)| - 1] != ""
    decreases |text|
  {
    var i := IndexOf(text, '\n');
    if i < |text| {
      LastLineIsNotEmpty(text[i + 1..]);
    }
  }

  lemma CrlfMeansMore(text: string)
    requires ContainsCrlf(text)
    ensures |Lines(text)| > 1 || EndsWithNewline(text)
  {
    var k :| 0 <= k < |text| - 1 && text[k] == '\r' && text[k + 1] == '\n';
    var i := IndexOf(text, '\n');
    assert i < |text|;
    if i + 1 < |text| {
      assert text[i + 1..] != "";
      assert Lines(text) == [StripCr(text[..i])] + Lines(text[i + 1..]);
    }
  }

  /** Lines of the same number, plain, the last one not empty, are read back with the text's own style. */
  lemma EditedReadsBack(text: string, lines: seq<string>)
    requires lines != [] && |lines| == |Lines(text)|
    requires forall l :: l in lines ==> PlainLine(l)
    requires !EndsWithNewline(text) ==> lines[|lines| - 1] != ""
    ensures Split(Unsplit(Split(text).(lines := lines))) == Split(text).(lines := lines)
  {
    SplitUnsplit(Split(text).(lines := lines));
    if ContainsCrlf(text) { CrlfMeansMore(text); }
  }

  // ---- the edited line ----

  lemma PlainParts(a: string, b: string)
    requires PlainLine(a) && PlainLine(b)
    ensures PlainLine(a + b)
  {
  }

  lemma PlainSlice(s: string, i: nat, j: nat)
    requires i <= j <= |s| && PlainLine(s)
    ensures PlainLine(s[i..j])
  {
  }

  lemma SuffixIsPlain(l: string, last: string)
    requires PlainLine(l)
    ensures PlainLine(Suffix(AfterKey(l, last)))
  {
    var t, after := TrimStart(l), AfterKey(l, last);
    assert PlainLine(t) by { PlainSlice(l, |l| - |t|, |l|); }
    if |last| + 1 <= |t| { PlainSlice(t, |last| + 1, |t|); }
    SuffixShape(after);
    PlainSlice(after, |after| - |Suffix(after)|, |after|);
  }

  lemma SetLineIsPlain(l: string, last: string, value: string)
    requires PlainLine(l) && PlainLine(last) && PlainLine(value)
    ensures PlainLine(SetLine(l, last, value)) && SetLine(l, last, value) != ""
  {
    hide PlainLine, Suffix, AfterKey;
    var prefix, suffix := l[..LeadLen(l)], Suffix(AfterKey(l, last));
    PlainSlice(l, 0, LeadLen(l));
    SuffixIsPlain(l, last);
    PlainMarks();
    PlainParts(" ", value);
    PlainParts(" " + value, suffix);
    PlainParts(last, ":");
    PlainParts(last + ":", " " + value + suffix);
    PlainParts(prefix, last + ":" + (" " + value + suffix));
  }

  lemma PlainMarks()
    ensures PlainLine(" ") && PlainLine(":")
  {
  }

  lemma AllStayPlain(lines: seq<string>, i: nat, l: string)
    requires i < |lines| && PlainLine(l) && forall k :: k in lines ==> PlainLine(k)
    ensures forall k :: k in lines[i := l] ==> PlainLine(k)
  {
    hide PlainLine;
  }

  lemma TextsUpdated(lines: seq<Line>, i: nat, y: Line)
    requires i < |lines|
    ensures Texts(lines[i := y]) == Texts(lines)[i := y.text]
  {
  }

  ghost predicate AllPlain(lines: seq<string>) {
    forall l :: l in lines ==> PlainLine(l)
  }

  lemma PlainPut(text: string, segments: seq<string>, value: string, put: seq<Line>)
    requires AllPlain(Lines(text)) && SetValue(ReadAll(Lines(text)), segments, value) == Some(put)
    requires PlainKey(Last(segments)) && PlainLine(Last(segments)) && PlainLine(value)
    ensures AllPlain(Texts(put)) && Texts(put) != [] && |Texts(put)| == |Lines(text)|
    ensures !EndsWithNewline(text) ==> Texts(put)[|Texts(put)| - 1] != ""
  {
    hide SetLine, KindOf, Locate, PlainLine, PlainKey, Lines;
    var lines := ReadAll(Lines(text));
    var i := LocateTop(lines, segments).value;
    var line := SetLine(lines[i].text, Last(segments), value);
    ReadIsFaithful(Lines(text));
    assert lines[i].text == Lines(text)[i];
    SetLineIsPlain(Lines(text)[i], Last(segments), value);
    TextsUpdated(lines, i, Read(line));
    AllStayPlain(Lines(text), i, line);
    LastStaysFull(text, i, line);
  }

  /** After a put, splitting the text gives the put's lines, and nothing else about it has changed. */
  lemma SetTextReadsBack(text: string, segments: seq<string>, value: string, put: seq<Line>)
    requires AllPlain(Lines(text)) && SetValue(ReadAll(Lines(text)), segments, value) == Some(put)
    requires PlainKey(Last(segments)) && PlainLine(Last(segments)) && PlainLine(value)
    ensures SetValueText(text, segments, value).Some?
    ensures var out := SetValueText(text, segments, value).value;
            Split(out) == Split(text).(lines := Texts(put)) && ReadAll(Lines(out)) == put && AllPlain(Lines(out))
  {
    hide SetValue, Unsplit, PlainLine, PlainKey, Lines;
    PlainPut(text, segments, value, put);
    EditedReadsBack(text, Texts(put));
    ReadIsFaithful(Lines(text));
    PutNeedsKey(ReadAll(Lines(text)), segments, value);
    SetValueIsSeen(ReadAll(Lines(text)), segments, value);
    TextsReadBack(put);
  }

  lemma LastStaysFull(text: string, i: nat, l: string)
    requires i < |Lines(text)| && l != ""
    ensures !EndsWithNewline(text) ==> Lines(text)[i := l][|Lines(text)| - 1] != ""
  {
    if !EndsWithNewline(text) { LastLineIsNotEmpty(text); }
  }

  lemma SameLinesSameText(d: Doc, e: Doc, a: seq<Line>, b: seq<Line>)
    requires e == d.(lines := e.lines) && a == b
    ensures Unsplit(e.(lines := Texts(a))) == Unsplit(d.(lines := Texts(b)))
  {
    assert e.(lines := Texts(a)) == d.(lines := Texts(b));
  }

  /** In a text, too, the second of two puts leaves no trace of the first exactly when the first left the
      line its inline comment. */
  lemma SetTextTwiceIff(text: string, segments: seq<string>, first: string, second: string)
    requires NoLoneCr(text) && SetValueText(text, segments, first).Some?
    requires PlainKey(Last(segments)) && PlainLine(Last(segments)) && PlainLine(first) && PlainLine(second)
    ensures SetValueText(SetValueText(text, segments, first).value, segments, second) ==
            SetValueText(text, segments, second) <==>
            LeavesComment(first, CommentOf(ReadAll(Lines(text)), segments))
  {
    hide SetValue, Unsplit, PlainKey, PlainLine, Lines, LeavesComment, CommentOf, ReadAll, Texts, NoLoneCr;
    var lines := ReadAll(Lines(text));
    LinesArePlain(text);
    ReadIsFaithful(Lines(text));
    PutNeedsKey(lines, segments, first);
    PutNeedsKey(lines, segments, second);
    var put, last := SetValue(lines, segments, first).value, SetValue(lines, segments, second).value;
    SetTextReadsBack(text, segments, first, put);
    SetTextReadsBack(text, segments, second, last);
    SetValueIsSeen(lines, segments, first);
    PutNeedsKey(put, segments, second);
    var out, again := SetValueText(text, segments, first).value, SetValue(put, segments, second).value;
    SetTextReadsBack(out, segments, second, again);
    SetValueTwiceIff(lines, segments, first, second);
    if again == last { SameLinesSameText(Split(text), Split(out), again, last); }
  }

  lemma PutNeedsKey(lines: seq<Line>, segments: seq<string>, value: string)
    ensures SetValue(lines, segments, value).Some? <==> LocateTop(lines, segments).Some?
  {
  }
}
