/** The editor as a lens over lines: what a put shows, what it leaves alone, what undoes what. */
module YamlLaws {
  import opened Prelude
  import opened Text
  import opened YamlLines
  import opened YamlEdit
  import opened YamlPaths

  /** Lines classified as their texts say. */
  ghost predicate Faithful(lines: seq<Line>) {
    forall i :: 0 <= i < |lines| ==> lines[i] == Read(lines[i].text)
  }

  // ---- replacing a located line ----

  lemma {:induction false} PathEndsAtKey(a: seq<Line>, parentIndent: int, p: seq<string>)
    requires Path(a, parentIndent, p).Some?
    ensures a[Path(a, parentIndent, p).value].kind.Active?
    ensures a[Path(a, parentIndent, p).value].kind.token == Some(Last(p))
    decreases |p|
  {
    if |p| > 1 {
      PathUnfold(a, parentIndent, p);
      var (level, i) := Entry(a, parentIndent, p[0]).value;
      PathEndsAtKey(BlockOf(a, i, level), level, p[1..]);
    }
  }

  lemma LocatedKey(lines: seq<Line>, segments: seq<string>)
    requires LocateTop(lines, segments).Some?
    ensures var i := LocateTop(lines, segments).value;
            && IsActive(lines[i]) && lines[i].kind.token == Some(Last(segments))
            && Path(Act(lines), -1, segments) == Some(Rank(lines, i))
  {
    var i := LocateTop(lines, segments).value;
    LocateByActive(lines, -1, segments);
    ActSplit(lines, i);
    PathEndsAtKey(Act(lines), -1, segments);
  }

  lemma ActAfterReplace(lines: seq<Line>, i: nat, y: Line)
    requires i < |lines| && IsActive(lines[i]) && IsActive(y)
    ensures Rank(lines, i) < |Act(lines)| && Act(lines)[Rank(lines, i)] == lines[i]
    ensures Act(lines[i := y]) == Act(lines)[Rank(lines, i) := y]
  {
    ActSplit(lines, i);
    ActSplit(lines[i := y], i);
    assert lines[i := y][..i] == lines[..i] && lines[i := y][i + 1..] == lines[i + 1..];
  }

  lemma {:induction false} RankAfterReplace(lines: seq<Line>, i: nat, y: Line, k: nat)
    requires i < |lines| && IsActive(lines[i]) && IsActive(y) && k <= |lines|
    ensures Rank(lines[i := y], k) == Rank(lines, k)
  {
    if k > 0 {
      RankAfterReplace(lines, i, y, k - 1);
      FilterSnoc(IsActive, lines, k - 1);
      FilterSnoc(IsActive, lines[i := y], k - 1);
    }
  }

  /** Replacing a located line by one of the same shape moves no path that does not pass through it. */
  lemma ReplaceMovesNothing(lines: seq<Line>, segments: seq<string>, y: Line, q: seq<string>)
    requires LocateTop(lines, segments).Some? && SameShape(lines[LocateTop(lines, segments).value], y)
    requires !(segments < q)
    ensures LocateTop(lines[LocateTop(lines, segments).value := y], q) == LocateTop(lines, q)
  {
    var i := LocateTop(lines, segments).value;
    var updated := lines[i := y];
    LocatedKey(lines, segments);
    ActAfterReplace(lines, i, y);
    PathAfterReplace(Act(lines), -1, segments, Rank(lines, i), y, q);
    LocateByActive(lines, -1, q);
    LocateByActive(updated, -1, q);
    if LocateTop(lines, q).Some? {
      var k := LocateTop(lines, q).value;
      RankAfterReplace(lines, i, y, k);
      LocateIs(updated, q, k);
    }
  }

  // ---- putting a value ----

  /** The inline comment of the line a path locates. */
  function CommentOf(lines: seq<Line>, segments: seq<string>): string {
    match LocateTop(lines, segments)
    case None => ""
    case Some(i) => Suffix(AfterKey(lines[i].text, Last(segments)))
  }

  /** The put is seen where it was made and changes one line; the line keeps its inline comment exactly when
      the value leaves it one, and then carries the value. */
  lemma SetValueIsSeen(lines: seq<Line>, segments: seq<string>, value: string)
    requires Faithful(lines) && LocateTop(lines, segments).Some? && PlainKey(Last(segments))
    ensures var i, put := LocateTop(lines, segments).value, SetValue(lines, segments, value).value;
            && put == lines[i := put[i]] && Faithful(put)
            && LocateTop(put, segments) == Some(i)
            && (CommentOf(put, segments) == CommentOf(lines, segments) <==>
               LeavesComment(value, CommentOf(lines, segments)))
            && (LeavesComment(value, CommentOf(lines, segments)) ==>
               ValueOf(put[i].text, Last(segments)) == Trim(value))
  {
    hide SetLine, ValueOf, Suffix, AfterKey, KindOf, Locate, SameShape, LeavesComment, Trim;
    SetLineKeepsShape(lines, segments, value);
    var i := LocateTop(lines, segments).value;
    ReplaceMovesNothing(lines, segments, SetValue(lines, segments, value).value[i], segments);
  }

  lemma SetLineKeepsShape(lines: seq<Line>, segments: seq<string>, value: string)
    requires Faithful(lines) && LocateTop(lines, segments).Some? && PlainKey(Last(segments))
    ensures var l := lines[LocateTop(lines, segments).value];
            var put, suffix := SetLine(l.text, Last(segments), value), Suffix(AfterKey(l.text, Last(segments)));
            && SameShape(l, Read(put))
            && (Suffix(AfterKey(put, Last(segments))) == suffix <==> LeavesComment(value, suffix))
            && (LeavesComment(value, suffix) ==> ValueOf(put, Last(segments)) == Trim(value))
  {
    hide Suffix, AfterKey, LeavesComment, ValueOf, Trim, SetLine, Locate;
    var l := lines[LocateTop(lines, segments).value];
    LocatedKey(lines, segments);
    SetLineLaws(l.text, Last(segments), value);
    assert l == Read(l.text);
  }

  /** Every other path keeps its line, unless it passes through the key that was set. */
  lemma SetValueKeepsOthers(lines: seq<Line>, segments: seq<string>, value: string, q: seq<string>)
    requires Faithful(lines) && LocateTop(lines, segments).Some? && PlainKey(Last(segments))
    requires !(segments <= q)
    ensures var put := SetValue(lines, segments, value).value;
            LocateTop(put, q) == LocateTop(lines, q) &&
            (LocateTop(lines, q).Some? ==> put[LocateTop(lines, q).value] == lines[LocateTop(lines, q).value])
  {
    hide SetLine, KindOf, Locate, SameShape, PlainKey;
    SetLineKeepsShape(lines, segments, value);
    ReplaceMovesNothing(lines, segments,
      Read(SetLine(lines[LocateTop(lines, segments).value].text, Last(segments), value)), q);
    if LocateTop(lines, q) == LocateTop(lines, segments) {
      SamePlaceSamePath(lines, segments, q);
    }
  }

  lemma SameLevel(a: seq<Line>, parentIndent: int, s: string, t: string)
    requires Entry(a, parentIndent, s).Some? && Entry(a, parentIndent, t).Some?
    ensures Entry(a, parentIndent, s).value.0 == Entry(a, parentIndent, t).value.0
  {
  }

  lemma {:induction false} PathIsInjective(a: seq<Line>, parentIndent: int, p: seq<string>, q: seq<string>)
    requires Path(a, parentIndent, p).Some? && Path(a, parentIndent, p) == Path(a, parentIndent, q)
    ensures p == q
    decreases |p|
  {
    hide Path, Entry, MinActive, FindHeader, BlockLen;
    var j := Path(a, parentIndent, p).value;
    PathEntry(a, parentIndent, p, j);
    PathEntry(a, parentIndent, q, j);
    SameLevel(a, parentIndent, p[0], q[0]);
    var (level, i) := Entry(a, parentIndent, p[0]).value;
    var (_, k) := Entry(a, parentIndent, q[0]).value;
    if i != k {
      if i < k { OtherLine(a, level, i, k, j); } else { OtherLine(a, level, k, i, j); }
      OtherBlock(a, level, i, k, j);
    }
    assert p[0] == q[0];
    if |p| > 1 {
      PathInBlock(a, parentIndent, p, j);
    }
    if |q| > 1 {
      PathInBlock(a, parentIndent, q, j);
    }
    if |p| > 1 && |q| > 1 {
      PathIsInjective(BlockOf(a, i, level), level, p[1..], q[1..]);
      assert p == [p[0]] + p[1..] && q == [q[0]] + q[1..];
    }
  }

  /** A line is found under one path only. */
  lemma SamePlaceSamePath(lines: seq<Line>, p: seq<string>, q: seq<string>)
    requires LocateTop(lines, p).Some? && LocateTop(lines, p) == LocateTop(lines, q)
    ensures p == q
  {
    LocatedKey(lines, p);
    LocatedKey(lines, q);
    PathIsInjective(Act(lines), -1, p, q);
  }

  lemma SetValueFound(lines: seq<Line>, segments: seq<string>, value: string)
    requires Faithful(lines) && LocateTop(lines, segments).Some? && PlainKey(Last(segments))
    ensures var i := LocateTop(lines, segments).value;
            LocateTop(lines[i := Read(SetLine(lines[i].text, Last(segments), value))], segments) == Some(i)
  {
    SetValueIsSeen(lines, segments, value);
  }

  lemma SetAgain(lines: seq<Line>, segments: seq<string>, i: nat, put: Line, value: string)
    requires i < |lines| && LocateTop(lines[i := put], segments) == Some(i)
    ensures SetValue(lines[i := put], segments, value) ==
            Some(lines[i := Read(SetLine(put.text, Last(segments), value))])
  {
    var again := Read(SetLine(put.text, Last(segments), value));
    assert lines[i := put][i := again] == lines[i := again];
  }

  lemma SameReadIff(a: string, b: string)
    ensures Read(a) == Read(b) <==> a == b
  {
    hide KindOf;
  }

  lemma SameUpdateIff(lines: seq<Line>, i: nat, a: string, b: string)
    requires i < |lines|
    ensures lines[i := Read(a)] == lines[i := Read(b)] <==> a == b
  {
    hide KindOf;
    assert lines[i := Read(a)][i].text == a && lines[i := Read(b)][i].text == b;
  }

  /** Two puts are the last one exactly when the first left the line its comment. */
  lemma SetValueTwiceIff(lines: seq<Line>, segments: seq<string>, first: string, second: string)
    requires Faithful(lines) && LocateTop(lines, segments).Some? && PlainKey(Last(segments))
    ensures SetValue(SetValue(lines, segments, first).value, segments, second) == SetValue(lines, segments, second) <==>
            LeavesComment(first, CommentOf(lines, segments))
  {
    hide SetLine, KindOf, Locate, LeavesComment, Suffix, AfterKey, PlainKey;
    var i := LocateTop(lines, segments).value;
    var put := SetLine(lines[i].text, Last(segments), first);
    SetValueFound(lines, segments, first);
    SetAgain(lines, segments, i, Read(put), second);
    PutPutIff(lines[i].text, Last(segments), first, second);
    SameUpdateIff(lines, i, SetLine(put, Last(segments), second), SetLine(lines[i].text, Last(segments), second));
  }

  // ---- comments above a key ----

  lemma CommentsAreNoActive(prefix: string, comments: seq<string>)
    requires AllWhite(prefix) && forall c :: c in comments ==> StartsWith(c, '#')
    ensures forall i :: 0 <= i < |comments| ==> CommentLines(prefix, comments)[i].kind.Comment?
  {
    forall i | 0 <= i < |comments|
      ensures CommentLines(prefix, comments)[i].kind.Comment?
    {
      CommentKind(prefix, comments[i]);
    }
  }

  lemma CommentKind(prefix: string, comment: string)
    requires AllWhite(prefix) && StartsWith(comment, '#')
    ensures KindOf(prefix + comment).Comment?
  {
    TrimStartIs(prefix, comment);
    CommentIsNotBlank(prefix + comment);
  }

  lemma ActWithComments(lines: seq<Line>, i: nat, comments: seq<Line>)
    requires i <= |lines| && forall k :: 0 <= k < |comments| ==> comments[k].kind.Comment?
    ensures Act(lines[..i] + comments + lines[i..]) == Act(lines)
    ensures Rank(lines[..i] + comments + lines[i..], i + |comments|) == Rank(lines, i)
  {
    var upper, lower := lines[..i], lines[i..];
    FilterNone(IsActive, comments);
    FilterAppend(IsActive, upper, comments);
    FilterAppend(IsActive, upper + comments, lower);
    FilterAppend(IsActive, upper, lower);
    assert upper + lower == lines;
    assert (upper + comments + lower)[..i + |comments|] == upper + comments;
  }

  ghost predicate AllComments(comments: seq<Line>) {
    forall k :: 0 <= k < |comments| ==> comments[k].kind.Comment?
  }

  lemma {:induction false} CommentsAboveStops(lines: seq<Line>, top: nat, k: nat)
    requires top <= k <= |lines|
    requires AllComments(lines[top..k])
    requires top > 0 ==> !lines[top - 1].kind.Comment?
    ensures CommentsAbove(lines, k) == top
    decreases k
  {
    if top < k {
      assert lines[top..k][k - 1 - top] == lines[k - 1];
      assert lines[top..k - 1] == lines[top..k][..k - 1 - top];
      CommentsAboveStops(lines, top, k - 1);
    }
  }

  function WithComments<T>(lines: seq<T>, i: nat, comments: seq<T>): seq<T>
    requires i <= |lines|
  {
    lines[..i] + comments + lines[i..]
  }

  lemma WithCommentsParts<T>(lines: seq<T>, i: nat, comments: seq<T>)
    requires i < |lines|
    ensures var out, n := WithComments(lines, i, comments), |comments|;
            && |out| == |lines| + n && out[..i] == lines[..i] && out[i..i + n] == comments
            && out[i + n] == lines[i] && out[i + n + 1..] == lines[i + 1..]
            && (i > 0 ==> out[i - 1] == lines[i - 1])
            && (n > 0 ==> out[i + n - 1] == comments[n - 1])
  {
  }

  /** A text with the same active lines has the key at the line of the same rank. */
  lemma LocateMoved(lines: seq<Line>, segments: seq<string>, i: nat, out: seq<Line>, k: nat)
    requires LocateTop(lines, segments) == Some(i)
    requires Act(out) == Act(lines) && k < |out| && out[k] == lines[i] && Rank(out, k) == Rank(lines, i)
    ensures LocateTop(out, segments) == Some(k)
  {
    LocatedKey(lines, segments);
    LocateIs(out, segments, k);
  }

  lemma CommentedKey(out: seq<Line>, segments: seq<string>, k: nat)
    requires LocateTop(out, segments) == Some(k) && k > 0 && out[k - 1].kind.Comment?
    ensures !KeyLacksComment(out, segments)
  {
  }

  lemma LocatedBelowComments(lines: seq<Line>, segments: seq<string>, i: nat, comments: seq<Line>)
    requires LocateTop(lines, segments) == Some(i) && i < |lines| && AllComments(comments)
    ensures LocateTop(WithComments(lines, i, comments), segments) == Some(i + |comments|)
  {
    hide Act, Rank, Locate;
    ActWithComments(lines, i, comments);
    WithCommentsParts(lines, i, comments);
    LocateMoved(lines, segments, i, WithComments(lines, i, comments), i + |comments|);
  }

  lemma DeletedWithComments(lines: seq<Line>, i: nat, comments: seq<Line>)
    requires i < |lines| && LacksComment(lines, i) && AllComments(comments)
    ensures DeleteAt(WithComments(lines, i, comments), i + |comments|) == DeleteAt(lines, i)
  {
    hide CommentsAbove, WithComments, ContinuationLen;
    WithCommentsParts(lines, i, comments);
    CommentsAboveStops(WithComments(lines, i, comments), i, i + |comments|);
    CommentsAboveStops(lines, i, i);
  }

  lemma InsertedComments(lines: seq<Line>, segments: seq<string>, comments: seq<string>, out: seq<Line>)
      returns (i: nat, added: seq<Line>)
    requires InsertCommentAbove(lines, segments, comments) == Some(out)
    requires forall c :: c in comments ==> StartsWith(c, '#')
    ensures LocateTop(lines, segments) == Some(i) && i < |lines| && LacksComment(lines, i)
    ensures AllComments(added) && |added| == |comments|
    ensures out == WithComments(lines, i, added)
  {
    i := LocateTop(lines, segments).value;
    var text := lines[i].text;
    var prefix := text[..LeadLen(text)];
    added := CommentLines(prefix, comments);
    LeadIsWhite(text);
    CommentsAreNoActive(prefix, comments);
  }

  lemma MovedBelow(lines: seq<Line>, segments: seq<string>, i: nat, added: seq<Line>, out: seq<Line>)
    requires LocateTop(lines, segments) == Some(i) && i < |lines| && AllComments(added) && added != []
    requires out == WithComments(lines, i, added)
    ensures LocateTop(out, segments) == Some(i + |added|) && out[i + |added| - 1].kind.Comment?
  {
    LocatedBelowComments(lines, segments, i, added);
    WithCommentsParts(lines, i, added);
  }

  /** Inserting the key's doc comment moves the key down by as many lines, and documents it. */
  lemma InsertedCommentIsAbove(lines: seq<Line>, segments: seq<string>, comments: seq<string>, out: seq<Line>)
    requires InsertCommentAbove(lines, segments, comments) == Some(out)
    requires comments != [] && forall c :: c in comments ==> StartsWith(c, '#')
    ensures LocateTop(out, segments) == Some(LocateTop(lines, segments).value + |comments|)
    ensures !KeyLacksComment(out, segments)
  {
    hide *;
    var i, added := InsertedComments(lines, segments, comments, out);
    MovedBelow(lines, segments, i, added, out);
    CommentedKey(out, segments, i + |comments|);
  }

  lemma DeletedSame(lines: seq<Line>, segments: seq<string>, i: nat, out: seq<Line>, k: nat)
    requires LocateTop(lines, segments) == Some(i) && LocateTop(out, segments) == Some(k)
    requires DeleteAt(out, k) == DeleteAt(lines, i)
    ensures DeleteKey(out, segments) == DeleteKey(lines, segments)
  {
  }

  /** Deleting a key takes its inserted comment with it: the result is that of deleting the key alone. */
  lemma DeleteUndoesComment(lines: seq<Line>, segments: seq<string>, comments: seq<string>, out: seq<Line>)
    requires InsertCommentAbove(lines, segments, comments) == Some(out)
    requires forall c :: c in comments ==> StartsWith(c, '#')
    ensures DeleteKey(out, segments) == DeleteKey(lines, segments)
  {
    hide *;
    var i, added := InsertedComments(lines, segments, comments, out);
    LocatedBelowComments(lines, segments, i, added);
    DeletedWithComments(lines, i, added);
    DeletedSame(lines, segments, i, out, i + |added|);
  }
}
