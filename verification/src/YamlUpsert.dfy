/** Adding `parent.key` to a text: where it lands, what stays, and when doing it again changes nothing. */
module YamlUpsert {
  import opened Prelude
  import opened Text
  import opened YamlLines
  import opened YamlEdit
  import opened YamlPaths
  import opened YamlInsert
  import opened YamlLaws
  import opened YamlPlaced
  import opened YamlRemove

  // ---- one active line put between the lines of a text ----

  lemma ActInserted(lines: seq<Line>, m: nat, x: Line)
    requires m <= |lines| && IsActive(x)
    ensures Rank(lines, m) <= |Act(lines)| && Act(Inserted(lines, m, x)) == Inserted(Act(lines), Rank(lines, m), x)
    ensures Rank(Inserted(lines, m, x), m) == Rank(lines, m)
  {
    var out := Inserted(lines, m, x);
    ActSplit(out, m);
    assert out[..m] == lines[..m] && out[m + 1..] == lines[m..];
    FilterAppend(IsActive, lines[..m], lines[m..]);
    assert lines == lines[..m] + lines[m..];
  }

  lemma RankAbove(lines: seq<Line>, m: nat, x: Line, i: nat)
    requires i < m <= |lines| && IsActive(lines[i])
    ensures Inserted(lines, m, x)[i] == lines[i]
    ensures Rank(Inserted(lines, m, x), i) == Rank(lines, i) < Rank(lines, m)
  {
    assert Inserted(lines, m, x)[..i] == lines[..i];
    RankGrows(lines, i, m);
  }

  lemma RankBelow(lines: seq<Line>, m: nat, x: Line, i: nat)
    requires m <= i < |lines| && IsActive(x)
    ensures Inserted(lines, m, x)[i + 1] == lines[i]
    ensures Rank(Inserted(lines, m, x), i + 1) == Rank(lines, i) + 1
    ensures Rank(lines, m) <= Rank(lines, i)
  {
    var upper, middle := lines[..m], lines[m..i];
    assert lines[..i] == upper + middle;
    assert Inserted(lines, m, x)[..i + 1] == upper + ([x] + middle);
    FilterAppend(IsActive, upper, middle);
    FilterAppend(IsActive, upper, [x] + middle);
    FilterAppend(IsActive, [x], middle);
    assert Filter(IsActive, [x]) == [x];
  }

  lemma RankMoves(lines: seq<Line>, m: nat, x: Line, i: nat)
    requires i < |lines| && m <= |lines| && IsActive(lines[i]) && IsActive(x)
    ensures var k := Bump(m, Some(i)).value;
            && Inserted(lines, m, x)[k] == lines[i]
            && Some(Rank(Inserted(lines, m, x), k)) == Bump(Rank(lines, m), Some(Rank(lines, i)))
  {
    if i < m { RankAbove(lines, m, x, i); } else { RankBelow(lines, m, x, i); }
  }

  /** Where a new line is found, and where every other line goes, as the active lines say. */
  lemma LocatedAfter(lines: seq<Line>, m: nat, x: Line, q: seq<string>)
    requires m <= |lines| && IsActive(x)
    ensures Rank(lines, m) <= |Act(lines)|
    ensures var path := Path(Inserted(Act(lines), Rank(lines, m), x), -1, q);
            && (path == Some(Rank(lines, m)) ==> LocateTop(Inserted(lines, m, x), q) == Some(m))
            && (path == Bump(Rank(lines, m), Path(Act(lines), -1, q)) ==>
                  LocateTop(Inserted(lines, m, x), q) == Bump(m, LocateTop(lines, q)))
  {
    hide Path, Locate, Filter;
    var out := Inserted(lines, m, x);
    ActInserted(lines, m, x);
    assert out[m] == x;
    LocateByActive(lines, -1, q);
    LocateByActive(out, -1, q);
    if Path(Act(out), -1, q) == Some(Rank(lines, m)) { LocateIs(out, q, m); }
    if Path(Act(out), -1, q) == Bump(Rank(lines, m), Path(Act(lines), -1, q)) && LocateTop(lines, q).Some? {
      RankMoves(lines, m, x, LocateTop(lines, q).value);
      LocateIs(out, q, Bump(m, LocateTop(lines, q)).value);
    }
  }

  /** Put anywhere in a text, a line leaves a path its line exactly when it disturbs no key on the way. */
  lemma PutKeepsIff(lines: seq<Line>, m: nat, x: Line, q: seq<string>)
    requires m <= |lines| && IsActive(x) && LocateTop(lines, q).Some?
    ensures Rank(lines, m) <= |Act(lines)| && Path(Act(lines), -1, q).Some?
    ensures LocateTop(Inserted(lines, m, x), q) == Bump(m, LocateTop(lines, q)) <==>
            Undisturbed(Act(lines), -1, Rank(lines, m), x, q)
    ensures Inserted(lines, m, x)[Bump(m, LocateTop(lines, q)).value] == lines[LocateTop(lines, q).value]
  {
    hide Path, Locate, Filter, Undisturbed;
    var i := LocateTop(lines, q).value;
    ActInserted(lines, m, x);
    ActsAreActive(lines);
    LocatedKey(lines, q);
    RankMoves(lines, m, x, i);
    PathAfterPutIff(Act(lines), -1, Rank(lines, m), x, q);
    LocatedAfter(lines, m, x, q);
    LocateByActive(Inserted(lines, m, x), -1, q);
  }

  // ---- where the child goes ----

  lemma {:induction false} UsedAct(v: seq<Line>, n: nat)
    requires n <= |v|
    ensures Act(v[..UsedLen(v, n)]) == Act(v[..n])
  {
    if n > 0 && v[n - 1].kind.Blank? {
      UsedAct(v, n - 1);
      FilterSnoc(IsActive, v, n - 1);
    }
  }

  lemma {:induction false} ScannedDeeper(v: seq<Line>)
    ensures FirstActiveIndent(v[..ScanLen(v)]).Some? ==> FirstActiveIndent(v[..ScanLen(v)]).value > 0
  {
    if v != [] && !EndsScan(v[0]) {
      ScannedDeeper(v[1..]);
      assert v[..ScanLen(v)][1..] == v[1..][..ScanLen(v[1..])];
    }
  }

  lemma {:induction false} MinAtTop(a: seq<Line>, i: nat)
    requires i < |a| && a[i].kind.Active? && a[i].kind.indent == 0
    ensures MinActive(a) == Some(0)
  {
    if i > 0 {
      MinAtTop(a[1..], i - 1);
    }
  }

  /** The first unindented line with the parent's key is what every path through `parent` passes. */
  lemma ParentEntry(lines: seq<Line>, parent: string, p: nat)
    requires FindHeader(lines, 0, parent) == Some(p)
    ensures Entry(Act(lines), -1, parent) == Some((0, Rank(lines, p)))
    ensures Rank(lines, p) < |Act(lines)| && Act(lines)[Rank(lines, p)] == lines[p]
    ensures BlockOf(Act(lines), Rank(lines, p), 0) == Act(BlockOf(lines, p, 0))
  {
    MinAtTop(lines, p);
    MinOfActive(lines);
    HeaderOfActive(lines, 0, parent);
    BlockOfRank(lines, p, 0);
  }

  lemma RankPast(lines: seq<Line>, p: nat, n: nat)
    requires p < |lines| && IsActive(lines[p]) && p + 1 + n <= |lines|
    ensures Rank(lines, p + 1 + n) == Rank(lines, p) + 1 + |Act(lines[p + 1..][..n])|
  {
    ActSplit(lines, p);
    assert lines[..p + 1 + n] == lines[..p + 1] + lines[p + 1..][..n];
    FilterAppend(IsActive, lines[..p + 1], lines[p + 1..][..n]);
  }

  // ---- the text with a bare `parent:` header, and the place of the child in it ----

  function WithHeader(lines: seq<Line>, parent: string, header: Line): seq<Line> {
    match FindHeader(lines, 0, parent)
    case None => lines + [header]
    case Some(p) => if lines[p].kind.opens then lines else lines[p := header]
  }

  ghost predicate IsBareHeader(l: Line, parent: string) {
    l.kind == Active(0, Some(parent), true)
  }

  /** What adding the child comes to: the header, then the child in its slot. */
  function WithChild(lines: seq<Line>, parent: string, header: Line, child: Line): seq<Line> {
    Inserted(WithHeader(lines, parent, header), ChildSlot(lines, parent).0, child)
  }

  lemma PutChildIs(lines: seq<Line>, parent: string, header: Line, child: Line)
    ensures PutChild(lines, parent, header, child) == WithChild(lines, parent, header, child)
  {
    match FindHeader(lines, 0, parent)
    case None => AddAtEnd(lines, header, child);
    case Some(p) => if !lines[p].kind.opens { AddAfter(lines, p, header, child); }
  }

  lemma AddAtEnd<T>(lines: seq<T>, h: T, x: T)
    ensures lines + [h, x] == Inserted(lines + [h], |lines| + 1, x)
  {
  }

  lemma AddAfter<T>(lines: seq<T>, p: nat, h: T, x: T)
    requires p < |lines|
    ensures lines[..p] + [h, x] + lines[p + 1..] == Inserted(lines[p := h], p + 1, x)
  {
  }

  lemma AppendedHeader(lines: seq<Line>, parent: string, h: Line)
    requires FindHeader(lines, 0, parent) == None && IsBareHeader(h, parent)
    ensures FindHeader(lines + [h], 0, parent) == Some(|lines|) && Act(BlockOf(lines + [h], |lines|, 0)) == []
  {
    AppendIsInsert(lines, h);
    NewHeader(lines, |lines|, h, 0, parent);
  }

  lemma ReplacedHeader(lines: seq<Line>, parent: string, p: nat, h: Line)
    requires FindHeader(lines, 0, parent) == Some(p) && IsBareHeader(h, parent)
    ensures FindHeader(lines[p := h], 0, parent) == Some(p) && BlockOf(lines[p := h], p, 0) == BlockOf(lines, p, 0)
  {
    HeaderAfterReplace(lines, p, h, 0, parent);
    assert lines[p := h][p + 1..] == lines[p + 1..];
  }

  /** The lines below the parent that are its block, none where it has no line. */
  function ParentBlock(lines: seq<Line>, parent: string): seq<Line> {
    match FindHeader(lines, 0, parent)
    case None => []
    case Some(p) => BlockOf(lines, p, 0)
  }

  /** The text with the header, and the child's slot in it. */
  lemma BaseFacts(lines: seq<Line>, parent: string, header: Line) returns (p: nat)
    requires IsBareHeader(header, parent)
    ensures var base, m := WithHeader(lines, parent, header), ChildSlot(lines, parent).0;
            && FindHeader(base, 0, parent) == Some(p) && base[p].kind.opens
            && BlockOf(base, p, 0) == ParentBlock(lines, parent) && p < m <= |base|
    ensures match FindHeader(lines, 0, parent)
            case None => p == |lines| && ChildSlot(lines, parent).0 == p + 1
            case Some(h) => p == h && if lines[h].kind.opens then WithHeader(lines, parent, header) == lines
                                      else ChildSlot(lines, parent).0 == p + 1
  {
    match FindHeader(lines, 0, parent) {
      case None =>
        p := |lines|;
        AppendedHeader(lines, parent, header);
      case Some(h) =>
        p := h;
        if !lines[h].kind.opens { ReplacedHeader(lines, parent, h, header); }
    }
  }

  lemma {:induction false} ScanWithinBlock(v: seq<Line>)
    ensures ScanLen(v) <= BlockLen(v, 0)
  {
    if v != [] && !EndsScan(v[0]) {
      ScanWithinBlock(v[1..]);
    }
  }

  /** The slot is in the block. */
  lemma SlotInBlock(lines: seq<Line>, parent: string, header: Line, p: nat)
    requires IsBareHeader(header, parent) && FindHeader(WithHeader(lines, parent, header), 0, parent) == Some(p)
    requires FindHeader(lines, 0, parent) == None || FindHeader(lines, 0, parent) == Some(p)
    ensures p < ChildSlot(lines, parent).0 <= p + 1 + |BlockOf(WithHeader(lines, parent, header), p, 0)|
  {
    hide BlockOf, FindHeader, ChildPlace;
    if FindHeader(lines, 0, parent).None? {
      AppendedHeader(lines, parent, header);
    } else if lines[p].kind.opens {
      PlaceInBlock(lines, p);
    }
  }

  lemma PlaceInBlock(lines: seq<Line>, p: nat)
    requires p < |lines|
    ensures ChildPlace(lines[p + 1..]).0 <= |BlockOf(lines, p, 0)|
  {
    hide BlockLen, FirstActiveIndent;
    ScanWithinBlock(lines[p + 1..]);
  }

  /** The same among active lines. */
  lemma SlotRank(base: seq<Line>, parent: string, p: nat, m: nat)
    requires FindHeader(base, 0, parent) == Some(p) && p < m <= p + 1 + |BlockOf(base, p, 0)|
    ensures m <= |base| && Rank(base, p) < |Act(base)| && Rank(base, m) <= |Act(base)|
    ensures Rank(base, p) < Rank(base, m) <= Rank(base, p) + 1 + |BlockOf(Act(base), Rank(base, p), 0)|
    ensures m == p + 1 ==> Rank(base, m) == Rank(base, p) + 1
  {
    hide FindHeader, Filter, BlockLen;
    ParentEntry(base, parent, p);
    RankPast(base, p, m - p - 1);
    ActCut(base, m);
    var block := BlockOf(base, p, 0);
    assert base[p + 1..][..m - p - 1] == block[..m - p - 1];
    ActCut(block, m - p - 1);
  }

  // ---- the child among its siblings ----

  /** No sibling is shallower. */
  predicate IsShallow(block: seq<Line>, indent: nat) {
    MinActive(block).None? || indent <= MinActive(block).value
  }

  lemma {:induction false} NoneBelowMin(a: seq<Line>, level: nat, key: string)
    requires MinActive(a).None? || level < MinActive(a).value
    ensures FindHeader(a, level, key) == None
  {
    if a != [] {
      NoneBelowMin(a[1..], level, key);
    }
  }

  lemma NoneAbove(block: seq<Line>, level: nat, key: string)
    requires Path(block, 0, [key]) == None && (MinActive(block).Some? ==> MinActive(block).value > 0)
    requires IsShallow(block, level)
    ensures FindHeader(block, level, key) == None
  {
    if MinActive(block) != Some(level) { NoneBelowMin(block, level, key); }
  }

  lemma FoundFirst(block: seq<Line>, x: Line, level: nat, key: string)
    requires IsHeader(x, level, key)
    ensures FindHeader(Inserted(block, 0, x), level, key) == Some(0)
  {
    hide FindHeader;
    InsertedTail(block, 0, x);
    HeaderStep(Inserted(block, 0, x), level, key);
  }

  /** Among siblings of which none has the key, or at their head, the child is found exactly when it is shallow. */
  lemma FoundAmong(block: seq<Line>, k: nat, x: Line, key: string)
    requires k <= |block| && IsActive(x) && x.kind.indent > 0 && x.kind.token == Some(key)
    requires Path(block, 0, [key]) == None || k == 0
    requires MinActive(block).Some? ==> MinActive(block).value > 0
    ensures Path(Inserted(block, k, x), 0, [key]) ==
            if IsShallow(block, x.kind.indent) then Some(k) else Bump(k, Path(block, 0, [key]))
  {
    hide FindHeader, Inserted, Path, MinActive;
    MinAfterInsert(block, k, x);
    OneKeyPath(block, key);
    OneKeyPath(Inserted(block, k, x), key);
    if IsShallow(block, x.kind.indent) {
      FoundShallow(block, k, x, key);
    } else {
      HeaderAfterInsert(block, k, x, MinActive(block).value, key);
    }
  }

  lemma OneKeyPath(block: seq<Line>, key: string)
    ensures Path(block, 0, [key]) ==
            if MinActive(block).None? || MinActive(block).value == 0 then None
            else FindHeader(block, MinActive(block).value, key)
  {
    hide MinActive, FindHeader;
  }

  lemma FoundShallow(block: seq<Line>, k: nat, x: Line, key: string)
    requires k <= |block| && IsActive(x) && x.kind.token == Some(key) && IsShallow(block, x.kind.indent)
    requires Path(block, 0, [key]) == None || k == 0
    requires MinActive(block).Some? ==> MinActive(block).value > 0
    ensures FindHeader(Inserted(block, k, x), x.kind.indent, key) == Some(k)
  {
    hide FindHeader, Inserted, Path, MinActive;
    if k == 0 {
      FoundFirst(block, x, x.kind.indent, key);
    } else {
      NoneAbove(block, x.kind.indent, key);
      NewHeader(block, k, x, x.kind.indent, key);
    }
  }

  lemma {:induction false} BlockDeeper(v: seq<Line>, header: nat)
    ensures MinActive(v[..BlockLen(v, header)]).Some? ==> MinActive(v[..BlockLen(v, header)]).value > header
  {
    if v != [] && !EndsBlock(v[0], header) {
      BlockDeeper(v[1..], header);
      assert v[..BlockLen(v, header)][1..] == v[1..][..BlockLen(v[1..], header)];
    }
  }

  lemma ChildPath(a: seq<Line>, parent: string, h: nat, key: string)
    requires Entry(a, -1, parent) == Some((0, h)) && a[h].kind.opens
    ensures Path(a, -1, [parent, key]) == Shift(h + 1, Path(BlockOf(a, h, 0), 0, [key]))
  {
    PathUnfold(a, -1, [parent, key]);
    assert [parent, key][1..] == [key];
  }

  /** The child in its parent's block. */
  lemma FoundBelow(a: seq<Line>, parent: string, h: nat, k: nat, x: Line, key: string)
    requires AllActive(a) && Entry(a, -1, parent) == Some((0, h)) && a[h].kind.opens &&
             h < k <= h + 1 + |BlockOf(a, h, 0)|
    requires IsActive(x) && x.kind.indent > 0 && x.kind.token == Some(key)
    requires Path(a, -1, [parent, key]) == None || k == h + 1
    ensures k <= |a|
    ensures Path(Inserted(a, k, x), -1, [parent, key]) ==
            if IsShallow(BlockOf(a, h, 0), x.kind.indent) then Some(k) else Bump(k, Path(a, -1, [parent, key]))
  {
    hide Path, Entry, MinActive, Inserted, BlockLen, BlockOf;
    var block := BlockOf(a, h, 0);
    BlockLines(a, h, 0);
    BlockIsDeeper(a, h);
    EntryAfterPut(a, -1, k, x, parent);
    BlockAfterPut(a, k, x, h, 0);
    ChildPath(a, parent, h, key);
    ChildPath(Inserted(a, k, x), parent, h, key);
    FoundAmong(block, k - h - 1, x, key);
    BumpInside(h, k, Path(block, 0, [key]));
  }

  lemma BumpInside(h: nat, k: nat, r: Option<nat>)
    requires h < k
    ensures Shift(h + 1, Bump(k - h - 1, r)) == Bump(k, Shift(h + 1, r))
  {
  }

  lemma BlockIsDeeper(a: seq<Line>, h: nat)
    requires h < |a|
    ensures MinActive(BlockOf(a, h, 0)).Some? ==> MinActive(BlockOf(a, h, 0)).value > 0
  {
    BlockDeeper(a[h + 1..], 0);
  }

  // ---- adding the child ----

  ghost predicate IsChildLine(x: Line, lines: seq<Line>, parent: string, key: string) {
    IsActive(x) && x.kind.indent == ChildSlot(lines, parent).1 && x.kind.token == Some(key)
  }

  /** The child's indentation is one that the parent's block lets it be found at. */
  predicate Shallow(lines: seq<Line>, parent: string) {
    IsShallow(ParentBlock(lines, parent), ChildSlot(lines, parent).1)
  }

  lemma SlotIndent(lines: seq<Line>, parent: string)
    ensures ChildSlot(lines, parent).1 > 0
  {
    if FindHeader(lines, 0, parent).Some? { ScannedDeeper(lines[FindHeader(lines, 0, parent).value + 1..]); }
  }

  /** Where the added key is found: where it was put if it is shallow, and else where a key of that name already
      stood, which an inline parent alone can hide. */
  lemma AddedFound(lines: seq<Line>, parent: string, key: string, header: Line, x: Line)
    requires LocateTop(lines, [parent, key]) == None && IsBareHeader(header, parent) &&
             IsChildLine(x, lines, parent, key)
    ensures ChildSlot(lines, parent).0 <= |WithHeader(lines, parent, header)|
    ensures LocateTop(WithChild(lines, parent, header, x), [parent, key]) ==
            if Shallow(lines, parent) then Some(ChildSlot(lines, parent).0)
            else Bump(ChildSlot(lines, parent).0, LocateTop(WithHeader(lines, parent, header), [parent, key]))
  {
    hide Path, Locate, BlockOf, MinActive, Entry, ChildSlot, Inserted, FindHeader, Act, Rank, WithHeader;
    var p := BaseFacts(lines, parent, header);
    var base, m := WithHeader(lines, parent, header), ChildSlot(lines, parent).0;
    SlotInBlock(lines, parent, header, p);
    SlotRank(base, parent, p, m);
    SlotIndent(lines, parent);
    AddedFoundIn(base, parent, p, m, x, key);
  }

  lemma AddedFoundIn(base: seq<Line>, parent: string, p: nat, m: nat, x: Line, key: string)
    requires FindHeader(base, 0, parent) == Some(p) && base[p].kind.opens && p < m <= p + 1 + |BlockOf(base, p, 0)|
    requires IsActive(x) && x.kind.indent > 0 && x.kind.token == Some(key)
    requires LocateTop(base, [parent, key]) == None || m == p + 1
    ensures m <= |base|
    ensures LocateTop(Inserted(base, m, x), [parent, key]) ==
            if IsShallow(BlockOf(base, p, 0), x.kind.indent) then Some(m) else Bump(m, LocateTop(base, [parent, key]))
  {
    hide Path, Locate, BlockOf, MinActive, Entry, Inserted, FindHeader, Act, Rank;
    SlotRank(base, parent, p, m);
    ParentEntry(base, parent, p);
    ActsAreActive(base);
    LocateByActive(base, -1, [parent, key]);
    FoundBelow(Act(base), parent, Rank(base, p), Rank(base, m), x, key);
    MinOfActive(BlockOf(base, p, 0));
    LocatedAfter(base, m, x, [parent, key]);
  }

  /** The lines the editor adds: a bare header, and a child that carries the value. */
  lemma AddedLines(lines: seq<Line>, parent: string, key: string, value: string) returns (header: Line, x: Line)
    requires PlainKey(parent) && PlainKey(key) && LocateTop(lines, [parent, key]) == None
    ensures header == Read(parent + ":") && IsBareHeader(header, parent)
    ensures x == Read(KeyLine(ChildSlot(lines, parent).1, key, value)) && IsChildLine(x, lines, parent, key)
    ensures !StartsComment(value) ==> ValueOf(x.text, key) == Trim(value)
    ensures Read(SetLine(x.text, key, value)) == x <==> !StartsComment(value)
    ensures UpsertChild(lines, parent, key, value) == WithChild(lines, parent, header, x)
  {
    hide StartsComment, SetLine, NothingButComment, ValueOf, KindOf, KeyLine, ChildSlot, LocateTop, PutChild, WithChild;
    var indent := ChildSlot(lines, parent).1;
    var text := KeyLine(indent, key, value);
    header, x := Read(parent + ":"), Read(text);
    HeaderLineKind(parent);
    KeyLineLaws(indent, key, value);
    SameReadIff(SetLine(text, key, value), text);
    PutChildIs(lines, parent, header, x);
    UpsertInserts(lines, parent, key, value);
  }

  lemma UpsertInserts(lines: seq<Line>, parent: string, key: string, value: string)
    requires LocateTop(lines, [parent, key]) == None
    ensures UpsertChild(lines, parent, key, value) == InsertChild(lines, parent, key, value)
  {
  }

  /** Where the key is put: on its own line, or in the child's slot. */
  function PutAt(lines: seq<Line>, parent: string, key: string): nat {
    match LocateTop(lines, [parent, key])
    case None => ChildSlot(lines, parent).0
    case Some(i) => i
  }

  /** After adding or replacing, the line put carries the value if that leaves the line's comment alone, and is
      what the path locates exactly when the key was there before or no child of the parent is shallower. */
  lemma UpsertIsSeen(lines: seq<Line>, parent: string, key: string, value: string)
    requires Faithful(lines) && PlainKey(parent) && PlainKey(key)
    ensures var out, put := UpsertChild(lines, parent, key, value), PutAt(lines, parent, key);
            && put < |out|
            && (LocateTop(out, [parent, key]) == Some(put) <==>
                LocateTop(lines, [parent, key]).Some? || Shallow(lines, parent))
            && (LeavesComment(value, CommentOf(lines, [parent, key])) ==> ValueOf(out[put].text, key) == Trim(value))
  {
    hide ValueOf, LeavesComment, Shallow, Locate, StartsComment, KindOf, SetLine, PlainKey, Faithful, ChildSlot,
         WithHeader;
    if LocateTop(lines, [parent, key]).Some? {
      SetValueIsSeen(lines, [parent, key], value);
    } else {
      var header, x := AddedLines(lines, parent, key, value);
      AddedFound(lines, parent, key, header, x);
      InsertedAt(WithHeader(lines, parent, header), ChildSlot(lines, parent).0, x);
      NoComment(value);
    }
  }

  lemma NoComment(value: string)
    ensures LeavesComment(value, "") <==> !StartsComment(value)
  {
  }

  lemma SetAgainIff(out: seq<Line>, segments: seq<string>, m: nat, value: string)
    requires LocateTop(out, segments) == Some(m)
    ensures SetValue(out, segments, value) == Some(out) <==> Read(SetLine(out[m].text, Last(segments), value)) == out[m]
  {
    hide SetLine, KindOf, Locate;
    assert out[m := out[m]] == out;
  }

  lemma UpsertSetsIff(out: seq<Line>, parent: string, key: string, value: string)
    requires LocateTop(out, [parent, key]).Some?
    ensures UpsertChild(out, parent, key, value) == out <==> SetValue(out, [parent, key], value) == Some(out)
  {
    hide SetLine, KindOf, Locate;
  }

  lemma UpsertOverTwice(lines: seq<Line>, parent: string, key: string, value: string)
    requires Faithful(lines) && LocateTop(lines, [parent, key]).Some? && PlainKey(key)
    ensures UpsertChild(UpsertChild(lines, parent, key, value), parent, key, value) ==
            UpsertChild(lines, parent, key, value) <==>
            LeavesComment(value, CommentOf(lines, [parent, key]))
  {
    hide SetLine, KindOf, Locate, LeavesComment, CommentOf, SetValue, PlainKey;
    SetValueTwiceIff(lines, [parent, key], value, value);
    SetValueIsSeen(lines, [parent, key], value);
    PutIsThere(lines, [parent, key], value);
    UpsertSetsIff(SetValue(lines, [parent, key], value).value, parent, key, value);
  }

  lemma PutIsThere(lines: seq<Line>, segments: seq<string>, value: string)
    ensures SetValue(lines, segments, value).Some? <==> LocateTop(lines, segments).Some?
  {
  }

  lemma UpsertNotFound(out: seq<Line>, parent: string, key: string, value: string)
    requires LocateTop(out, [parent, key]) == None
    ensures UpsertChild(out, parent, key, value) != out
  {
    UpsertInserts(out, parent, key, value);
    assert |InsertChild(out, parent, key, value)| > |out|;
  }

  /** Below an inline parent stood a key of that name, on a line that the put would leave as it is. */
  predicate AlreadyBelow(lines: seq<Line>, parent: string, key: string, value: string) {
    var base := WithHeader(lines, parent, Read(parent + ":"));
    match LocateTop(base, [parent, key])
    case None => false
    case Some(i) => Read(SetLine(base[i].text, key, value)) == base[i]
  }

  /** The same upsert again changes nothing: for a key that was there exactly when the value leaves its comment
      alone; for an added one exactly when it starts no comment and is found, or hides behind such a line. */
  lemma UpsertTwiceIff(lines: seq<Line>, parent: string, key: string, value: string)
    requires Faithful(lines) && PlainKey(parent) && PlainKey(key)
    ensures UpsertChild(UpsertChild(lines, parent, key, value), parent, key, value) ==
            UpsertChild(lines, parent, key, value) <==>
            if LocateTop(lines, [parent, key]).Some? then LeavesComment(value, CommentOf(lines, [parent, key]))
            else if Shallow(lines, parent) then !StartsComment(value)
            else AlreadyBelow(lines, parent, key, value)
  {
    hide LeavesComment, Shallow, Locate, StartsComment, KindOf, SetLine, PlainKey, Faithful, ChildSlot, WithHeader,
         CommentOf, UpsertChild, AlreadyBelow;
    if LocateTop(lines, [parent, key]).Some? {
      UpsertOverTwice(lines, parent, key, value);
    } else {
      AddedTwiceIff(lines, parent, key, value);
    }
  }

  lemma AddedTwiceIff(lines: seq<Line>, parent: string, key: string, value: string)
    requires LocateTop(lines, [parent, key]) == None && PlainKey(parent) && PlainKey(key)
    ensures UpsertChild(UpsertChild(lines, parent, key, value), parent, key, value) ==
            UpsertChild(lines, parent, key, value) <==>
            if Shallow(lines, parent) then !StartsComment(value) else AlreadyBelow(lines, parent, key, value)
  {
    hide LeavesComment, Shallow, Locate, StartsComment, KindOf, SetLine, PlainKey, ChildSlot, WithHeader, UpsertChild,
         SetValue;
    var header, x := AddedLines(lines, parent, key, value);
    AddedFound(lines, parent, key, header, x);
    var base, m, out := WithHeader(lines, parent, header), ChildSlot(lines, parent).0,
      WithChild(lines, parent, header, x);
    InsertedAt(base, m, x);
    match LocateTop(out, [parent, key])
    case None => UpsertNotFound(out, parent, key, value);
    case Some(i) =>
      SetAgainIff(out, [parent, key], i, value);
      UpsertSetsIff(out, parent, key, value);
  }

  // ---- every other key ----

  lemma ParentIsLocated(lines: seq<Line>, parent: string, p: nat)
    requires FindHeader(lines, 0, parent) == Some(p)
    ensures LocateTop(lines, [parent]) == Some(p)
  {
    ParentEntry(lines, parent, p);
    LocateIs(lines, [parent], p);
  }

  lemma NothingBelowInline(lines: seq<Line>, parent: string, p: nat, q: seq<string>)
    requires FindHeader(lines, 0, parent) == Some(p) && !lines[p].kind.opens
    requires LocateTop(lines, q).Some?
    ensures !([parent] < q)
  {
    if [parent] < q {
      ParentEntry(lines, parent, p);
      LocateByActive(lines, -1, q);
      PathUnfold(Act(lines), -1, q);
    }
  }

  lemma InlineHeaderKeeps(lines: seq<Line>, parent: string, p: nat, header: Line, q: seq<string>)
    requires FindHeader(lines, 0, parent) == Some(p) && !lines[p].kind.opens && IsBareHeader(header, parent)
    requires LocateTop(lines, q).Some?
    ensures LocateTop(lines[p := header], q) == LocateTop(lines, q)
    ensures q != [parent] ==> LocateTop(lines, q) != Some(p)
  {
    ParentIsLocated(lines, parent, p);
    NothingBelowInline(lines, parent, p, q);
    ReplaceMovesNothing(lines, [parent], header, q);
    if LocateTop(lines, q) == Some(p) { SamePlaceSamePath(lines, [parent], q); }
  }

  /** The child, put at `k` below its parent at line `h`, disturbs no path beside that parent. */
  lemma BesideParent(a: seq<Line>, parent: string, h: nat, k: nat, x: Line, q: seq<string>)
    requires AllActive(a) && Entry(a, -1, parent) == Some((0, h)) && h < k <= h + 1 + |BlockOf(a, h, 0)| && k <= |a|
    requires IsActive(x) && x.kind.indent > 0 && Path(a, -1, q).Some? && (q[0] != parent || |q| == 1)
    ensures Undisturbed(a, -1, k, x, q)
  {
    hide BlockLen, FindHeader, MinActive;
    EntryIsChild(a, -1, q[0]);
    var i := Entry(a, -1, q[0]).value.1;
    if i < h {
      BlockLines(a, i, 0);
    } else if h < i {
      BlockLines(a, h, 0);
    }
  }

  /** Nor does a new sibling at the end. */
  lemma SiblingAtEnd(a: seq<Line>, parentIndent: int, x: Line, q: seq<string>)
    requires AllActive(a) && Path(a, parentIndent, q).Some? && IsActive(x) && MinActive(a) == Some(x.kind.indent)
    ensures Undisturbed(a, parentIndent, |a|, x, q)
  {
  }

  /** The other keys that stay: all of them above an inline parent; where the parent is new, those of a text with
      keys at the left edge; and where it has a block, those that the child in its slot does not disturb. */
  ghost predicate KeepsPath(lines: seq<Line>, parent: string, x: Line, q: seq<string>)
    requires IsActive(x) && LocateTop(lines, q).Some?
  {
    match FindHeader(lines, 0, parent)
    case None => MinActive(lines) == Some(0)
    case Some(p) => lines[p].kind.opens ==> KeepsBelow(lines, ChildSlot(lines, parent).0, x, q)
  }

  ghost predicate KeepsBelow(lines: seq<Line>, m: nat, x: Line, q: seq<string>)
    requires IsActive(x) && LocateTop(lines, q).Some?
  {
    LocatedKey(lines, q);
    m <= |lines| && Rank(lines, m) <= |Act(lines)| && Undisturbed(Act(lines), -1, Rank(lines, m), x, q)
  }

  lemma LocatedFirst(lines: seq<Line>, q: seq<string>)
    requires LocateTop(lines, q).Some?
    ensures q != [] && MinActive(lines).Some? && MinActive(Act(lines)) == MinActive(lines)
    ensures Path(Act(lines), -1, q).Some? && Path(Act(lines), -1, q).value < |Act(lines)|
    ensures FindHeader(lines, 0, q[0]).None? ==> MinActive(lines) != Some(0)
  {
    LocateByActive(lines, -1, q);
    MinOfActive(lines);
    HeaderOfActive(lines, 0, q[0]);
  }

  /** Behind a new parent at the end. */
  lemma NewParentKeepsIff(lines: seq<Line>, parent: string, header: Line, x: Line, q: seq<string>)
    requires FindHeader(lines, 0, parent) == None && IsBareHeader(header, parent) && IsActive(x) && x.kind.indent > 0
    requires LocateTop(lines, q).Some?
    ensures var i, out := LocateTop(lines, q).value, Inserted(lines + [header], |lines| + 1, x);
            && (LocateTop(out, q) == Some(i) <==> MinActive(lines) == Some(0))
            && (lines + [header])[i] == lines[i] && out[i] == lines[i] &&
               (MinActive(lines) == Some(0) ==> q[0] != parent)
  {
    hide Path, Locate, FindHeader, MinActive, Inserted, Act, Rank;
    var i, base, n := LocateTop(lines, q).value, lines + [header], |lines|;
    LocatedFirst(lines, q);
    ActsAreActive(lines);
    AppendIsInsert(lines, header);
    InsertedAt(base, n + 1, x);
    if MinActive(lines) == Some(0) {
      AppendedKeeps(lines, header, q);
      AppendedHeader(lines, parent, header);
      BesideAppended(base, parent, n, x, q);
    } else {
      NewEdge(lines, header, x, q);
    }
  }

  lemma AppendedKeeps(lines: seq<Line>, header: Line, q: seq<string>)
    requires LocateTop(lines, q).Some? && IsActive(header) && MinActive(lines) == Some(header.kind.indent)
    ensures LocateTop(lines + [header], q) == LocateTop(lines, q)
  {
    hide Path, Locate, MinActive, Filter;
    AppendIsInsert(lines, header);
    ActsAreActive(lines);
    LocatedFirst(lines, q);
    assert lines[..|lines|] == lines;
    PutKeepsIff(lines, |lines|, header, q);
    SiblingAtEnd(Act(lines), -1, header, q);
  }

  lemma BesideAppended(base: seq<Line>, parent: string, p: nat, x: Line, q: seq<string>)
    requires FindHeader(base, 0, parent) == Some(p) && p + 1 <= |base| && IsActive(x) && x.kind.indent > 0
    requires LocateTop(base, q).Some? && (q[0] != parent || |q| == 1)
    ensures LocateTop(Inserted(base, p + 1, x), q) == Bump(p + 1, LocateTop(base, q))
  {
    hide Path, Locate, FindHeader, Inserted, Act, Rank;
    ParentEntry(base, parent, p);
    SlotRank(base, parent, p, p + 1);
    ActsAreActive(base);
    PutKeepsIff(base, p + 1, x, q);
    BesideParent(Act(base), parent, Rank(base, p), Rank(base, p + 1), x, q);
  }

  /** In front of keys that are all indented, a header at the left edge hides them. */
  lemma NewEdge(lines: seq<Line>, header: Line, x: Line, q: seq<string>)
    requires LocateTop(lines, q).Some? && MinActive(lines) != Some(0)
    requires IsActive(header) && header.kind.indent == 0 && IsActive(x) && x.kind.indent > 0
    ensures LocateTop(Inserted(lines + [header], |lines| + 1, x), q) != LocateTop(lines, q)
  {
    hide Path, Locate, MinActive, Filter;
    var out, a := Inserted(lines + [header], |lines| + 1, x), Act(lines);
    LocatedFirst(lines, q);
    ActsAreActive(lines);
    assert out == lines + [header, x];
    FilterAppend(IsActive, lines, [header, x]);
    FilterAll(IsActive, [header, x]);
    assert Act(out) == Inserted(a + [x], |a|, header);
    AppendIsInsert(a, x);
    MinAfterInsert(a, |a|, x);
    AllActiveInserted(a, |a|, x);
    InsertShallower(a + [x], -1, |a|, header, q, Least(x.kind.indent, MinActive(a)).value);
    LocateByActive(lines, -1, q);
    LocateByActive(out, -1, q);
    assert out[..LocateTop(lines, q).value] == lines[..LocateTop(lines, q).value];
  }

  /** Exactly which of the other keys stay where their lines went. */
  lemma ChildKeepsIff(lines: seq<Line>, parent: string, key: string, header: Line, x: Line, q: seq<string>)
    requires LocateTop(lines, [parent, key]) == None && IsBareHeader(header, parent) &&
             IsChildLine(x, lines, parent, key)
    requires LocateTop(lines, q).Some?
    ensures var i, out := LocateTop(lines, q).value, WithChild(lines, parent, header, x);
            var k := Bump(ChildSlot(lines, parent).0, Some(i)).value;
            && (LocateTop(out, q) == Some(k) <==> KeepsPath(lines, parent, x, q))
            && k < |out|
            && out[k] == if q == [parent] && !lines[i].kind.opens && FindHeader(lines, 0, parent).Some?
                         then header else lines[i]
  {
    hide Path, Locate, FindHeader, MinActive, Inserted, Act, Rank, KeepsBelow, ChildPlace;
    var i := LocateTop(lines, q).value;
    SlotIndent(lines, parent);
    match FindHeader(lines, 0, parent)
    case None =>
      NewParentKeepsIff(lines, parent, header, x, q);
      InsertedAt(lines + [header], |lines| + 1, x);
    case Some(p) =>
      ParentIsLocated(lines, parent, p);
      if lines[p].kind.opens {
        BlockKeepsIff(lines, parent, x, q);
        InsertedAt(lines, ChildSlot(lines, parent).0, x);
      } else {
        InlineKeeps(lines, parent, p, header, x, q);
      }
  }

  lemma BlockKeepsIff(lines: seq<Line>, parent: string, x: Line, q: seq<string>)
    requires FindHeader(lines, 0, parent).Some? && lines[FindHeader(lines, 0, parent).value].kind.opens
    requires IsActive(x) && LocateTop(lines, q).Some?
    ensures var i, m := LocateTop(lines, q).value, ChildSlot(lines, parent).0;
            && m <= |lines| && (LocateTop(Inserted(lines, m, x), q) == Bump(m, Some(i)) <==> KeepsBelow(lines, m, x, q))
            && Bump(m, Some(i)).value <= |lines| && Inserted(lines, m, x)[Bump(m, Some(i)).value] == lines[i]
  {
    hide Path, Locate, FindHeader, Inserted, Act, Rank, ChildSlot, Undisturbed;
    PutKeepsIff(lines, ChildSlot(lines, parent).0, x, q);
  }

  lemma InlineKeeps(lines: seq<Line>, parent: string, p: nat, header: Line, x: Line, q: seq<string>)
    requires FindHeader(lines, 0, parent) == Some(p) && !lines[p].kind.opens && IsBareHeader(header, parent)
    requires IsActive(x) && x.kind.indent > 0 && LocateTop(lines, q).Some?
    ensures var i, out := LocateTop(lines, q).value, Inserted(lines[p := header], p + 1, x);
            && LocateTop(out, q) == Bump(p + 1, Some(i)) && Bump(p + 1, Some(i)).value < |out|
            && out[Bump(p + 1, Some(i)).value] == if q == [parent] then header else lines[i]
  {
    hide Path, Locate, FindHeader, Inserted, Act, Rank;
    var base := lines[p := header];
    InlineHeaderKeeps(lines, parent, p, header, q);
    NothingBelowInline(lines, parent, p, q);
    ReplacedHeader(lines, parent, p, header);
    ParentIsLocated(lines, parent, p);
    LocatedFirst(lines, q);
    FirstAlone(q, parent);
    BesideAppended(base, parent, p, x, q);
    PutKeepsIff(base, p + 1, x, q);
    InsertedAt(base, p + 1, x);
  }

  lemma FirstAlone(q: seq<string>, parent: string)
    requires q != [] && !([parent] < q)
    ensures q[0] != parent || |q| == 1
  {
    assert q[..1] == [q[0]];
  }

  /** Every other key: after an upsert it is located where its line went exactly when the child leaves it so, and
      that line is untouched, unless it is an inline parent: that line becomes the bare header. */
  lemma UpsertKeepsIff(lines: seq<Line>, parent: string, key: string, value: string, q: seq<string>)
    requires Faithful(lines) && PlainKey(parent) && PlainKey(key)
    requires LocateTop(lines, q).Some? && !([parent, key] <= q)
    ensures var i, out := LocateTop(lines, q).value, UpsertChild(lines, parent, key, value);
            if LocateTop(lines, [parent, key]).Some? then
              LocateTop(out, q) == Some(i) && i < |out| && out[i] == lines[i]
            else
              var child := Read(KeyLine(ChildSlot(lines, parent).1, key, value));
              var k := Bump(ChildSlot(lines, parent).0, Some(i)).value;
              && IsActive(child) && (LocateTop(out, q) == Some(k) <==> KeepsPath(lines, parent, child, q)) && k < |out|
              && out[k] == if q == [parent] && !lines[i].kind.opens && FindHeader(lines, 0, parent).Some?
                           then Read(parent + ":") else lines[i]
  {
    hide Locate, KindOf, SetLine, PlainKey, Faithful, ChildSlot, WithHeader, UpsertChild, KeepsPath, KeyLine,
         FindHeader;
    if LocateTop(lines, [parent, key]).Some? {
      SetValueKeepsOthers(lines, [parent, key], value, q);
      PutIsThere(lines, [parent, key], value);
      UpsertIsPut(lines, parent, key, value);
    } else {
      var header, x := AddedLines(lines, parent, key, value);
      ChildKeepsIff(lines, parent, key, header, x, q);
    }
  }

  lemma UpsertIsPut(lines: seq<Line>, parent: string, key: string, value: string)
    requires LocateTop(lines, [parent, key]).Some?
    ensures Some(UpsertChild(lines, parent, key, value)) == SetValue(lines, [parent, key], value)
  {
  }

  // ---- texts on which every other key stays ----

  /** No child below an unindented comment, and the first child is a shallowest one. */
  ghost predicate SteadyBlock(v: seq<Line>) {
    && Act(v[..BlockLen(v, 0)]) == Act(v[..ScanLen(v)])
    && FirstActiveIndent(v[..ScanLen(v)]) == MinActive(v[..ScanLen(v)])
  }

  ghost predicate Extendable(lines: seq<Line>, parent: string) {
    match FindHeader(lines, 0, parent)
    case None => MinActive(lines) == None || MinActive(lines) == Some(0)
    case Some(p) => lines[p].kind.opens ==> SteadyBlock(lines[p + 1..])
  }

  lemma SteadySlot(lines: seq<Line>, parent: string, p: nat)
    requires FindHeader(lines, 0, parent) == Some(p) && lines[p].kind.opens && SteadyBlock(lines[p + 1..])
    ensures var m, block := ChildSlot(lines, parent).0, Act(BlockOf(lines, p, 0));
            && m <= |lines| && Rank(lines, m) == Rank(lines, p) + 1 + |block|
            && (MinActive(block).Some? ==> MinActive(block) == Some(ChildSlot(lines, parent).1))
  {
    hide FindHeader, MinActive, Filter, BlockLen;
    var v := lines[p + 1..];
    UsedAct(v, ScanLen(v));
    RankPast(lines, p, UsedLen(v, ScanLen(v)));
    MinOfActive(v[..ScanLen(v)]);
  }

  /** On such texts the child disturbs no other key. */
  lemma SteadyKeeps(lines: seq<Line>, parent: string, key: string, x: Line, q: seq<string>)
    requires Extendable(lines, parent) && IsChildLine(x, lines, parent, key)
    requires LocateTop(lines, q).Some? && LocateTop(lines, [parent, key]) == None
    ensures KeepsPath(lines, parent, x, q)
  {
    hide Path, Locate, FindHeader, MinActive, Act, Rank, ChildSlot, SteadyBlock, Undisturbed;
    LocatedFirst(lines, q);
    if FindHeader(lines, 0, parent).Some? && lines[FindHeader(lines, 0, parent).value].kind.opens {
      var p := FindHeader(lines, 0, parent).value;
      SteadySlot(lines, parent, p);
      SlotIndent(lines, parent);
      SteadyBelow(lines, parent, p, ChildSlot(lines, parent).0, x, q);
    }
  }

  lemma SteadyBelow(lines: seq<Line>, parent: string, p: nat, m: nat, x: Line, q: seq<string>)
    requires FindHeader(lines, 0, parent) == Some(p) && lines[p].kind.opens && LocateTop(lines, q).Some?
    requires IsActive(x) && x.kind.indent > 0
    requires var block := Act(BlockOf(lines, p, 0));
             && m <= |lines| && Rank(lines, m) == Rank(lines, p) + 1 + |block|
             && (MinActive(block).Some? ==> MinActive(block) == Some(x.kind.indent))
    ensures KeepsBelow(lines, m, x, q)
  {
    hide Path, Locate, FindHeader, MinActive, Act, Rank;
    ParentEntry(lines, parent, p);
    ActsAreActive(lines);
    LocatedFirst(lines, q);
    BlockLines(Act(lines), Rank(lines, p), 0);
    var a, h, k := Act(lines), Rank(lines, p), Rank(lines, m);
    if q[0] != parent || |q| == 1 {
      BesideParent(a, parent, h, k, x, q);
    } else {
      PathInBlock(a, -1, q, Path(a, -1, q).value);
      SteadyInside(BlockOf(a, h, 0), x, q[1..]);
    }
  }

  lemma SteadyInside(block: seq<Line>, x: Line, q: seq<string>)
    requires AllActive(block) && IsActive(x) && Path(block, 0, q).Some?
    requires MinActive(block).Some? ==> MinActive(block) == Some(x.kind.indent)
    ensures Undisturbed(block, 0, |block|, x, q)
  {
    hide Undisturbed;
    SiblingAtEnd(block, 0, x, q);
  }

  /** On such texts every other key that could be located still is. */
  lemma UpsertKeepsOthers(lines: seq<Line>, parent: string, key: string, value: string, q: seq<string>)
    requires Faithful(lines) && Extendable(lines, parent) && PlainKey(parent) && PlainKey(key)
    requires LocateTop(lines, q).Some? && !([parent, key] <= q)
    ensures var i, out := LocateTop(lines, q).value, UpsertChild(lines, parent, key, value);
            LocateTop(out, q).Some? &&
            out[LocateTop(out, q).value] ==
            if q == [parent] && !lines[i].kind.opens && LocateTop(lines, [parent, key]).None? then Read(parent + ":")
              else lines[i]
  {
    hide Locate, KindOf, SetLine, PlainKey, Faithful, ChildSlot, WithHeader, UpsertChild, KeepsPath, KeyLine,
         FindHeader, SteadyBlock, MinActive;
    LocatedFirst(lines, q);
    UpsertKeepsIff(lines, parent, key, value, q);
    if LocateTop(lines, [parent, key]).None? {
      var header, x := AddedLines(lines, parent, key, value);
      SteadyKeeps(lines, parent, key, x, q);
    }
  }
}
