/** An upserted key is there once, and deleting it gives the text back when nothing else goes with it. */
module YamlRoundTrips {
  import opened Prelude
  import opened YamlLines
  import opened YamlEdit
  import opened YamlPaths
  import opened YamlInsert
  import opened YamlLaws
  import opened YamlPlaced
  import opened YamlRemove
  import opened YamlUpsert

  // ---- how often a key occurs ----

  /** The direct children of `parent` with this key, among active lines. */
  function ChildCount(a: seq<Line>, parent: string, key: string): nat {
    match Entry(a, -1, parent)
    case None => 0
    case Some((level, h)) =>
      if !a[h].kind.opens then 0
      else
        match MinActive(BlockOf(a, h, level))
        case None => 0
        case Some(child) => KeyCount(BlockOf(a, h, level), child, key)
  }

  function Occurrences(lines: seq<Line>, parent: string, key: string): nat {
    ChildCount(Act(lines), parent, key)
  }

  /** The count is what the editor finds: a key is located exactly when it occurs. */
  lemma OccursIffLocated(lines: seq<Line>, parent: string, key: string)
    ensures LocateTop(lines, [parent, key]).Some? <==> Occurrences(lines, parent, key) > 0
  {
    hide Locate, FindHeader, MinActive, Act, BlockOf, Entry, KeyCount, Path;
    var a := Act(lines);
    LocateByActive(lines, -1, [parent, key]);
    PathUnfold(a, -1, [parent, key]);
    match Entry(a, -1, parent)
    case None =>
    case Some((level, h)) =>
      assert [parent, key][1..] == [key];
      ChildFoundIff(a, h, level, key);
  }

  lemma ChildFoundIff(a: seq<Line>, h: nat, level: nat, key: string)
    requires h < |a|
    ensures Path(BlockOf(a, h, level), level, [key]).Some? <==>
            match MinActive(BlockOf(a, h, level))
            case None => false
            case Some(child) => KeyCount(BlockOf(a, h, level), child, key) > 0
  {
    hide FindHeader, KeyCount;
    var block := BlockOf(a, h, level);
    BlockDeeper(a[h + 1..], level);
    if MinActive(block).Some? {
      CountIsFind(block, MinActive(block).value, key);
    }
  }

  lemma {:induction false} CountAfterReplace(a: seq<Line>, j: nat, y: Line, level: nat, seg: string)
    requires j < |a| && SameShape(a[j], y)
    ensures KeyCount(a[j := y], level, seg) == KeyCount(a, level, seg)
  {
    if j > 0 {
      assert a[j := y][1..] == a[1..][j - 1 := y];
      CountAfterReplace(a[1..], j - 1, y, level, seg);
    } else {
      assert a[j := y][1..] == a[1..];
    }
  }

  lemma CountInserted(a: seq<Line>, k: nat, x: Line, level: nat, seg: string)
    requires k <= |a|
    ensures KeyCount(Inserted(a, k, x), level, seg) ==
            KeyCount(a, level, seg) + if IsHeader(x, level, seg) then 1 else 0
  {
    hide IsHeader;
    CountAppend(a[..k] + [x], a[k..], level, seg);
    CountAppend(a[..k], [x], level, seg);
    CountAppend(a[..k], a[k..], level, seg);
    assert a == a[..k] + a[k..] && [x][1..] == [];
  }

  /** One more child: the others with its key count only if they are at its level. */
  lemma ChildCountAfterPut(a: seq<Line>, parent: string, h: nat, k: nat, x: Line, key: string)
    requires AllActive(a) && Entry(a, -1, parent) == Some((0, h)) && a[h].kind.opens &&
             h < k <= h + 1 + |BlockOf(a, h, 0)|
    requires IsActive(x) && x.kind.indent > 0 && x.kind.token == Some(key)
    ensures k <= |a|
    ensures ChildCount(Inserted(a, k, x), parent, key) ==
            if IsShallow(BlockOf(a, h, 0), x.kind.indent) then 1 + KeyCount(BlockOf(a, h, 0), x.kind.indent, key)
            else ChildCount(a, parent, key)
  {
    hide Entry, MinActive, Inserted, BlockOf, KeyCount;
    var block := BlockOf(a, h, 0);
    BlockLines(a, h, 0);
    EntryAfterPut(a, -1, k, x, parent);
    BlockAfterPut(a, k, x, h, 0);
    MinAfterInsert(block, k - h - 1, x);
    CountInserted(block, k - h - 1, x, Least(x.kind.indent, MinActive(block)).value, key);
  }

  lemma ReplacedOnce(a: seq<Line>, parent: string, key: string, j: nat, y: Line)
    requires Path(a, -1, [parent, key]) == Some(j) && SameShape(a[j], y)
    ensures ChildCount(a[j := y], parent, key) == ChildCount(a, parent, key)
  {
    PathInBlock(a, -1, [parent, key], j);
    var (level, h) := Entry(a, -1, parent).value;
    var block := BlockOf(a, h, level);
    EntryAfterReplace(a, -1, j, y, parent);
    BlockOfReplaced(a, h, level, j, y);
    MinAfterReplace(block, j - h - 1, y);
    if MinActive(block).Some? {
      CountAfterReplace(block, j - h - 1, y, MinActive(block).value, key);
    }
  }

  lemma SetOnce(lines: seq<Line>, parent: string, key: string, y: Line)
    requires LocateTop(lines, [parent, key]).Some? && SameShape(lines[LocateTop(lines, [parent, key]).value], y)
    ensures Occurrences(lines[LocateTop(lines, [parent, key]).value := y], parent, key) ==
            Occurrences(lines, parent, key)
  {
    var i := LocateTop(lines, [parent, key]).value;
    LocatedKey(lines, [parent, key]);
    ActAfterReplace(lines, i, y);
    ReplacedOnce(Act(lines), parent, key, Rank(lines, i), y);
  }

  lemma AddedCount(lines: seq<Line>, parent: string, key: string, header: Line, x: Line)
    requires IsBareHeader(header, parent) && IsChildLine(x, lines, parent, key)
    ensures Occurrences(WithChild(lines, parent, header, x), parent, key) ==
            if Shallow(lines, parent) then
              1 + KeyCount(Act(ParentBlock(lines, parent)), ChildSlot(lines, parent).1, key)
            else Occurrences(WithHeader(lines, parent, header), parent, key)
  {
    hide BlockOf, MinActive, Entry, ChildSlot, Inserted, FindHeader, Act, Rank, WithHeader, ChildCount, KeyCount;
    var p := BaseFacts(lines, parent, header);
    var base, m := WithHeader(lines, parent, header), ChildSlot(lines, parent).0;
    SlotInBlock(lines, parent, header, p);
    SlotRank(base, parent, p, m);
    SlotIndent(lines, parent);
    ParentEntry(base, parent, p);
    ActsAreActive(base);
    MinOfActive(BlockOf(base, p, 0));
    ActInserted(base, m, x);
    ChildCountAfterPut(Act(base), parent, Rank(base, p), Rank(base, m), x, key);
  }

  /** Below a parent that has a block, or none yet, the key to be added is not among the first level's. */
  lemma NoneToCount(lines: seq<Line>, parent: string, key: string)
    requires LocateTop(lines, [parent, key]) == None && Shallow(lines, parent)
    requires FindHeader(lines, 0, parent).Some? ==> lines[FindHeader(lines, 0, parent).value].kind.opens
    ensures KeyCount(Act(ParentBlock(lines, parent)), ChildSlot(lines, parent).1, key) == 0
  {
    hide Path, Locate, BlockLen, Entry, ChildSlot, FindHeader, Act, Rank, MinActive;
    var block, indent := Act(ParentBlock(lines, parent)), ChildSlot(lines, parent).1;
    if FindHeader(lines, 0, parent).Some? {
      var p := FindHeader(lines, 0, parent).value;
      ParentEntry(lines, parent, p);
      LocateByActive(lines, -1, [parent, key]);
      ChildPath(Act(lines), parent, Rank(lines, p), key);
      BlockIsDeeper(Act(lines), Rank(lines, p));
      MinOfActive(BlockOf(lines, p, 0));
      NoneAbove(block, indent, key);
      CountIsFind(block, indent, key);
    } else {
      NothingToCount(indent, key);
    }
  }

  lemma NothingToCount(level: nat, key: string)
    ensures KeyCount(Act([]), level, key) == 0
  {
  }

  /** How often the upserted key occurs: as often as before when it was there; once when it is added and found,
      but for lines that an inline parent had below it; and otherwise as if nothing had been added. */
  lemma UpsertOccurs(lines: seq<Line>, parent: string, key: string, value: string)
    requires Faithful(lines) && PlainKey(parent) && PlainKey(key)
    ensures Occurrences(UpsertChild(lines, parent, key, value), parent, key) ==
            if LocateTop(lines, [parent, key]).Some? then Occurrences(lines, parent, key)
            else if !Shallow(lines, parent) then Occurrences(WithHeader(lines, parent, Read(parent + ":")), parent, key)
            else 1 + match FindHeader(lines, 0, parent)
                     case None => 0
                     case Some(p) =>
                       if lines[p].kind.opens then 0
                       else KeyCount(Act(ParentBlock(lines, parent)), ChildSlot(lines, parent).1, key)
  {
    hide Locate, Occurrences, Shallow, ChildSlot, WithHeader, FindHeader, KindOf, SetLine, PlainKey, Faithful,
         ParentBlock, KeyCount;
    if LocateTop(lines, [parent, key]).Some? {
      SetLineKeepsShape(lines, [parent, key], value);
      SetOnce(lines, parent, key, Read(SetLine(lines[LocateTop(lines, [parent, key]).value].text, key, value)));
    } else {
      var header, x := AddedLines(lines, parent, key, value);
      AddedCount(lines, parent, key, header, x);
      if Shallow(lines, parent) { AddedToNone(lines, parent, key); }
    }
  }

  lemma AddedToNone(lines: seq<Line>, parent: string, key: string)
    requires LocateTop(lines, [parent, key]) == None && Shallow(lines, parent)
    ensures (FindHeader(lines, 0, parent).Some? && !lines[FindHeader(lines, 0, parent).value].kind.opens) ||
            KeyCount(Act(ParentBlock(lines, parent)), ChildSlot(lines, parent).1, key) == 0
  {
    hide Locate, Shallow, ChildSlot, FindHeader, ParentBlock, KeyCount;
    if FindHeader(lines, 0, parent).None? || lines[FindHeader(lines, 0, parent).value].kind.opens {
      NoneToCount(lines, parent, key);
    }
  }

  // ---- deleting what was added ----

  lemma {:induction false} CommentsAbovePrefix(a: seq<Line>, b: seq<Line>, m: nat)
    requires m <= |a| && m <= |b| && a[..m] == b[..m]
    ensures CommentsAbove(a, m) == CommentsAbove(b, m)
  {
    if m > 0 {
      assert a[m - 1] == a[..m][m - 1] == b[..m][m - 1];
      assert a[..m - 1] == a[..m][..m - 1] == b[..m][..m - 1];
      CommentsAbovePrefix(a, b, m - 1);
    }
  }

  /** Deleting the line just added gives the text back unless a comment above or a deeper line below goes too. */
  lemma DeleteInserted(base: seq<Line>, m: nat, x: Line)
    requires 0 < m <= |base| && IsActive(x)
    ensures DeleteAt(Inserted(base, m, x), m) == base
            <==> !base[m - 1].kind.Comment? && ContinuationLen(base[m..], x.kind.indent) == 0
  {
    var out := Inserted(base, m, x);
    var s, n := CommentsAbove(base, m), ContinuationLen(base[m..], x.kind.indent);
    assert out[m + 1..] == base[m..] && out[..m] == base[..m];
    CommentsAbovePrefix(out, base, m);
    assert out[..s] == base[..s];
    assert base == base[..m] + base[m..];
    assert |DeleteAt(out, m)| == s + |base| - m - n;
  }

  ghost predicate NothingDeeper(w: seq<Line>, indent: nat) {
    !NextIsDeeper(w, indent) && ContinuationLen(w, indent) == 0
  }

  lemma {:induction false} BlanksAreNotDeeper(v: seq<Line>, n: nat, indent: nat)
    requires n <= |v| && NothingDeeper(v[n..], indent)
    ensures NothingDeeper(v[UsedLen(v, n)..], indent)
  {
    if n > 0 && v[n - 1].kind.Blank? {
      assert v[n - 1..][1..] == v[n..];
      BlanksAreNotDeeper(v, n - 1, indent);
    }
  }

  lemma NothingDeeperBelow(v: seq<Line>, indent: nat)
    ensures ContinuationLen(v[ChildPlace(v).0..], indent) == 0
  {
    var n := ScanLen(v);
    assert n < |v| ==> v[n..][0] == v[n];
    BlanksAreNotDeeper(v, n, indent);
  }

  lemma DeletesAt(out: seq<Line>, segments: seq<string>, m: nat)
    requires LocateTop(out, segments) == Some(m)
    ensures DeleteKey(out, segments) == Some(DeleteAt(out, m))
  {
  }

  lemma ChildBelow(lines: seq<Line>, p: nat, indent: nat)
    requires p < |lines|
    ensures ContinuationLen(lines[p + 1 + ChildPlace(lines[p + 1..]).0..], indent) == 0
  {
    var v := lines[p + 1..];
    NothingDeeperBelow(v, indent);
    assert v[ChildPlace(v).0..] == lines[p + 1 + ChildPlace(v).0..];
  }

  lemma DeleteAdded(lines: seq<Line>, segments: seq<string>, p: nat, x: Line, out: seq<Line>)
    requires p < |lines| && IsActive(x)
    requires var m := p + 1 + ChildPlace(lines[p + 1..]).0;
             out == Inserted(lines, m, x) && LocateTop(out, segments) == Some(m)
    ensures DeleteKey(out, segments) == Some(lines) <==> !lines[p + ChildPlace(lines[p + 1..]).0].kind.Comment?
  {
    var m := p + 1 + ChildPlace(lines[p + 1..]).0;
    DeletesAt(out, segments, m);
    ChildBelow(lines, p, x.kind.indent);
    DeleteInserted(lines, m, x);
  }

  /** With no such parent, the deletion leaves the bare header behind. */
  lemma DeleteLeavesHeader(lines: seq<Line>, parent: string, key: string, value: string)
    requires FindHeader(lines, 0, parent) == None && LocateTop(lines, [parent, key]) == None
    requires PlainKey(parent) && PlainKey(key)
    ensures DeleteKey(UpsertChild(lines, parent, key, value), [parent, key]) == Some(lines + [Read(parent + ":")])
  {
    hide Locate, KindOf, PlainKey, UpsertChild, DeleteAt, MinActive;
    var header, x := AddedLines(lines, parent, key, value);
    AddedFound(lines, parent, key, header, x);
    assert Shallow(lines, parent) by { NoLinesNoLevel(); }
    DeletesAt(WithChild(lines, parent, header, x), [parent, key], |lines| + 1);
    NothingBelowEnd(lines, header, x);
    DeleteInserted(lines + [header], |lines| + 1, x);
  }

  lemma NoLinesNoLevel()
    ensures MinActive([]) == None
  {
  }

  lemma NothingBelowEnd(lines: seq<Line>, header: Line, x: Line)
    requires IsActive(x)
    ensures ContinuationLen((lines + [header])[|lines| + 1..], x.kind.indent) == 0
  {
  }

  /** In any block, deleting the key just added gives the lines back exactly when the key is located and the
      line above it, the last one of the block, is no comment. */
  lemma DeleteUndoesUpsertIff(lines: seq<Line>, parent: string, p: nat, key: string, value: string)
    requires FindHeader(lines, 0, parent) == Some(p) && lines[p].kind.opens && LocateTop(lines, [parent, key]) == None
    requires PlainKey(parent) && PlainKey(key)
    ensures var m := ChildSlot(lines, parent).0;
            && 0 < m <= |lines|
            && (DeleteKey(UpsertChild(lines, parent, key, value), [parent, key]) == Some(lines) <==>
                Shallow(lines, parent) && !lines[m - 1].kind.Comment?)
  {
    hide Locate, KindOf, PlainKey, UpsertChild, Shallow, ChildSlot, DeleteKey, Inserted, FindHeader, WithHeader,
         StartsComment, ValueOf, SetLine, KeyLine;
    var header, x := AddedLines(lines, parent, key, value);
    AddedFound(lines, parent, key, header, x);
    SlotOfBlock(lines, parent, p, header);
    if Shallow(lines, parent) {
      DeleteAdded(lines, [parent, key], p, x, UpsertChild(lines, parent, key, value));
    } else {
      NothingDeleted(UpsertChild(lines, parent, key, value), [parent, key]);
    }
  }

  lemma SlotOfBlock(lines: seq<Line>, parent: string, p: nat, header: Line)
    requires FindHeader(lines, 0, parent) == Some(p) && lines[p].kind.opens
    ensures WithHeader(lines, parent, header) == lines
    ensures ChildSlot(lines, parent).0 == p + 1 + ChildPlace(lines[p + 1..]).0 <= |lines|
  {
  }

  lemma NothingDeleted(out: seq<Line>, segments: seq<string>)
    requires LocateTop(out, segments) == None
    ensures DeleteKey(out, segments) == None
  {
  }
}
