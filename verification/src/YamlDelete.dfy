/** Deleting any key of a text: what is found afterwards, what no longer, and what for the first time. */
module YamlDelete {
  import opened Prelude
  import opened YamlLines
  import opened YamlEdit
  import opened YamlPaths
  import opened YamlLaws
  import opened YamlRemove

  // ---- the deleted lines ----

  /** The end of the key's continuation. */
  function DeletedTo(lines: seq<Line>, i: nat): (end: nat)
    requires i < |lines|
    ensures i < end <= |lines|
  {
    i + 1 + ContinuationLen(lines[i + 1..], IndentAt(lines, i))
  }

  lemma {:induction false} ContinuationInBlock(v: seq<Line>, indent: nat)
    ensures ContinuationLen(v, indent) <= BlockLen(v, indent)
  {
    if v != [] && ContinuationLen(v, indent) > 0 {
      ContinuationInBlock(v[1..], indent);
    }
  }

  /** The continuation holds every active line of the key's block. */
  ghost predicate TakesBlock(v: seq<Line>, indent: nat) {
    Act(v[..ContinuationLen(v, indent)]) == Act(v[..BlockLen(v, indent)])
  }

  ghost predicate TakesAll(lines: seq<Line>, i: nat)
    requires i < |lines|
  {
    TakesBlock(lines[i + 1..], IndentAt(lines, i))
  }

  /** A comment no deeper than the key stands between it and a later line of its block. */
  ghost predicate CommentCuts(v: seq<Line>, indent: nat) {
    exists c: nat, k: nat :: CutsAt(v, indent, c, k)
  }

  ghost predicate CutsAt(v: seq<Line>, indent: nat, c: nat, k: nat) {
    c < k < BlockLen(v, indent) && v[c].kind.Comment? && v[c].kind.indent <= indent && IsActive(v[k])
  }

  /** How many active lines are deleted. */
  function Lost(lines: seq<Line>, i: nat): nat
    requires i < |lines|
  {
    |Act(lines[i..DeletedTo(lines, i)])|
  }

  lemma RankOfEnd(lines: seq<Line>, i: nat)
    requires i < |lines|
    ensures Rank(lines, DeletedTo(lines, i)) == Rank(lines, i) + Lost(lines, i) <= |Act(lines)|
  {
    var to := DeletedTo(lines, i);
    ActCut(lines, to);
    assert lines[..to] == lines[..i] + lines[i..to];
    FilterAppend(IsActive, lines[..i], lines[i..to]);
  }

  lemma DeletedParts(lines: seq<Line>, i: nat)
    requires i < |lines|
    ensures DeleteAt(lines, i) == lines[..CommentsAbove(lines, i)] + lines[DeletedTo(lines, i)..]
  {
    assert lines[i + 1..][DeletedTo(lines, i) - (i + 1)..] == lines[DeletedTo(lines, i)..];
  }

  lemma {:induction false} CommentsNotActive(lines: seq<Line>, i: nat)
    requires i <= |lines|
    ensures Act(lines[..CommentsAbove(lines, i)]) == Act(lines[..i])
    ensures forall k :: CommentsAbove(lines, i) <= k < i ==> lines[k].kind.Comment?
  {
    if i > 0 && lines[i - 1].kind.Comment? {
      CommentsNotActive(lines, i - 1);
      FilterSnoc(IsActive, lines, i - 1);
    }
  }

  lemma RankMonotone(lines: seq<Line>, i: nat, k: nat)
    requires i <= k <= |lines|
    ensures Rank(lines, i) <= Rank(lines, k)
  {
    ActCut(lines[..k], i);
    assert lines[..k][..i] == lines[..i];
  }

  /** What the deletion does to the active lines. */
  lemma ActDeleted(lines: seq<Line>, i: nat)
    requires i < |lines|
    ensures Rank(lines, i) + Lost(lines, i) <= |Act(lines)|
    ensures Act(DeleteAt(lines, i)) == Removed(Act(lines), Rank(lines, i), Lost(lines, i))
  {
    hide Filter, ContinuationLen;
    var from, to := CommentsAbove(lines, i), DeletedTo(lines, i);
    DeletedParts(lines, i);
    CommentsNotActive(lines, i);
    FilterAppend(IsActive, lines[..from], lines[to..]);
    ActCut(lines, i);
    ActCut(lines, to);
    RankOfEnd(lines, i);
  }

  /** A deletion that takes the block takes exactly the key's extent among active lines. */
  lemma TakesExtent(lines: seq<Line>, i: nat)
    requires i < |lines| && IsActive(lines[i]) && TakesAll(lines, i)
    ensures Rank(lines, i) < |Act(lines)| && Act(lines)[Rank(lines, i)] == lines[i]
    ensures Lost(lines, i) == Extent(Act(lines), Rank(lines, i))
  {
    hide Filter, ContinuationLen, BlockLen;
    var to, indent := DeletedTo(lines, i), IndentAt(lines, i);
    var v := lines[i + 1..];
    BlockOfRank(lines, i, indent);
    RankOfEnd(lines, i);
    assert lines[..to] == lines[..i + 1] + v[..ContinuationLen(v, indent)];
    FilterAppend(IsActive, lines[..i + 1], v[..ContinuationLen(v, indent)]);
    ActSplit(lines, i);
  }

  // ---- where lines go ----

  function Moved(lines: seq<Line>, i: nat, r: Option<nat>): Option<nat>
    requires i < |lines|
  {
    match r
    case None => None
    case Some(k) =>
      var from, to := CommentsAbove(lines, i), DeletedTo(lines, i);
      Some(if k < to then k else k - (to - from))
  }

  lemma LineMoved(lines: seq<Line>, i: nat, k: nat)
    requires i < |lines| && k < |lines| && IsActive(lines[k])
    requires IsOutside(Rank(lines, i), Lost(lines, i), Some(Rank(lines, k)))
    ensures var out, k' := DeleteAt(lines, i), Moved(lines, i, Some(k)).value;
            && k' < |out| && out[k'] == lines[k]
            && Some(Rank(out, k')) == Fall(Rank(lines, i), Lost(lines, i), Some(Rank(lines, k)))
  {
    hide Filter, ContinuationLen, Lost;
    RankOfEnd(lines, i);
    var from, to := CommentsAbove(lines, i), DeletedTo(lines, i);
    DeletedParts(lines, i);
    CommentsNotActive(lines, i);
    RankMonotone(lines, i, to);
    if k < i {
      assert k < from;
      RankGrows(lines, k, i);
      assert DeleteAt(lines, i)[..k] == lines[..k];
    } else if k < to {
      RankMonotone(lines, i, k);
      RankGrows(lines, k, to);
    } else {
      RankMonotone(lines, to, k);
      RankBelowCut(lines, from, to, k);
    }
  }

  lemma RankBelowCut(lines: seq<Line>, from: nat, to: nat, k: nat)
    requires from <= to <= k < |lines|
    ensures var out := lines[..from] + lines[to..];
            && out[k - (to - from)] == lines[k]
            && Rank(out, k - (to - from)) == Rank(lines, from) + Rank(lines, k) - Rank(lines, to)
  {
    var out := lines[..from] + lines[to..];
    assert out[..k - (to - from)] == lines[..from] + lines[to..k];
    FilterAppend(IsActive, lines[..from], lines[to..k]);
    assert lines[..k] == lines[..to] + lines[to..k];
    FilterAppend(IsActive, lines[..to], lines[to..k]);
  }

  // ---- when the continuation takes the block ----

  lemma {:induction false} NoContinuation(v: seq<Line>, indent: nat)
    requires !NextIsDeeper(v, indent)
    ensures ContinuationLen(v, indent) == 0
  {
  }

  ghost predicate HasActive(v: seq<Line>) {
    exists k: nat :: k < |v| && IsActive(v[k])
  }

  lemma {:induction false} ActIsEmptyIff(v: seq<Line>)
    ensures Act(v) == [] <==> !HasActive(v)
  {
    if v != [] {
      ActIsEmptyIff(v[1..]);
      assert HasActive(v) <==> IsActive(v[0]) || HasActive(v[1..]) by { HasActiveTail(v); }
    }
  }

  lemma HasActiveTail(v: seq<Line>)
    requires v != []
    ensures HasActive(v) <==> IsActive(v[0]) || HasActive(v[1..])
  {
    if HasActive(v[1..]) {
      var k: nat :| k < |v| - 1 && IsActive(v[1..][k]);
      assert IsActive(v[k + 1]);
    }
    if HasActive(v) && !IsActive(v[0]) {
      var k: nat :| k < |v| && IsActive(v[k]);
      assert IsActive(v[1..][k - 1]);
    }
  }

  lemma CutsTail(v: seq<Line>, indent: nat)
    requires v != [] && !EndsBlock(v[0], indent)
    ensures var tail := v[1..];
            CommentCuts(v, indent) <==>
            CommentCuts(tail, indent) ||
            (v[0].kind.Comment? && v[0].kind.indent <= indent && HasActive(tail[..BlockLen(tail, indent)]))
  {
    var tail, n := v[1..], BlockLen(v[1..], indent);
    assert BlockLen(v, indent) == 1 + n;
    hide BlockLen, EndsBlock;
    if CommentCuts(tail, indent) {
      var c: nat, k: nat :| CutsAt(tail, indent, c, k);
      assert v[c + 1] == tail[c] && v[k + 1] == tail[k] && CutsAt(v, indent, c + 1, k + 1);
    }
    if v[0].kind.Comment? && v[0].kind.indent <= indent && HasActive(tail[..n]) {
      var k: nat :| k < n && IsActive(tail[..n][k]);
      assert v[k + 1] == tail[..n][k] && CutsAt(v, indent, 0, k + 1);
    }
    if CommentCuts(v, indent) {
      var c: nat, k: nat :| CutsAt(v, indent, c, k);
      if c == 0 {
        assert tail[..n][k - 1] == v[k];
      } else {
        assert tail[c - 1] == v[c] && tail[k - 1] == v[k] && CutsAt(tail, indent, c - 1, k - 1);
      }
    }
  }

  lemma ActHead(l: Line, a: seq<Line>, b: seq<Line>)
    ensures Act([l] + a) == Act([l] + b) <==> Act(a) == Act(b)
  {
    FilterAppend(IsActive, [l], a);
    FilterAppend(IsActive, [l], b);
    var head := Act([l]);
    assert (head + Act(a))[|head|..] == Act(a) && (head + Act(b))[|head|..] == Act(b);
  }

  lemma InactiveHead(l: Line, a: seq<Line>)
    requires !IsActive(l)
    ensures Act([l] + a) == Act(a)
  {
    assert ([l] + a)[1..] == a;
  }

  lemma NoBlock(v: seq<Line>, indent: nat)
    requires v == [] || EndsBlock(v[0], indent)
    ensures TakesBlock(v, indent) && !CommentCuts(v, indent)
  {
  }

  lemma OneMoreLine(v: seq<Line>, indent: nat)
    requires v != [] && !EndsBlock(v[0], indent) && ContinuationLen(v, indent) > 0
    ensures BlockLen(v, indent) == 1 + BlockLen(v[1..], indent)
    ensures ContinuationLen(v, indent) == 1 + ContinuationLen(v[1..], indent)
    ensures v[0].kind.Comment? ==> v[0].kind.indent > indent
  {
  }

  lemma HeadOfPrefix(v: seq<Line>, n: nat)
    requires n < |v|
    ensures v[..n + 1] == [v[0]] + v[1..][..n]
  {
  }

  lemma OneMoreTaken(v: seq<Line>, indent: nat)
    requires v != [] && !EndsBlock(v[0], indent) && ContinuationLen(v, indent) > 0
    ensures TakesBlock(v, indent) <==> TakesBlock(v[1..], indent)
    ensures v[0].kind.Comment? ==> v[0].kind.indent > indent
  {
    hide Act, BlockLen, ContinuationLen, EndsBlock;
    OneMoreLine(v, indent);
    var tail := v[1..];
    HeadOfPrefix(v, BlockLen(tail, indent));
    HeadOfPrefix(v, ContinuationLen(tail, indent));
    ActHead(v[0], tail[..ContinuationLen(tail, indent)], tail[..BlockLen(tail, indent)]);
  }

  lemma NoneTaken(v: seq<Line>, indent: nat)
    requires v != [] && !EndsBlock(v[0], indent) && ContinuationLen(v, indent) == 0
    ensures TakesBlock(v, indent) <==> !HasActive(v[1..][..BlockLen(v[1..], indent)])
  {
    hide HasActive, Act, BlockLen, ContinuationLen, EndsBlock;
    var b := v[1..][..BlockLen(v[1..], indent)];
    NothingTaken(v, indent);
    HeadOfPrefix(v, BlockLen(v[1..], indent));
    InactiveHead(v[0], b);
    ActIsEmptyIff(b);
  }

  lemma NoneTakenBelow(v: seq<Line>, indent: nat)
    requires v != [] && !EndsBlock(v[0], indent) && ContinuationLen(v, indent) == 0 && v[0].kind.Blank?
    ensures TakesBlock(v[1..], indent) <==> !HasActive(v[1..][..BlockLen(v[1..], indent)])
  {
    hide HasActive;
    NothingTaken(v, indent);
    ActIsEmptyIff(v[1..][..BlockLen(v[1..], indent)]);
  }

  /** The guard that can be read off the text: the continuation takes the block exactly when no comment at the
      key's indentation or further out stands between the key and a later line of the block. */
  lemma {:induction false} TakesBlockIff(v: seq<Line>, indent: nat)
    ensures TakesBlock(v, indent) <==> !CommentCuts(v, indent)
  {
    hide TakesBlock, CommentCuts, HasActive, BlockLen, ContinuationLen, EndsBlock;
    if v == [] || EndsBlock(v[0], indent) {
      NoBlock(v, indent);
    } else {
      TakesBlockIff(v[1..], indent);
      CutsTail(v, indent);
      if ContinuationLen(v, indent) > 0 {
        OneMoreTaken(v, indent);
      } else {
        NothingTaken(v, indent);
        NoneTaken(v, indent);
        if v[0].kind.Blank? { NoneTakenBelow(v, indent); }
      }
    }
  }

  lemma NothingTaken(v: seq<Line>, indent: nat)
    requires v != [] && !EndsBlock(v[0], indent) && ContinuationLen(v, indent) == 0
    ensures !IsActive(v[0]) && Act(v[..0]) == [] && BlockLen(v, indent) == 1 + BlockLen(v[1..], indent)
    ensures v[0].kind.Blank? ==> Act(v[1..][..ContinuationLen(v[1..], indent)]) == []
    ensures v[0].kind.Comment? ==> v[0].kind.indent <= indent
    ensures CommentCuts(v[1..], indent) ==> HasActive(v[1..][..BlockLen(v[1..], indent)])
  {
    if v[0].kind.Blank? { NoContinuation(v[1..], indent); }
    if CommentCuts(v[1..], indent) {
      var tail, n := v[1..], BlockLen(v[1..], indent);
      var c: nat, k: nat :| CutsAt(tail, indent, c, k);
      assert IsActive(tail[..n][k]);
    }
  }

  // ---- deleting a key with its block ----

  /** How often the located key occurs among its siblings. */
  ghost function Siblings(lines: seq<Line>, p: seq<string>): nat
    requires Path(Act(lines), -1, p).Some?
  {
    Repeats(Act(lines), -1, p)
  }

  /** Some line named `t`, deeper than the deleted key, is among the shallowest that are left beside it. */
  ghost predicate Surfaces(lines: seq<Line>, p: seq<string>, t: string) {
    var a := Act(lines);
    AllActive(a) && Path(a, -1, p).Some? && Surfaced(Rest(a, -1, p), a[Path(a, -1, p).value].kind.indent, t)
  }

  /** The deletion among active lines. */
  lemma DeletedAct(lines: seq<Line>, p: seq<string>, i: nat)
    requires LocateTop(lines, p) == Some(i) && i < |lines| && TakesAll(lines, i)
    ensures var a, r := Act(lines), Rank(lines, i);
            && AllActive(a) && r < |a| && IsActive(lines[i]) && a[r] == lines[i] && Path(a, -1, p) == Some(r)
            && Lost(lines, i) == Extent(a, r) && Act(DeleteAt(lines, i)) == Without(a, r)
  {
    hide Path, Locate, Filter, Extent, Removed, DeleteAt, ContinuationLen, Lost;
    ActsAreActive(lines);
    LocatedKey(lines, p);
    TakesExtent(lines, i);
    ActDeleted(lines, i);
  }

  /** Every path that does not start with the deleted one still finds its line. */
  lemma DeleteKeepsOthers(lines: seq<Line>, p: seq<string>, i: nat, q: seq<string>)
    requires LocateTop(lines, p) == Some(i) && i < |lines| && TakesAll(lines, i)
    requires LocateTop(lines, q).Some? && !(p <= q)
    ensures var k, out := LocateTop(lines, q).value, DeleteAt(lines, i);
            LocateTop(out, q) == Moved(lines, i, Some(k)) && Moved(lines, i, Some(k)).value < |out| &&
            out[Moved(lines, i, Some(k)).value] == lines[k]
  {
    hide Path, Locate, Filter, Extent, Removed, DeleteAt, ContinuationLen, Lost, Act, Rank;
    var k := LocateTop(lines, q).value;
    DeletedAct(lines, p, i);
    LocatedKey(lines, q);
    PathAfterRemove(Act(lines), -1, p, q);
    LineMoved(lines, i, k);
    LocateIs(DeleteAt(lines, i), q, Moved(lines, i, Some(k)).value);
  }

  /** Nothing is found for the first time exactly when no line surfaces under another name. */
  lemma DeleteIsFrameIff(lines: seq<Line>, p: seq<string>, i: nat)
    requires LocateTop(lines, p) == Some(i) && i < |lines| && TakesAll(lines, i)
    ensures (forall q :: !(p <= q) ==> LocateTop(DeleteAt(lines, i), q) == Moved(lines, i, LocateTop(lines, q))) <==>
            (forall t: string :: t != Last(p) ==> !Surfaces(lines, p, t))
  {
    hide Path, Locate, Filter, Extent, Removed, DeleteAt, ContinuationLen, Lost, Act, Rank, Surfaced, Rest, TakesAll,
         Moved;
    DeletedAct(lines, p, i);
    RemoveIsFrameIff(Act(lines), p);
    SurfacesAsActive(lines, p);
    var a, r := Act(lines), Rank(lines, i);
    if NothingSurfaces(a, -1, p) {
      forall q | !(p <= q)
        ensures LocateTop(DeleteAt(lines, i), q) == Moved(lines, i, LocateTop(lines, q))
      {
        SameVerdict(lines, p, i, q);
      }
    } else {
      var q :| !(p <= q) && Path(Without(a, r), -1, q) != Fall(r, Extent(a, r), Path(a, -1, q));
      SameVerdict(lines, p, i, q);
    }
  }

  lemma SurfacesAsActive(lines: seq<Line>, p: seq<string>)
    requires AllActive(Act(lines)) && Path(Act(lines), -1, p).Some?
    ensures NothingSurfaces(Act(lines), -1, p) <==> forall t: string :: t != Last(p) ==> !Surfaces(lines, p, t)
  {
    hide Path, Act, Surfaced, Rest;
    var a := Act(lines);
    forall t: string
      ensures Surfaces(lines, p, t) <==> Surfaced(Rest(a, -1, p), a[Path(a, -1, p).value].kind.indent, t)
    {
    }
  }

  lemma SameVerdict(lines: seq<Line>, p: seq<string>, i: nat, q: seq<string>)
    requires LocateTop(lines, p) == Some(i) && i < |lines| && TakesAll(lines, i) && !(p <= q)
    ensures Rank(lines, i) < |Act(lines)| && IsActive(Act(lines)[Rank(lines, i)])
    ensures LocateTop(DeleteAt(lines, i), q) == Moved(lines, i, LocateTop(lines, q)) <==>
            Path(Without(Act(lines), Rank(lines, i)), -1, q) ==
            Fall(Rank(lines, i), Extent(Act(lines), Rank(lines, i)), Path(Act(lines), -1, q))
  {
    hide Path, Locate, Filter, Extent, Removed, DeleteAt, ContinuationLen, Lost, Act, Rank, TakesAll;
    DeletedAct(lines, p, i);
    LocateByActive(lines, -1, q);
    LocateByActive(DeleteAt(lines, i), -1, q);
    if LocateTop(lines, q).Some? {
      DeleteKeepsOthers(lines, p, i, q);
      PathAfterRemove(Act(lines), -1, p, q);
    }
  }

  /** The deleted path is gone exactly when its key occurred once and no line surfaces under that name. */
  lemma DeletedIsGoneIff(lines: seq<Line>, p: seq<string>, i: nat)
    requires LocateTop(lines, p) == Some(i) && i < |lines| && TakesAll(lines, i)
    ensures Path(Act(lines), -1, p).Some?
    ensures LocateTop(DeleteAt(lines, i), p) == None <==> Siblings(lines, p) == 1 && !Surfaces(lines, p, Last(p))
  {
    hide Path, Locate, Filter, Extent, Removed, DeleteAt, ContinuationLen, Lost, Act, Rank, TakesAll, Surfaced, Rest,
         Repeats;
    DeletedAct(lines, p, i);
    GoneIff(Act(lines), -1, p);
    LocateByActive(DeleteAt(lines, i), -1, p);
  }

  /** Nothing surfaces where no deeper line stands above the first child of the key's window. */
  lemma FlushNothingSurfaces(lines: seq<Line>, p: seq<string>, i: nat, t: string)
    requires LocateTop(lines, p) == Some(i) && i < |lines|
    requires Path(Act(lines), -1, p).Some? && IsActive(lines[i])
    requires var w := WindowOf(Act(lines), -1, p); w != [] && IsActive(w[0]) && w[0].kind.indent == lines[i].kind.indent
    ensures !Surfaces(lines, p, t)
  {
    hide Path, Locate, Filter, Extent, Removed, Act, Rank, Surfaced, WindowOf, Place;
    ActsAreActive(lines);
    LocatedKey(lines, p);
    ActSplit(lines, i);
    PlaceFacts(Act(lines), -1, p);
    FlushWindow(WindowOf(Act(lines), -1, p), Place(Act(lines), -1, p), lines[i].kind.indent, t);
  }
}
