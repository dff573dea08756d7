/**
 Locating depends on the active lines alone: blank lines and comments never count. `Path` is the
 walk over active lines only, and `LocateByActive` ties the editor's `Locate` to it.
 */
module YamlPaths {
  import opened Prelude
  import opened YamlLines
  import opened YamlEdit

  /** The first direct child with key `seg`, and the level of direct children. */
  function Entry(a: seq<Line>, parentIndent: int, seg: string): (r: Option<(nat, nat)>)
    ensures r.Some? ==> r.value.1 < |a| && IsHeader(a[r.value.1], r.value.0, seg)
  {
    match MinActive(a)
    case None => None
    case Some(level) =>
      if level <= parentIndent then None
      else
        match FindHeader(a, level, seg)
        case None => None
        case Some(i) => Some((level, i))
  }

  function Path(a: seq<Line>, parentIndent: int, segments: seq<string>): (r: Option<nat>)
    ensures r.Some? ==> r.value < |a|
    decreases |segments|
  {
    if segments == [] then None
    else
      match Entry(a, parentIndent, segments[0])
      case None => None
      case Some((level, i)) =>
        if |segments| == 1 then Some(i)
        else if !a[i].kind.opens then None
        else Shift(i + 1, Path(BlockOf(a, i, level), level, segments[1..]))
  }

  /** How many lines of the window carry a key at a level. */
  function KeyCount(a: seq<Line>, level: nat, seg: string): nat {
    if a == [] then 0 else (if IsHeader(a[0], level, seg) then 1 else 0) + KeyCount(a[1..], level, seg)
  }

  function Act(w: seq<Line>): seq<Line> {
    Filter(IsActive, w)
  }

  /** The number of active lines above line `i`. */
  function Rank(w: seq<Line>, i: nat): nat
    requires i <= |w|
  {
    |Act(w[..i])|
  }

  // ---- the active lines of a window ----

  lemma ActSplit(w: seq<Line>, i: nat)
    requires i < |w| && IsActive(w[i])
    ensures Act(w) == Act(w[..i]) + [w[i]] + Act(w[i + 1..])
    ensures Rank(w, i) < |Act(w)| && Act(w)[Rank(w, i)] == w[i]
    ensures Act(w[i + 1..]) == Act(w)[Rank(w, i) + 1..]
    ensures Rank(w, i + 1) == Rank(w, i) + 1
  {
    hide Filter;
    assert w == w[..i] + ([w[i]] + w[i + 1..]);
    ActOne(w[i]);
    FilterAppend(IsActive, w[..i], [w[i]] + w[i + 1..]);
    FilterAppend(IsActive, [w[i]], w[i + 1..]);
    ActNext(w, i);
    assert Act(w) == Act(w[..i]) + ([w[i]] + Act(w[i + 1..]));
  }

  /** A text's active lines, cut at line `k`. */
  lemma ActCut(lines: seq<Line>, k: nat)
    requires k <= |lines|
    ensures Rank(lines, k) <= |Act(lines)|
    ensures Act(lines[..k]) == Act(lines)[..Rank(lines, k)] && Act(lines[k..]) == Act(lines)[Rank(lines, k)..]
  {
    assert lines == lines[..k] + lines[k..];
    FilterAppend(IsActive, lines[..k], lines[k..]);
  }

  lemma ActOne(l: Line)
    requires IsActive(l)
    ensures Act([l]) == [l]
  {
    FilterAll(IsActive, [l]);
  }

  lemma ActNext(w: seq<Line>, i: nat)
    requires i < |w| && IsActive(w[i])
    ensures Rank(w, i + 1) == Rank(w, i) + 1
  {
    FilterSnoc(IsActive, w, i);
  }

  lemma RankGrows(w: seq<Line>, i: nat, j: nat)
    requires i < j <= |w| && IsActive(w[i])
    ensures Rank(w, i) < Rank(w, j)
  {
    ActSplit(w[..j], i);
    assert w[..j][..i] == w[..i];
  }

  lemma {:induction false} MinOfActive(w: seq<Line>)
    ensures MinActive(Act(w)) == MinActive(w)
    ensures MinActive(w) == None <==> Act(w) == []
  {
    if w != [] {
      MinOfActive(w[1..]);
      if IsActive(w[0]) {
        assert Act(w)[1..] == Act(w[1..]);
      }
    }
  }

  lemma {:induction false} HeaderOfActive(w: seq<Line>, level: nat, seg: string)
    ensures FindHeader(w, level, seg) == None ==> FindHeader(Act(w), level, seg) == None
    ensures FindHeader(w, level, seg).Some? ==>
            FindHeader(Act(w), level, seg) == Some(Rank(w, FindHeader(w, level, seg).value))
  {
    if w != [] {
      HeaderOfActive(w[1..], level, seg);
      if IsActive(w[0]) {
        assert Act(w)[1..] == Act(w[1..]);
      }
      if FindHeader(w, level, seg).Some? && !IsHeader(w[0], level, seg) {
        var i := FindHeader(w, level, seg).value;
        assert w[..i][1..] == w[1..][..i - 1] && w[..i][0] == w[0];
      }
    }
  }

  lemma {:induction false} KeyIsHeader(w: seq<Line>, level: nat, seg: string)
    ensures FindKey(w, level, seg, false) == FindHeader(w, level, seg)
  {
    if w != [] {
      KeyIsHeader(w[1..], level, seg);
    }
  }

  lemma {:induction false} BlockOfActive(v: seq<Line>, header: nat)
    ensures Act(v[..BlockLen(v, header)]) == Act(v)[..BlockLen(Act(v), header)]
  {
    if v != [] {
      BlockOfActive(v[1..], header);
      if IsActive(v[0]) {
        assert Act(v)[1..] == Act(v[1..]);
      }
      if !EndsBlock(v[0], header) {
        var n := BlockLen(v, header);
        assert v[..n][1..] == v[1..][..n - 1] && v[..n][0] == v[0];
      }
    }
  }

  lemma NoActiveNoHeader(w: seq<Line>, level: nat, seg: string)
    requires Act(w) == []
    ensures FindHeader(w, level, seg) == None
  {
    HeaderOfActive(w, level, seg);
  }

  /** What `Locate` finds is active, and is the line that `Path` finds among the active ones. */
  ghost predicate Agree(w: seq<Line>, located: Option<nat>, path: Option<nat>) {
    match located
    case None => path == None
    case Some(i) => i < |w| && IsActive(w[i]) && path == Some(Rank(w, i))
  }

  lemma {:induction false} LocateByActive(w: seq<Line>, parentIndent: int, segments: seq<string>)
    ensures Agree(w, Locate(w, parentIndent, segments, false), Path(Act(w), parentIndent, segments))
    decreases |segments|, 0
  {
    hide FindKey, FindHeader, MinActive, MinComment, Act, BlockOf;
    if segments != [] {
      MinOfActive(w);
      var level := ChildIndent(w, parentIndent);
      if level.Some? {
        KeyIsHeader(w, level.value, segments[0]);
        HeaderOfActive(w, level.value, segments[0]);
        if Act(w) == [] {
          NoActiveNoHeader(w, level.value, segments[0]);
        } else if level.value > parentIndent && |segments| > 1 && FindHeader(w, level.value, segments[0]).Some? {
          LocateInBlock(w, FindHeader(w, level.value, segments[0]).value, level.value, segments[1..]);
        }
      }
    }
  }

  lemma BlockOfRank(w: seq<Line>, i: nat, level: nat)
    requires i < |w| && IsActive(w[i])
    ensures Rank(w, i) < |Act(w)| && Act(w)[Rank(w, i)] == w[i]
    ensures Act(BlockOf(w, i, level)) == BlockOf(Act(w), Rank(w, i), level)
  {
    ActSplit(w, i);
    BlockOfActive(w[i + 1..], level);
  }

  lemma AgreeShifts(w: seq<Line>, i: nat, block: seq<Line>, located: Option<nat>, path: Option<nat>)
    requires i < |w| && IsActive(w[i]) && block <= w[i + 1..] && Agree(block, located, path)
    ensures Agree(w, Shift(i + 1, located), Shift(Rank(w, i) + 1, path))
  {
    if located.Some? {
      RankInBlock(w, i, block, located.value);
    }
  }

  lemma {:induction false} LocateInBlock(w: seq<Line>, i: nat, level: nat, rest: seq<string>)
    requires i < |w| && IsActive(w[i])
    ensures Rank(w, i) < |Act(w)| && Act(w)[Rank(w, i)] == w[i]
    ensures Agree(w, Shift(i + 1, Locate(BlockOf(w, i, level), level, rest, false)),
                  Shift(Rank(w, i) + 1, Path(BlockOf(Act(w), Rank(w, i), level), level, rest)))
    decreases |rest|, 1
  {
    var block := BlockOf(w, i, level);
    BlockOfRank(w, i, level);
    LocateByActive(block, level, rest);
    AgreeShifts(w, i, block, Locate(block, level, rest, false), Path(Act(block), level, rest));
  }

  lemma RankInBlock(w: seq<Line>, i: nat, block: seq<Line>, r: nat)
    requires i < |w| && IsActive(w[i]) && block <= w[i + 1..] && r < |block|
    ensures w[i + 1 + r] == block[r] && Rank(w, i + 1 + r) == Rank(w, i) + 1 + Rank(block, r)
  {
    ActSplit(w, i);
    assert w[..i + 1 + r] == w[..i + 1] + block[..r];
    FilterAppend(IsActive, w[..i + 1], block[..r]);
  }

  /** The converse: an active line at the right rank is the one `LocateTop` finds. */
  lemma LocateIs(w: seq<Line>, segments: seq<string>, i: nat)
    requires i < |w| && IsActive(w[i]) && Path(Act(w), -1, segments) == Some(Rank(w, i))
    ensures LocateTop(w, segments) == Some(i)
  {
    hide Locate, Path, Act, Rank, IsActive;
    LocateByActive(w, -1, segments);
    var j := LocateTop(w, segments).value;
    if j < i {
      RankGrows(w, j, i);
    } else if i < j {
      RankGrows(w, i, j);
    }
  }

  // ---- replacing one active line by one of the same shape ----

  ghost predicate SameShape(x: Line, y: Line) {
    x.kind.Active? && y.kind.Active? && x.kind.indent == y.kind.indent && x.kind.token == y.kind.token
  }

  lemma {:induction false} MinAfterReplace(a: seq<Line>, j: nat, y: Line)
    requires j < |a| && SameShape(a[j], y)
    ensures MinActive(a[j := y]) == MinActive(a)
  {
    if j > 0 {
      assert a[j := y][1..] == a[1..][j - 1 := y];
      MinAfterReplace(a[1..], j - 1, y);
    } else {
      assert a[j := y][1..] == a[1..];
    }
  }

  lemma {:induction false} HeaderAfterReplace(a: seq<Line>, j: nat, y: Line, level: nat, seg: string)
    requires j < |a| && SameShape(a[j], y)
    ensures FindHeader(a[j := y], level, seg) == FindHeader(a, level, seg)
  {
    if j > 0 {
      assert a[j := y][1..] == a[1..][j - 1 := y];
      HeaderAfterReplace(a[1..], j - 1, y, level, seg);
    } else {
      assert a[j := y][1..] == a[1..];
    }
  }

  lemma {:induction false} BlockAfterReplace(v: seq<Line>, j: nat, y: Line, header: nat)
    requires j < |v| && SameShape(v[j], y)
    ensures BlockLen(v[j := y], header) == BlockLen(v, header)
  {
    if j > 0 {
      assert v[j := y][1..] == v[1..][j - 1 := y];
      BlockAfterReplace(v[1..], j - 1, y, header);
    } else {
      assert v[j := y][1..] == v[1..];
    }
  }

  lemma EntryAfterReplace(a: seq<Line>, parentIndent: int, j: nat, y: Line, seg: string)
    requires j < |a| && SameShape(a[j], y)
    ensures Entry(a[j := y], parentIndent, seg) == Entry(a, parentIndent, seg)
  {
    MinAfterReplace(a, j, y);
    if MinActive(a).Some? {
      HeaderAfterReplace(a, j, y, MinActive(a).value, seg);
    }
  }

  /** A line inside the block is replaced there; a line outside it leaves the block alone. */
  lemma BlockOfReplaced(a: seq<Line>, i: nat, level: nat, j: nat, y: Line)
    requires i < |a| && j < |a| && SameShape(a[j], y)
    ensures var block := BlockOf(a, i, level);
            BlockOf(a[j := y], i, level) == if i < j < i + 1 + |block| then block[j - i - 1 := y] else block
  {
    var v := a[i + 1..];
    if i < j {
      assert a[j := y][i + 1..] == v[j - i - 1 := y];
      BlockAfterReplace(v, j - i - 1, y, level);
    } else {
      assert a[j := y][i + 1..] == v;
    }
  }

  lemma {:induction false} BlockStopsAt(v: seq<Line>, k: nat, header: nat)
    requires k < |v| && EndsBlock(v[k], header)
    ensures BlockLen(v, header) <= k
  {
    if k > 0 {
      BlockStopsAt(v[1..], k - 1, header);
    }
  }

  lemma PathInBlock(a: seq<Line>, parentIndent: int, p: seq<string>, j: nat)
    requires |p| > 1 && Path(a, parentIndent, p) == Some(j)
    ensures Entry(a, parentIndent, p[0]).Some?
    ensures var (level, i) := Entry(a, parentIndent, p[0]).value;
            && i < j < i + 1 + |BlockOf(a, i, level)| && a[i].kind.opens
            && Path(BlockOf(a, i, level), level, p[1..]) == Some(j - i - 1)
  {
  }

  /** Sibling blocks are disjoint: the line `j` at or below sibling `i` is in no other's block. */
  lemma OtherBlock(a: seq<Line>, level: nat, i: nat, other: nat, j: nat)
    requires i < |a| && other < |a| && i != other && j < |a|
    requires EndsBlock(a[i], level) && EndsBlock(a[other], level)
    requires i <= j < i + 1 + |BlockOf(a, i, level)|
    ensures !(other < j < other + 1 + |BlockOf(a, other, level)|)
  {
    if other < i {
      assert a[other + 1..][i - other - 1] == a[i];
      BlockStopsAt(a[other + 1..], i - other - 1, level);
    } else {
      assert a[i + 1..][other - i - 1] == a[other];
      BlockStopsAt(a[i + 1..], other - i - 1, level);
    }
  }

  lemma PathEntry(a: seq<Line>, parentIndent: int, p: seq<string>, j: nat)
    requires Path(a, parentIndent, p) == Some(j)
    ensures p != [] && Entry(a, parentIndent, p[0]).Some?
    ensures var (level, i) := Entry(a, parentIndent, p[0]).value;
            i <= j < i + 1 + |BlockOf(a, i, level)| && (|p| == 1 ==> i == j)
  {
    if |p| > 1 {
      PathInBlock(a, parentIndent, p, j);
    }
  }

  lemma ReplaceElsewhere(a: seq<Line>, level: nat, i: nat, k: nat, j: nat, y: Line)
    requires i < |a| && k < |a| && i != k && j < |a|
    requires EndsBlock(a[i], level) && EndsBlock(a[k], level)
    requires i <= j < i + 1 + |BlockOf(a, i, level)| && SameShape(a[j], y)
    ensures BlockOf(a[j := y], k, level) == BlockOf(a, k, level)
  {
    OtherBlock(a, level, i, k, j);
    BlockOfReplaced(a, k, level, j, y);
  }

  lemma OtherEntry(a: seq<Line>, parentIndent: int, first: string, other: string)
    requires first != other
    requires Entry(a, parentIndent, first).Some? && Entry(a, parentIndent, other).Some?
    ensures Entry(a, parentIndent, first).value.0 == Entry(a, parentIndent, other).value.0
    ensures Entry(a, parentIndent, first).value.1 != Entry(a, parentIndent, other).value.1
  {
  }

  lemma ReplaceOther(a: seq<Line>, parentIndent: int, p: seq<string>, j: nat, y: Line, seg: string)
    requires Path(a, parentIndent, p) == Some(j) && SameShape(a[j], y)
    requires p != [] && p[0] != seg && Entry(a, parentIndent, seg).Some?
    ensures var (level, k) := Entry(a, parentIndent, seg).value;
            k != j && BlockOf(a[j := y], k, level) == BlockOf(a, k, level)
  {
    PathEntry(a, parentIndent, p, j);
    OtherEntry(a, parentIndent, p[0], seg);
    var (level, i) := Entry(a, parentIndent, p[0]).value;
    var (_, k) := Entry(a, parentIndent, seg).value;
    ReplaceElsewhere(a, level, i, k, j, y);
    OtherLine(a, level, i, k, j);
  }

  lemma OtherLine(a: seq<Line>, level: nat, i: nat, other: nat, j: nat)
    requires i < |a| && other < |a| && i != other
    requires EndsBlock(a[other], level)
    requires i <= j < i + 1 + |BlockOf(a, i, level)|
    ensures j != other
  {
    if i < other {
      assert a[i + 1..][other - i - 1] == a[other];
      BlockStopsAt(a[i + 1..], other - i - 1, level);
    }
  }

  lemma PathUnfold(a: seq<Line>, parentIndent: int, q: seq<string>)
    requires |q| > 1
    ensures Path(a, parentIndent, q) ==
            match Entry(a, parentIndent, q[0])
            case None => None
            case Some((level, i)) =>
              if !a[i].kind.opens then None else Shift(i + 1, Path(BlockOf(a, i, level), level, q[1..]))
  {
  }

  lemma BlockLine(a: seq<Line>, i: nat, level: nat, j: nat)
    requires i < |a| && i < j < i + 1 + |BlockOf(a, i, level)|
    ensures j < |a| && BlockOf(a, i, level)[j - i - 1] == a[j]
  {
  }

  lemma TailNotExtended(p: seq<string>, q: seq<string>)
    requires p != [] && q != [] && p[0] == q[0] && !(p < q)
    ensures !(p[1..] < q[1..])
    ensures |p| == 1 ==> |q| == 1
  {
    assert p == [p[0]] + p[1..] && q == [q[0]] + q[1..];
  }

  /** Replacing the line at path `p` moves no path except those that pass through that line. */
  lemma {:induction false} PathAfterReplace(a: seq<Line>, parentIndent: int, p: seq<string>, j: nat, y: Line,
      q: seq<string>)
    requires Path(a, parentIndent, p) == Some(j) && SameShape(a[j], y)
    requires !(p < q)
    ensures Path(a[j := y], parentIndent, q) == Path(a, parentIndent, q)
    decreases |p|
  {
    hide BlockOf, MinActive, FindHeader;
    if q != [] {
      EntryAfterReplace(a, parentIndent, j, y, q[0]);
      if |q| > 1 && Entry(a, parentIndent, q[0]).Some? {
        PathUnfold(a, parentIndent, q);
        PathUnfold(a[j := y], parentIndent, q);
        if p[0] == q[0] {
          TailNotExtended(p, q);
          PathInBlock(a, parentIndent, p, j);
          var (level, i) := Entry(a, parentIndent, p[0]).value;
          BlockOfReplaced(a, i, level, j, y);
          BlockLine(a, i, level, j);
          PathAfterReplace(BlockOf(a, i, level), level, p[1..], j - i - 1, y, q[1..]);
        } else {
          ReplaceOther(a, parentIndent, p, j, y, q[0]);
        }
      }
    }
  }
}
