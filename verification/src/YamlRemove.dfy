/** Taking a key and its whole block out of the active lines of a text: what becomes of every path. */
module YamlRemove {
  import opened Prelude
  import opened YamlLines
  import opened YamlEdit
  import opened YamlPaths
  import opened YamlInsert

  function Removed<T>(a: seq<T>, j: nat, n: nat): seq<T>
    requires j + n <= |a|
  {
    a[..j] + a[j + n..]
  }

  /** Where line `i`, none of the `n` lines from `j` on, is without them. */
  function Fall(j: nat, n: nat, r: Option<nat>): Option<nat> {
    match r
    case None => None
    case Some(i) => Some(if i < j + n then i else i - n)
  }

  /** The lines of the key at line `j` and of its block. */
  function Extent(a: seq<Line>, j: nat): (n: nat)
    requires j < |a| && IsActive(a[j])
    ensures 0 < n && j + n <= |a|
    ensures j + n < |a| ==> EndsBlock(a[j + n], a[j].kind.indent)
  {
    1 + BlockLen(a[j + 1..], a[j].kind.indent)
  }

  function Without(a: seq<Line>, j: nat): seq<Line>
    requires j < |a| && IsActive(a[j])
  {
    Removed(a, j, Extent(a, j))
  }

  predicate IsOutside(j: nat, n: nat, r: Option<nat>) {
    r.Some? ==> r.value < j || j + n <= r.value
  }

  ghost predicate AllActive(a: seq<Line>) {
    forall i :: 0 <= i < |a| ==> IsActive(a[i])
  }

  lemma ActsAreActive(lines: seq<Line>)
    ensures AllActive(Act(lines))
  {
    assert forall i :: 0 <= i < |Act(lines)| ==> Act(lines)[i] in Act(lines);
  }

  // ---- blocks ----

  lemma {:induction false} BlockLenIs(v: seq<Line>, n: nat, header: nat)
    requires n <= |v| && (forall i :: 0 <= i < n ==> !EndsBlock(v[i], header)) && (n < |v| ==> EndsBlock(v[n], header))
    ensures BlockLen(v, header) == n
  {
    hide EndsBlock;
    if n > 0 {
      assert forall i :: 0 <= i < n - 1 ==> v[1..][i] == v[i + 1];
      BlockLenIs(v[1..], n - 1, header);
    }
  }

  lemma {:induction false} InBlock(v: seq<Line>, header: nat)
    ensures forall i :: 0 <= i < BlockLen(v, header) ==> !EndsBlock(v[i], header)
  {
    hide EndsBlock;
    if v != [] && !EndsBlock(v[0], header) {
      InBlock(v[1..], header);
      assert forall i :: 0 < i < |v| ==> v[i] == v[1..][i - 1];
    }
  }

  /** The lines of the extent below the key are deeper than the key. */
  lemma ExtentIsDeeper(a: seq<Line>, j: nat)
    requires j < |a| && IsActive(a[j]) && AllActive(a)
    ensures forall i :: j < i < j + Extent(a, j) ==> a[i].kind.indent > a[j].kind.indent
  {
    var v := a[j + 1..];
    InBlock(v, a[j].kind.indent);
    forall i | j < i < j + Extent(a, j)
      ensures a[i].kind.indent > a[j].kind.indent
    {
      assert v[i - j - 1] == a[i] && !EndsBlock(v[i - j - 1], a[j].kind.indent);
    }
  }

  lemma ExtentIs(a: seq<Line>, j: nat, n: nat)
    requires j < |a| && IsActive(a[j]) && AllActive(a) && 0 < n && j + n <= |a|
    requires forall i :: j < i < j + n ==> a[i].kind.indent > a[j].kind.indent
    requires j + n < |a| ==> a[j + n].kind.indent <= a[j].kind.indent
    ensures Extent(a, j) == n
  {
    var v := a[j + 1..];
    assert forall i :: 0 <= i < n - 1 ==> v[i] == a[j + 1 + i];
    BlockLenIs(v, n - 1, a[j].kind.indent);
  }

  // ---- lines that stay ----

  lemma RemovedAt<T>(a: seq<T>, j: nat, n: nat)
    requires j + n <= |a|
    ensures |Removed(a, j, n)| == |a| - n
    ensures forall i :: 0 <= i < j ==> Removed(a, j, n)[i] == a[i]
    ensures forall i :: j + n <= i < |a| ==> Removed(a, j, n)[i - n] == a[i]
  {
  }

  lemma RemovedTail<T>(a: seq<T>, j: nat, n: nat)
    requires j + n <= |a|
    ensures j == 0 ==> Removed(a, j, n) == a[n..]
    ensures j > 0 ==> Removed(a, j, n)[0] == a[0] && Removed(a, j, n)[1..] == Removed(a[1..], j - 1, n)
  {
  }

  lemma {:induction false} MinAtMost(a: seq<Line>, i: nat)
    requires i < |a| && IsActive(a[i])
    ensures MinActive(a).Some? && MinActive(a).value <= a[i].kind.indent
  {
    if i > 0 {
      MinAtMost(a[1..], i - 1);
    }
  }

  lemma {:induction false} MinIsThere(a: seq<Line>)
    ensures MinActive(a).Some? ==> exists i: nat :: i < |a| && IsActive(a[i]) && a[i].kind.indent == MinActive(a).value
  {
    if a != [] {
      MinIsThere(a[1..]);
      if MinActive(a[1..]).Some? {
        var i: nat :| i < |a[1..]| && IsActive(a[1..][i]) && a[1..][i].kind.indent == MinActive(a[1..]).value;
        assert a[i + 1] == a[1..][i];
      }
      assert MinActive(a).Some? && a[0].kind.Active? && a[0].kind.indent == MinActive(a).value ==> IsActive(a[0]);
    }
  }

  /** A level that all lines keep to and one line is at is the shallowest one. */
  lemma MinIs(a: seq<Line>, level: nat, i: nat)
    requires i < |a| && IsActive(a[i]) && a[i].kind.indent == level
    requires forall k :: 0 <= k < |a| && IsActive(a[k]) ==> a[k].kind.indent >= level
    ensures MinActive(a) == Some(level)
  {
    MinAtMost(a, i);
    MinIsThere(a);
  }

  lemma MinBelow(a: seq<Line>, level: nat)
    requires MinActive(a) == Some(level)
    ensures forall k :: 0 <= k < |a| && IsActive(a[k]) ==> a[k].kind.indent >= level
  {
    forall k | 0 <= k < |a| && IsActive(a[k])
      ensures a[k].kind.indent >= level
    {
      MinAtMost(a, k);
    }
  }

  lemma HeaderStep(a: seq<Line>, level: nat, seg: string)
    requires a != []
    ensures FindHeader(a, level, seg) ==
            if IsHeader(a[0], level, seg) then Some(0) else Shift(1, FindHeader(a[1..], level, seg))
  {
  }

  ghost predicate NoneAre(a: seq<Line>, j: nat, n: nat, level: nat, seg: string)
    requires j + n <= |a|
  {
    forall i :: j <= i < j + n ==> !IsHeader(a[i], level, seg)
  }

  lemma NoneInTail(a: seq<Line>, j: nat, n: nat, level: nat, seg: string)
    requires j + n <= |a| && NoneAre(a, j, n, level, seg) && (0 < j || 0 < n)
    ensures 0 < j ==> NoneAre(a[1..], j - 1, n, level, seg)
    ensures j == 0 ==> !IsHeader(a[0], level, seg) && NoneAre(a[1..], 0, n - 1, level, seg)
  {
    hide IsHeader;
    assert forall i :: 0 <= i < |a| - 1 ==> a[1..][i] == a[i + 1];
  }

  lemma {:induction false} HeaderAfterDrop(a: seq<Line>, n: nat, level: nat, seg: string)
    requires n <= |a| && NoneAre(a, 0, n, level, seg)
    ensures FindHeader(a, level, seg) == Shift(n, FindHeader(a[n..], level, seg))
  {
    hide IsHeader, FindHeader, NoneAre;
    if n > 0 {
      HeaderStep(a, level, seg);
      NoneInTail(a, 0, n, level, seg);
      assert a[1..][n - 1..] == a[n..];
      HeaderAfterDrop(a[1..], n - 1, level, seg);
    } else {
      assert a[0..] == a;
    }
  }

  /** Without lines that are no such header the first header is the same one. */
  lemma {:induction false} HeaderAfterRemove(a: seq<Line>, j: nat, n: nat, level: nat, seg: string)
    requires j + n <= |a| && NoneAre(a, j, n, level, seg)
    ensures FindHeader(Removed(a, j, n), level, seg) == Fall(j, n, FindHeader(a, level, seg))
    ensures FindHeader(a, level, seg).Some? ==> !(j <= FindHeader(a, level, seg).value < j + n)
  {
    hide IsHeader, FindHeader, Removed, NoneAre;
    RemovedTail(a, j, n);
    if j == 0 {
      HeaderAfterDrop(a, n, level, seg);
    } else {
      RemovedAt(a, j, n);
      HeaderStep(a, level, seg);
      HeaderStep(Removed(a, j, n), level, seg);
      NoneInTail(a, j, n, level, seg);
      HeaderAfterRemove(a[1..], j - 1, n, level, seg);
    }
  }

  // ---- one window ----

  /** The line at `j` is a direct child of the window `a`: no line is shallower. */
  ghost predicate IsChild(a: seq<Line>, j: nat, level: nat) {
    AllActive(a) && j < |a| && a[j].kind.indent == level && MinActive(a) == Some(level)
  }

  /** Another child keeps its block: those above end at or before `j`, those below start after the extent. */
  lemma SiblingBlock(a: seq<Line>, j: nat, k: nat, level: nat)
    requires IsChild(a, j, level) && IsChild(a, k, level) && k != j
    ensures k < j || j + Extent(a, j) <= k
    ensures var n, k' := Extent(a, j), if k < j then k else k - Extent(a, j);
            && k' < |Without(a, j)| && Without(a, j)[k'] == a[k]
            && BlockOf(Without(a, j), k', level) == BlockOf(a, k, level)
            && (k < j ==> k + 1 + |BlockOf(a, k, level)| <= j)
  {
    hide Extent, BlockLen, Removed, MinActive;
    RemovedAt(a, j, Extent(a, j));
    ExtentIsDeeper(a, j);
    if k < j { BlockAbove(a, j, k, level); } else { BlockBelow(a, j, k, level); }
  }

  lemma BlockBelow(a: seq<Line>, j: nat, k: nat, level: nat)
    requires j < |a| && IsActive(a[j]) && j + Extent(a, j) <= k < |a|
    ensures BlockOf(Without(a, j), k - Extent(a, j), level) == BlockOf(a, k, level)
  {
    assert Without(a, j)[k - Extent(a, j) + 1..] == a[k + 1..];
  }

  ghost predicate NoneEnds(v: seq<Line>, header: nat) {
    forall i :: 0 <= i < |v| ==> !EndsBlock(v[i], header)
  }

  lemma BlockAbove(a: seq<Line>, j: nat, k: nat, level: nat)
    requires IsChild(a, j, level) && k < j
    ensures k + 1 + |BlockOf(a, k, level)| <= j && BlockOf(Without(a, j), k, level) == BlockOf(a, k, level)
  {
    var v, b := a[k + 1..], BlockLen(a[k + 1..], level);
    assert v[j - k - 1] == a[j];
    BlockStopsAt(v, j - k - 1, level);
    InBlock(v, level);
    assert forall i :: 0 <= i < b ==> v[..b][i] == v[i];
    SameStart(a, j, k, level, b);
  }

  lemma SameStart(a: seq<Line>, j: nat, k: nat, level: nat, b: nat)
    requires IsChild(a, j, level) && k < j && b <= j - k - 1
    requires b == BlockLen(a[k + 1..], level) && NoneEnds(a[k + 1..][..b], level)
    ensures BlockOf(Without(a, j), k, level) == a[k + 1..][..b]
  {
    var n, rest := Extent(a, j), Without(a, j);
    RemovedAt(a, j, n);
    MinBelow(a, level);
    var u := rest[k + 1..];
    forall i | 0 <= i < b
      ensures u[i] == a[k + 1..][i] && !EndsBlock(u[i], level)
    {
      assert u[i] == rest[k + 1 + i] == a[k + 1 + i] == a[k + 1..][..b][i];
    }
    if b < |u| {
      assert u[b] == rest[k + 1 + b];
      if k + 1 + b < j { assert u[b] == a[k + 1..][b]; } else { assert rest[j] == a[j + n]; }
    }
    BlockLenIs(u, b, level);
  }

  /** With another child at its level, the window keeps that level. */
  lemma LevelStays(a: seq<Line>, j: nat, k: nat, level: nat)
    requires IsChild(a, j, level) && IsChild(a, k, level) && k != j
    ensures MinActive(Without(a, j)) == Some(level) && AllActive(Without(a, j))
  {
    SiblingBlock(a, j, k, level);
    RestIsDeeper(a, j, level);
    MinIs(Without(a, j), level, if k < j then k else k - Extent(a, j));
  }

  lemma RestIsDeeper(a: seq<Line>, j: nat, level: nat)
    requires IsChild(a, j, level)
    ensures AllActive(Without(a, j)) && forall i :: 0 <= i < |Without(a, j)| ==> Without(a, j)[i].kind.indent >= level
  {
    MinBelow(a, level);
    var n := Extent(a, j);
    forall i | 0 <= i < |Without(a, j)|
      ensures IsActive(Without(a, j)[i]) && Without(a, j)[i].kind.indent >= level
    {
      assert Without(a, j)[i] == if i < j then a[i] else a[i + n];
    }
  }

  // ---- a key deleted from its own window ----

  /** A line with key `t` has become one of the shallowest of a window that had lines at `level`. */
  ghost predicate Surfaced(rest: seq<Line>, level: nat, t: string) {
    && MinActive(rest).Some? && MinActive(rest).value > level
    && FindHeader(rest, MinActive(rest).value, t).Some?
  }

  lemma EntryIsChild(a: seq<Line>, parentIndent: int, seg: string)
    requires AllActive(a) && Entry(a, parentIndent, seg).Some?
    ensures var (level, i) := Entry(a, parentIndent, seg).value;
            IsChild(a, i, level) && level > parentIndent && a[i].kind.token == Some(seg)
  {
  }

  lemma ExtentHasNoOther(a: seq<Line>, j: nat, level: nat, seg: string)
    requires IsChild(a, j, level) && a[j].kind.token != Some(seg)
    ensures NoneAre(a, j, Extent(a, j), level, seg)
  {
    ExtentIsDeeper(a, j);
  }

  /** Another key's first line is what it was; a key without one gets one only by surfacing. */
  lemma EntryAfterDelete(a: seq<Line>, parentIndent: int, key: string, j: nat, level: nat, seg: string)
    requires AllActive(a) && Entry(a, parentIndent, key) == Some((level, j)) && seg != key
    ensures IsChild(a, j, level)
    ensures match Entry(a, parentIndent, seg)
            case Some((l, k)) =>
              && l == level && k != j && IsChild(a, k, level)
              && Entry(Without(a, j), parentIndent, seg) == Some((level, if k < j then k else k - Extent(a, j)))
            case None => !Surfaced(Without(a, j), level, seg) ==> Entry(Without(a, j), parentIndent, seg) == None
  {
    hide FindHeader, MinActive, Removed, Extent;
    EntryIsChild(a, parentIndent, key);
    ExtentHasNoOther(a, j, level, seg);
    HeaderAfterRemove(a, j, Extent(a, j), level, seg);
    RestIsDeeper(a, j, level);
    if Entry(a, parentIndent, seg).Some? {
      EntryIsChild(a, parentIndent, seg);
      LevelStays(a, j, Entry(a, parentIndent, seg).value.1, level);
    } else if MinActive(Without(a, j)).Some? {
      MinIsThere(Without(a, j));
    }
  }

  lemma FallOfShift(j: nat, n: nat, k: nat, size: nat, r: Option<nat>)
    requires r.Some? ==> r.value < size
    requires k < j ==> k + 1 + size <= j
    requires k < j || j + n <= k
    ensures Fall(j, n, Shift(k + 1, r)) == Shift((if k < j then k else k - n) + 1, r)
    ensures IsOutside(j, n, Shift(k + 1, r))
  {
  }

  /** Deleting a direct child and its block leaves every path that starts with another key. */
  lemma PathAfterDelete(a: seq<Line>, parentIndent: int, key: string, j: nat, level: nat, q: seq<string>)
    requires AllActive(a) && Entry(a, parentIndent, key) == Some((level, j))
    requires q != [] && q[0] != key
    ensures IsChild(a, j, level)
    ensures Path(a, parentIndent, q).Some? || !Surfaced(Without(a, j), level, q[0]) ==>
              Path(Without(a, j), parentIndent, q) == Fall(j, Extent(a, j), Path(a, parentIndent, q))
    ensures IsOutside(j, Extent(a, j), Path(a, parentIndent, q))
  {
    hide Entry, Removed, Extent, Surfaced, BlockOf, IsChild;
    EntryAfterDelete(a, parentIndent, key, j, level, q[0]);
    NoEntryNoPath(a, parentIndent, q);
    NoEntryNoPath(Without(a, j), parentIndent, q);
    if Entry(a, parentIndent, q[0]).Some? {
      var k := Entry(a, parentIndent, q[0]).value.1;
      SiblingBlock(a, j, k, level);
      if |q| > 1 {
        PathUnfold(a, parentIndent, q);
        PathUnfold(Without(a, j), parentIndent, q);
        var block := BlockOf(a, k, level);
        FallOfShift(j, Extent(a, j), k, |block|, Path(block, level, q[1..]));
      }
    }
  }

  lemma NoEntryNoPath(a: seq<Line>, parentIndent: int, q: seq<string>)
    requires q != []
    ensures Entry(a, parentIndent, q[0]) == None ==> Path(a, parentIndent, q) == None
    ensures |q| == 1 && Entry(a, parentIndent, q[0]).Some? ==>
            Path(a, parentIndent, q) == Some(Entry(a, parentIndent, q[0]).value.1)
  {
  }

  // ---- a key deleted further down ----

  /** The lines of a block stand below its header, deeper than it, up to a line that is not. */
  lemma BlockLines(a: seq<Line>, i: nat, level: nat)
    requires AllActive(a) && i < |a|
    ensures var block := BlockOf(a, i, level);
            && i + 1 + |block| <= |a| && AllActive(block)
            && (forall k :: 0 <= k < |block| ==> block[k] == a[i + 1 + k])
            && (forall k :: i < k < i + 1 + |block| ==> a[k].kind.indent > level)
            && (i + 1 + |block| < |a| ==> a[i + 1 + |block|].kind.indent <= level)
  {
    var v, block := a[i + 1..], BlockOf(a, i, level);
    InBlock(v, level);
    forall k | i < k < i + 1 + |block|
      ensures a[k].kind.indent > level && block[k - i - 1] == a[k]
    {
      assert v[k - i - 1] == a[k];
    }
    assert i + 1 + |block| < |a| ==> v[|block|] == a[i + 1 + |block|];
  }

  /** The extent of a line in a block is the same there and in the whole window. */
  lemma NestedExtent(a: seq<Line>, i: nat, level: nat, j: nat)
    requires IsChild(a, i, level) && i < j < i + 1 + |BlockOf(a, i, level)|
    ensures var block, r := BlockOf(a, i, level), j - i - 1;
            && j < |a| && AllActive(block) && block[r] == a[j] && a[j].kind.indent > level
            && Extent(block, r) == Extent(a, j) && r + Extent(a, j) <= |block|
  {
    hide BlockOf, Extent, MinActive;
    var block := BlockOf(a, i, level);
    BlockLines(a, i, level);
    var n := Extent(a, j);
    ExtentIsDeeper(a, j);
    ExtentEnds(a, j);
    assert j - i - 1 + n <= |block|;
    ExtentIs(block, j - i - 1, n);
  }

  lemma ExtentEnds(a: seq<Line>, j: nat)
    requires AllActive(a) && j < |a|
    ensures j + Extent(a, j) <= |a|
    ensures j + Extent(a, j) < |a| ==> a[j + Extent(a, j)].kind.indent <= a[j].kind.indent
  {
  }

  lemma BlockWithout(a: seq<Line>, i: nat, level: nat, j: nat)
    requires IsChild(a, i, level) && i < j < i + 1 + |BlockOf(a, i, level)|
    ensures j < |a| && IsActive(a[j]) && i < |Without(a, j)| && Without(a, j)[i] == a[i]
    ensures var block, r := BlockOf(a, i, level), j - i - 1;
            IsActive(block[r]) && BlockOf(Without(a, j), i, level) == Without(block, r)
  {
    NestedExtent(a, i, level, j);
    BlockLines(a, i, level);
    RemovedBlock(a, i, level, j, Extent(a, j));
  }

  lemma RemovedBlock(a: seq<Line>, i: nat, level: nat, j: nat, n: nat)
    requires AllActive(a) && i < |a|
    requires i < j && j + n <= |a| && j + n <= i + 1 + |BlockOf(a, i, level)|
    ensures i < |Removed(a, j, n)|
    ensures BlockOf(Removed(a, j, n), i, level) == Removed(BlockOf(a, i, level), j - i - 1, n)
  {
    hide Removed, BlockOf, BlockLen;
    var block, rest := BlockOf(a, i, level), Removed(a, j, n);
    BlockLines(a, i, level);
    RemovedAt(a, j, n);
    RemovedAt(block, j - i - 1, n);
    var left := Removed(block, j - i - 1, n);
    forall k | 0 <= k < |left|
      ensures rest[i + 1 + k] == left[k] && !EndsBlock(left[k], level)
    {
      var l := if i + 1 + k < j then k else k + n;
      assert left[k] == block[l] == a[i + 1 + l] && rest[i + 1 + k] == a[i + 1 + l];
    }
    if i + 1 + |left| < |rest| {
      var end := i + 1 + |block|;
      assert j + n <= end < |a| && rest[end - n] == a[end] && IsActive(a[end]);
    }
    BlockIs(rest, i, level, left);
  }

  lemma BlockIs(a: seq<Line>, i: nat, level: nat, block: seq<Line>)
    requires i + 1 + |block| <= |a|
    requires forall k :: 0 <= k < |block| ==> a[i + 1 + k] == block[k] && !EndsBlock(block[k], level)
    requires i + 1 + |block| < |a| ==> EndsBlock(a[i + 1 + |block|], level)
    ensures BlockOf(a, i, level) == block
  {
    hide EndsBlock;
    var v := a[i + 1..];
    forall k | 0 <= k < |block|
      ensures v[k] == block[k] && !EndsBlock(v[k], level)
    {
      assert v[k] == a[i + 1 + k];
    }
    assert |block| < |v| ==> v[|block|] == a[i + 1 + |block|];
    BlockLenIs(v, |block|, level);
    assert v[..|block|] == block;
  }

  /** Deleting below the child `i` keeps all children, and the blocks of the others. */
  lemma ChildAfterDelete(a: seq<Line>, i: nat, level: nat, j: nat)
    requires IsChild(a, i, level) && i < j < i + 1 + |BlockOf(a, i, level)|
    ensures j < |a| && IsActive(a[j]) && AllActive(Without(a, j)) && MinActive(Without(a, j)) == Some(level)
    ensures forall seg: string :: NoneAre(a, j, Extent(a, j), level, seg)
  {
    NestedExtent(a, i, level, j);
    ExtentIsDeeper(a, j);
    RemovedAt(a, j, Extent(a, j));
    MinBelow(a, level);
    var rest := Without(a, j);
    forall k | 0 <= k < |rest|
      ensures IsActive(rest[k]) && rest[k].kind.indent >= level
    {
      assert rest[k] == a[if k < j then k else k + Extent(a, j)];
    }
    MinIs(rest, level, i);
  }

  lemma EntryAfterInner(a: seq<Line>, parentIndent: int, i: nat, level: nat, j: nat, seg: string)
    requires IsChild(a, i, level) && i < j < i + 1 + |BlockOf(a, i, level)|
    ensures j < |a| && IsActive(a[j])
    ensures Entry(Without(a, j), parentIndent, seg) ==
            match Entry(a, parentIndent, seg)
            case None => None
            case Some((l, k)) => Some((l, if k < j then k else k - Extent(a, j)))
    ensures Entry(a, parentIndent, seg).Some? ==> !(j <= Entry(a, parentIndent, seg).value.1 < j + Extent(a, j))
  {
    hide FindHeader, MinActive, Removed, Extent, NoneAre;
    ChildAfterDelete(a, i, level, j);
    HeaderAfterRemove(a, j, Extent(a, j), level, seg);
  }

  lemma OtherBlockAfterInner(a: seq<Line>, i: nat, level: nat, j: nat, k: nat)
    requires IsChild(a, i, level) && IsChild(a, k, level) && k != i && i < j < i + 1 + |BlockOf(a, i, level)|
    ensures j < |a| && IsActive(a[j]) && (k < i || j + Extent(a, j) <= k)
    ensures var n := Extent(a, j);
            var k' := if k < j then k else k - n;
            && k' < |Without(a, j)| && Without(a, j)[k'] == a[k]
            && BlockOf(Without(a, j), k', level) == BlockOf(a, k, level)
            && (k < j ==> k + 1 + |BlockOf(a, k, level)| <= j)
  {
    hide BlockOf, Extent, Removed, MinActive;
    NestedExtent(a, i, level, j);
    RemovedAt(a, j, Extent(a, j));
    if k < i { EarlierAfterInner(a, i, level, j, k); } else { LaterAfterInner(a, i, level, j, k); }
  }

  lemma EarlierAfterInner(a: seq<Line>, i: nat, level: nat, j: nat, k: nat)
    requires IsChild(a, i, level) && k < i < j < |a| && IsActive(a[j])
    ensures k + 1 + |BlockOf(a, k, level)| <= i && k < |Without(a, j)|
    ensures BlockOf(Without(a, j), k, level) == BlockOf(a, k, level)
  {
    var n := Extent(a, j);
    var v, u, m := a[k + 1..], Without(a, j)[k + 1..], i - k - 1;
    assert Without(a, j)[..i + 1] == a[..i + 1];
    assert v[..m + 1] == a[..i + 1][k + 1..] && u[..m + 1] == Without(a, j)[..i + 1][k + 1..];
    assert v[m] == a[i];
    BlockSamePrefix(v, u, m, level);
    assert v[..BlockLen(v, level)] == v[..m + 1][..BlockLen(v, level)];
    assert u[..BlockLen(v, level)] == u[..m + 1][..BlockLen(v, level)];
  }

  lemma LaterAfterInner(a: seq<Line>, i: nat, level: nat, j: nat, k: nat)
    requires IsChild(a, i, level) && IsChild(a, k, level) && i < k && i < j < i + 1 + |BlockOf(a, i, level)|
    ensures j < |a| && IsActive(a[j]) && j + Extent(a, j) <= k
    ensures BlockOf(Without(a, j), k - Extent(a, j), level) == BlockOf(a, k, level)
  {
    NestedExtent(a, i, level, j);
    assert a[i + 1..][k - i - 1] == a[k];
    BlockStopsAt(a[i + 1..], k - i - 1, level);
    BlockBelow(a, j, k, level);
  }

  // ---- any key ----

  /** The window in which the key that `p` locates is a direct child. */
  ghost function WindowOf(a: seq<Line>, parentIndent: int, p: seq<string>): seq<Line>
    requires Path(a, parentIndent, p).Some?
    decreases |p|
  {
    if |p| == 1 then a
    else
      PathInBlock(a, parentIndent, p, Path(a, parentIndent, p).value);
      var (level, i) := Entry(a, parentIndent, p[0]).value;
      WindowOf(BlockOf(a, i, level), level, p[1..])
  }

  /** The key's place in that window. */
  ghost function Place(a: seq<Line>, parentIndent: int, p: seq<string>): nat
    requires Path(a, parentIndent, p).Some?
    decreases |p|
  {
    if |p| == 1 then Path(a, parentIndent, p).value
    else
      PathInBlock(a, parentIndent, p, Path(a, parentIndent, p).value);
      var (level, i) := Entry(a, parentIndent, p[0]).value;
      Place(BlockOf(a, i, level), level, p[1..])
  }

  /** The key is a direct child of its window, and its extent is the same there. */
  lemma {:induction false} PlaceFacts(a: seq<Line>, parentIndent: int, p: seq<string>)
    requires AllActive(a) && Path(a, parentIndent, p).Some?
    ensures var j, w, r := Path(a, parentIndent, p).value, WindowOf(a, parentIndent, p), Place(a, parentIndent, p);
            && IsActive(a[j]) && r < |w| && w[r] == a[j] && IsChild(w, r, a[j].kind.indent)
            && a[j].kind.indent > parentIndent && a[j].kind.token == Some(Last(p)) && Extent(w, r) == Extent(a, j)
            && FindHeader(w, a[j].kind.indent, Last(p)) == Some(r)
    decreases |p|
  {
    hide BlockOf, Extent, MinActive, FindHeader;
    var j := Path(a, parentIndent, p).value;
    if |p| == 1 {
      EntryIsChild(a, parentIndent, p[0]);
      OneKey(a, parentIndent, p);
    } else {
      PathInBlock(a, parentIndent, p, j);
      EntryIsChild(a, parentIndent, p[0]);
      var (level, i) := Entry(a, parentIndent, p[0]).value;
      NestedExtent(a, i, level, j);
      PlaceFacts(BlockOf(a, i, level), level, p[1..]);
    }
  }

  lemma OneKey(a: seq<Line>, parentIndent: int, p: seq<string>)
    requires |p| == 1 && Path(a, parentIndent, p).Some?
    ensures var j := Path(a, parentIndent, p).value;
            IsActive(a[j]) && Entry(a, parentIndent, p[0]) == Some((a[j].kind.indent, j)) &&
            MinActive(a) == Some(a[j].kind.indent) && FindHeader(a, a[j].kind.indent, p[0]) == Some(j)
  {
  }

  /** What is left of the window. */
  ghost function Rest(a: seq<Line>, parentIndent: int, p: seq<string>): seq<Line>
    requires AllActive(a) && Path(a, parentIndent, p).Some?
  {
    PlaceFacts(a, parentIndent, p);
    Without(WindowOf(a, parentIndent, p), Place(a, parentIndent, p))
  }

  /** Nothing but the key itself can be found among what is left, unless it could be found before. */
  ghost predicate NothingSurfaces(a: seq<Line>, parentIndent: int, p: seq<string>)
    requires AllActive(a) && Path(a, parentIndent, p).Some?
  {
    forall t: string :: t != Last(p) ==>
      !Surfaced(Rest(a, parentIndent, p), a[Path(a, parentIndent, p).value].kind.indent, t)
  }

  lemma TailNoPrefix(p: seq<string>, q: seq<string>)
    requires p != [] && q != [] && p[0] == q[0] && !(p <= q)
    ensures |p| > 1 && !(p[1..] <= q[1..]) && Last(p) == Last(p[1..])
  {
    assert p == [p[0]] + p[1..] && q == [q[0]] + q[1..];
  }

  /** Every path that does not start with the deleted one is found where its line went; a path that was not
      found is still not found if nothing surfaces. */
  lemma {:induction false} PathAfterRemove(a: seq<Line>, parentIndent: int, p: seq<string>, q: seq<string>)
    requires AllActive(a) && Path(a, parentIndent, p).Some? && !(p <= q)
    ensures var j, was := Path(a, parentIndent, p).value, Path(a, parentIndent, q);
            && IsActive(a[j]) && IsOutside(j, Extent(a, j), was)
            && (was.Some? || NothingSurfaces(a, parentIndent, p) ==>
                  Path(Without(a, j), parentIndent, q) == Fall(j, Extent(a, j), was))
    decreases |p|
  {
    hide BlockOf, Extent, MinActive, FindHeader, Removed, Surfaced, Entry, IsChild;
    var j := Path(a, parentIndent, p).value;
    PlaceFacts(a, parentIndent, p);
    if q == [] {
      assert Path(a, parentIndent, q) == None && Path(Without(a, j), parentIndent, q) == None;
    } else if |p| == 1 {
      OneKey(a, parentIndent, p);
      assert p == [p[0]] && (q[0] == p[0] ==> p <= q) && Last(p) == p[0];
      assert Rest(a, parentIndent, p) == Without(a, j);
      PathAfterDelete(a, parentIndent, p[0], j, a[j].kind.indent, q);
    } else {
      PathBelow(a, parentIndent, p, q);
    }
  }

  lemma {:induction false} PathBelow(a: seq<Line>, parentIndent: int, p: seq<string>, q: seq<string>)
    requires AllActive(a) && |p| > 1 && Path(a, parentIndent, p).Some? && q != [] && !(p <= q)
    ensures var j, was := Path(a, parentIndent, p).value, Path(a, parentIndent, q);
            && IsActive(a[j]) && IsOutside(j, Extent(a, j), was)
            && (was.Some? || NothingSurfaces(a, parentIndent, p) ==>
                  Path(Without(a, j), parentIndent, q) == Fall(j, Extent(a, j), was))
    decreases |p|, 1
  {
    hide BlockOf, Extent, MinActive, FindHeader, Removed, Surfaced, IsChild, Entry;
    var j := Path(a, parentIndent, p).value;
    PathInBlock(a, parentIndent, p, j);
    EntryIsChild(a, parentIndent, p[0]);
    var (level, i) := Entry(a, parentIndent, p[0]).value;
    EntryAfterInner(a, parentIndent, i, level, j, q[0]);
    NoEntryNoPath(a, parentIndent, q);
    NoEntryNoPath(Without(a, j), parentIndent, q);
    if Entry(a, parentIndent, q[0]).Some? && |q| > 1 {
      EntryIsChild(a, parentIndent, q[0]);
      if q[0] == p[0] { PathInside(a, parentIndent, p, q); } else { PathBeside(a, parentIndent, i, level, j, q); }
    }
  }

  /** A path through a sibling of the child below which the key is deleted. */
  lemma PathBeside(a: seq<Line>, parentIndent: int, i: nat, level: nat, j: nat, q: seq<string>)
    requires IsChild(a, i, level) && i < j < i + 1 + |BlockOf(a, i, level)|
    requires |q| > 1 && Entry(a, parentIndent, q[0]).Some? && Entry(a, parentIndent, q[0]).value.1 != i
    requires Entry(a, parentIndent, q[0]).value.0 == level && AllActive(a)
    ensures j < |a| && IsActive(a[j])
    ensures Path(Without(a, j), parentIndent, q) == Fall(j, Extent(a, j), Path(a, parentIndent, q))
    ensures IsOutside(j, Extent(a, j), Path(a, parentIndent, q))
  {
    hide BlockOf, Extent, MinActive, FindHeader, Removed, Entry, IsChild;
    var k := Entry(a, parentIndent, q[0]).value.1;
    EntryIsChild(a, parentIndent, q[0]);
    EntryAfterInner(a, parentIndent, i, level, j, q[0]);
    OtherBlockAfterInner(a, i, level, j, k);
    PathUnfold(a, parentIndent, q);
    PathUnfold(Without(a, j), parentIndent, q);
    FallOfShift(j, Extent(a, j), k, |BlockOf(a, k, level)|, Path(BlockOf(a, k, level), level, q[1..]));
  }

  lemma FallInside(i: nat, r: nat, n: nat, was: Option<nat>)
    ensures Shift(i + 1, Fall(r, n, was)) == Fall(i + 1 + r, n, Shift(i + 1, was))
    ensures IsOutside(r, n, was) ==> IsOutside(i + 1 + r, n, Shift(i + 1, was))
  {
  }

  /** A path that enters the block in which the key is deleted. */
  lemma {:induction false} PathInside(a: seq<Line>, parentIndent: int, p: seq<string>, q: seq<string>)
    requires AllActive(a) && |p| > 1 && Path(a, parentIndent, p).Some? && |q| > 1 && q[0] == p[0] && !(p <= q)
    ensures var j, was := Path(a, parentIndent, p).value, Path(a, parentIndent, q);
            && IsActive(a[j]) && IsOutside(j, Extent(a, j), was)
            && (was.Some? || NothingSurfaces(a, parentIndent, p) ==>
                  Path(Without(a, j), parentIndent, q) == Fall(j, Extent(a, j), was))
    decreases |p|, 0
  {
    hide BlockOf, Extent, MinActive, FindHeader, Removed, Entry, IsChild;
    var j := Path(a, parentIndent, p).value;
    PathInBlock(a, parentIndent, p, j);
    EntryIsChild(a, parentIndent, p[0]);
    var (level, i) := Entry(a, parentIndent, p[0]).value;
    var block := BlockOf(a, i, level);
    EntryAfterInner(a, parentIndent, i, level, j, q[0]);
    NestedExtent(a, i, level, j);
    BlockWithout(a, i, level, j);
    PathUnfold(a, parentIndent, q);
    PathUnfold(Without(a, j), parentIndent, q);
    TailNoPrefix(p, q);
    SurfacesInside(a, parentIndent, p);
    PathAfterRemove(block, level, p[1..], q[1..]);
    FallInside(i, j - i - 1, Extent(a, j), Path(block, level, q[1..]));
  }

  lemma WindowStep(a: seq<Line>, parentIndent: int, p: seq<string>)
    requires |p| > 1 && Path(a, parentIndent, p).Some?
    ensures Entry(a, parentIndent, p[0]).Some?
    ensures var (level, i) := Entry(a, parentIndent, p[0]).value;
            var block, j := BlockOf(a, i, level), Path(a, parentIndent, p).value;
            && Path(block, level, p[1..]).Some? && Path(block, level, p[1..]).value == j - i - 1 &&
               block[j - i - 1] == a[j]
            && WindowOf(a, parentIndent, p) == WindowOf(block, level, p[1..]) &&
               Place(a, parentIndent, p) == Place(block, level, p[1..])
  {
    PathInBlock(a, parentIndent, p, Path(a, parentIndent, p).value);
  }

  /** Whether something surfaces is a matter of the key's own window. */
  lemma SurfacesInside(a: seq<Line>, parentIndent: int, p: seq<string>)
    requires AllActive(a) && |p| > 1 && Path(a, parentIndent, p).Some?
    ensures Entry(a, parentIndent, p[0]).Some?
    ensures var (level, i) := Entry(a, parentIndent, p[0]).value;
            var block := BlockOf(a, i, level);
            && AllActive(block) && Path(block, level, p[1..]).Some?
            && (NothingSurfaces(a, parentIndent, p) <==> NothingSurfaces(block, level, p[1..]))
  {
    hide BlockOf, Extent, MinActive, FindHeader, Removed, Entry, IsChild, Surfaced, WindowOf, Place, Path;
    WindowStep(a, parentIndent, p);
    var (level, i) := Entry(a, parentIndent, p[0]).value;
    BlockLines(a, i, level);
    var block := BlockOf(a, i, level);
    assert Last(p) == Last(p[1..]) && Rest(a, parentIndent, p) == Rest(block, level, p[1..]);
  }

  // ---- what surfaces ----

  /** Beside the deleted key, under the name `t`. */
  function Beside(p: seq<string>, t: string): seq<string>
    requires p != []
  {
    p[..|p| - 1] + [t]
  }

  lemma BesideTail(p: seq<string>, t: string)
    requires |p| > 1
    ensures var q := Beside(p, t); |q| > 1 && q[0] == p[0] && q[1..] == Beside(p[1..], t)
  {
  }

  lemma NotBelow(p: seq<string>, t: string)
    requires p != [] && t != Last(p)
    ensures !(p <= Beside(p, t))
  {
    assert Beside(p, t)[|p| - 1] == t;
  }

  lemma NoOtherAtLevel(w: seq<Line>, r: nat, level: nat, t: string)
    requires IsChild(w, r, level) && w[r].kind.token != Some(t) && Surfaced(Without(w, r), level, t)
    ensures FindHeader(w, level, t) == None
  {
    hide BlockLen, Removed;
    var rest := Without(w, r);
    ExtentHasNoOther(w, r, level, t);
    HeaderAfterRemove(w, r, Extent(w, r), level, t);
    if FindHeader(w, level, t).Some? {
      var i := FindHeader(rest, level, t).value;
      MinAtMost(rest, i);
    }
  }

  /** A line that surfaces under another name gets a path that led nowhere before. */
  lemma {:induction false} SurfacedIsNew(a: seq<Line>, parentIndent: int, p: seq<string>, t: string)
    requires AllActive(a) && Path(a, parentIndent, p).Some? && t != Last(p)
    requires Surfaced(Rest(a, parentIndent, p), a[Path(a, parentIndent, p).value].kind.indent, t)
    ensures var j := Path(a, parentIndent, p).value;
            && IsActive(a[j]) && Path(a, parentIndent, Beside(p, t)) == None
            && Path(Without(a, j), parentIndent, Beside(p, t)).Some?
    decreases |p|
  {
    hide BlockOf, Extent, MinActive, FindHeader, Removed, IsChild, WindowOf, Place;
    var j := Path(a, parentIndent, p).value;
    PlaceFacts(a, parentIndent, p);
    if |p| == 1 {
      SurfacedAtOnce(a, parentIndent, p, t);
    } else {
      PathInBlock(a, parentIndent, p, j);
      EntryIsChild(a, parentIndent, p[0]);
      var (level, i) := Entry(a, parentIndent, p[0]).value;
      EntryAfterInner(a, parentIndent, i, level, j, p[0]);
      NestedExtent(a, i, level, j);
      BlockWithout(a, i, level, j);
      WindowStep(a, parentIndent, p);
      BesideTail(p, t);
      PathUnfold(a, parentIndent, Beside(p, t));
      PathUnfold(Without(a, j), parentIndent, Beside(p, t));
      assert Last(p) == Last(p[1..]);
      SurfacedIsNew(BlockOf(a, i, level), level, p[1..], t);
    }
  }

  lemma SurfacedAtOnce(a: seq<Line>, parentIndent: int, p: seq<string>, t: string)
    requires AllActive(a) && |p| == 1 && Path(a, parentIndent, p).Some? && t != p[0]
    requires Surfaced(Rest(a, parentIndent, p), a[Path(a, parentIndent, p).value].kind.indent, t)
    ensures var j := Path(a, parentIndent, p).value;
            && IsActive(a[j]) && Path(a, parentIndent, Beside(p, t)) == None
            && Path(Without(a, j), parentIndent, Beside(p, t)).Some?
  {
    hide BlockOf, Extent, Removed, FindHeader, MinActive;
    var j := Path(a, parentIndent, p).value;
    OneKey(a, parentIndent, p);
    EntryIsChild(a, parentIndent, p[0]);
    NoOtherAtLevel(a, j, a[j].kind.indent, t);
    assert Beside(p, t) == [t] && Rest(a, parentIndent, p) == Without(a, j);
  }

  /** Under the condition, and only under it, deleting a key with its block moves lines and nothing else. */
  lemma RemoveIsFrameIff(a: seq<Line>, p: seq<string>)
    requires AllActive(a) && Path(a, -1, p).Some?
    ensures var j := Path(a, -1, p).value;
            IsActive(a[j]) &&
            ((forall q :: !(p <= q) ==> Path(Without(a, j), -1, q) == Fall(j, Extent(a, j), Path(a, -1, q))) <==>
             NothingSurfaces(a, -1, p))
  {
    hide Path, Extent, Removed, Surfaced, WindowOf, Place;
    var j := Path(a, -1, p).value;
    PlaceFacts(a, -1, p);
    if NothingSurfaces(a, -1, p) {
      forall q | !(p <= q)
        ensures Path(Without(a, j), -1, q) == Fall(j, Extent(a, j), Path(a, -1, q))
      {
        PathAfterRemove(a, -1, p, q);
      }
    } else {
      var t :| t != Last(p) && Surfaced(Rest(a, -1, p), a[j].kind.indent, t);
      NoEmptyPath(a, p);
      SurfacedIsNew(a, -1, p, t);
      NotBelow(p, t);
    }
  }

  lemma NoEmptyPath(a: seq<Line>, p: seq<string>)
    requires Path(a, -1, p).Some?
    ensures p != []
  {
  }

  // ---- the key itself ----

  lemma {:induction false} CountIsFind(a: seq<Line>, level: nat, seg: string)
    ensures KeyCount(a, level, seg) > 0 <==> FindHeader(a, level, seg).Some?
  {
    hide IsHeader;
    if a != [] {
      CountIsFind(a[1..], level, seg);
    }
  }

  lemma {:induction false} CountAppend(a: seq<Line>, b: seq<Line>, level: nat, seg: string)
    ensures KeyCount(a + b, level, seg) == KeyCount(a, level, seg) + KeyCount(b, level, seg)
  {
    hide IsHeader;
    if a == [] {
      assert a + b == b;
    } else {
      assert (a + b)[0] == a[0] && (a + b)[1..] == a[1..] + b;
      CountAppend(a[1..], b, level, seg);
    }
  }

  /** Deleting one direct child takes one occurrence of its key. */
  lemma CountAfterDelete(w: seq<Line>, r: nat, level: nat, seg: string)
    requires IsChild(w, r, level) && w[r].kind.token == Some(seg)
    ensures KeyCount(w, level, seg) == KeyCount(Without(w, r), level, seg) + 1
  {
    hide MinActive, KeyCount, BlockLen;
    var n := Extent(w, r);
    ExtentIsDeeper(w, r);
    var below := w[r + 1..r + n];
    assert forall i :: 0 <= i < |below| ==> below[i] == w[r + 1 + i];
    NoneCounted(below, level, seg);
    OneCounted(w[r], level, seg);
    CountOfParts(w, r, n, level, seg);
  }

  lemma CountOfParts(w: seq<Line>, r: nat, n: nat, level: nat, seg: string)
    requires 0 < n && r + n <= |w|
    ensures KeyCount(w, level, seg) ==
            KeyCount(Removed(w, r, n), level, seg) + KeyCount([w[r]], level, seg) +
              KeyCount(w[r + 1..r + n], level, seg)
  {
    hide KeyCount;
    var upper, key, below, lower := w[..r], [w[r]], w[r + 1..r + n], w[r + n..];
    assert w == upper + (key + (below + lower));
    CountAppend(upper, key + (below + lower), level, seg);
    CountAppend(key, below + lower, level, seg);
    CountAppend(below, lower, level, seg);
    CountAppend(upper, lower, level, seg);
  }

  lemma {:induction false} NoneCounted(a: seq<Line>, level: nat, seg: string)
    requires AllActive(a) && forall i :: 0 <= i < |a| ==> a[i].kind.indent > level
    ensures KeyCount(a, level, seg) == 0
  {
    if a != [] {
      NoneCounted(a[1..], level, seg);
    }
  }

  lemma OneCounted(l: Line, level: nat, seg: string)
    requires IsHeader(l, level, seg)
    ensures KeyCount([l], level, seg) == 1
  {
    assert [l][1..] == [];
  }

  /** How often the key that `p` locates occurs among its siblings. */
  ghost function Repeats(a: seq<Line>, parentIndent: int, p: seq<string>): nat
    requires Path(a, parentIndent, p).Some?
  {
    var l := a[Path(a, parentIndent, p).value];
    if l.kind.Active? then KeyCount(WindowOf(a, parentIndent, p), l.kind.indent, Last(p)) else 0
  }

  lemma GoneAtOnce(w: seq<Line>, parentIndent: int, r: nat, level: nat, seg: string)
    requires IsChild(w, r, level) && level > parentIndent && w[r].kind.token == Some(seg)
    ensures Path(Without(w, r), parentIndent, [seg]) == None <==>
            KeyCount(w, level, seg) == 1 && !Surfaced(Without(w, r), level, seg)
  {
    hide Removed, Extent, FindHeader, MinActive, KeyCount;
    var rest := Without(w, r);
    CountAfterDelete(w, r, level, seg);
    CountIsFind(rest, level, seg);
    RestIsDeeper(w, r, level);
    MinIsThere(rest);
    if FindHeader(rest, level, seg).Some? { MinIs(rest, level, FindHeader(rest, level, seg).value); }
  }

  /** The deleted path is gone exactly when its key occurred once and no line surfaces under that name. */
  lemma {:induction false} GoneIff(a: seq<Line>, parentIndent: int, p: seq<string>)
    requires AllActive(a) && Path(a, parentIndent, p).Some?
    ensures var j := Path(a, parentIndent, p).value;
            && IsActive(a[j])
            && (Path(Without(a, j), parentIndent, p) == None <==>
                Repeats(a, parentIndent, p) == 1 && !Surfaced(Rest(a, parentIndent, p), a[j].kind.indent, Last(p)))
    decreases |p|
  {
    hide BlockOf, Extent, MinActive, FindHeader, Removed, IsChild, KeyCount, Surfaced;
    var j := Path(a, parentIndent, p).value;
    PlaceFacts(a, parentIndent, p);
    if |p| == 1 {
      OneKey(a, parentIndent, p);
      assert p == [p[0]] && Rest(a, parentIndent, p) == Without(a, j);
      GoneAtOnce(a, parentIndent, j, a[j].kind.indent, p[0]);
    } else {
      GoneBelow(a, parentIndent, p);
    }
  }

  lemma {:induction false} GoneBelow(a: seq<Line>, parentIndent: int, p: seq<string>)
    requires AllActive(a) && |p| > 1 && Path(a, parentIndent, p).Some?
    ensures var j := Path(a, parentIndent, p).value;
            && IsActive(a[j])
            && (Path(Without(a, j), parentIndent, p) == None <==>
                Repeats(a, parentIndent, p) == 1 && !Surfaced(Rest(a, parentIndent, p), a[j].kind.indent, Last(p)))
    decreases |p|, 0
  {
    hide BlockOf, Extent, MinActive, FindHeader, Removed, IsChild, KeyCount, Surfaced, WindowOf, Place, Entry;
    var j := Path(a, parentIndent, p).value;
    PathInBlock(a, parentIndent, p, j);
    EntryIsChild(a, parentIndent, p[0]);
    var (level, i) := Entry(a, parentIndent, p[0]).value;
    EntryAfterInner(a, parentIndent, i, level, j, p[0]);
    NestedExtent(a, i, level, j);
    BlockWithout(a, i, level, j);
    WindowStep(a, parentIndent, p);
    PathUnfold(Without(a, j), parentIndent, p);
    assert Last(p) == Last(p[1..]);
    GoneIff(BlockOf(a, i, level), level, p[1..]);
  }

  // ---- windows in which nothing surfaces ----

  /** Where no deeper line stands above the first child, none can surface. */
  lemma FlushWindow(w: seq<Line>, r: nat, level: nat, t: string)
    requires IsChild(w, r, level) && w[0].kind.indent == level
    ensures !Surfaced(Without(w, r), level, t)
  {
    var rest, n := Without(w, r), Extent(w, r);
    RemovedAt(w, r, n);
    if rest != [] {
      assert rest[0] == if r > 0 then w[0] else w[n];
      RestIsDeeper(w, r, level);
      MinAtMost(rest, 0);
      ExtentEnds(w, r);
    }
  }
}
