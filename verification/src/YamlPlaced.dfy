/** A line put anywhere among the active lines of a text: which paths still find what they found. */
module YamlPlaced {
  import opened Prelude
  import opened YamlLines
  import opened YamlEdit
  import opened YamlPaths
  import opened YamlInsert
  import opened YamlRemove

  // ---- cutting a window short ----

  lemma {:induction false} HeaderInPrefix(a: seq<Line>, c: nat, level: nat, seg: string)
    requires c <= |a| && FindHeader(a, level, seg).Some? && FindHeader(a, level, seg).value < c
    ensures FindHeader(a[..c], level, seg) == FindHeader(a, level, seg)
  {
    hide IsHeader;
    if !IsHeader(a[0], level, seg) {
      assert a[..c][1..] == a[1..][..c - 1];
      HeaderInPrefix(a[1..], c - 1, level, seg);
    }
  }

  lemma EntryInPrefix(a: seq<Line>, c: nat, parentIndent: int, seg: string)
    requires AllActive(a) && c <= |a| && Entry(a, parentIndent, seg).Some? && Entry(a, parentIndent, seg).value.1 < c
    ensures Entry(a[..c], parentIndent, seg) == Entry(a, parentIndent, seg)
  {
    hide MinActive, FindHeader;
    var (level, i) := Entry(a, parentIndent, seg).value;
    EntryIsChild(a, parentIndent, seg);
    MinBelow(a, level);
    assert a[..c][i] == a[i] && forall k :: 0 <= k < c ==> a[..c][k] == a[k];
    MinIs(a[..c], level, i);
    HeaderInPrefix(a, c, level, seg);
  }

  lemma BlockInPrefix(a: seq<Line>, c: nat, i: nat, level: nat)
    requires AllActive(a) && i < c <= |a|
    ensures BlockOf(a[..c], i, level) ==
            if c <= i + 1 + |BlockOf(a, i, level)| then BlockOf(a, i, level)[..c - i - 1] else BlockOf(a, i, level)
  {
    hide BlockOf;
    BlockLines(a, i, level);
    var block := BlockOf(a, i, level);
    var short := if c <= i + 1 + |block| then block[..c - i - 1] else block;
    forall k | 0 <= k < |short|
      ensures a[..c][i + 1 + k] == short[k] && !EndsBlock(short[k], level)
    {
      assert short[k] == block[k] == a[i + 1 + k];
    }
    BlockIs(a[..c], i, level, short);
  }

  /** A path to a line above the cut is the same. */
  lemma {:induction false} PathInPrefix(a: seq<Line>, parentIndent: int, q: seq<string>, c: nat)
    requires AllActive(a) && c <= |a| && Path(a, parentIndent, q).Some? && Path(a, parentIndent, q).value < c
    ensures Path(a[..c], parentIndent, q) == Path(a, parentIndent, q)
    decreases |q|
  {
    hide BlockOf, MinActive, FindHeader, Entry;
    var j := Path(a, parentIndent, q).value;
    PathEntry(a, parentIndent, q, j);
    var (level, i) := Entry(a, parentIndent, q[0]).value;
    EntryInPrefix(a, c, parentIndent, q[0]);
    if |q| > 1 {
      PathInBlock(a, parentIndent, q, j);
      PathUnfold(a[..c], parentIndent, q);
      BlockInPrefix(a, c, i, level);
      BlockLines(a, i, level);
      if c <= i + 1 + |BlockOf(a, i, level)| { PathInPrefix(BlockOf(a, i, level), level, q[1..], c - i - 1); }
    }
  }

  // ---- the condition ----

  /** The new line has the path's first key, and the rest of the path is found below it. */
  predicate TakesOver(a: seq<Line>, k: nat, x: Line, q: seq<string>, j: nat)
    requires k <= |a| && IsActive(x)
  {
    |q| > 1 && x.kind.token == Some(q[0]) && x.kind.opens && k <= j &&
      Path(a[k..], x.kind.indent, q[1..]) == Some(j - k)
  }

  /** Put at `k`, the line `x` is shallower than no key of the path whose window it joins, does not come first
      under the name of one, and ends no block between one and the line that the path finds. */
  ghost predicate Undisturbed(a: seq<Line>, parentIndent: int, k: nat, x: Line, q: seq<string>)
    requires Path(a, parentIndent, q).Some? && k <= |a| && IsActive(x)
    decreases |q|
  {
    var j := Path(a, parentIndent, q).value;
    PathEntry(a, parentIndent, q, j);
    var (level, i) := Entry(a, parentIndent, q[0]).value;
    if x.kind.indent < level then TakesOver(a, k, x, q, j)
    else if IsHeader(x, level, q[0]) && k <= i then false
    else if |q| == 1 || k <= i || i + 1 + |BlockOf(a, i, level)| < k then true
    else if x.kind.indent == level then j < k
    else
      PathInBlock(a, parentIndent, q, j);
      Undisturbed(BlockOf(a, i, level), level, k - i - 1, x, q[1..])
  }

  // ---- the cases ----

  lemma InsertedAt<T>(a: seq<T>, k: nat, x: T)
    requires k <= |a|
    ensures |Inserted(a, k, x)| == |a| + 1 && Inserted(a, k, x)[k] == x && Inserted(a, k, x)[k + 1..] == a[k..]
    ensures forall i :: 0 <= i < k ==> Inserted(a, k, x)[i] == a[i]
    ensures forall i :: k <= i < |a| ==> Inserted(a, k, x)[i + 1] == a[i]
  {
  }

  lemma AllActiveInserted(a: seq<Line>, k: nat, x: Line)
    requires AllActive(a) && k <= |a| && IsActive(x)
    ensures AllActive(Inserted(a, k, x))
  {
    InsertedAt(a, k, x);
    forall i | 0 <= i < |a| + 1
      ensures IsActive(Inserted(a, k, x)[i])
    {
      assert Inserted(a, k, x)[i] == if i < k then a[i] else if i == k then x else a[i - 1];
    }
  }

  lemma {:induction false} NoneShallower(a: seq<Line>, level: nat, seg: string)
    requires forall k :: 0 <= k < |a| ==> IsActive(a[k]) && a[k].kind.indent > level
    ensures FindHeader(a, level, seg) == None
  {
    if a != [] {
      NoneShallower(a[1..], level, seg);
    }
  }

  /** A line shallower than the whole window. */
  lemma InsertShallower(a: seq<Line>, parentIndent: int, k: nat, x: Line, q: seq<string>, level: nat)
    requires AllActive(a) && MinActive(a) == Some(level) && k <= |a| && q != []
    requires IsActive(x) && parentIndent < x.kind.indent < level
    ensures Path(Inserted(a, k, x), parentIndent, q) ==
            if x.kind.token != Some(q[0]) then None
            else if |q| == 1 then Some(k)
            else if !x.kind.opens then None
            else Shift(k + 1, Path(a[k..], x.kind.indent, q[1..]))
  {
    hide MinActive, FindHeader, Inserted, BlockOf;
    var out, indent := Inserted(a, k, x), x.kind.indent;
    MinBelow(a, level);
    InsertedAt(a, k, x);
    MinAfterInsert(a, k, x);
    NoneShallower(a, indent, q[0]);
    if x.kind.token == Some(q[0]) {
      NewHeader(a, k, x, indent, q[0]);
      WholeBlock(a, k, x);
      if |q| > 1 { PathUnfold(out, parentIndent, q); }
    } else {
      HeaderAfterInsert(a, k, x, indent, q[0]);
    }
  }

  lemma WholeBlock(a: seq<Line>, k: nat, x: Line)
    requires k <= |a| && IsActive(x) && forall i :: 0 <= i < |a| ==> IsActive(a[i]) && a[i].kind.indent > x.kind.indent
    ensures BlockOf(Inserted(a, k, x), k, x.kind.indent) == a[k..]
  {
    hide Inserted, BlockOf;
    InsertedAt(a, k, x);
    BlockIs(Inserted(a, k, x), k, x.kind.indent, a[k..]);
  }

  lemma {:induction false} HeaderStaysFirst(a: seq<Line>, k: nat, x: Line, level: nat, seg: string)
    requires k <= |a| && FindHeader(a, level, seg).Some? && FindHeader(a, level, seg).value < k
    ensures FindHeader(Inserted(a, k, x), level, seg) == FindHeader(a, level, seg)
  {
    hide IsHeader;
    InsertedTail(a, k, x);
    if !IsHeader(a[0], level, seg) {
      HeaderStaysFirst(a[1..], k - 1, x, level, seg);
    }
  }

  lemma {:induction false} HeaderComesFirst(a: seq<Line>, k: nat, x: Line, level: nat, seg: string)
    requires FindHeader(a, level, seg).Some? && k <= FindHeader(a, level, seg).value && IsHeader(x, level, seg)
    ensures FindHeader(Inserted(a, k, x), level, seg) == Some(k)
  {
    InsertedTail(a, k, x);
    if k > 0 {
      HeaderComesFirst(a[1..], k - 1, x, level, seg);
    }
  }

  /** The first key of a path among lines one of which is new, and not shallower. */
  lemma EntryAfterPut(a: seq<Line>, parentIndent: int, k: nat, x: Line, seg: string)
    requires k <= |a| && IsActive(x) && Entry(a, parentIndent, seg).Some? &&
             x.kind.indent >= Entry(a, parentIndent, seg).value.0
    ensures var (level, i) := Entry(a, parentIndent, seg).value;
            Entry(Inserted(a, k, x), parentIndent, seg) ==
            Some((level, if k <= i then (if IsHeader(x, level, seg) then k else i + 1) else i))
  {
    hide MinActive, FindHeader, IsHeader, Inserted;
    var (level, i) := Entry(a, parentIndent, seg).value;
    MinAfterInsert(a, k, x);
    if k > i {
      HeaderStaysFirst(a, k, x, level, seg);
    } else if IsHeader(x, level, seg) {
      HeaderComesFirst(a, k, x, level, seg);
    } else {
      HeaderAfterInsert(a, k, x, level, seg);
    }
  }

  /** The block of line `i`, once the new line stands somewhere else than in it, in it, or at its end. */
  lemma BlockAfterPut(a: seq<Line>, k: nat, x: Line, i: nat, level: nat)
    requires AllActive(a) && i < |a| && k <= |a| && IsActive(x) && x.kind.indent >= level
    ensures var block, i' := BlockOf(a, i, level), if k <= i then i + 1 else i;
            && i' < |Inserted(a, k, x)| && Inserted(a, k, x)[i'] == a[i]
            && BlockOf(Inserted(a, k, x), i', level) ==
               if k <= i || i + 1 + |block| < k then block
               else if x.kind.indent == level then block[..k - i - 1]
               else Inserted(block, k - i - 1, x)
  {
    hide Inserted, BlockOf, EndsBlock;
    InsertedAt(a, k, x);
    var block := BlockOf(a, i, level);
    BlockLines(a, i, level);
    if k <= i {
      BlockMoved(a, k, x, i, level);
    } else if i + 1 + |block| < k {
      BlockStays(a, k, x, i, level);
    } else if x.kind.indent == level {
      BlockCut(a, k, x, i, level);
    } else {
      BlockExtended(a, k, x, i, level);
    }
  }

  lemma BlockMoved(a: seq<Line>, k: nat, x: Line, i: nat, level: nat)
    requires k <= i < |a|
    ensures BlockOf(Inserted(a, k, x), i + 1, level) == BlockOf(a, i, level)
  {
    assert Inserted(a, k, x)[i + 2..] == a[i + 1..];
  }

  lemma BlockStays(a: seq<Line>, k: nat, x: Line, i: nat, level: nat)
    requires AllActive(a) && k <= |a| && i < |a| && i + 1 + |BlockOf(a, i, level)| < k
    ensures BlockOf(Inserted(a, k, x), i, level) == BlockOf(a, i, level)
  {
    hide Inserted, BlockOf;
    InsertedAt(a, k, x);
    BlockLines(a, i, level);
    BlockIs(Inserted(a, k, x), i, level, BlockOf(a, i, level));
  }

  lemma BlockCut(a: seq<Line>, k: nat, x: Line, i: nat, level: nat)
    requires AllActive(a) && i < k <= |a| && k <= i + 1 + |BlockOf(a, i, level)|
    requires IsActive(x) && x.kind.indent == level
    ensures BlockOf(Inserted(a, k, x), i, level) == BlockOf(a, i, level)[..k - i - 1]
  {
    hide Inserted, BlockOf;
    InsertedAt(a, k, x);
    BlockLines(a, i, level);
    var short := BlockOf(a, i, level)[..k - i - 1];
    forall n | 0 <= n < |short|
      ensures Inserted(a, k, x)[i + 1 + n] == short[n] && !EndsBlock(short[n], level)
    {
      assert short[n] == BlockOf(a, i, level)[n] == a[i + 1 + n];
    }
    BlockIs(Inserted(a, k, x), i, level, short);
  }

  lemma BlockExtended(a: seq<Line>, k: nat, x: Line, i: nat, level: nat)
    requires AllActive(a) && i < k <= |a| && k <= i + 1 + |BlockOf(a, i, level)|
    requires IsActive(x) && x.kind.indent > level
    ensures BlockOf(Inserted(a, k, x), i, level) == Inserted(BlockOf(a, i, level), k - i - 1, x)
  {
    hide Inserted, BlockOf;
    var out, block, r := Inserted(a, k, x), BlockOf(a, i, level), k - i - 1;
    InsertedAt(a, k, x);
    InsertedAt(block, r, x);
    BlockLines(a, i, level);
    var long := Inserted(block, r, x);
    forall n | 0 <= n < |long|
      ensures out[i + 1 + n] == long[n] && !EndsBlock(long[n], level)
    {
      if n < r { assert long[n] == block[n] == a[i + 1 + n]; }
      if n > r { assert long[n] == block[n - 1] == a[i + n]; }
    }
    BlockIs(out, i, level, long);
  }

  lemma SameBelow(i: nat, k: nat, was: Option<nat>, r: Option<nat>)
    requires i < k
    ensures Shift(i + 1, r) == Bump(k, Shift(i + 1, was)) <==> r == Bump(k - i - 1, was)
  {
  }

  // ---- any line, any place ----

  /** A path that was found is found where its line went exactly when the new line disturbs none of its keys. */
  lemma {:induction false} PathAfterPutIff(a: seq<Line>, parentIndent: int, k: nat, x: Line, q: seq<string>)
    requires AllActive(a) && Path(a, parentIndent, q).Some? && k <= |a| && IsActive(x) && x.kind.indent > parentIndent
    ensures Path(Inserted(a, k, x), parentIndent, q) == Bump(k, Path(a, parentIndent, q)) <==>
            Undisturbed(a, parentIndent, k, x, q)
    decreases |q|, 1
  {
    hide BlockOf, Inserted, FindHeader, MinActive, Path;
    var j := Path(a, parentIndent, q).value;
    PathEntry(a, parentIndent, q, j);
    EntryIsChild(a, parentIndent, q[0]);
    var (level, i) := Entry(a, parentIndent, q[0]).value;
    if x.kind.indent < level {
      InsertShallower(a, parentIndent, k, x, q, level);
    } else {
      EntryAfterPut(a, parentIndent, k, x, q[0]);
      NoEntryNoPath(a, parentIndent, q);
      NoEntryNoPath(Inserted(a, k, x), parentIndent, q);
      if |q| > 1 { DeepAfterPutIff(a, parentIndent, k, x, q); }
    }
  }

  lemma {:induction false} DeepAfterPutIff(a: seq<Line>, parentIndent: int, k: nat, x: Line, q: seq<string>)
    requires AllActive(a) && Path(a, parentIndent, q).Some? && k <= |a| && IsActive(x) && |q| > 1
    requires Entry(a, parentIndent, q[0]).Some? && x.kind.indent >= Entry(a, parentIndent, q[0]).value.0
    ensures Path(Inserted(a, k, x), parentIndent, q) == Bump(k, Path(a, parentIndent, q)) <==>
            Undisturbed(a, parentIndent, k, x, q)
    decreases |q|, 0
  {
    hide BlockOf, Inserted, FindHeader, MinActive, Path, Entry, IsHeader;
    var j, out := Path(a, parentIndent, q).value, Inserted(a, k, x);
    PathInBlock(a, parentIndent, q, j);
    EntryIsChild(a, parentIndent, q[0]);
    var (level, i) := Entry(a, parentIndent, q[0]).value;
    EntryAfterPut(a, parentIndent, k, x, q[0]);
    PathUnfold(out, parentIndent, q);
    if IsHeader(x, level, q[0]) && k <= i {
      ShadowedPath(a, k, x, i, level);
    } else {
      BlockAfterPut(a, k, x, i, level);
      BlockLines(a, i, level);
      var block := BlockOf(a, i, level);
      if i < k <= i + 1 + |block| {
        InBlockAfterPutIff(a, parentIndent, k, x, q, level, i);
      } else {
        MovedWhole(i, k, |block|, Path(block, level, q[1..]));
      }
    }
  }

  lemma MovedWhole(i: nat, k: nat, size: nat, r: Option<nat>)
    requires r.Some? ==> r.value < size
    requires k <= i || i + 1 + size < k
    ensures Shift((if k <= i then i + 1 else i) + 1, r) == Bump(k, Shift(i + 1, r))
  {
  }

  lemma {:induction false} InBlockAfterPutIff(a: seq<Line>, parentIndent: int, k: nat, x: Line, q: seq<string>,
      level: nat, i: nat)
    requires AllActive(a) && Path(a, parentIndent, q).Some? && k <= |a| && IsActive(x) && |q| > 1
    requires Entry(a, parentIndent, q[0]) == Some((level, i)) && x.kind.indent >= level
    requires i < k <= i + 1 + |BlockOf(a, i, level)|
    requires Path(Inserted(a, k, x), parentIndent, q) ==
             Shift(i + 1, Path(if x.kind.indent == level then BlockOf(a, i, level)[..k - i - 1]
                               else Inserted(BlockOf(a, i, level), k - i - 1, x), level, q[1..]))
    ensures Path(Inserted(a, k, x), parentIndent, q) == Bump(k, Path(a, parentIndent, q)) <==>
            Undisturbed(a, parentIndent, k, x, q)
    decreases |q|, 0, 0
  {
    hide BlockOf, Inserted, FindHeader, MinActive, Path, Entry;
    var j, block, c := Path(a, parentIndent, q).value, BlockOf(a, i, level), k - i - 1;
    PathInBlock(a, parentIndent, q, j);
    BlockLines(a, i, level);
    if x.kind.indent == level {
      if j < k { PathInPrefix(block, level, q[1..], c); }
    } else {
      SameBelow(i, k, Path(block, level, q[1..]), Path(Inserted(block, c, x), level, q[1..]));
      PathAfterPutIff(block, level, c, x, q[1..]);
    }
  }

  /** The block of a new key in front of a sibling ends at that sibling. */
  lemma ShadowedPath(a: seq<Line>, k: nat, x: Line, i: nat, level: nat)
    requires k <= i < |a| && IsActive(a[i]) && a[i].kind.indent == level
    ensures |BlockOf(Inserted(a, k, x), k, level)| <= i - k
  {
    InsertedAt(a, k, x);
    assert Inserted(a, k, x)[k + 1..][i - k] == a[i];
    BlockStopsAt(Inserted(a, k, x)[k + 1..], i - k, level);
  }
}
