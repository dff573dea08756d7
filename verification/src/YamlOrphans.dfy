/** A deletion that leaves lines of the key's block behind: some text above it makes them take another key's place. */
module YamlOrphans {
  import opened Prelude
  import opened Text
  import opened YamlLines
  import opened YamlEdit
  import opened YamlPaths
  import opened YamlLaws
  import opened YamlRemove
  import opened YamlDelete

  // ---- nested headers, one for each indentation ----

  function HeaderAt(indent: nat, key: string): Line {
    Read(WriteKey(Spaces(indent), key, ""))
  }

  lemma HeaderKind(indent: nat, key: string)
    requires PlainKey(key)
    ensures HeaderAt(indent, key).kind == Active(indent, Some(key), true)
  {
    hide KindOf, WriteKey, PlainKey, AfterKey, LeadLen, ByteLen;
    KeyLineKind(Spaces(indent), key, "");
    SpacesBytes(indent);
  }

  /** The headers from indentation `from` up to `depth`, each the only child of the one before. */
  function Ladder(from: nat, depth: nat): seq<Line>
    requires from <= depth
    decreases depth - from
  {
    if from == depth then [] else [HeaderAt(from, "h")] + Ladder(from + 1, depth)
  }

  function Rungs(n: nat): seq<string> {
    if n == 0 then [] else ["h"] + Rungs(n - 1)
  }

  /** What of `t` is still below the headers from `from` up to `depth`. */
  function CutTo(t: seq<Line>, from: nat, depth: nat): seq<Line>
    requires from <= depth
    decreases depth - from
  {
    if from == depth then t else CutTo(t[..BlockLen(t, from)], from + 1, depth)
  }

  ghost predicate AtLeast(t: seq<Line>, indent: nat) {
    forall i :: 0 <= i < |t| ==> IsActive(t[i]) && t[i].kind.indent >= indent
  }

  lemma {:induction false} LadderAtLeast(from: nat, depth: nat)
    requires from <= depth
    ensures AtLeast(Ladder(from, depth), from) && |Ladder(from, depth)| == depth - from
    decreases depth - from
  {
    hide Read, KindOf, WriteKey;
    if from < depth {
      LadderAtLeast(from + 1, depth);
      HeaderKind(from, "h");
    }
  }

  lemma AtLeastConcat(a: seq<Line>, b: seq<Line>, indent: nat)
    requires AtLeast(a, indent) && AtLeast(b, indent)
    ensures AtLeast(a + b, indent)
  {
  }

  /** The block of the first header is everything below it down to its indentation. */
  lemma RungBlock(first: Line, upper: seq<Line>, t: seq<Line>, from: nat)
    requires first.kind == Active(from, Some("h"), true) && AtLeast(upper, from + 1) && AtLeast(t, from)
    ensures BlockOf([first] + (upper + t), 0, from) == upper + t[..BlockLen(t, from)]
    ensures MinActive([first] + (upper + t)) == Some(from)
    ensures Entry([first] + (upper + t), from - 1, "h") == Some((from, 0))
    ensures AtLeast(t[..BlockLen(t, from)], from + 1)
  {
    hide BlockLen, BlockOf, MinActive;
    var w, b := [first] + (upper + t), BlockLen(t, from);
    InBlock(t, from);
    assert forall i :: 0 <= i < b ==> t[..b][i] == t[i];
    AtLeastConcat(upper, t[..b], from + 1);
    forall k | 0 <= k < |upper| + b
      ensures w[1 + k] == (upper + t[..b])[k] && !EndsBlock((upper + t[..b])[k], from)
    {
    }
    assert b < |t| ==> w[1 + |upper| + b] == t[b];
    BlockIs(w, 0, from, upper + t[..b]);
    assert AtLeast(w, from);
    MinIs(w, from, 0);
    assert w[0] == first && IsHeader(w[0], from, "h");
  }

  lemma {:induction false} CutAtLeast(t: seq<Line>, from: nat, depth: nat)
    requires from <= depth && AtLeast(t, from)
    ensures AtLeast(CutTo(t, from, depth), depth)
    decreases depth - from
  {
    hide BlockLen;
    if from < depth {
      InBlock(t, from);
      assert forall i :: 0 <= i < BlockLen(t, from) ==> t[..BlockLen(t, from)][i] == t[i];
      CutAtLeast(t[..BlockLen(t, from)], from + 1, depth);
    }
  }

  /** Lines deep enough at the start of `t` stay. */
  lemma {:induction false} CutKeeps(t: seq<Line>, from: nat, depth: nat, n: nat)
    requires from <= depth && n <= |t| && AtLeast(t, from)
    requires forall i :: 0 <= i < n ==> t[i].kind.indent >= depth
    ensures n <= |CutTo(t, from, depth)| && CutTo(t, from, depth)[..n] == t[..n]
    decreases depth - from
  {
    hide BlockLen;
    if from < depth {
      var b := BlockLen(t, from);
      BlockEnds(t, from);
      assert n <= b;
      assert forall i :: 0 <= i < b ==> t[..b][i] == t[i];
      CutKeeps(t[..b], from + 1, depth, n);
      assert t[..b][..n] == t[..n];
    }
  }

  lemma BlockEnds(t: seq<Line>, header: nat)
    ensures BlockLen(t, header) < |t| ==> EndsBlock(t[BlockLen(t, header)], header)
    ensures AtLeast(t, 0) ==> AtLeast(t[..BlockLen(t, header)], header + 1)
  {
    InBlock(t, header);
  }

  /** Going down the ladder finds what stands below it. */
  lemma {:induction false} LadderPath(from: nat, depth: nat, core: seq<Line>, t: seq<Line>, s: seq<string>)
    requires from <= depth && s != [] && AtLeast(core, depth) && AtLeast(t, from)
    ensures Path(Ladder(from, depth) + (core + t), from - 1, Rungs(depth - from) + s) ==
            Shift(depth - from, Path(core + CutTo(t, from, depth), depth - 1, s))
    decreases depth - from
  {
    hide BlockLen, BlockOf, MinActive, Entry, HeaderAt, Path;
    var w, q := Ladder(from, depth) + (core + t), Rungs(depth - from) + s;
    if from == depth {
      assert w == core + t && q == s;
    } else {
      var first, upper, b := HeaderAt(from, "h"), Ladder(from + 1, depth), BlockLen(t, from);
      HeaderKind(from, "h");
      LadderAtLeast(from + 1, depth);
      AtLeastConcat(upper, core, from + 1);
      RungBlock(first, upper + core, t, from);
      assert w == [first] + (upper + core + t);
      assert upper + core + t[..b] == upper + (core + t[..b]);
      assert q[0] == "h" && q[1..] == Rungs(depth - (from + 1)) + s && |q| > 1;
      PathUnfold(w, from - 1, q);
      LadderPath(from + 1, depth, core, t[..b], s);
    }
  }

  // ---- a text above the key ----

  /** A header beside the key with a deep line below it. */
  function Beneath(indent: nat, name: string, deep: nat): seq<Line> {
    [HeaderAt(indent, name), HeaderAt(deep, "w")]
  }

  /** With the key below it, the deep line is the header's only child, and the key is found. */
  lemma CoreBefore(indent: nat, name: string, deep: nat, x: Line, t: seq<Line>, key: string)
    requires PlainKey(name) && name != key && deep > indent && AtLeast(t, indent)
    requires IsHeader(x, indent, key)
    ensures var a := Beneath(indent, name, deep) + [x] + t;
            Path(a, indent - 1, [name, "w"]) == Some(1) && Path(a, indent - 1, [key]) == Some(2)
  {
    hide HeaderAt, BlockOf, MinActive, BlockLen;
    var a := Beneath(indent, name, deep) + [x] + t;
    HeaderKind(indent, name);
    HeaderKind(deep, "w");
    assert a[0] == HeaderAt(indent, name) && a[1] == HeaderAt(deep, "w") && a[2] == x;
    assert forall k :: 3 <= k < |a| ==> a[k] == t[k - 3];
    MinIs(a, indent, 0);
    BlockIs(a, 0, indent, [a[1]]);
    MinIs([a[1]], deep, 0);
    PathUnfold(a, indent - 1, [name, "w"]);
    assert [name, "w"][1..] == ["w"];
    HeaderStep(a, indent, key);
    HeaderStep(a[1..], indent, key);
    HeaderStep(a[2..], indent, key);
    assert a[1..][0] == a[1] && a[1..][1..] == a[2..] && a[2..][0] == a[2];
  }

  /** With a shallower line behind it, the deep line is no child of the header any more. */
  lemma CoreAfter(indent: nat, name: string, deep: nat, t: seq<Line>)
    requires PlainKey(name) && AtLeast(t, indent) && t != [] && indent < t[0].kind.indent < deep
    ensures Path(Beneath(indent, name, deep) + t, indent - 1, [name, "w"]) != Some(1)
  {
    hide HeaderAt, MinActive, BlockLen;
    var a := Beneath(indent, name, deep) + t;
    HeaderKind(indent, name);
    HeaderKind(deep, "w");
    assert a[0] == HeaderAt(indent, name) && a[1] == HeaderAt(deep, "w") && a[2] == t[0];
    assert forall k :: 2 <= k < |a| ==> a[k] == t[k - 2];
    MinIs(a, indent, 0);
    var block := BlockOf(a, 0, indent);
    if Entry(a, indent - 1, name) == Some((indent, 0)) {
      BlockReaches(a, indent);
      MinAtMost(block, 1);
      PathUnfold(a, indent - 1, [name, "w"]);
      assert [name, "w"][1..] == ["w"];
    }
  }

  lemma BlockReaches(a: seq<Line>, indent: nat)
    requires |a| > 2 && IsActive(a[1]) && IsActive(a[2]) && a[1].kind.indent > indent && a[2].kind.indent > indent
    ensures |BlockOf(a, 0, indent)| > 1 && BlockOf(a, 0, indent)[0] == a[1] && BlockOf(a, 0, indent)[1] == a[2]
  {
    BlockEnds(a[1..], indent);
    assert a[1..][0] == a[1] && a[1..][1] == a[2];
  }

  /** The text above the key: headers down to its level, and a header beside it with one deep line. */
  function Above(indent: nat, name: string, deep: nat): seq<Line> {
    Ladder(0, indent) + Beneath(indent, name, deep)
  }

  lemma AboveFacts(indent: nat, name: string, deep: nat)
    requires PlainKey(name)
    ensures AllActive(Above(indent, name, deep)) && Faithful(Above(indent, name, deep))
    ensures |Above(indent, name, deep)| == indent + 2
  {
    hide HeaderAt, Faithful, Beneath;
    LadderAtLeast(0, indent);
    BeneathIs(indent, name, deep, 0);
    LadderFaithful(0, indent);
    BeneathFaithful(indent, name, deep);
    FaithfulConcat(Ladder(0, indent), Beneath(indent, name, deep));
  }

  lemma BeneathFaithful(indent: nat, name: string, deep: nat)
    ensures Faithful(Beneath(indent, name, deep)) && |Beneath(indent, name, deep)| == 2
  {
    hide HeaderAt, Read;
    HeaderFaithful(indent, name);
    HeaderFaithful(deep, "w");
  }

  lemma FaithfulConcat(a: seq<Line>, b: seq<Line>)
    requires Faithful(a) && Faithful(b)
    ensures Faithful(a + b)
  {
    hide Read;
  }

  lemma HeaderFaithful(indent: nat, name: string)
    ensures HeaderAt(indent, name) == Read(HeaderAt(indent, name).text)
  {
  }

  lemma {:induction false} LadderFaithful(from: nat, depth: nat)
    requires from <= depth
    ensures Faithful(Ladder(from, depth))
    decreases depth - from
  {
    hide HeaderAt;
    if from < depth {
      LadderFaithful(from + 1, depth);
      HeaderFaithful(from, "h");
    }
  }

  lemma PathsAbove(indent: nat, name: string, deep: nat, x: Line, t: seq<Line>, key: string)
    requires PlainKey(name) && name != key && deep > indent && AllActive(t) && IsHeader(x, indent, key)
    ensures var a := Above(indent, name, deep) + [x] + t;
            && Path(a, -1, Rungs(indent) + [name, "w"]) == Some(indent + 1)
            && Path(a, -1, Rungs(indent) + [key]) == Some(indent + 2)
  {
    hide Path, HeaderAt, Beneath;
    var core := Beneath(indent, name, deep) + [x];
    BeneathIs(indent, name, deep, indent);
    AtLeastConcat(Beneath(indent, name, deep), [x], indent);
    CutAtLeast(t, 0, indent);
    CoreBefore(indent, name, deep, x, CutTo(t, 0, indent), key);
    LadderPath(0, indent, core, t, [name, "w"]);
    LadderPath(0, indent, core, t, [key]);
    assert Above(indent, name, deep) + [x] + t == Ladder(0, indent) + (core + t);
  }

  lemma BeneathIs(indent: nat, name: string, deep: nat, least: nat)
    requires PlainKey(name) && least <= indent && least <= deep
    ensures AtLeast(Beneath(indent, name, deep), least)
  {
    hide HeaderAt;
    HeaderKind(indent, name);
    HeaderKind(deep, "w");
  }

  lemma PathLostAbove(indent: nat, name: string, deep: nat, t: seq<Line>)
    requires PlainKey(name) && AllActive(t) && t != [] && indent < t[0].kind.indent < deep
    ensures Path(Above(indent, name, deep) + t, -1, Rungs(indent) + [name, "w"]) != Some(indent + 1)
  {
    hide Path, HeaderAt, Beneath;
    var core := Beneath(indent, name, deep);
    BeneathIs(indent, name, deep, indent);
    CutAtLeast(t, 0, indent);
    CutKeeps(t, 0, indent, 1);
    assert CutTo(t, 0, indent)[0] == CutTo(t, 0, indent)[..1][0] == t[..1][0];
    CoreAfter(indent, name, deep, CutTo(t, 0, indent));
    LadderPath(0, indent, core, t, [name, "w"]);
    assert Above(indent, name, deep) + t == Ladder(0, indent) + (core + t);
  }

  // ---- what is left of the block ----

  /** Unless the continuation takes the block, an active line of it, deeper than the key, comes next. */
  lemma OrphanFirst(v: seq<Line>, indent: nat)
    requires !TakesBlock(v, indent)
    ensures var rest := Act(v[ContinuationLen(v, indent)..]);
            AllActive(rest) && rest != [] && rest[0].kind.indent > indent
  {
    hide Filter, ContinuationLen, BlockLen;
    var c, b := ContinuationLen(v, indent), BlockLen(v, indent);
    ContinuationInBlock(v, indent);
    assert v[..b] == v[..c] + v[c..b] && v[c..] == v[c..b] + v[b..];
    FilterAppend(IsActive, v[..c], v[c..b]);
    FilterAppend(IsActive, v[c..b], v[b..]);
    ActsAreActive(v[c..]);
    assert Act(v[c..b]) != [];
    var l := Act(v[c..b])[0];
    assert l in Act(v[c..b]) && l in v[c..b];
    var k: nat :| k < b - c && v[c..b][k] == l;
    InBlock(v, indent);
    assert v[c + k] == l;
  }

  /** Every other key of the text is where it was. */
  ghost predicate KeepsOthers(lines: seq<Line>, i: nat, p: seq<string>)
    requires i < |lines|
  {
    forall q :: !(p <= q) && LocateTop(lines, q).Some? ==>
                LocateTop(DeleteAt(lines, i), q) == Moved(lines, i, LocateTop(lines, q))
  }

  function Under(upper: seq<Line>, x: Line, v: seq<Line>): (lines: seq<Line>)
    ensures |upper| < |lines| && lines[|upper|] == x && lines[|upper| + 1..] == v && lines[..|upper|] == upper
  {
    upper + [x] + v
  }

  lemma UnderActive(upper: seq<Line>, x: Line, v: seq<Line>)
    requires AllActive(upper) && upper != [] && IsActive(x)
    ensures var lines := Under(upper, x, v);
            && Act(lines) == upper + [x] + Act(v) && Rank(lines, |upper|) == |upper| &&
               Rank(lines, |upper| - 1) == |upper| - 1
            && DeleteAt(lines, |upper|) == upper + v[ContinuationLen(v, x.kind.indent)..]
  {
    hide Filter, ContinuationLen;
    var lines := Under(upper, x, v);
    FilterAppend(IsActive, upper + [x], v);
    FilterAll(IsActive, upper + [x]);
    FilterAll(IsActive, upper);
    FilterAll(IsActive, upper[..|upper| - 1]);
    assert lines[..|upper| - 1] == upper[..|upper| - 1];
    assert lines[|upper| - 1] == upper[|upper| - 1];
  }

  lemma NotFoundThere(upper: seq<Line>, rest: seq<Line>, q: seq<string>)
    requires AllActive(upper) && upper != [] && Path(upper + Act(rest), -1, q) != Some(|upper| - 1)
    ensures LocateTop(upper + rest, q) != Some(|upper| - 1)
  {
    hide Path, Locate, Filter;
    FilterAppend(IsActive, upper, rest);
    FilterAll(IsActive, upper);
    FilterAll(IsActive, upper[..|upper| - 1]);
    assert (upper + rest)[..|upper| - 1] == upper[..|upper| - 1];
    LocateByActive(upper + rest, -1, q);
  }

  function OtherName(key: string): (name: string)
    ensures name != key && PlainKey(name)
  {
    if key == "z" then "y" else "z"
  }

  lemma NotBelowKey(n: nat, key: string, name: string)
    requires name != key
    ensures !(Rungs(n) + [key] <= Rungs(n) + [name, "w"])
  {
    assert (Rungs(n) + [name, "w"])[|Rungs(n)|] == name && (Rungs(n) + [key])[|Rungs(n)|] == key;
  }

  /** Unless the continuation takes the block, deleting the key below this text loses another key of it. */
  lemma OrphanHarms(x: Line, v: seq<Line>, key: string) returns (upper: seq<Line>, p: seq<string>)
    requires IsActive(x) && x.kind.token == Some(key) && !TakesBlock(v, x.kind.indent)
    ensures Faithful(upper) && LocateTop(Under(upper, x, v), p) == Some(|upper|)
    ensures !KeepsOthers(Under(upper, x, v), |upper|, p)
  {
    hide TakesBlock, Path, Locate, Filter, HeaderAt, DeleteAt, ContinuationLen, Above, Rungs, KeepsOthers, OtherName,
         Moved, Faithful;
    var indent, name := x.kind.indent, OtherName(key);
    var rest := v[ContinuationLen(v, indent)..];
    OrphanFirst(v, indent);
    ActsAreActive(v);
    var deep := Act(rest)[0].kind.indent + 1;
    upper, p := Above(indent, name, deep), Rungs(indent) + [key];
    var lines, q := Under(upper, x, v), Rungs(indent) + [name, "w"];
    AboveFacts(indent, name, deep);
    UnderActive(upper, x, v);
    PathsAbove(indent, name, deep, x, Act(v), key);
    LocateIs(lines, p, |upper|);
    assert lines[|upper| - 1] == upper[|upper| - 1];
    LocateIs(lines, q, |upper| - 1);
    PathLostAbove(indent, name, deep, Act(rest));
    NotFoundThere(upper, rest, q);
    NotBelowKey(indent, key, name);
    OneIsLost(lines, |upper|, p, q, |upper| - 1);
  }

  lemma OneIsLost(lines: seq<Line>, i: nat, p: seq<string>, q: seq<string>, k: nat)
    requires k < i < |lines| && !(p <= q) && LocateTop(lines, q) == Some(k)
    requires LocateTop(DeleteAt(lines, i), q) != Some(k)
    ensures !KeepsOthers(lines, i, p)
  {
    hide Locate, DeleteAt;
  }

  /** Deleting the key `x` leaves every other key of every text it can stand in exactly when the continuation
      takes its block. */
  lemma DeleteIsSafeIff(x: Line, v: seq<Line>, key: string)
    requires IsActive(x) && x.kind.token == Some(key)
    ensures (forall upper, p :: Faithful(upper) && LocateTop(Under(upper, x, v), p) == Some(|upper|) ==>
                                KeepsOthers(Under(upper, x, v), |upper|, p)) <==>
            !CommentCuts(v, x.kind.indent)
  {
    hide TakesBlock, CommentCuts, KeepsOthers, Locate, DeleteAt, Faithful;
    TakesBlockIff(v, x.kind.indent);
    if TakesBlock(v, x.kind.indent) {
      forall upper, p | Faithful(upper) && LocateTop(Under(upper, x, v), p) == Some(|upper|)
        ensures KeepsOthers(Under(upper, x, v), |upper|, p)
      {
        SafeBelow(Under(upper, x, v), |upper|, p);
      }
    } else {
      var upper, p := OrphanHarms(x, v, key);
    }
  }

  lemma SafeBelow(lines: seq<Line>, i: nat, p: seq<string>)
    requires LocateTop(lines, p) == Some(i) && i < |lines| && TakesAll(lines, i)
    ensures KeepsOthers(lines, i, p)
  {
    hide TakesAll, Locate, DeleteAt, Moved;
    forall q | !(p <= q) && LocateTop(lines, q).Some?
      ensures LocateTop(DeleteAt(lines, i), q) == Moved(lines, i, LocateTop(lines, q))
    {
      DeleteKeepsOthers(lines, p, i, q);
    }
  }
}
