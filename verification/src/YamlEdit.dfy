/**
 The comment-preserving editor: find a key by walking block headers, and replace, delete or add
 single lines around it. `Locate` works on a window of lines, as the source's moving `start` and
 `end` do.
 */
module YamlEdit {
  import opened Prelude
  import opened Text
  import opened YamlLines

  // ---- locating ----

  function Shift(offset: nat, r: Option<nat>): Option<nat> {
    match r
    case None => None
    case Some(i) => Some(offset + i)
  }

  predicate IsActive(l: Line) {
    l.kind.Active?
  }

  function Token(l: Line, allowCommented: bool): Option<string> {
    match l.kind
    case Blank => None
    case Comment(_, token) => if allowCommented then token else None
    case Active(_, token, _) => token
  }

  function Least(a: nat, b: Option<nat>): Option<nat> {
    if b.Some? && b.value < a then b else Some(a)
  }

  /** The shallowest active line. */
  function MinActive(w: seq<Line>): Option<nat> {
    if w == [] then None
    else if w[0].kind.Active? then Least(w[0].kind.indent, MinActive(w[1..]))
    else MinActive(w[1..])
  }

  /** The shallowest comment deeper than the parent. */
  function MinComment(w: seq<Line>, parentIndent: int): Option<nat> {
    if w == [] then None
    else if w[0].kind.Comment? && w[0].kind.indent > parentIndent then
      Least(w[0].kind.indent, MinComment(w[1..], parentIndent))
    else MinComment(w[1..], parentIndent)
  }

  function ChildIndent(w: seq<Line>, parentIndent: int): Option<nat> {
    if MinActive(w).Some? then MinActive(w) else MinComment(w, parentIndent)
  }

  ghost predicate IsLeastActive(w: seq<Line>, n: nat) {
    && (exists l :: l in w && l.kind.Active? && l.kind.indent == n)
    && forall l :: l in w && l.kind.Active? ==> n <= l.kind.indent
  }

  ghost predicate IsLeastComment(w: seq<Line>, parentIndent: int, n: nat) {
    && (exists l :: l in w && l.kind.Comment? && l.kind.indent == n > parentIndent)
    && forall l :: l in w && l.kind.Comment? && l.kind.indent > parentIndent ==> n <= l.kind.indent
  }

  lemma {:induction false} MinActiveIff(w: seq<Line>, n: nat)
    ensures MinActive(w) == Some(n) <==> IsLeastActive(w, n)
    ensures MinActive(w).None? <==> forall l :: l in w ==> !l.kind.Active?
  {
    if w != [] {
      assert w == [w[0]] + w[1..];
      MinActiveIff(w[1..], n);
      match MinActive(w[1..])
      case None =>
      case Some(m) => MinActiveIff(w[1..], m);
    }
  }

  lemma {:induction false} MinCommentIff(w: seq<Line>, parentIndent: int, n: nat)
    ensures MinComment(w, parentIndent) == Some(n) <==> IsLeastComment(w, parentIndent, n)
    ensures MinComment(w, parentIndent).None? <==>
            forall l :: l in w ==> !(l.kind.Comment? && l.kind.indent > parentIndent)
  {
    if w != [] {
      assert w == [w[0]] + w[1..];
      MinCommentIff(w[1..], parentIndent, n);
      match MinComment(w[1..], parentIndent)
      case None =>
      case Some(m) => MinCommentIff(w[1..], parentIndent, m);
    }
  }

  /** The children's level is that of the shallowest active line; only without active lines that of the shallowest
      comment deeper than the parent. */
  lemma ChildIndentIff(w: seq<Line>, parentIndent: int, n: nat)
    ensures ChildIndent(w, parentIndent) == Some(n) <==>
            IsLeastActive(w, n) || ((forall l :: l in w ==> !l.kind.Active?) && IsLeastComment(w, parentIndent, n))
  {
    hide MinActive, MinComment, IsLeastComment;
    MinActiveIff(w, n);
    MinCommentIff(w, parentIndent, n);
  }

  predicate IsHeader(l: Line, level: nat, seg: string) {
    l.kind.Active? && l.kind.indent == level && l.kind.token == Some(seg)
  }

  predicate IsKey(l: Line, level: nat, seg: string, allowCommented: bool) {
    !l.kind.Blank? && l.kind.indent == level && Token(l, allowCommented) == Some(seg)
  }

  function FindKey(w: seq<Line>, level: nat, seg: string, allowCommented: bool): (i: Option<nat>)
    ensures i.Some? ==> i.value < |w| && IsKey(w[i.value], level, seg, allowCommented)
  {
    if w == [] then None
    else if IsKey(w[0], level, seg, allowCommented) then Some(0)
    else Shift(1, FindKey(w[1..], level, seg, allowCommented))
  }

  function FindHeader(w: seq<Line>, level: nat, seg: string): (i: Option<nat>)
    ensures i.Some? ==> i.value < |w| && IsHeader(w[i.value], level, seg)
  {
    if w == [] then None
    else if IsHeader(w[0], level, seg) then Some(0)
    else Shift(1, FindHeader(w[1..], level, seg))
  }

  predicate EndsBlock(l: Line, header: nat) {
    l.kind.Active? && l.kind.indent <= header
  }

  /** How many lines below a header belong to its block. */
  function BlockLen(v: seq<Line>, header: nat): (n: nat)
    ensures n <= |v|
    ensures n < |v| ==> EndsBlock(v[n], header)
  {
    if v == [] || EndsBlock(v[0], header) then 0 else 1 + BlockLen(v[1..], header)
  }

  function BlockOf(w: seq<Line>, i: nat, header: nat): seq<Line>
    requires i < |w|
  {
    w[i + 1..][..BlockLen(w[i + 1..], header)]
  }

  function Locate(w: seq<Line>, parentIndent: int, segments: seq<string>, allowCommented: bool): (r: Option<nat>)
    ensures r.Some? ==> r.value < |w|
    decreases |segments|
  {
    if segments == [] then None
    else
      match ChildIndent(w, parentIndent)
      case None => None
      case Some(level) =>
        if level <= parentIndent then None
        else if |segments| == 1 then FindKey(w, level, segments[0], allowCommented)
        else
          match FindHeader(w, level, segments[0])
          case None => None
          case Some(i) =>
            if !w[i].kind.opens then None
            else Shift(i + 1, Locate(BlockOf(w, i, level), level, segments[1..], allowCommented))
  }

  function LocateTop(lines: seq<Line>, segments: seq<string>): (r: Option<nat>)
    ensures r.Some? ==> r.value < |lines|
  {
    Locate(lines, -1, segments, false)
  }

  // ---- editing ----

  function SetValue(lines: seq<Line>, segments: seq<string>, value: string): Option<seq<Line>>
  {
    match LocateTop(lines, segments)
    case None => None
    case Some(i) => Some(lines[i := Read(SetLine(lines[i].text, Last(segments), value))])
  }

  function Last(segments: seq<string>): string {
    if segments == [] then "" else segments[|segments| - 1]
  }

  /** The top of the comment lines directly above `k`. */
  function CommentsAbove(lines: seq<Line>, k: nat): (s: nat)
    requires k <= |lines|
    ensures s <= k
  {
    if k > 0 && lines[k - 1].kind.Comment? then CommentsAbove(lines, k - 1) else k
  }

  predicate Deeper(l: Line, indent: nat) {
    !l.kind.Blank? && l.kind.indent > indent
  }

  /** The first line that is not blank is deeper. */
  predicate NextIsDeeper(v: seq<Line>, indent: nat) {
    v != [] && if v[0].kind.Blank? then NextIsDeeper(v[1..], indent) else Deeper(v[0], indent)
  }

  /** How many lines below a key go with it: deeper ones, and blanks with a deeper one to follow. */
  function ContinuationLen(v: seq<Line>, indent: nat): (n: nat)
    ensures n <= |v|
  {
    if v != [] && (Deeper(v[0], indent) || (v[0].kind.Blank? && NextIsDeeper(v[1..], indent)))
    then 1 + ContinuationLen(v[1..], indent)
    else 0
  }

  /** `Locate` without placeholders only ever finds active lines. */
  function IndentAt(lines: seq<Line>, i: nat): nat
    requires i < |lines|
  {
    if lines[i].kind.Active? then lines[i].kind.indent else 0
  }

  function DeleteAt(lines: seq<Line>, i: nat): seq<Line>
    requires i < |lines|
  {
    lines[..CommentsAbove(lines, i)] + lines[i + 1..][ContinuationLen(lines[i + 1..], IndentAt(lines, i))..]
  }

  function DeleteKey(lines: seq<Line>, segments: seq<string>): Option<seq<Line>> {
    match LocateTop(lines, segments)
    case None => None
    case Some(i) => Some(DeleteAt(lines, i))
  }

  function Commenter(prefix: string): string -> Line {
    (comment: string) => Read(prefix + comment)
  }

  function CommentLines(prefix: string, comments: seq<string>): seq<Line> {
    Map(Commenter(prefix), comments)
  }

  predicate LacksComment(lines: seq<Line>, i: nat)
    requires i < |lines|
  {
    i == 0 || !lines[i - 1].kind.Comment?
  }

  predicate KeyLacksComment(lines: seq<Line>, segments: seq<string>) {
    match LocateTop(lines, segments)
    case None => false
    case Some(i) => LacksComment(lines, i)
  }

  function InsertCommentAbove(lines: seq<Line>, segments: seq<string>, comments: seq<string>): Option<seq<Line>> {
    match LocateTop(lines, segments)
    case None => None
    case Some(i) =>
      if !LacksComment(lines, i) then None
      else
        var text := lines[i].text;
        Some(lines[..i] + CommentLines(text[..LeadLen(text)], comments) + lines[i..])
  }

  // ---- adding a child ----

  predicate EndsScan(l: Line) {
    !l.kind.Blank? && l.kind.indent == 0
  }

  /** The lines below the parent up to the next unindented line or comment. */
  function ScanLen(v: seq<Line>): (n: nat)
    ensures n <= |v|
    ensures n < |v| ==> EndsScan(v[n])
  {
    if v == [] || EndsScan(v[0]) then 0 else 1 + ScanLen(v[1..])
  }

  /** The scanned lines without their trailing blanks. */
  function UsedLen(v: seq<Line>, n: nat): (m: nat)
    requires n <= |v|
    ensures m <= n
    ensures m > 0 ==> !v[m - 1].kind.Blank?
  {
    if n > 0 && v[n - 1].kind.Blank? then UsedLen(v, n - 1) else n
  }

  function FirstActiveIndent(v: seq<Line>): Option<nat> {
    if v == [] then None
    else if v[0].kind.Active? then Some(v[0].kind.indent)
    else FirstActiveIndent(v[1..])
  }

  /** Where the new child line goes, counted from the line below the parent, and its indent. */
  function ChildPlace(v: seq<Line>): (r: (nat, nat))
    ensures r.0 <= |v|
  {
    var scanned := v[..ScanLen(v)];
    (UsedLen(v, ScanLen(v)), match FirstActiveIndent(scanned) case None => 2 case Some(i) => i)
  }

  /** Where the child of `parent` goes once the parent has its header, and its indentation. */
  function ChildSlot(lines: seq<Line>, parent: string): (r: (nat, nat))
    ensures r.0 <= |lines| || (FindHeader(lines, 0, parent) == None && r.0 == |lines| + 1)
  {
    match FindHeader(lines, 0, parent)
    case None => (|lines| + 1, 2)
    case Some(p) =>
      if lines[p].kind.opens then (p + 1 + ChildPlace(lines[p + 1..]).0, ChildPlace(lines[p + 1..]).1) else (p + 1, 2)
  }

  /** A fresh block at the end, an inline parent replaced by one, or a child at the end of the block. */
  function PutChild(lines: seq<Line>, parent: string, header: Line, child: Line): seq<Line> {
    match FindHeader(lines, 0, parent)
    case None => lines + [header, child]
    case Some(p) =>
      if lines[p].kind.opens then
        var m := p + 1 + ChildPlace(lines[p + 1..]).0;
        lines[..m] + [child] + lines[m..]
      else lines[..p] + [header, child] + lines[p + 1..]
  }

  /** Adding `parent.key` where `SetValue` finds no such key. */
  function InsertChild(lines: seq<Line>, parent: string, key: string, value: string): seq<Line> {
    PutChild(lines, parent, Read(parent + ":"), Read(KeyLine(ChildSlot(lines, parent).1, key, value)))
  }

  function UpsertChild(lines: seq<Line>, parent: string, key: string, value: string): seq<Line> {
    match SetValue(lines, [parent, key], value)
    case Some(out) => out
    case None => InsertChild(lines, parent, key, value)
  }

  /** The block's lines run down to `e`; the new child goes to `m`, above the blanks at their end, as deep as the
      first active line among them, or two spaces deep. */
  ghost predicate GoesTo(lines: seq<Line>, p: nat, m: nat, e: nat, indent: nat) {
    && p < m <= e <= |lines|
    && (forall i :: p < i < e ==> lines[i].kind.Blank? || lines[i].kind.indent > 0)
    && (e < |lines| ==> !lines[e].kind.Blank? && lines[e].kind.indent == 0)
    && (forall i :: m <= i < e ==> lines[i].kind.Blank?) && (m > p + 1 ==> !lines[m - 1].kind.Blank?)
    && ((exists i :: FirstActive(lines, p, e, i, indent)) ||
        (indent == 2 && forall i :: p < i < e ==> !lines[i].kind.Active?))
  }

  ghost predicate FirstActive(lines: seq<Line>, p: nat, e: nat, i: nat, indent: nat) {
    && p < i < e <= |lines| && lines[i].kind.Active? && lines[i].kind.indent == indent
    && forall k :: p < k < i ==> !lines[k].kind.Active?
  }

  lemma {:induction false} ScanFacts(v: seq<Line>)
    ensures forall i :: 0 <= i < ScanLen(v) ==> v[i].kind.Blank? || v[i].kind.indent > 0
  {
    if v != [] && !EndsScan(v[0]) {
      ScanFacts(v[1..]);
      assert forall i :: 0 < i < |v| ==> v[i] == v[1..][i - 1];
    }
  }

  lemma {:induction false} UsedFacts(v: seq<Line>, n: nat)
    requires n <= |v|
    ensures forall i :: UsedLen(v, n) <= i < n ==> v[i].kind.Blank?
  {
    if n > 0 && v[n - 1].kind.Blank? {
      UsedFacts(v, n - 1);
    }
  }

  lemma {:induction false} FirstActiveFacts(v: seq<Line>) returns (i: nat)
    ensures i <= |v| && forall k :: 0 <= k < i ==> !v[k].kind.Active?
    ensures if i < |v| then v[i].kind.Active? && FirstActiveIndent(v) == Some(v[i].kind.indent)
            else FirstActiveIndent(v) == None
  {
    if v == [] || v[0].kind.Active? {
      i := 0;
    } else {
      i := FirstActiveFacts(v[1..]);
      assert forall k :: 0 < k < |v| ==> v[k] == v[1..][k - 1];
      i := i + 1;
    }
  }

  lemma PlaceGoes(lines: seq<Line>, p: nat) returns (e: nat)
    requires p < |lines|
    ensures var place := ChildPlace(lines[p + 1..]); GoesTo(lines, p, p + 1 + place.0, e, place.1)
  {
    hide ScanLen, UsedLen, FirstActiveIndent;
    var v := lines[p + 1..];
    ScanFacts(v);
    UsedFacts(v, ScanLen(v));
    var scanned := v[..ScanLen(v)];
    var i := FirstActiveFacts(scanned);
    e := p + 1 + ScanLen(v);
    assert forall k :: 0 <= k < |v| ==> v[k] == lines[p + 1 + k];
    assert forall k :: 0 <= k < |scanned| ==> scanned[k] == lines[p + 1 + k];
    if i < |scanned| {
      assert FirstActive(lines, p, e, p + 1 + i, ChildPlace(v).1);
    }
  }

  /** What adding a key that is not there gives, in full. */
  lemma ChildIsAdded(lines: seq<Line>, parent: string, key: string, value: string) returns (m: nat, e: nat, indent: nat)
    ensures var out, two := InsertChild(lines, parent, key, value), "  " + (key + ":" + (" " + value));
            match FindHeader(lines, 0, parent)
            case None => out == lines + [Read(parent + ":"), Read(two)]
            case Some(p) =>
              if !lines[p].kind.opens then out == lines[..p] + [Read(parent + ":"), Read(two)] + lines[p + 1..]
              else GoesTo(lines, p, m, e, indent) &&
                   out == lines[..m] + [Read(Spaces(indent) + (key + ":" + (" " + value)))] + lines[m..]
  {
    hide KindOf, ChildPlace, GoesTo;
    m, e, indent := 0, 0, 2;
    assert Spaces(2) == "  ";
    match FindHeader(lines, 0, parent)
    case None =>
    case Some(p) =>
      if lines[p].kind.opens {
        e := PlaceGoes(lines, p);
        m, indent := p + 1 + ChildPlace(lines[p + 1..]).0, ChildPlace(lines[p + 1..]).1;
      }
  }

  /** A comment is inserted for exactly the located keys without a comment right above. */
  lemma CommentIff(lines: seq<Line>, segments: seq<string>, comments: seq<string>)
    ensures InsertCommentAbove(lines, segments, comments).Some? <==> KeyLacksComment(lines, segments)
    ensures KeyLacksComment(lines, segments) <==>
            match LocateTop(lines, segments)
            case None => false
            case Some(i) => i > 0 ==> !lines[i - 1].kind.Comment?
  {
  }

  // ---- the loops ----

  method FindHeaderLine(w: seq<Line>, level: nat, seg: string) returns (r: Option<nat>)
    ensures r == FindHeader(w, level, seg)
  {
    hide IsHeader;
    var i := 0;
    while i < |w|
      invariant 0 <= i <= |w|
      invariant Shift(i, FindHeader(w[i..], level, seg)) == FindHeader(w, level, seg)
    {
      assert w[i..][1..] == w[i + 1..];
      if IsHeader(w[i], level, seg) { return Some(i); }
      i := i + 1;
    }
    r := None;
  }

  method FindKeyLine(w: seq<Line>, level: nat, seg: string, allowCommented: bool) returns (r: Option<nat>)
    ensures r == FindKey(w, level, seg, allowCommented)
  {
    hide IsKey;
    var i := 0;
    while i < |w|
      invariant 0 <= i <= |w|
      invariant Shift(i, FindKey(w[i..], level, seg, allowCommented)) == FindKey(w, level, seg, allowCommented)
    {
      assert w[i..][1..] == w[i + 1..];
      if IsKey(w[i], level, seg, allowCommented) { return Some(i); }
      i := i + 1;
    }
    r := None;
  }

  lemma BlockLenStep(lines: seq<Line>, k: nat, end: nat, level: nat)
    requires k <= end <= |lines|
    ensures BlockLen(lines[k..end], level) ==
            if k < end && !EndsBlock(lines[k], level) then 1 + BlockLen(lines[k + 1..end], level) else 0
  {
    if k < end { assert lines[k..end][1..] == lines[k + 1..end]; }
  }

  /** The end of the block below the header line `i` of the window that ends at `end`. */
  method FindBlockEnd(lines: seq<Line>, start: nat, i: nat, end: nat, level: nat) returns (blockEnd: nat)
    requires start <= i < end <= |lines|
    ensures i < blockEnd <= end && lines[i + 1..blockEnd] == BlockOf(lines[start..end], i - start, level)
  {
    hide BlockLen, EndsBlock;
    blockEnd := i + 1;
    while blockEnd < end && !EndsBlock(lines[blockEnd], level)
      invariant i + 1 <= blockEnd <= end
      invariant blockEnd - (i + 1) + BlockLen(lines[blockEnd..end], level) == BlockLen(lines[i + 1..end], level)
    {
      BlockLenStep(lines, blockEnd, end, level);
      blockEnd := blockEnd + 1;
    }
    BlockLenStep(lines, blockEnd, end, level);
    assert lines[start..end][i - start + 1..] == lines[i + 1..end];
    assert lines[i + 1..end][..blockEnd - (i + 1)] == lines[i + 1..blockEnd];
  }

  /** A stretch of lines, and the indentation of the header above it. */
  datatype Window = Window(start: nat, end: nat, parentIndent: int)

  ghost function LocateIn(lines: seq<Line>, w: Window, segments: seq<string>, allowCommented: bool): Option<nat>
    requires w.start <= w.end <= |lines|
  {
    Shift(w.start, Locate(lines[w.start..w.end], w.parentIndent, segments, allowCommented))
  }

  /** The header `Locate` would pass through for `seg`, if there is one it can pass. */
  function Gate(w: seq<Line>, parentIndent: int, seg: string): (r: Option<(nat, nat)>)
    ensures r.Some? ==> r.value.1 < |w| && IsHeader(w[r.value.1], r.value.0, seg)
  {
    match ChildIndent(w, parentIndent)
    case None => None
    case Some(level) =>
      var i := FindHeader(w, level, seg);
      if level <= parentIndent || i.None? || !w[i.value].kind.opens then None else Some((level, i.value))
  }

  lemma LocateThrough(w: seq<Line>, parentIndent: int, seg: string, rest: seq<string>, allowCommented: bool)
    requires rest != []
    ensures Locate(w, parentIndent, [seg] + rest, allowCommented) ==
            match Gate(w, parentIndent, seg)
            case None => None
            case Some((level, i)) => Shift(i + 1, Locate(BlockOf(w, i, level), level, rest, allowCommented))
  {
    assert ([seg] + rest)[1..] == rest;
  }

  method FindGate(w: seq<Line>, parentIndent: int, seg: string) returns (r: Option<(nat, nat)>)
    ensures r == Gate(w, parentIndent, seg)
  {
    var level := ChildIndent(w, parentIndent);
    if level.None? || level.value <= parentIndent { return None; }
    var index := FindHeaderLine(w, level.value, seg);
    if index.None? || !w[index.value].kind.opens { return None; }
    r := Some((level.value, index.value));
  }

  ghost predicate InnerWindow(lines: seq<Line>, w: Window, gate: (nat, nat), inner: Window)
    requires w.start <= w.end <= |lines| && gate.1 < w.end - w.start
  {
    && inner.start == w.start + gate.1 + 1 && inner.parentIndent == gate.0
    && inner.start <= inner.end <= |lines|
    && lines[inner.start..inner.end] == BlockOf(lines[w.start..w.end], gate.1, gate.0)
  }

  /** One parent segment: find its header and narrow the window to the block below it. */
  method Descend(lines: seq<Line>, w: Window, seg: string) returns (r: Option<Window>)
    requires w.start <= w.end <= |lines|
    ensures var gate := Gate(lines[w.start..w.end], w.parentIndent, seg);
            r.Some? == gate.Some? && (gate.Some? ==> InnerWindow(lines, w, gate.value, r.value))
  {
    var gate := FindGate(lines[w.start..w.end], w.parentIndent, seg);
    if gate.None? { return None; }
    var (level, index) := gate.value;
    var blockEnd := FindBlockEnd(lines, w.start, w.start + index, w.end, level);
    r := Some(Window(w.start + index + 1, blockEnd, level));
  }

  lemma LocateInside(lines: seq<Line>, w: Window, seg: string, rest: seq<string>, allowCommented: bool,
      inner: Option<Window>)
    requires w.start <= w.end <= |lines| && rest != []
    requires var gate := Gate(lines[w.start..w.end], w.parentIndent, seg);
             inner.Some? == gate.Some? && (gate.Some? ==> InnerWindow(lines, w, gate.value, inner.value))
    ensures inner.None? ==> LocateIn(lines, w, [seg] + rest, allowCommented) == None
    ensures inner.Some? ==> inner.value.start <= inner.value.end <= |lines| &&
                            LocateIn(lines, w, [seg] + rest, allowCommented) ==
                              LocateIn(lines, inner.value, rest, allowCommented)
  {
    hide Locate, BlockOf, FindHeader, ChildIndent;
    var window := lines[w.start..w.end];
    var gate := Gate(window, w.parentIndent, seg);
    LocateThrough(window, w.parentIndent, seg, rest, allowCommented);
    if gate.Some? {
      var (level, i) := gate.value;
      var found := Locate(BlockOf(window, i, level), level, rest, allowCommented);
      assert Locate(window, w.parentIndent, [seg] + rest, allowCommented) == Shift(i + 1, found);
      assert lines[inner.value.start..inner.value.end] == BlockOf(window, i, level);
      ShiftTwice(w.start, i + 1, found);
    }
  }

  lemma ShiftTwice(a: nat, b: nat, r: Option<nat>)
    ensures Shift(a, Shift(b, r)) == Shift(a + b, r)
  {
  }

  /** Walks the parents, narrowing the window to each block in turn. */
  method LocateImpl(lines: seq<Line>, segments: seq<string>, allowCommented: bool) returns (r: Option<nat>)
    ensures r == Locate(lines, -1, segments, allowCommented)
  {
    if segments == [] { return None; }
    var w := Window(0, |lines|, -1);
    assert lines[0..|lines|] == lines;
    for n := 0 to |segments| - 1
      invariant w.start <= w.end <= |lines|
      invariant LocateIn(lines, w, segments[n..], allowCommented) == Locate(lines, -1, segments, allowCommented)
    {
      assert segments[n..] == [segments[n]] + segments[n + 1..];
      var next := Descend(lines, w, segments[n]);
      LocateInside(lines, w, segments[n], segments[n + 1..], allowCommented, next);
      if next.None? { return None; }
      w := next.value;
    }
    assert segments[|segments| - 1..] == [segments[|segments| - 1]];
    r := LocateLast(lines, w, segments[|segments| - 1], allowCommented);
  }

  method LocateLast(lines: seq<Line>, w: Window, last: string, allowCommented: bool) returns (r: Option<nat>)
    requires w.start <= w.end <= |lines|
    ensures r == LocateIn(lines, w, [last], allowCommented)
  {
    var window := lines[w.start..w.end];
    var level := ChildIndent(window, w.parentIndent);
    if level.None? || level.value <= w.parentIndent { return None; }
    var index := FindKeyLine(window, level.value, last, allowCommented);
    r := Shift(w.start, index);
  }

  method ContinuationEnd(lines: seq<Line>, i: nat, keyIndent: nat) returns (end: nat)
    requires i < |lines|
    ensures i < end <= |lines| && lines[end..] == lines[i + 1..][ContinuationLen(lines[i + 1..], keyIndent)..]
  {
    end := i + 1;
    while end < |lines| &&
      (Deeper(lines[end], keyIndent) || (lines[end].kind.Blank? && NextIsDeeper(lines[end + 1..], keyIndent)))
      invariant i + 1 <= end <= |lines|
      invariant end - (i + 1) + ContinuationLen(lines[end..], keyIndent) == ContinuationLen(lines[i + 1..], keyIndent)
    {
      assert lines[end..][1..] == lines[end + 1..];
      end := end + 1;
    }
    assert lines[i + 1..][end - (i + 1)..] == lines[end..];
  }

  method LeadStart(lines: seq<Line>, i: nat) returns (start: nat)
    requires i <= |lines|
    ensures start == CommentsAbove(lines, i)
  {
    start := i;
    while start > 0 && lines[start - 1].kind.Comment?
      invariant start <= i && CommentsAbove(lines, start) == CommentsAbove(lines, i)
    {
      start := start - 1;
    }
  }

  method DeleteKeyLines(lines: seq<Line>, segments: seq<string>) returns (r: Option<seq<Line>>)
    ensures r == DeleteKey(lines, segments)
  {
    var index := LocateImpl(lines, segments, false);
    if index.None? { return None; }
    var end := ContinuationEnd(lines, index.value, IndentAt(lines, index.value));
    var start := LeadStart(lines, index.value);
    r := Some(lines[..start] + lines[end..]);
  }

  lemma InsertBetween(a: seq<Line>, b: seq<Line>, x: Line, c: seq<Line>)
    ensures (a + b + c)[..|a| + |b|] + [x] + (a + b + c)[|a| + |b|..] == a + (b + [x]) + c
  {
  }

  lemma InsertNext(upper: seq<Line>, lower: seq<Line>, read: string -> Line, comments: seq<string>, n: nat)
    requires n < |comments|
    ensures var out := upper + Map(read, comments[..n]) + lower;
            out[..|upper| + n] + [read(comments[n])] + out[|upper| + n..] ==
              upper + Map(read, comments[..n + 1]) + lower
  {
    hide Map;
    MapSnoc(read, comments, n);
    InsertBetween(upper, Map(read, comments[..n]), read(comments[n]), lower);
  }

  method InsertLines(lines: seq<Line>, i: nat, read: string -> Line, comments: seq<string>) returns (out: seq<Line>)
    requires i <= |lines|
    ensures out == lines[..i] + Map(read, comments) + lines[i..]
  {
    hide Map;
    out := lines;
    for n := 0 to |comments|
      invariant out == lines[..i] + Map(read, comments[..n]) + lines[i..]
    {
      InsertNext(lines[..i], lines[i..], read, comments, n);
      out := out[..i + n] + [read(comments[n])] + out[i + n..];
    }
    assert comments[..|comments|] == comments;
  }

  method InsertComment(lines: seq<Line>, segments: seq<string>, comments: seq<string>) returns (r: Option<seq<Line>>)
    ensures r == InsertCommentAbove(lines, segments, comments)
  {
    var index := LocateImpl(lines, segments, false);
    if index.None? || !LacksComment(lines, index.value) { return None; }
    var i := index.value;
    var out := InsertLines(lines, i, Commenter(lines[i].text[..LeadLen(lines[i].text)]), comments);
    r := Some(out);
  }

  /** The scan for the block's last child and for its first child's indentation. */
  method ScanBlock(lines: seq<Line>, p: nat) returns (lastChild: nat, childIndent: Option<nat>)
    requires p < |lines|
    ensures lastChild == p + ChildPlace(lines[p + 1..]).0
    ensures childIndent == FirstActiveIndent(lines[p + 1..][..ScanLen(lines[p + 1..])])
  {
    hide ScanLen, UsedLen, FirstActiveIndent, EndsScan;
    var below := lines[p + 1..];
    lastChild, childIndent := p, None;
    var n := 0;
    ScanStarts(below);
    while n < |below| && !EndsScan(below[n])
      invariant 0 <= n <= |below|
      invariant n + ScanLen(below[n..]) == ScanLen(below)
      invariant lastChild == p + UsedLen(below, n)
      invariant childIndent == FirstActiveIndent(below[..n])
    {
      ScanStep(below, n);
      FirstActiveSnoc(below, n);
      if !below[n].kind.Blank? {
        if !below[n].kind.Comment? && childIndent.None? {
          childIndent := Some(below[n].kind.indent);
        }
        lastChild := p + 1 + n;
      }
      n := n + 1;
    }
    ScanStep(below, n);
  }

  lemma ScanStarts(v: seq<Line>)
    ensures v[0..] == v && UsedLen(v, 0) == 0 && FirstActiveIndent(v[..0]) == None
  {
  }

  lemma ScanStep(v: seq<Line>, n: nat)
    requires n <= |v|
    ensures if n == |v| || EndsScan(v[n]) then ScanLen(v[n..]) == 0
            else ScanLen(v[n..]) == 1 + ScanLen(v[n + 1..]) &&
                 UsedLen(v, n + 1) == if v[n].kind.Blank? then UsedLen(v, n) else n + 1
  {
    assert n < |v| ==> v[n..][1..] == v[n + 1..];
  }

  lemma {:induction false} FirstActiveSnoc(v: seq<Line>, n: nat)
    requires n < |v|
    ensures FirstActiveIndent(v[..n + 1]) ==
            if FirstActiveIndent(v[..n]).Some? then FirstActiveIndent(v[..n])
            else if v[n].kind.Active? then Some(v[n].kind.indent) else None
  {
    if n > 0 {
      FirstActiveSnoc(v[1..], n - 1);
      assert v[..n + 1][1..] == v[1..][..n] && v[..n][1..] == v[1..][..n - 1];
    }
  }

  method PutChildLines(lines: seq<Line>, parent: string, header: Line, key: string, value: string)
      returns (out: seq<Line>, child: Line)
    ensures child == Read(KeyLine(ChildSlot(lines, parent).1, key, value))
    ensures out == PutChild(lines, parent, header, child)
  {
    var parentIndex := FindHeaderLine(lines, 0, parent);
    var indent := 2;
    if parentIndex.Some? && lines[parentIndex.value].kind.opens {
      var p := parentIndex.value;
      var lastChild, childIndent := ScanBlock(lines, p);
      if childIndent.Some? {
        indent := childIndent.value;
      }
      var line := Read(KeyLine(indent, key, value));
      return lines[..lastChild + 1] + [line] + lines[lastChild + 1..], line;
    }
    var line := Read(KeyLine(indent, key, value));
    child := line;
    if parentIndex.None? {
      out := lines + [header, line];
    } else {
      out := lines[..parentIndex.value] + [header, line] + lines[parentIndex.value + 1..];
    }
  }

  method UpsertChildLines(lines: seq<Line>, parent: string, key: string, value: string) returns (out: seq<Line>)
    ensures out == UpsertChild(lines, parent, key, value)
  {
    var index := LocateImpl(lines, [parent, key], false);
    if index.Some? {
      out := lines[index.value := Read(SetLine(lines[index.value].text, key, value))];
    } else {
      var child;
      out, child := PutChildLines(lines, parent, Read(parent + ":"), key, value);
    }
  }
}
