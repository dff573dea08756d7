/** Short texts on which the editor's edits lose more than the key or the value they are about. */
module YamlWitnesses {
  import opened Prelude
  import opened Text
  import opened YamlLines
  import opened YamlEdit
  import opened YamlPaths
  import opened YamlLaws
  import opened YamlRemove

  // ---- a put that loses the inline comment ----

  const COMMENTED: seq<Line> := [Read("k: a # c")]

  lemma OneKey(l: Line, level: nat, key: string, allowCommented: bool)
    requires IsHeader(l, level, key)
    ensures Locate([l], -1, [key], allowCommented) == Some(0)
  {
    MinIs([l], level, 0);
    assert IsKey(l, level, key, allowCommented);
  }

  lemma OneKeyLine(rest: string, value: string)
    ensures var l := "k:" + rest;
            && LocateTop([Read(l)], ["k"]) == Some(0) && CommentOf([Read(l)], ["k"]) == Suffix(rest)
            && SetValue([Read(l)], ["k"], value) == Some([Read("k: " + value + Suffix(rest))])
  {
    hide Suffix, KindOf, AfterKey, LeadLen, Locate, NothingButComment, IsWhite;
    var l := "k:" + rest;
    assert l == WriteKey("", "k", rest);
    PlainLetter();
    KeyLineKind("", "k", rest);
    OneKey(Read(l), 0, "k", false);
    assert SetLine(l, "k", value) == "k: " + value + Suffix(rest);
    assert [Read(l)][0 := Read(SetLine(l, "k", value))] == [Read(SetLine(l, "k", value))];
  }

  lemma PlainLetter()
    ensures PlainKey("k")
  {
  }

  lemma SuffixFound(value: string, suffix: string)
    requires value in {"a", "x"} && suffix in {" # c", " #y # c"}
    ensures Suffix(" " + value + suffix) == suffix
  {
    assert suffix[1] == '#' && AllSpaces(suffix[..1]);
    SuffixAfterValue(value, suffix);
  }

  lemma SuffixBehindQuote()
    ensures Suffix(" \"q\" # c") == ""
  {
    var after := " \"q\" # c";
    IndexIs(after, '#', 5);
    assert after[..5][1] == '"';
  }

  /** A quoted value put in front of a comment: the next put loses the comment. */
  lemma QuoteLosesComment(next: string)
    ensures LocateTop(COMMENTED, ["k"]) == Some(0) && CommentOf(COMMENTED, ["k"]) == " # c"
    ensures !LeavesComment("\"q\"", " # c")
    ensures SetValue(COMMENTED, ["k"], "\"q\"") == Some([Read("k: \"q\" # c")])
    ensures SetValue([Read("k: \"q\" # c")], ["k"], next) == Some([Read("k: " + next)])
  {
    hide Suffix, Read, SetValue, Locate;
    assert "\"q\""[0] == '"';
    SuffixFound("a", " # c");
    SuffixBehindQuote();
    assert "k: a # c" == "k:" + (" " + "a" + " # c") && "k: \"q\" # c" == "k:" + " \"q\" # c";
    assert "k: " + "\"q\"" + " # c" == "k: \"q\" # c" && "k: " + next + "" == "k: " + next;
    OneKeyLine(" " + "a" + " # c", "\"q\"");
    OneKeyLine(" \"q\" # c", next);
  }

  /** A value with a comment of its own put in front of a comment: the next put keeps both as the comment. */
  lemma HashGrowsComment(next: string)
    ensures !LeavesComment("x #y", " # c")
    ensures SetValue(COMMENTED, ["k"], "x #y") == Some([Read("k: x #y # c")])
    ensures CommentOf([Read("k: x #y # c")], ["k"]) == " #y # c"
    ensures SetValue([Read("k: x #y # c")], ["k"], next) == Some([Read("k: " + next + " #y # c")])
  {
    hide Suffix, Read, SetValue, Locate;
    assert "x #y"[2] == '#';
    SuffixFound("a", " # c");
    SuffixFound("x", " #y # c");
    assert "k: a # c" == "k:" + (" " + "a" + " # c") && "k: x #y # c" == "k:" + (" " + "x" + " #y # c");
    assert "k: " + "x #y" + " # c" == "k: x #y # c";
    OneKeyLine(" " + "a" + " # c", "x #y");
    OneKeyLine(" " + "x" + " #y # c", next);
  }

  // ---- a deletion that leaves a child behind ----

  const NOTED: seq<Line> := [Read("z:"), Read("a:"), Read("  x: 1"), Read("# note"), Read("  y: 2")]

  lemma NotedKinds()
    ensures NOTED[0].kind == Active(0, Some("z"), true) && NOTED[1].kind == Active(0, Some("a"), true)
    ensures NOTED[2].kind == Active(2, Some("x"), false) && NOTED[4].kind == Active(2, Some("y"), false)
    ensures NOTED[3].kind.Comment? && NOTED[3].kind.indent == 0
  {
    hide KindOf, NothingButComment;
    assert "z:" == "z" + ":" && "a:" == "a" + ":";
    HeaderLineKind("z");
    HeaderLineKind("a");
    ChildKind("x", "1");
    ChildKind("y", "2");
    assert "  x: 1" == "  " + "x" + ": " + "1" && "  y: 2" == "  " + "y" + ": " + "2";
    NoteKind();
  }

  lemma NoteKind()
    ensures KindOf("# note").Comment? && KindOf("# note").indent == 0
  {
    hide KeyToken, TrimStartChar, TrimStart, LeadLen;
    assert "" + "# note" == "# note";
    CommentKind("", "# note");
    TrimStartIs("", "# note");
  }

  lemma ChildKind(key: string, value: string)
    requires key in {"x", "y"} && value in {"1", "2"}
    ensures KindOf("  " + key + ": " + value) == Active(2, Some(key), false)
  {
    hide KindOf, TrimStart, ByteLen, PlainKey, StripQuotes;
    SpacesBytes(2);
    assert Spaces(2) == "  ";
    assert "  " + key + ": " + value == WriteKey("  ", key, " " + value);
    PlainChild(key);
    KeyLineKind("  ", key, " " + value);
    TrimStartIs(" ", value);
  }

  lemma PlainChild(key: string)
    requires key in {"x", "y"}
    ensures PlainKey(key)
  {
  }

  /** The block of `a`, its last child behind a comment no deeper than the key. */
  ghost predicate IsCut(a: Line, x: Line, c: Line, y: Line) {
    && a.kind == Active(0, Some("a"), true) && x.kind == Active(2, Some("x"), false)
    && c.kind.Comment? && c.kind.indent == 0 && y.kind == Active(2, Some("y"), false)
  }

  // ---- walks over a few lines ----

  lemma Found(a: seq<Line>, i: nat, level: nat, key: string)
    requires i < |a| && IsHeader(a[i], level, key) && forall k :: 0 <= k < i ==> !IsHeader(a[k], level, key)
    ensures FindHeader(a, level, key) == Some(i)
  {
    hide IsHeader;
    HeaderStep(a, level, key);
    if i > 0 { Found(a[1..], i - 1, level, key); }
  }

  lemma NotFound(a: seq<Line>, level: nat, key: string)
    requires forall k :: 0 <= k < |a| ==> !IsHeader(a[k], level, key)
    ensures FindHeader(a, level, key) == None
  {
    hide IsHeader;
    if a != [] {
      HeaderStep(a, level, key);
      NotFound(a[1..], level, key);
    }
  }

  /** A key of the top level. */
  lemma TopKey(a: seq<Line>, i: nat, key: string)
    requires i < |a| && IsHeader(a[i], 0, key) && forall k :: 0 <= k < i ==> !IsHeader(a[k], 0, key)
    ensures Path(a, -1, [key]) == Some(i) && Entry(a, -1, key) == Some((0, i))
  {
    hide MinActive, FindHeader;
    Found(a, i, 0, key);
    MinIs(a, 0, i);
  }

  /** A key of the block below a key of the top level. */
  lemma BlockKey(a: seq<Line>, i: nat, key: string, block: seq<Line>, j: nat, child: string)
    requires i < |a| && IsHeader(a[i], 0, key) && forall k :: 0 <= k < i ==> !IsHeader(a[k], 0, key)
    requires a[i].kind.opens && i + 1 + |block| <= |a| && AllActive(block)
    requires forall k :: 0 <= k < |block| ==> a[i + 1 + k] == block[k] && block[k].kind.indent == 2
    requires i + 1 + |block| < |a| ==> EndsBlock(a[i + 1 + |block|], 0)
    requires j <= |block| && (j < |block| ==> IsHeader(block[j], 2, child))
    requires forall k :: 0 <= k < j ==> !IsHeader(block[k], 2, child)
    ensures Path(a, -1, [key, child]) == if j < |block| then Some(i + 1 + j) else None
  {
    hide MinActive, FindHeader, BlockOf, IsHeader;
    TopKey(a, i, key);
    BlockIs(a, i, 0, block);
    PathUnfold(a, -1, [key, child]);
    assert [key, child][1..] == [child];
    ChildAmong(block, j, child);
  }

  lemma ChildAmong(block: seq<Line>, j: nat, child: string)
    requires AllActive(block) && forall k :: 0 <= k < |block| ==> block[k].kind.indent == 2
    requires j <= |block| && (j < |block| ==> IsHeader(block[j], 2, child))
    requires forall k :: 0 <= k < j ==> !IsHeader(block[k], 2, child)
    ensures Path(block, 0, [child]) == if j < |block| then Some(j) else None
  {
    hide MinActive, FindHeader, IsHeader;
    if block != [] { MinIs(block, 2, 0); }
    if j < |block| { Found(block, j, 2, child); } else { NotFound(block, 2, child); }
  }

  function Noted(upper: seq<Line>, c: Line, lower: seq<Line>): seq<Line> {
    upper + [c] + lower
  }

  /** One comment among active lines. */
  lemma LocateWithNote(upper: seq<Line>, c: Line, lower: seq<Line>, q: seq<string>)
    requires AllActive(upper) && c.kind.Comment? && AllActive(lower)
    ensures LocateTop(Noted(upper, c, lower), q) ==
            match Path(upper + lower, -1, q)
            case None => None
            case Some(i) => Some(if i < |upper| then i else i + 1)
  {
    hide Path, Locate, Act, Noted, AllActive;
    NoteAct(upper, c, lower);
    LocateByActive(Noted(upper, c, lower), -1, q);
    if Path(upper + lower, -1, q).Some? {
      FoundWithNote(upper, c, lower, q, Path(upper + lower, -1, q).value);
    }
  }

  lemma NoteAct(upper: seq<Line>, c: Line, lower: seq<Line>)
    requires AllActive(upper) && c.kind.Comment? && AllActive(lower)
    ensures Act(Noted(upper, c, lower)) == upper + lower
  {
    hide Act, AllActive;
    var lines := Noted(upper, c, lower);
    NoteRank(upper, c, lower, |lines|);
    assert lines[..|lines|] == lines && lower[..|lower|] == lower;
  }

  lemma FoundWithNote(upper: seq<Line>, c: Line, lower: seq<Line>, q: seq<string>, i: nat)
    requires AllActive(upper) && c.kind.Comment? && AllActive(lower)
    requires Path(upper + lower, -1, q) == Some(i) && i < |upper + lower|
    ensures LocateTop(Noted(upper, c, lower), q) == Some(if i < |upper| then i else i + 1)
  {
    hide Path, Locate, Act, AllActive;
    var lines, k := Noted(upper, c, lower), if i < |upper| then i else i + 1;
    NoteAct(upper, c, lower);
    NoteRank(upper, c, lower, k);
    assert lines[k] == (upper + lower)[i];
    ActiveAt(upper, lower, i);
    LocateIs(lines, q, k);
  }

  lemma ActiveAt(upper: seq<Line>, lower: seq<Line>, i: nat)
    requires AllActive(upper) && AllActive(lower) && i < |upper + lower|
    ensures IsActive((upper + lower)[i])
  {
  }

  lemma NoteRank(upper: seq<Line>, c: Line, lower: seq<Line>, k: nat)
    requires AllActive(upper) && c.kind.Comment? && AllActive(lower) && k <= |Noted(upper, c, lower)|
    ensures Act(Noted(upper, c, lower)[..k]) == if k <= |upper| then upper[..k] else upper + lower[..k - |upper| - 1]
  {
    hide Filter;
    var lines := Noted(upper, c, lower);
    if k <= |upper| {
      assert lines[..k] == upper[..k];
      FilterAll(IsActive, upper[..k]);
    } else {
      var some := lower[..k - |upper| - 1];
      assert lines[..k] == upper + [c] + some;
      FilterAppend(IsActive, upper + [c], some);
      FilterAppend(IsActive, upper, [c]);
      FilterAll(IsActive, upper);
      FilterAll(IsActive, some);
      FilterNone(IsActive, [c]);
    }
  }

  // ---- the two deletions ----

  lemma CutAway(upper: seq<Line>, a: Line, x: Line, c: Line, y: Line)
    requires IsCut(a, x, c, y) && AllActive(upper)
    ensures DeleteAt(Noted(upper + [a, x], c, [y]), |upper|) == upper + [c, y]
  {
    var lines := Noted(upper + [a, x], c, [y]);
    assert upper != [] ==> lines[|upper| - 1] == upper[|upper| - 1];
    assert lines[|upper|] == a && lines[|upper| + 1..] == [x, c, y] && [x, c, y][1..] == [c, y];
    assert ContinuationLen([c, y], 0) == 0 && ContinuationLen([x, c, y], 0) == 1;
    assert lines[..|upper|] == upper;
  }

  /** A comment at the key's indentation cuts its block: a child is left behind and becomes another key's child,
      or one of the top level. */
  lemma CutOrphans(z: Line, a: Line, x: Line, c: Line, y: Line)
    requires z.kind == Active(0, Some("z"), true) && IsCut(a, x, c, y)
    ensures LocateTop([z, a, x, c, y], ["a", "y"]) == Some(4) && LocateTop([z, a, x, c, y], ["z", "y"]) == None
    ensures DeleteKey([z, a, x, c, y], ["a"]) == Some([z, c, y]) && LocateTop([z, c, y], ["z", "y"]) == Some(2)
  {
    hide Path, Locate, Filter, DeleteAt;
    assert [z, a, x, c, y] == Noted([z] + [a, x], c, [y]) && [z, c, y] == Noted([z], c, [y]);
    assert [z] + [a, x] + [y] == [z, a, x, y] && [z] + [y] == [z, y];
    LocateWithNote([z] + [a, x], c, [y], ["a", "y"]);
    LocateWithNote([z] + [a, x], c, [y], ["z", "y"]);
    LocateWithNote([z] + [a, x], c, [y], ["a"]);
    LocateWithNote([z], c, [y], ["z", "y"]);
    BlockKey([z, a, x, y], 1, "a", [x, y], 1, "y");
    BlockKey([z, a, x, y], 0, "z", [], 0, "y");
    TopKey([z, a, x, y], 1, "a");
    BlockKey([z, y], 0, "z", [y], 0, "y");
    CutAway([z], a, x, c, y);
    assert [z] + [c, y] == [z, c, y];
  }

  lemma CutFrees(a: Line, x: Line, c: Line, y: Line)
    requires IsCut(a, x, c, y)
    ensures LocateTop([a, x, c, y], ["a", "y"]) == Some(3) && LocateTop([a, x, c, y], ["y"]) == None
    ensures DeleteKey([a, x, c, y], ["a"]) == Some([c, y]) && LocateTop([c, y], ["y"]) == Some(1)
  {
    hide Path, Locate, Filter, DeleteAt;
    assert [a, x, c, y] == Noted([] + [a, x], c, [y]) && [c, y] == Noted([], c, [y]) && [] + [y] == [y];
    assert [] + [a, x] + [y] == [a, x, y];
    LocateWithNote([] + [a, x], c, [y], ["a", "y"]);
    LocateWithNote([] + [a, x], c, [y], ["y"]);
    LocateWithNote([] + [a, x], c, [y], ["a"]);
    LocateWithNote([], c, [y], ["y"]);
    BlockKey([a, x, y], 0, "a", [x, y], 1, "y");
    TopKey([a, x, y], 0, "a");
    NoTopKey([a, x, y], 0, "y");
    OnlyKey(y, 2, "y");
    CutAway([], a, x, c, y);
    assert [] + [c, y] == [c, y];
  }

  lemma NoTopKey(a: seq<Line>, i: nat, key: string)
    requires i < |a| && IsActive(a[i]) && a[i].kind.indent == 0 && forall k :: 0 <= k < |a| ==> !IsHeader(a[k], 0, key)
    ensures Path(a, -1, [key]) == None
  {
    hide MinActive, FindHeader;
    MinIs(a, 0, i);
    NotFound(a, 0, key);
  }

  lemma OnlyKey(l: Line, level: nat, key: string)
    requires IsHeader(l, level, key)
    ensures Path([l], -1, [key]) == Some(0)
  {
    hide MinActive, FindHeader;
    MinIs([l], level, 0);
    Found([l], 0, level, key);
  }

  /** The deletion that leaves a child behind, on the texts. */
  lemma NoteOrphansChild()
    ensures LocateTop(NOTED, ["a", "y"]) == Some(4) && LocateTop(NOTED, ["z", "y"]) == None
    ensures DeleteKey(NOTED, ["a"]) == Some([NOTED[0], NOTED[3], NOTED[4]])
    ensures LocateTop([NOTED[0], NOTED[3], NOTED[4]], ["z", "y"]) == Some(2)
    ensures LocateTop(NOTED[1..], ["y"]) == None
    ensures DeleteKey(NOTED[1..], ["a"]) == Some(NOTED[3..]) && LocateTop(NOTED[3..], ["y"]) == Some(1)
  {
    hide Locate, DeleteKey, Read;
    NotedKinds();
    CutOrphans(NOTED[0], NOTED[1], NOTED[2], NOTED[3], NOTED[4]);
    CutFrees(NOTED[1], NOTED[2], NOTED[3], NOTED[4]);
    assert NOTED == [NOTED[0], NOTED[1], NOTED[2], NOTED[3], NOTED[4]];
  }

  // ---- a deletion that takes its whole block, after which another line is found for the first time ----

  const SLANTED: seq<Line> := [Read("  x: 1"), Read("b: 3")]

  /** A deeper line above the only key of its window surfaces when that key goes. */
  lemma DeepLineSurfaces()
    ensures LocateTop(SLANTED, ["b"]) == Some(1) && LocateTop(SLANTED, ["x"]) == None
    ensures DeleteKey(SLANTED, ["b"]) == Some(SLANTED[..1]) && LocateTop(SLANTED[..1], ["x"]) == Some(0)
  {
    hide Locate, Read, DeleteAt;
    SlantedKinds();
    Slanted(SLANTED[0], SLANTED[1]);
    assert SLANTED == [SLANTED[0], SLANTED[1]] && SLANTED[..1] == [SLANTED[0]];
  }

  lemma SlantedKinds()
    ensures SLANTED[0].kind == Active(2, Some("x"), false) && SLANTED[1].kind == Active(0, Some("b"), false)
  {
    hide KindOf;
    ChildKind("x", "1");
    assert "  x: 1" == "  " + "x" + ": " + "1" && "b: 3" == WriteKey("", "b", " 3");
    LastKind();
  }

  lemma Slanted(x: Line, b: Line)
    requires x.kind == Active(2, Some("x"), false) && b.kind == Active(0, Some("b"), false)
    ensures LocateTop([x, b], ["b"]) == Some(1) && LocateTop([x, b], ["x"]) == None
    ensures DeleteAt([x, b], 1) == [x] && LocateTop([x], ["x"]) == Some(0)
  {
    hide Path, Locate, Filter;
    FilterAll(IsActive, [x, b]);
    FilterAll(IsActive, [x]);
    assert [x, b][..1] == [x] && [x, b][2..] == [] && ContinuationLen([], 0) == 0 && CommentsAbove([x, b], 1) == 1;
    TopKey([x, b], 1, "b");
    NoTopKey([x, b], 1, "x");
    LocateIs([x, b], ["b"], 1);
    LocateByActive([x, b], -1, ["x"]);
    OneKey(x, 2, "x", false);
  }

  // ---- a deletion that takes a placeholder of the block above ----

  const HELD: seq<Line> := [Read("a:"), Read("  x: 1"), Read("  # y: 2"), Read("b: 3")]

  lemma HeldKinds()
    ensures HELD[0].kind == Active(0, Some("a"), true) && HELD[1].kind == Active(2, Some("x"), false)
    ensures HELD[2].kind == Comment(2, Some("y")) && HELD[3].kind == Active(0, Some("b"), false)
  {
    hide KindOf, NothingButComment;
    assert "a:" == "a" + ":" && "b: 3" == WriteKey("", "b", " 3");
    HeaderLineKind("a");
    ChildKind("x", "1");
    assert "  x: 1" == "  " + "x" + ": " + "1";
    LastKind();
    PlaceholderKind();
  }

  lemma LastKind()
    ensures KindOf(WriteKey("", "b", " 3")) == Active(0, Some("b"), false)
  {
    hide KindOf, TrimStart;
    KeyLineKind("", "b", " 3");
    assert " 3" == " " + "3";
    TrimStartIs(" ", "3");
  }

  lemma PlaceholderKind()
    ensures KindOf("  # y: 2") == Comment(2, Some("y"))
  {
    hide KindOf, PlainKey;
    assert "  # y: 2" == "  " + ("#" + (" " + ("y" + ":" + " 2")));
    PlainY();
    CommentedKey("  ", "y", " 2");
    assert ByteLen("  ") == 2 by { SpacesBytes(2); assert Spaces(2) == "  "; }
  }

  lemma PlainY()
    ensures PlainKey("y")
  {
  }

  /** A commented key line is a placeholder for its key. */
  lemma CommentedKey(prefix: string, key: string, rest: string)
    requires AllWhite(prefix) && PlainKey(key)
    ensures KindOf(prefix + ("#" + (" " + (key + ":" + rest)))) == Comment(ByteLen(prefix), Some(key))
  {
    hide KeyToken, TrimStart, LeadLen, TrimStartChar, AllWhite, StripQuotes;
    var line := key + ":" + rest;
    var body := "#" + (" " + line);
    CommentKind(prefix, body);
    TrimStartIs(prefix, body);
    BehindHash(line);
    KeyTokenOfPlain(key, rest);
  }

  lemma BehindHash(line: string)
    requires line != "" && !IsWhite(line[0])
    ensures TrimStart(TrimStartChar("#" + (" " + line), '#')) == line
  {
    hide TrimStart;
    assert ("#" + (" " + line))[1..] == " " + line && (" " + line)[0] == ' ';
    TrimStartIs(" ", line);
  }

  lemma PlaceholderGoes(a: Line, x: Line, c: Line, b: Line)
    requires a.kind == Active(0, Some("a"), true) && x.kind == Active(2, Some("x"), false)
    requires c.kind == Comment(2, Some("y")) && b.kind == Active(0, Some("b"), false)
    ensures Locate([a, x, c, b], -1, ["a", "y"], true) == Some(2)
    ensures DeleteKey([a, x, c, b], ["b"]) == Some([a, x]) && Locate([a, x], -1, ["a", "y"], true) == None
  {
    hide Path, Locate, Filter, DeleteAt;
    assert [a, x, c, b] == Noted([a, x], c, [b]) && [a, x] + [b] == [a, x, b];
    LocateWithNote([a, x], c, [b], ["b"]);
    TopKey([a, x, b], 2, "b");
    TakesComment(a, x, c, b);
    BelowHeader(a, [x, c], [b]);
    BelowHeader(a, [x], []);
    assert [a] + [x, c] + [b] == [a, x, c, b] && [a] + [x] + [] == [a, x];
    AmongTwo(x, c);
  }

  lemma TakesComment(a: Line, x: Line, c: Line, b: Line)
    requires a.kind == Active(0, Some("a"), true) && x.kind == Active(2, Some("x"), false)
    requires c.kind == Comment(2, Some("y")) && b.kind == Active(0, Some("b"), false)
    ensures DeleteAt([a, x, c, b], 3) == [a, x]
  {
    var lines := [a, x, c, b];
    assert lines[4..] == [] && lines[..2] == [a, x] && ContinuationLen([], 0) == 0;
    assert lines[2] == c && lines[1] == x && CommentsAbove(lines, 2) == 2 && CommentsAbove(lines, 3) == 2;
  }

  /** Going below the first line of a text, with placeholders. */
  lemma BelowHeader(a: Line, block: seq<Line>, below: seq<Line>)
    requires a.kind == Active(0, Some("a"), true) && (forall k :: 0 <= k < |block| ==> !EndsBlock(block[k], 0))
    requires below != [] ==> EndsBlock(below[0], 0)
    ensures Locate([a] + block + below, -1, ["a", "y"], true) == Shift(1, Locate(block, 0, ["y"], true))
  {
    hide MinActive, FindHeader, BlockOf, FindKey, EndsBlock, Locate;
    var w := [a] + block + below;
    MinIs(w, 0, 0);
    Found(w, 0, 0, "a");
    BlockIs(w, 0, 0, block);
    assert ["a", "y"][1..] == ["y"];
    StepDown(w, ["a", "y"]);
  }

  lemma StepDown(w: seq<Line>, q: seq<string>)
    requires |q| > 1 && MinActive(w) == Some(0) && FindHeader(w, 0, q[0]) == Some(0) && w[0].kind.opens
    ensures Locate(w, -1, q, true) == Shift(1, Locate(BlockOf(w, 0, 0), 0, q[1..], true))
  {
    hide MinActive, FindHeader, BlockOf, FindKey;
  }

  lemma AmongTwo(x: Line, c: Line)
    requires x.kind == Active(2, Some("x"), false) && c.kind == Comment(2, Some("y"))
    ensures Locate([x, c], 0, ["y"], true) == Some(1) && Locate([x], 0, ["y"], true) == None
  {
    hide MinActive;
    MinIs([x, c], 2, 0);
    MinIs([x], 2, 0);
    assert [x, c][1..] == [c] && [x][1..] == [];
    assert FindKey([c], 2, "y", true) == Some(0) && FindKey([], 2, "y", true) == None;
    assert FindKey([x, c], 2, "y", true) == Some(1) && FindKey([x], 2, "y", true) == None;
  }

  /** The comments above a key go with it, also one that is a commented placeholder of the block above. */
  lemma DeleteTakesPlaceholder()
    ensures Locate(HELD, -1, ["a", "y"], true) == Some(2)
    ensures DeleteKey(HELD, ["b"]) == Some(HELD[..2])
    ensures Locate(HELD[..2], -1, ["a", "y"], true) == None
  {
    hide Locate, DeleteKey, Read;
    HeldKinds();
    PlaceholderGoes(HELD[0], HELD[1], HELD[2], HELD[3]);
    assert HELD == [HELD[0], HELD[1], HELD[2], HELD[3]] && HELD[..2] == [HELD[0], HELD[1]];
  }
}
