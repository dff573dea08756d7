/**
 Two scanners for fenced code blocks, one in Rust and one in Python, written independently of each
 other. Line by line they differ only in what they call white space; `FenceTexts` compares them on texts.
 */
module Fences {
  import opened Prelude
  import opened Text

  /** Python's `str.isspace` knows four separators that Unicode's White_Space does not. */
  predicate IsPyWhite(c: char) {
    IsWhite(c) || '\U{001C}' <= c <= '\U{001F}'
  }

  lemma PyWhiteIsListed(c: char)
    ensures IsPyWhite(c) <==> c in WHITE || c in ['\U{001C}', '\U{001D}', '\U{001E}', '\U{001F}']
  {
  }

  function SkipWhite(s: string, white: char -> bool): (r: string)
    ensures r != "" ==> !white(r[0])
  {
    if s != "" && white(s[0]) then SkipWhite(s[1..], white) else s
  }

  predicate OnlyWhite(s: string, white: char -> bool) {
    forall i :: 0 <= i < |s| ==> white(s[i])
  }

  function RunOf(s: string, c: char): (n: nat)
    ensures n <= |s|
    ensures n > 0 <==> s != "" && s[0] == c
  {
    if s != "" && s[0] == c then 1 + RunOf(s[1..], c) else 0
  }

  predicate IsFenceChar(c: char) {
    c == '`' || c == '~'
  }

  datatype Marker = Marker(fence: char, run: nat, info: bool)

  /** A line that starts, after white space, with three or more of the same fence character. */
  function MarkerOf(line: string, white: char -> bool): (m: Option<Marker>)
    ensures m.Some? ==> m.value.run >= 3 && IsFenceChar(m.value.fence)
  {
    var s := SkipWhite(line, white);
    if s == "" || !IsFenceChar(s[0]) || RunOf(s, s[0]) < 3 then None
    else Some(Marker(s[0], RunOf(s, s[0]), !OnlyWhite(s[RunOf(s, s[0])..], white)))
  }

  /** Behind white space a run of three or more backticks or of three or more tildes, no longer than `run`; `info`
      says that more than white space follows. */
  ghost predicate SpellsAt(line: string, white: char -> bool, i: nat, m: Marker) {
    var e := i + m.run;
    && (m.fence == '`' || m.fence == '~') && m.run >= 3 && e <= |line|
    && (forall k :: 0 <= k < i ==> white(line[k])) && (forall k :: i <= k < e ==> line[k] == m.fence)
    && (e < |line| ==> line[e] != m.fence)
    && (m.info <==> exists k :: e <= k < |line| && !white(line[k]))
  }

  ghost predicate SpellsFence(line: string, white: char -> bool, m: Marker) {
    exists i: nat :: SpellsAt(line, white, i, m)
  }

  lemma {:induction false} SkipFacts(s: string, white: char -> bool)
    ensures var r := SkipWhite(s, white);
            |r| <= |s| && r == s[|s| - |r|..] && forall k :: 0 <= k < |s| - |r| ==> white(s[k])
  {
    if s != "" && white(s[0]) {
      SkipFacts(s[1..], white);
      assert forall k :: 0 < k < |s| ==> s[k] == s[1..][k - 1];
    }
  }

  lemma {:induction false} SkipTo(s: string, white: char -> bool, i: nat)
    requires i <= |s| && (forall k :: 0 <= k < i ==> white(s[k])) && (i < |s| ==> !white(s[i]))
    ensures SkipWhite(s, white) == s[i..]
  {
    if i > 0 {
      SkipTo(s[1..], white, i - 1);
    }
  }

  lemma {:induction false} RunFacts(s: string, c: char)
    ensures forall k :: 0 <= k < RunOf(s, c) ==> s[k] == c
    ensures RunOf(s, c) < |s| ==> s[RunOf(s, c)] != c
  {
    if s != "" && s[0] == c {
      RunFacts(s[1..], c);
      assert forall k :: 0 < k < |s| ==> s[k] == s[1..][k - 1];
    }
  }

  lemma {:induction false} RunIs(s: string, c: char, n: nat)
    requires n <= |s| && (forall k :: 0 <= k < n ==> s[k] == c) && (n < |s| ==> s[n] != c)
    ensures RunOf(s, c) == n
  {
    if n > 0 {
      RunIs(s[1..], c, n - 1);
    }
  }

  lemma MarkerSpells(line: string, white: char -> bool, m: Marker)
    requires MarkerOf(line, white) == Some(m)
    ensures SpellsFence(line, white, m)
  {
    hide SkipWhite, RunOf;
    var s := SkipWhite(line, white);
    var i := |line| - |s|;
    SkipFacts(line, white);
    RunFacts(s, s[0]);
    assert forall k :: 0 <= k < |s| ==> s[k] == line[i + k];
    assert s[m.run..] == line[i + m.run..];
    assert forall k :: i + m.run <= k < |line| ==> line[k] == s[m.run..][k - i - m.run];
    assert SpellsAt(line, white, i, m);
  }

  lemma SpelledIsMarker(line: string, white: char -> bool, m: Marker)
    requires !white('`') && !white('~') && SpellsFence(line, white, m)
    ensures MarkerOf(line, white) == Some(m)
  {
    hide SkipWhite, RunOf;
    var i: nat :| SpellsAt(line, white, i, m);
    SkipTo(line, white, i);
    var s := line[i..];
    assert forall k :: 0 <= k < |s| ==> s[k] == line[i + k];
    RunIs(s, m.fence, m.run);
    assert forall k :: 0 <= k < |s[m.run..]| ==> s[m.run..][k] == line[i + m.run + k];
  }

  /** A line is taken as a fence exactly when its characters spell one, for Rust's white space and for Python's. */
  lemma MarkerIff(line: string, m: Marker)
    ensures MarkerOf(line, IsWhite) == Some(m) <==> SpellsFence(line, IsWhite, m)
    ensures MarkerOf(line, IsPyWhite) == Some(m) <==> SpellsFence(line, IsPyWhite, m)
  {
    hide MarkerOf, SpellsFence;
    assert !IsPyWhite('`') && !IsPyWhite('~') && !IsWhite('`') && !IsWhite('~') by { FencesAreDark(); }
    if MarkerOf(line, IsWhite) == Some(m) { MarkerSpells(line, IsWhite, m); }
    if MarkerOf(line, IsPyWhite) == Some(m) { MarkerSpells(line, IsPyWhite, m); }
    if SpellsFence(line, IsWhite, m) { SpelledIsMarker(line, IsWhite, m); }
    if SpellsFence(line, IsPyWhite, m) { SpelledIsMarker(line, IsPyWhite, m); }
  }

  lemma FencesAreDark()
    ensures !IsPyWhite('`') && !IsPyWhite('~') && !IsWhite('`') && !IsWhite('~')
  {
  }

  // ---- the rule ----

  predicate Closes(m: Option<Marker>, open: Marker) {
    m.Some? && m.value.fence == open.fence && m.value.run >= open.run && !m.value.info
  }

  /** The first line at or after `j` that closes the fence, or the end. */
  function Closer(ms: seq<Option<Marker>>, j: nat, open: Marker): (c: nat)
    requires j <= |ms|
    ensures j <= c <= |ms|
    ensures forall i :: j <= i < c ==> !Closes(ms[i], open)
    ensures c < |ms| ==> Closes(ms[c], open)
    decreases |ms| - j
  {
    if j == |ms| || Closes(ms[j], open) then j else Closer(ms, j + 1, open)
  }

  /** The lines outside fences, from line `i` on: a fence runs to the first later line of the same
      character, at least as long, with nothing after it. */
  function Outside(ms: seq<Option<Marker>>, i: nat): seq<nat>
    requires i <= |ms|
    decreases |ms| - i
  {
    if i == |ms| then []
    else
      match ms[i]
      case None => [i] + Outside(ms, i + 1)
      case Some(open) =>
        var c := Closer(ms, i + 1, open);
        if c == |ms| then [] else Outside(ms, c + 1)
  }

  function Markers(lines: seq<string>, white: char -> bool): seq<Option<Marker>> {
    seq(|lines|, i requires 0 <= i < |lines| => MarkerOf(lines[i], white))
  }

  /** Outside lines still to come when the scan has reached line `i`, inside a fence or not. */
  function Remaining(ms: seq<Option<Marker>>, i: nat, open: Option<Marker>): seq<nat>
    requires i <= |ms|
  {
    match open
    case None => Outside(ms, i)
    case Some(m) => var c := Closer(ms, i, m); if c == |ms| then [] else Outside(ms, c + 1)
  }

  function NextOpen(open: Option<Marker>, m: Option<Marker>): Option<Marker> {
    match open
    case None => m
    case Some(o) => if Closes(m, o) then None else open
  }

  predicate Keeps(open: Option<Marker>, m: Option<Marker>) {
    open.None? && m.None?
  }

  lemma SameRemaining(ms: seq<Option<Marker>>, i: nat, open: Option<Marker>)
    requires i < |ms| && !Keeps(open, ms[i])
    ensures Remaining(ms, i, open) == Remaining(ms, i + 1, NextOpen(open, ms[i]))
  {
  }

  lemma RemainingStep(ms: seq<Option<Marker>>, i: nat, open: Option<Marker>, kept: seq<nat>)
    requires i < |ms|
    ensures kept + Remaining(ms, i, open) ==
            (if Keeps(open, ms[i]) then kept + [i] else kept) + Remaining(ms, i + 1, NextOpen(open, ms[i]))
  {
    if Keeps(open, ms[i]) {
      Regroup(kept, [], [i], Outside(ms, i + 1));
    } else {
      SameRemaining(ms, i, open);
    }
  }

  /** Before the first line everything is to come, after the last one nothing. */
  lemma RemainingEnds(ms: seq<Option<Marker>>)
    ensures [] + Remaining(ms, 0, None) == Outside(ms, 0)
    ensures forall open :: Remaining(ms, |ms|, open) == []
  {
  }

  // ---- the Rust state machine ----

  class FenceState {
    var open: Option<Marker>

    constructor ()
      ensures open == None
    {
      open := None;
    }

    /** Feeds one line; true when it belongs to a code block. */
    method InCode(line: string) returns (r: bool)
      modifies this
      ensures r == !Keeps(old(open), MarkerOf(line, IsWhite)) && open == NextOpen(old(open), MarkerOf(line, IsWhite))
    {
      var marker := MarkerOf(line, IsWhite);
      if open.Some? {
        if marker.Some? {
          if marker.value.fence == open.value.fence && marker.value.run >= open.value.run && !marker.value.info {
            open := None;
          }
        }
        return true;
      }
      if marker.Some? {
        open := marker;
        return true;
      }
      r := false;
    }
  }

  method RustOutside(lines: seq<string>) returns (kept: seq<nat>)
    ensures kept == Outside(Markers(lines, IsWhite), 0)
  {
    ghost var ms := Markers(lines, IsWhite);
    var state := new FenceState();
    kept := [];
    RemainingEnds(ms);
    hide Remaining, Outside, MarkerOf;
    for i := 0 to |lines|
      invariant kept + Remaining(ms, i, state.open) == Outside(ms, 0)
    {
      RemainingStep(ms, i, state.open, kept);
      var inCode := state.InCode(lines[i]);
      if !inCode {
        kept := kept + [i];
      }
    }
  }

  // ---- the Python loop ----

  lemma PythonCloser(line: string, fence: char, len: nat)
    requires IsFenceChar(fence) && len >= 3
    ensures var s := SkipWhite(line, IsPyWhite);
            var run := RunOf(s, fence);
            (run >= len && OnlyWhite(s[run..], IsPyWhite)) <==>
              Closes(MarkerOf(line, IsPyWhite), Marker(fence, len, false))
  {
  }

  /** The Python scanner's two variables, and what they say about a fence. */
  function PythonOpen(fenceChar: Option<char>, fenceLen: nat): Option<Marker> {
    match fenceChar
    case None => None
    case Some(c) => Some(Marker(c, fenceLen, false))
  }

  predicate IsOpening(open: Option<Marker>) {
    open.Some? ==> open.value.run >= 3 && IsFenceChar(open.value.fence)
  }

  /** One line: the new variables, and whether the line is kept. */
  method PythonLine(line: string, fenceChar: Option<char>, fenceLen: nat)
      returns (c: Option<char>, len: nat, keep: bool)
    requires IsOpening(PythonOpen(fenceChar, fenceLen))
    ensures var open, m := PythonOpen(fenceChar, fenceLen), MarkerOf(line, IsPyWhite);
            keep == Keeps(open, m) && SameFence(PythonOpen(c, len), NextOpen(open, m))
  {
    var s := SkipWhite(line, IsPyWhite);
    c, len, keep := fenceChar, fenceLen, false;
    if fenceChar.None? {
      if s != "" && IsFenceChar(s[0]) && RunOf(s, s[0]) >= 3 {
        c, len := Some(s[0]), RunOf(s, s[0]);
      } else {
        keep := true;
      }
    } else {
      var run := RunOf(s, fenceChar.value);
      PythonCloser(line, fenceChar.value, fenceLen);
      if run >= fenceLen && OnlyWhite(s[run..], IsPyWhite) {
        c, len := None, 0;
      }
    }
  }

  /** What follows the opening characters does not matter once the fence is open. */
  predicate SameFence(a: Option<Marker>, b: Option<Marker>) {
    match (a, b)
    case (None, None) => true
    case (Some(x), Some(y)) => x.fence == y.fence && x.run == y.run
    case _ => false
  }

  lemma {:induction false} SameFenceSameCloser(ms: seq<Option<Marker>>, j: nat, a: Marker, b: Marker)
    requires j <= |ms| && a.fence == b.fence && a.run == b.run
    ensures Closer(ms, j, a) == Closer(ms, j, b)
    decreases |ms| - j
  {
    if j < |ms| {
      SameFenceSameCloser(ms, j + 1, a, b);
    }
  }

  lemma SameFenceSameRest(ms: seq<Option<Marker>>, i: nat, a: Option<Marker>, b: Option<Marker>)
    requires i <= |ms| && SameFence(a, b)
    ensures Remaining(ms, i, a) == Remaining(ms, i, b)
  {
    if a.Some? { SameFenceSameCloser(ms, i, a.value, b.value); }
  }

  /** The lines at the given indices. */
  function At(lines: seq<string>, kept: seq<nat>): seq<string> {
    if kept == [] then []
    else At(lines, kept[..|kept| - 1]) + if kept[|kept| - 1] < |lines| then [lines[kept[|kept| - 1]]] else []
  }

  function KeptLines(lines: seq<string>, white: char -> bool): seq<string> {
    At(lines, Outside(Markers(lines, white), 0))
  }

  lemma AtSnoc(lines: seq<string>, kept: seq<nat>, i: nat)
    requires i < |lines|
    ensures At(lines, kept + [i]) == At(lines, kept) + [lines[i]]
  {
    assert (kept + [i])[..|kept|] == kept;
  }

  method PythonOutside(lines: seq<string>) returns (out: seq<string>)
    ensures out == KeptLines(lines, IsPyWhite)
  {
    ghost var ms, kept: seq<nat> := Markers(lines, IsPyWhite), [];
    assert At(lines, kept) == [];
    RemainingEnds(ms);
    hide Remaining, At, Outside, MarkerOf, IsPyWhite;
    var fenceChar: Option<char> := None;
    var fenceLen := 0;
    out := [];
    for i := 0 to |lines|
      invariant IsOpening(PythonOpen(fenceChar, fenceLen))
      invariant out == At(lines, kept) && kept + Remaining(ms, i, PythonOpen(fenceChar, fenceLen)) == Outside(ms, 0)
    {
      ghost var open := PythonOpen(fenceChar, fenceLen);
      RemainingStep(ms, i, open, kept);
      var keep;
      fenceChar, fenceLen, keep := PythonLine(lines[i], fenceChar, fenceLen);
      SameFenceSameRest(ms, i + 1, PythonOpen(fenceChar, fenceLen), NextOpen(open, ms[i]));
      if keep {
        AtSnoc(lines, kept, i);
        kept := kept + [i];
        out := out + [lines[i]];
      }
    }
    assert kept + Remaining(ms, |lines|, PythonOpen(fenceChar, fenceLen)) == kept;
  }

  // ---- where the two agree ----

  predicate Undisputed(line: string) {
    MarkerOf(line, IsWhite) == MarkerOf(line, IsPyWhite)
  }

  ghost predicate SameLinesKept(lines: seq<string>) {
    Outside(Markers(lines, IsWhite), 0) == Outside(Markers(lines, IsPyWhite), 0)
  }

  /** The scanners keep the same lines of every text whose lines are undisputed. */
  lemma AgreeOnUndisputed(lines: seq<string>)
    requires forall i :: 0 <= i < |lines| ==> Undisputed(lines[i])
    ensures SameLinesKept(lines)
  {
    assert Markers(lines, IsWhite) == Markers(lines, IsPyWhite);
  }

  predicate HasSeparator(line: string) {
    exists i :: 0 <= i < |line| && '\U{001C}' <= line[i] <= '\U{001F}'
  }

  lemma {:induction false} SkipSame(s: string)
    requires !HasSeparator(s)
    ensures SkipWhite(s, IsWhite) == SkipWhite(s, IsPyWhite) && !HasSeparator(SkipWhite(s, IsWhite))
  {
    if s != "" {
      assert !('\U{001C}' <= s[0] <= '\U{001F}');
      assert forall i :: 0 <= i < |s[1..]| ==> s[1..][i] == s[i + 1];
      SkipSame(s[1..]);
    }
  }

  lemma OnlyWhiteSame(s: string, n: nat)
    requires !HasSeparator(s) && n <= |s|
    ensures OnlyWhite(s[n..], IsWhite) == OnlyWhite(s[n..], IsPyWhite)
  {
    assert forall i :: 0 <= i < |s[n..]| ==> s[n..][i] == s[n + i] && IsWhite(s[n + i]) == IsPyWhite(s[n + i]);
  }

  /** Without the four separators no line is disputed. */
  lemma NoSeparatorNoDispute(line: string)
    requires !HasSeparator(line)
    ensures Undisputed(line)
  {
    SkipSame(line);
    var s := SkipWhite(line, IsWhite);
    if s != "" { OnlyWhiteSame(s, RunOf(s, s[0])); }
  }

  lemma {:induction false} SkipToFence(s: string)
    requires SkipWhite(s, IsWhite) != "" && IsFenceChar(SkipWhite(s, IsWhite)[0])
    ensures SkipWhite(s, IsPyWhite) == SkipWhite(s, IsWhite)
  {
    if IsWhite(s[0]) {
      SkipToFence(s[1..]);
    }
  }

  /** Whatever Rust takes for a fence line Python does too; only trailing text can be disputed. */
  lemma DisputeShape(line: string)
    requires MarkerOf(line, IsWhite).Some?
    ensures MarkerOf(line, IsPyWhite).Some?
    ensures var r, p := MarkerOf(line, IsWhite).value, MarkerOf(line, IsPyWhite).value;
            p.fence == r.fence && p.run == r.run && (p.info ==> r.info)
  {
    SkipToFence(line);
  }

  lemma PlainLineHasNoMarker(white: char -> bool)
    requires !white('x')
    ensures MarkerOf("x", white) == None
  {
    assert SkipWhite("x", white) == "x";
  }

  /** A text that shows the dispute. */
  function Witness(line: string): seq<string> {
    if MarkerOf(line, IsWhite).Some? then [line, line, "x"] else [line]
  }

  lemma MarkersOfThree(line: string, white: char -> bool)
    requires !white('x')
    ensures Markers([line, line, "x"], white) == [MarkerOf(line, white), MarkerOf(line, white), None]
  {
    PlainLineHasNoMarker(white);
  }

  lemma OutsideOfThree(m: Marker)
    ensures Outside([Some(m), Some(m), None], 0) == if m.info then [] else [2]
  {
    var ms: seq<Option<Marker>> := [Some(m), Some(m), None];
    assert Closer(ms, 3, m) == 3 && Closer(ms, 2, m) == 3;
    assert Closer(ms, 1, m) == if m.info then 3 else 1;
    assert Outside(ms, 3) == [] && Outside(ms, 2) == [2];
  }

  lemma OutsideOfOne(m: Option<Marker>)
    ensures Outside([m], 0) == if m.None? then [0] else []
  {
    assert Outside([m], 1) == [];
  }

  /** A disputed line makes the scanners keep different lines of some text. */
  lemma DisputeShows(line: string)
    requires !Undisputed(line)
    ensures !SameLinesKept(Witness(line)) && line in Witness(line)
  {
    if MarkerOf(line, IsWhite).Some? {
      DisputeShape(line);
      MarkersOfThree(line, IsWhite);
      MarkersOfThree(line, IsPyWhite);
      OutsideOfThree(MarkerOf(line, IsWhite).value);
      OutsideOfThree(MarkerOf(line, IsPyWhite).value);
    } else {
      assert Markers([line], IsWhite) == [MarkerOf(line, IsWhite)] &&
             Markers([line], IsPyWhite) == [MarkerOf(line, IsPyWhite)];
      OutsideOfOne(MarkerOf(line, IsWhite));
      OutsideOfOne(MarkerOf(line, IsPyWhite));
    }
  }

  ghost predicate MadeOf(lines: seq<string>, line: string) {
    forall i :: 0 <= i < |lines| ==> lines[i] == line || lines[i] == "x"
  }

  /** The scanners agree on every text made of a line and plain lines exactly when the line is undisputed. */
  lemma AgreeIffUndisputed(line: string)
    ensures (forall lines :: MadeOf(lines, line) ==> SameLinesKept(lines)) <==> Undisputed(line)
  {
    if Undisputed(line) {
      forall lines | MadeOf(lines, line)
        ensures SameLinesKept(lines)
      {
        PlainLineHasNoMarker(IsWhite);
        PlainLineHasNoMarker(IsPyWhite);
        AgreeOnUndisputed(lines);
      }
    } else {
      DisputeShows(line);
      assert MadeOf(Witness(line), line);
    }
  }

  /** Three backticks and what follows them. */
  lemma BacktickMarker(rest: string, white: char -> bool)
    requires !white('`') && (rest == "" || rest[0] != '`')
    ensures MarkerOf("```" + rest, white) == Some(Marker('`', 3, !OnlyWhite(rest, white)))
  {
    var s := "```" + rest;
    assert SkipWhite(s, white) == s;
    assert s[3..] == rest && RunOf(rest, '`') == 0;
    assert RunOf(s[2..], '`') == 1 by { assert s[2..][1..] == s[3..]; }
    assert RunOf(s[1..], '`') == 2 by { assert s[1..][1..] == s[2..]; }
    assert RunOf(s, '`') == 3;
  }

  /** A character after a fence is disputed exactly when it is white for Python alone. */
  lemma TrailingIsDisputedIff(c: char)
    requires c != '`'
    ensures Undisputed("```" + [c]) <==> IsWhite(c) == IsPyWhite(c)
  {
    BacktickMarker([c], IsWhite);
    BacktickMarker([c], IsPyWhite);
    assert [c][0] == c;
    assert OnlyWhite([c], IsWhite) == IsWhite(c) && OnlyWhite([c], IsPyWhite) == IsPyWhite(c);
  }

  // ---- the task scan ----

  /** One note: its path and its lines. */
  datatype Note = Note(path: string, lines: seq<string>)

  /** The tasks on the given lines, in order. */
  function Pick<T>(note: Note, kept: seq<nat>, hit: (string, nat, string) -> Option<T>): seq<T> {
    if kept == [] then []
    else
      (if kept[0] < |note.lines| then
         (match hit(note.path, kept[0], note.lines[kept[0]])
          case None => []
          case Some(t) => [t])
       else []) + Pick(note, kept[1..], hit)
  }

  function TasksIn<T>(note: Note, hit: (string, nat, string) -> Option<T>): seq<T> {
    Pick(note, Outside(Markers(note.lines, IsWhite), 0), hit)
  }

  function TasksOf<T>(notes: seq<Note>, hit: (string, nat, string) -> Option<T>): seq<T> {
    if notes == [] then [] else TasksOf(notes[..|notes| - 1], hit) + TasksIn(notes[|notes| - 1], hit)
  }

  ghost predicate IsHitAt<T>(note: Note, i: nat, hit: (string, nat, string) -> Option<T>, t: T) {
    i < |note.lines| && hit(note.path, i, note.lines[i]) == Some(t)
  }

  /** Line `i` of the note stands outside every fence, and `t` is what `hit` sees in it. */
  ghost predicate IsTaskAt<T>(note: Note, i: nat, hit: (string, nat, string) -> Option<T>, t: T) {
    i in Outside(Markers(note.lines, IsWhite), 0) && IsHitAt(note, i, hit, t)
  }

  lemma {:induction false} PickedIff<T>(note: Note, kept: seq<nat>, hit: (string, nat, string) -> Option<T>, t: T)
    ensures t in Pick(note, kept, hit) <==> exists i :: i in kept && IsHitAt(note, i, hit, t)
  {
    if kept != [] {
      PickedIff(note, kept[1..], hit, t);
      assert kept == [kept[0]] + kept[1..];
      assert t in Pick(note, kept, hit) <==> IsHitAt(note, kept[0], hit, t) || t in Pick(note, kept[1..], hit);
      assert IsHitAt(note, kept[0], hit, t) ==> kept[0] in kept;
    }
  }

  /** The walk finds exactly what stands outside the fences of some note. */
  lemma {:induction false} FoundIff<T>(notes: seq<Note>, hit: (string, nat, string) -> Option<T>, t: T)
    ensures t in TasksOf(notes, hit) <==> exists note, i :: note in notes && IsTaskAt(note, i, hit, t)
  {
    hide Outside, MarkerOf, Pick;
    if notes != [] {
      var before, last := notes[..|notes| - 1], notes[|notes| - 1];
      FoundIff(before, hit, t);
      PickedIff(last, Outside(Markers(last.lines, IsWhite), 0), hit, t);
      assert notes == before + [last];
      assert forall i :: IsTaskAt(last, i, hit, t) <==>
                         i in Outside(Markers(last.lines, IsWhite), 0) && IsHitAt(last, i, hit, t);
    }
  }

  lemma PickStep<T>(note: Note, i: nat, open: Option<Marker>, hit: (string, nat, string) -> Option<T>)
    requires i < |note.lines|
    ensures var ms := Markers(note.lines, IsWhite);
            Pick(note, Remaining(ms, i, open), hit) ==
            (if Keeps(open, ms[i]) && hit(note.path, i, note.lines[i]).Some?
             then [hit(note.path, i, note.lines[i]).value] else []) +
            Pick(note, Remaining(ms, i + 1, NextOpen(open, ms[i])), hit)
  {
    hide MarkerOf, Closer, IsWhite;
    var ms := Markers(note.lines, IsWhite);
    RemainingStep(ms, i, open, []);
    assert [] + Remaining(ms, i, open) == Remaining(ms, i, open);
    if Keeps(open, ms[i]) {
      assert Remaining(ms, i, open)[1..] == Outside(ms, i + 1);
    }
  }

  /** The tasks found once line `i` has been looked at. */
  function WithLine<T>(found: seq<T>, note: Note, i: nat, open: Option<Marker>,
      hit: (string, nat, string) -> Option<T>): seq<T>
    requires i < |note.lines|
  {
    if Keeps(open, Markers(note.lines, IsWhite)[i]) && hit(note.path, i, note.lines[i]).Some?
    then found + [hit(note.path, i, note.lines[i]).value] else found
  }

  lemma ScanStep<T>(found: seq<T>, note: Note, i: nat, open: Option<Marker>, hit: (string, nat, string) -> Option<T>)
    requires i < |note.lines|
    ensures var ms := Markers(note.lines, IsWhite);
            found + Pick(note, Remaining(ms, i, open), hit) ==
            WithLine(found, note, i, open, hit) + Pick(note, Remaining(ms, i + 1, NextOpen(open, ms[i])), hit)
  {
    var ms := Markers(note.lines, IsWhite);
    PickStep(note, i, open, hit);
    if Keeps(open, ms[i]) && hit(note.path, i, note.lines[i]).Some? {
      Regroup(found, [], [hit(note.path, i, note.lines[i]).value],
        Pick(note, Remaining(ms, i + 1, NextOpen(open, ms[i])), hit));
    }
  }

  lemma ScanEnds<T>(note: Note, hit: (string, nat, string) -> Option<T>)
    ensures var ms := Markers(note.lines, IsWhite);
            && Pick(note, Remaining(ms, 0, None), hit) == TasksIn(note, hit)
            && forall open :: Pick(note, Remaining(ms, |ms|, open), hit) == []
  {
    hide MarkerOf, IsWhite;
  }

  /** One note of the walk: stops as soon as the cap is reached. */
  method ScanNote<T>(note: Note, hit: (string, nat, string) -> Option<T>, before: seq<T>, max: nat)
      returns (found: seq<T>)
    requires |before| <= max
    ensures found == Take(before + TasksIn(note, hit), max)
  {
    hide Pick, Remaining, TasksIn, MarkerOf, IsWhite, Outside;
    ScanEnds(note, hit);
    ghost var ms := Markers(note.lines, IsWhite);
    ghost var all := before + TasksIn(note, hit);
    var fence := new FenceState();
    found := before;
    for i := 0 to |note.lines|
      invariant |found| <= max
      invariant found + Pick(note, Remaining(ms, i, fence.open), hit) == all
    {
      if |found| >= max {
        assert found == all[..max];
        return;
      }
      ScanStep(found, note, i, fence.open, hit);
      var inCode := fence.InCode(note.lines[i]);
      if !inCode {
        var task := hit(note.path, i, note.lines[i]);
        if task.Some? {
          found := found + [task.value];
        }
      }
    }
    assert found == all;
  }

  lemma TakeTwice<T>(a: seq<T>, b: seq<T>, max: nat)
    ensures Take(Take(a, max) + b, max) == Take(a + b, max)
  {
  }

  /** The whole walk visits exactly the first `max` tasks outside code blocks. */
  method VisitTasks<T>(notes: seq<Note>, hit: (string, nat, string) -> Option<T>, max: nat) returns (found: seq<T>)
    ensures found == Take(TasksOf(notes, hit), max)
  {
    found := [];
    for n := 0 to |notes|
      invariant found == Take(TasksOf(notes[..n], hit), max)
    {
      if |found| >= max {
        FirstAreKept(notes, n, hit, max);
        return;
      }
      assert notes[..n + 1][..n] == notes[..n];
      TakeTwice(TasksOf(notes[..n], hit), TasksIn(notes[n], hit), max);
      found := ScanNote(notes[n], hit, found, max);
    }
    assert notes[..|notes|] == notes;
  }

  lemma {:induction false} TasksGrow<T>(notes: seq<Note>, n: nat, hit: (string, nat, string) -> Option<T>)
    requires n <= |notes|
    ensures TasksOf(notes[..n], hit) <= TasksOf(notes, hit)
  {
    hide TasksIn;
    if n < |notes| {
      var m := |notes| - 1;
      TasksGrow(notes[..m], n, hit);
      assert notes[..m][..n] == notes[..n];
    } else {
      assert notes[..n] == notes;
    }
  }

  lemma FirstAreKept<T>(notes: seq<Note>, n: nat, hit: (string, nat, string) -> Option<T>, max: nat)
    requires n <= |notes| && |TasksOf(notes[..n], hit)| >= max
    ensures Take(TasksOf(notes[..n], hit), max) == Take(TasksOf(notes, hit), max)
  {
    TasksGrow(notes, n, hit);
  }
}
