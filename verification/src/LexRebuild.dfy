/**
 The keyword index across a schema change: marker, wipe, reopen, rebuild from the stored chunk rows,
 one commit, marker removed. Any step may fail or be the last one before a crash; the commit of the
 index is atomic.
 */
module LexRebuild {
  import opened Prelude

  datatype Chunk = Chunk(docPath: string, headingPath: string, index: nat, text: string)

  datatype Doc = Doc(id: string, chunk: Chunk)

  /** A stored chunk row, in key order; `None` is a value that no longer deserializes. */
  datatype Row = Row(id: string, chunk: Option<Chunk>)

  /** The index directory. Interrupting the wipe leaves the old schema file or no index at all. */
  datatype Dir = Missing | Old | Current(docs: multiset<Doc>)

  datatype Disk = Disk(dir: Dir, marker: bool, rows: seq<Row>)

  function DocOf(row: Row): multiset<Doc> {
    match row.chunk
    case None => multiset{}
    case Some(c) => multiset{Doc(row.id, c)}
  }

  /** What a rebuild restores: one document for every readable row. */
  function Restored(rows: seq<Row>): multiset<Doc> {
    if rows == [] then multiset{} else Restored(rows[..|rows| - 1]) + DocOf(rows[|rows| - 1])
  }

  predicate DistinctIds(rows: seq<Row>) {
    forall i, j :: 0 <= i < j < |rows| ==> rows[i].id != rows[j].id
  }

  lemma {:induction false} RestoredMembers(rows: seq<Row>, d: Doc)
    ensures d in Restored(rows) <==> Row(d.id, Some(d.chunk)) in rows
  {
    if rows != [] {
      var last := rows[|rows| - 1];
      RestoredMembers(rows[..|rows| - 1], d);
      assert rows == rows[..|rows| - 1] + [last];
      assert d in DocOf(last) <==> last == Row(d.id, Some(d.chunk));
    }
  }

  /** Every readable row is restored exactly once, and nothing else is. */
  lemma {:induction false} EachOnce(rows: seq<Row>, d: Doc)
    requires DistinctIds(rows)
    ensures Restored(rows)[d] == if Row(d.id, Some(d.chunk)) in rows then 1 else 0
  {
    RestoredMembers(rows, d);
    if rows != [] {
      var n := |rows| - 1;
      EachOnce(rows[..n], d);
      assert DocOf(rows[n])[d] == if rows[n] == Row(d.id, Some(d.chunk)) then 1 else 0;
    }
  }

  // ---- the protocol ----

  datatype Pc =
    | Idle
    | Marking
    | Wiping
    | Reopening
    | Opened(wasReset: bool)
    | Rebuilding(pending: multiset<Doc>, next: nat)
    | Committed
    | Ready

  datatype State = State(disk: Disk, pc: Pc)

  datatype Event =
    | Open
    | Mark(fails: bool)
    | Wipe(fails: bool)
    | Reopen(fails: bool)
    | Decide
    | AddNext(fails: bool)
    | Commit(fails: bool)
    | ClearMarker(fails: bool)
    | Update(rows: seq<Row>)
    | Close
    | Crash

  function Docs(dir: Dir): multiset<Doc> {
    if dir.Current? then dir.docs else multiset{}
  }

  /** Nothing to restore and something to lose: the rebuild refuses. */
  predicate Refuses(d: Disk) {
    d.rows == [] && Docs(d.dir) != multiset{}
  }

  function Step(s: State, e: Event): State {
    match e
    case Open =>
      if !s.pc.Idle? then s
      else
        (match s.disk.dir
         case Missing => State(s.disk.(dir := Current(multiset{})), Opened(false))
         case Old => s.(pc := Marking)
         case Current(_) => s.(pc := Opened(false)))
    case Mark(fails) =>
      if !s.pc.Marking? then s else if fails then s.(pc := Idle) else State(s.disk.(marker := true), Wiping)
    case Wipe(fails) =>
      if !s.pc.Wiping? then s else if fails then s.(pc := Idle) else State(s.disk.(dir := Missing), Reopening)
    case Reopen(fails) =>
      if !s.pc.Reopening? then s else if fails then s.(pc := Idle)
        else State(s.disk.(dir := Current(multiset{})), Opened(true))
    case Decide =>
      if !s.pc.Opened? then s
      else if !(s.pc.wasReset || s.disk.marker) || Refuses(s.disk) then s.(pc := Ready)
      else s.(pc := Rebuilding(multiset{}, 0))
    case AddNext(fails) =>
      if !s.pc.Rebuilding? || s.pc.next >= |s.disk.rows| then s
      else if fails then s.(pc := Idle)
      else s.(pc := Rebuilding(s.pc.pending + DocOf(s.disk.rows[s.pc.next]), s.pc.next + 1))
    case Commit(fails) =>
      if !s.pc.Rebuilding? || s.pc.next < |s.disk.rows| then s
      else if fails then s.(pc := Idle)
      else State(s.disk.(dir := Current(s.pc.pending)), Committed)
    case ClearMarker(fails) =>
      if !s.pc.Committed? then s else State(if fails then s.disk else s.disk.(marker := false), Ready)
    case Update(rows) =>
      if !s.pc.Ready? then s
      else State(Disk(Current(Docs(s.disk.dir) - Restored(s.disk.rows) + Restored(rows)), s.disk.marker, rows), Ready)
    case Close => if s.pc.Ready? then s.(pc := Idle) else s
    case Crash => s.(pc := Idle)
  }

  function Run(s: State, events: seq<Event>): State {
    if events == [] then s else Step(Run(s, events[..|events| - 1]), events[|events| - 1])
  }

  /** Without a marker, an index of the current schema holds exactly the readable rows, each once; where
      there is no index at all there are none to hold. */
  ghost predicate Sound(d: Disk) {
    !d.marker && !d.dir.Old? ==> Docs(d.dir) == Restored(d.rows)
  }

  ghost predicate Inv(s: State) {
    Sound(s.disk) &&
    match s.pc
    case Idle => true
    case Marking => s.disk.dir.Old?
    case Wiping => s.disk.dir.Old? && s.disk.marker
    case Reopening => s.disk.dir.Missing? && s.disk.marker
    case Opened(wasReset) => s.disk.dir.Current? && (wasReset ==> s.disk.marker)
    case Rebuilding(pending, next) =>
      s.disk.dir.Current? && s.disk.marker && next <= |s.disk.rows| && pending == Restored(s.disk.rows[..next])
    case Committed => s.disk.dir == Current(Restored(s.disk.rows))
    case Ready => s.disk.dir.Current?
  }

  lemma RestoredNext(rows: seq<Row>, n: nat)
    requires n < |rows|
    ensures Restored(rows[..n + 1]) == Restored(rows[..n]) + DocOf(rows[n])
  {
    assert rows[..n + 1][..n] == rows[..n];
  }

  lemma AddNextKeeps(s: State, fails: bool)
    requires Inv(s) && s.pc.Rebuilding?
    ensures Inv(Step(s, AddNext(fails)))
  {
    hide Restored, DocOf;
    if s.pc.next < |s.disk.rows| { RestoredNext(s.disk.rows, s.pc.next); }
  }

  lemma CommitKeeps(s: State, fails: bool)
    requires Inv(s) && s.pc.Rebuilding?
    ensures Inv(Step(s, Commit(fails)))
  {
    hide Restored, DocOf;
    if s.pc.next == |s.disk.rows| { assert s.disk.rows[..s.pc.next] == s.disk.rows; }
  }

  lemma UpdateKeeps(s: State, rows: seq<Row>)
    requires Inv(s)
    ensures Inv(Step(s, Update(rows)))
  {
    hide Restored;
  }

  lemma StepKeeps(s: State, e: Event)
    requires Inv(s)
    ensures Inv(Step(s, e))
  {
    match e
    case AddNext(fails) => if s.pc.Rebuilding? { AddNextKeeps(s, fails); }
    case Commit(fails) => if s.pc.Rebuilding? { CommitKeeps(s, fails); }
    case Update(rows) => UpdateKeeps(s, rows);
    case Decide => DecideKeeps(s);
    case _ => OtherStepKeeps(s, e);
  }

  lemma DecideKeeps(s: State)
    requires Inv(s)
    ensures Inv(Step(s, Decide))
  {
    assert s.disk.rows[..0] == [];
  }

  lemma OtherStepKeeps(s: State, e: Event)
    requires Inv(s) && !e.AddNext? && !e.Commit? && !e.Update? && !e.Decide?
    ensures Inv(Step(s, e))
  {
    hide Restored;
  }

  /** In every run, from any sound disk, the disk is sound at every moment. */
  lemma {:induction false} RunKeeps(s: State, events: seq<Event>)
    requires Inv(s)
    ensures Inv(Run(s, events))
  {
    if events != [] {
      RunKeeps(s, events[..|events| - 1]);
      StepKeeps(Run(s, events[..|events| - 1]), events[|events| - 1]);
    }
  }

  lemma AnyRunIsSound(disk: Disk, events: seq<Event>, d: Doc)
    requires Sound(disk)
    ensures var end := Run(State(disk, Idle), events).disk;
            end.dir.Current? && !end.marker && DistinctIds(end.rows) ==>
              end.dir.docs[d] == if Row(d.id, Some(d.chunk)) in end.rows then 1 else 0
  {
    var end := Run(State(disk, Idle), events).disk;
    RunKeeps(State(disk, Idle), events);
    if end.dir.Current? && !end.marker && DistinctIds(end.rows) {
      EachOnce(end.rows, d);
    }
  }

  lemma {:induction false} RunConcat(s: State, xs: seq<Event>, ys: seq<Event>)
    ensures Run(s, xs + ys) == Run(Run(s, xs), ys)
  {
    hide Step;
    if ys == [] {
      assert xs + ys == xs;
    } else {
      RunConcat(s, xs, ys[..|ys| - 1]);
      assert (xs + ys)[..|xs + ys| - 1] == xs + ys[..|ys| - 1];
    }
  }

  lemma RunSnoc(s: State, xs: seq<Event>, e: Event)
    ensures Run(s, xs + [e]) == Step(Run(s, xs), e)
  {
    assert (xs + [e])[..|xs + [e]| - 1] == xs;
  }

  lemma NothingYet(s: State, rows: seq<Row>)
    ensures Run(s, []) == s && Restored(rows[..0]) == multiset{}
  {
  }

  function Adds(n: nat): seq<Event> {
    if n == 0 then [] else Adds(n - 1) + [AddNext(false)]
  }

  function RebuildingAt(disk: Disk, n: nat): State
    requires n <= |disk.rows|
  {
    State(disk, Rebuilding(Restored(disk.rows[..n]), n))
  }

  lemma AddStep(disk: Disk, n: nat)
    requires n < |disk.rows|
    ensures Step(RebuildingAt(disk, n), AddNext(false)) == RebuildingAt(disk, n + 1)
  {
    RestoredNext(disk.rows, n);
  }

  lemma RunThen(s: State, xs: seq<Event>, mid: State, e: Event, end: State)
    requires Run(s, xs) == mid && Step(mid, e) == end
    ensures Run(s, xs + [e]) == end
  {
    RunSnoc(s, xs, e);
  }

  lemma {:induction false} AddsRun(disk: Disk, n: nat)
    requires n <= |disk.rows|
    ensures Run(RebuildingAt(disk, 0), Adds(n)) == RebuildingAt(disk, n)
  {
    hide Step, Restored;
    if n > 0 {
      AddsRun(disk, n - 1);
      AddStep(disk, n - 1);
      RunThen(RebuildingAt(disk, 0), Adds(n - 1), RebuildingAt(disk, n - 1), AddNext(false), RebuildingAt(disk, n));
    }
  }

  lemma CommitAndClear(disk: Disk)
    ensures var end := State(Disk(Current(Restored(disk.rows)), false, disk.rows), Ready);
            Step(Step(RebuildingAt(disk, |disk.rows|), Commit(false)), ClearMarker(false)) == end
  {
    assert disk.rows[..|disk.rows|] == disk.rows;
  }

  /** A reset that this very opening performed is followed by the rebuild even if the marker has gone. */
  lemma ResetIsRebuilt(disk: Disk)
    requires disk.dir == Current(multiset{})
    ensures var adding := Step(State(disk, Opened(true)), Decide);
            Step(Step(Run(adding, Adds(|disk.rows|)), Commit(false)), ClearMarker(false)) ==
            State(Disk(Current(Restored(disk.rows)), false, disk.rows), Ready)
  {
    assert Step(State(disk, Opened(true)), Decide) == RebuildingAt(disk, 0);
    AddsRun(disk, |disk.rows|);
    CommitAndClear(disk);
  }

  // ---- opening the engine ----

  /** Which steps of one opening fail. `badAdd` is the row whose addition fails, if any. */
  datatype Faults = Faults(mark: bool, wipe: bool, reopen: bool, badAdd: Option<nat>, commit: bool, clear: bool)

  /** The schema is old, or a marker is there and nothing is lost by heeding it. */
  predicate Rebuilds(d: Disk) {
    d.dir.Old? || (d.marker && !Refuses(d))
  }

  /** What opening without failures makes of the disk. */
  function AfterOpen(d: Disk): Disk {
    if Rebuilds(d) then Disk(Current(Restored(d.rows)), false, d.rows)
    else d.(dir := Current(Docs(d.dir)))
  }

  /** What an opening without failures leaves, in full: it rebuilds when the schema is old or a marker is there,
      except over documents without a single stored row, which it keeps together with the marker. */
  lemma OpensTo(d: Disk)
    ensures AfterOpen(d) ==
            match d.dir
            case Missing => Disk(Current(if d.marker then Restored(d.rows) else multiset{}), false, d.rows)
            case Old => Disk(Current(Restored(d.rows)), false, d.rows)
            case Current(docs) =>
              if !d.marker || (d.rows == [] && docs != multiset{}) then d
              else Disk(Current(Restored(d.rows)), false, d.rows)
  {
  }

  /** Everything an opening may have to do, in order; a step that does not apply changes nothing. */
  function Undisturbed(rows: nat): seq<Event> {
    [Open, Mark(false), Wipe(false), Reopen(false), Decide] + Adds(rows) + [Commit(false), ClearMarker(false)]
  }

  /** The state an undisturbed opening decides in. */
  function OpenedAs(d: Disk): State {
    match d.dir
    case Missing => State(d.(dir := Current(multiset{})), Opened(false))
    case Old => State(Disk(Current(multiset{}), true, d.rows), Opened(true))
    case Current(_) => State(d, Opened(false))
  }

  lemma RunPair(s: State, a: Event, b: Event)
    ensures Run(s, [a, b]) == Step(Step(s, a), b)
  {
    RunSnoc(s, [], a);
    RunSnoc(s, [a], b);
  }

  lemma RunFour(s: State, a: Event, b: Event, c: Event, d: Event)
    ensures Run(s, [a, b, c, d]) == Step(Step(Step(Step(s, a), b), c), d)
  {
    hide Step, Run;
    RunPair(s, a, b);
    RunSnoc(s, [a, b], c);
    assert [a, b] + [c] == [a, b, c] && [a, b, c] + [d] == [a, b, c, d];
    RunSnoc(s, [a, b, c], d);
  }

  lemma UndisturbedDecides(d: Disk)
    ensures Run(State(d, Idle), [Open, Mark(false), Wipe(false), Reopen(false)]) == OpenedAs(d)
  {
    hide Run;
    RunFour(State(d, Idle), Open, Mark(false), Wipe(false), Reopen(false));
  }

  lemma {:induction false} NothingToAdd(d: Disk, n: nat)
    ensures Run(State(d, Ready), Adds(n)) == State(d, Ready)
  {
    hide Run, Restored;
    if n == 0 {
      NothingYet(State(d, Ready), []);
    }
    if n > 0 {
      NothingToAdd(d, n - 1);
      RunThen(State(d, Ready), Adds(n - 1), State(d, Ready), AddNext(false), State(d, Ready));
    }
  }

  /** The part of the run behind the decision. */
  lemma DecidedOpens(entry: Disk, wasReset: bool)
    requires entry.dir.Current?
    ensures var rebuilds := (wasReset || entry.marker) && !Refuses(entry);
            Run(Step(State(entry, Opened(wasReset)), Decide), Adds(|entry.rows|) + [Commit(false), ClearMarker(false)])
            == State(if rebuilds then Disk(Current(Restored(entry.rows)), false, entry.rows) else entry, Ready)
  {
    hide Run, Restored;
    var decided := Step(State(entry, Opened(wasReset)), Decide);
    var added := Run(decided, Adds(|entry.rows|));
    RunConcat(decided, Adds(|entry.rows|), [Commit(false), ClearMarker(false)]);
    RunPair(added, Commit(false), ClearMarker(false));
    if (wasReset || entry.marker) && !Refuses(entry) {
      NothingYet(decided, entry.rows);
      AddsRun(entry, |entry.rows|);
      CommitAndClear(entry);
    } else {
      NothingToAdd(entry, |entry.rows|);
    }
  }

  /** Left alone, an opening gets to the end, whatever the disk is like. */
  lemma UndisturbedOpens(d: Disk)
    ensures Run(State(d, Idle), Undisturbed(|d.rows|)) == State(AfterOpen(d), Ready)
  {
    hide Run, Restored, Step;
    var start, entry := State(d, Idle), OpenedAs(d);
    var rest := Adds(|d.rows|) + [Commit(false), ClearMarker(false)];
    var first := [Open, Mark(false), Wipe(false), Reopen(false)];
    UndisturbedDecides(d);
    RunThen(start, first, entry, Decide, Step(entry, Decide));
    RunConcat(start, first + [Decide], rest);
    assert Undisturbed(|d.rows|) == first + [Decide] + rest;
    DecidedOpens(entry.disk, entry.pc.wasReset);
  }

  /** The only ways back to idle: a crash, closing the opened collection, or the failure of the step it is at. */
  lemma BackToIdleIff(s: State, e: Event)
    requires !s.pc.Idle?
    ensures Step(s, e).pc.Idle? <==>
            match e
            case Crash => true
            case Close => s.pc.Ready?
            case Mark(fails) => fails && s.pc.Marking?
            case Wipe(fails) => fails && s.pc.Wiping?
            case Reopen(fails) => fails && s.pc.Reopening?
            case AddNext(fails) => fails && s.pc.Rebuilding? && s.pc.next < |s.disk.rows|
            case Commit(fails) => fails && s.pc.Rebuilding? && s.pc.next >= |s.disk.rows|
            case _ => false
    ensures Step(s, e).pc.Idle? ==> Step(s, e).disk == s.disk
  {
  }

  /** Each step has its one place, and anywhere else nothing happens; a step that fails leaves the disk alone. */
  lemma StepHasItsPlace(s: State, e: Event)
    ensures Step(s, e) != s ==>
            match e
            case Open => s.pc.Idle?
            case Mark(_) => s.pc.Marking?
            case Wipe(_) => s.pc.Wiping?
            case Reopen(_) => s.pc.Reopening?
            case Decide => s.pc.Opened?
            case AddNext(_) => s.pc.Rebuilding?
            case Commit(_) => s.pc.Rebuilding?
            case ClearMarker(_) => s.pc.Committed?
            case Update(_) => s.pc.Ready?
            case Close => s.pc.Ready?
            case Crash => true
    ensures e.Mark? || e.Wipe? || e.Reopen? || e.AddNext? || e.Commit? || e.ClearMarker? ==>
              (e.fails ==> Step(s, e).disk == s.disk)
  {
    hide Restored;
  }

  /** Stored rows change only while the collection is open. */
  lemma RowsNeedOpen(s: State, e: Event)
    ensures Step(s, e).disk.rows != s.disk.rows ==> s.pc.Ready? && e == Update(Step(s, e).disk.rows)
  {
  }

  /** An unmarked collection takes any update, and is then left with one document for each readable new row. */
  lemma UpdateIsIndexed(d: Disk, rows: seq<Row>)
    requires Sound(d) && d.dir.Current? && !d.marker
    ensures Run(State(d, Idle), [Open, Decide, Update(rows), Close]) ==
            State(Disk(Current(Restored(rows)), false, rows), Idle)
  {
    hide Run, Restored;
    RunFour(State(d, Idle), Open, Decide, Update(rows), Close);
  }

  class Collection {
    var disk: Disk

    constructor (found: Disk)
      ensures disk == found
    {
      disk := found;
    }

    /** One opening: false is the error return. `trace` is the run of the protocol it performs. */
    method Open(f: Faults) returns (ok: bool, ghost trace: seq<Event>)
      requires Sound(disk)
      modifies this
      ensures Sound(disk) && disk.rows == old(disk.rows)
      ensures Run(State(old(disk), Idle), trace) == State(disk, if ok then Ready else Idle)
      ensures ok <==>
              && (old(disk).dir.Old? ==> !f.mark && !f.wipe && !f.reopen)
              && (Rebuilds(old(disk)) ==> !f.commit && (f.badAdd.Some? ==> f.badAdd.value >= |disk.rows|))
      ensures ok ==> var after := AfterOpen(old(disk));
                     disk == after.(marker := after.marker || (Rebuilds(old(disk)) && f.clear))
    {
      ghost var start := State(disk, Idle);
      trace := [Event.Open];
      var wasReset;
      ok, wasReset, trace := OpenOrReset(f);
      if !ok { return; }
      ghost var first := trace;
      trace := first + [Decide];
      RunSnoc(start, first, Decide);
      if (wasReset || disk.marker) && !Refuses(disk) {
        ghost var rebuilt;
        ok, rebuilt := Repopulate(f);
        RunConcat(start, trace, rebuilt);
        trace := trace + rebuilt;
      }
    }

    method OpenOrReset(f: Faults) returns (ok: bool, wasReset: bool, ghost trace: seq<Event>)
      requires Sound(disk)
      modifies this
      ensures Inv(State(disk, if ok then Opened(wasReset) else Idle)) && disk.rows == old(disk.rows)
      ensures Run(State(old(disk), Idle), trace) == State(disk, if ok then Opened(wasReset) else Idle)
      ensures ok ==> disk == if wasReset then Disk(Current(multiset{}), true, disk.rows)
              else old(disk).(dir := Current(Docs(old(disk).dir)))
      ensures ok ==> wasReset == old(disk).dir.Old?
      ensures ok <==> (old(disk).dir.Old? ==> !f.mark && !f.wipe && !f.reopen)
    {
      ghost var start := State(disk, Idle);
      wasReset := false;
      ok := true;
      RunSnoc(start, [], Event.Open);
      trace := [] + [Event.Open];
      if disk.dir.Old? {
        RunSnoc(start, trace, Mark(f.mark));
        trace := trace + [Mark(f.mark)];
        if f.mark { return false, false, trace; }
        disk := disk.(marker := true);
        RunSnoc(start, trace, Wipe(f.wipe));
        trace := trace + [Wipe(f.wipe)];
        if f.wipe { return false, false, trace; }
        disk := disk.(dir := Missing);
        RunSnoc(start, trace, Reopen(f.reopen));
        trace := trace + [Reopen(f.reopen)];
        if f.reopen { return false, false, trace; }
        disk := disk.(dir := Current(multiset{}));
        wasReset := true;
      } else if disk.dir.Missing? {
        disk := disk.(dir := Current(multiset{}));
      }
    }

    /** Adds every readable row to the writer; nothing of it is durable yet. */
    method AddAll(f: Faults) returns (ok: bool, pending: multiset<Doc>, ghost trace: seq<Event>)
      requires disk.dir.Current?
      ensures Run(State(disk, Rebuilding(multiset{}, 0)), trace) ==
              State(disk, if ok then Rebuilding(Restored(disk.rows), |disk.rows|) else Idle)
      ensures ok ==> pending == Restored(disk.rows)
      ensures ok <==> (f.badAdd.Some? ==> f.badAdd.value >= |disk.rows|)
    {
      hide Restored, DocOf, Run;
      ghost var start := State(disk, Rebuilding(multiset{}, 0));
      pending := multiset{};
      trace := [];
      NothingYet(start, disk.rows);
      for n := 0 to |disk.rows|
        invariant pending == Restored(disk.rows[..n])
        invariant Run(start, trace) == State(disk, Rebuilding(pending, n))
        invariant f.badAdd.Some? ==> f.badAdd.value >= n
      {
        ghost var add := AddNext(f.badAdd == Some(n));
        RunSnoc(start, trace, add);
        RestoredNext(disk.rows, n);
        trace := trace + [add];
        if f.badAdd == Some(n) {
          return false, pending, trace;
        }
        pending := pending + DocOf(disk.rows[n]);
      }
      assert disk.rows[..|disk.rows|] == disk.rows;
      ok := true;
    }

    /** Clears the writer, adds every readable row, commits once, and only then removes the marker. */
    method Repopulate(f: Faults) returns (ok: bool, ghost trace: seq<Event>)
      requires Sound(disk) && disk.dir.Current?
      modifies this
      ensures Sound(disk) && disk.rows == old(disk.rows)
      ensures Run(State(old(disk), Rebuilding(multiset{}, 0)), trace) == State(disk, if ok then Ready else Idle)
      ensures ok ==> disk == Disk(Current(Restored(disk.rows)), old(disk).marker && f.clear, disk.rows)
      ensures ok <==> !f.commit && (f.badAdd.Some? ==> f.badAdd.value >= |disk.rows|)
    {
      ghost var start := State(disk, Rebuilding(multiset{}, 0));
      var pending;
      ok, pending, trace := AddAll(f);
      if !ok { return; }
      RunSnoc(start, trace, Commit(f.commit));
      trace := trace + [Commit(f.commit)];
      if f.commit {
        return false, trace;
      }
      disk := disk.(dir := Current(pending));
      RunSnoc(start, trace, ClearMarker(f.clear));
      trace := trace + [ClearMarker(f.clear)];
      if !f.clear {
        disk := disk.(marker := false);
      }
    }
  }

  /** Opening without failures leaves no marker and exactly the readable rows, unless the rebuild
      refused; the refusal is exactly a pending marker over documents that no row stands behind. */
  lemma OpenSettles(d: Disk)
    requires Sound(d)
    ensures AfterOpen(d).dir.Current? && AfterOpen(d).rows == d.rows
    ensures (!AfterOpen(d).marker && AfterOpen(d).dir.docs == Restored(d.rows)) <==>
            !(d.marker && d.dir.Current? && Refuses(d))
    ensures AfterOpen(AfterOpen(d)) == AfterOpen(d)
  {
  }
}
