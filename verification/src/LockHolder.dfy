/**
 The lock-holder sidecar: the process that holds the collection lock writes who it is next to the lock,
 and removes the record before it lets the lock go. Processes take steps in any interleaving; any
 file operation may fail, and a process may crash between any two steps, which frees its lock.
 */
module LockHolder {
  import opened Prelude

  /** Pids are reused; `opener` tells apart two openings that had the same pid. */
  datatype Record = Record(pid: nat, opener: nat)

  datatype Pc =
    | Waiting
    | Locked
    | TmpWritten
    | WriteFailed
    | Holding(named: bool)
    | Removing
    | Cleared
    | Gone

  datatype Proc = Proc(pid: nat, pc: Pc)

  /** `crashed` are the openings that crashed holding the lock, `kept` those that could neither write
      their record nor remove the one they found, `unremoved` those that could not remove their own. */
  datatype State = State(
    lock: Option<nat>,
    sidecar: Option<Record>,
    tmps: map<nat, Record>,
    procs: map<nat, Proc>,
    crashed: set<nat>,
    kept: set<nat>,
    unremoved: set<nat>
  )

  datatype Event =
    | Open(p: nat, pid: nat)
    | Acquire(p: nat)
    | WriteTmp(p: nat, fails: bool)
    | RenameTmp(p: nat, fails: bool)
    | RemoveStale(p: nat, fails: bool)
    | CheckOwn(p: nat)
    | RemoveOwn(p: nat, fails: bool)
    | Release(p: nat)
    | Crash(p: nat)

  predicate OwnsLock(pc: Pc) {
    !pc.Waiting? && !pc.Gone?
  }

  function At(s: State, p: nat, pc: Pc): State
    requires p in s.procs
  {
    s.(procs := s.procs[p := s.procs[p].(pc := pc)])
  }

  function Mine(s: State, p: nat): Record
    requires p in s.procs
  {
    Record(s.procs[p].pid, p)
  }

  predicate Is(s: State, p: nat, pc: Pc) {
    p in s.procs && s.procs[p].pc == pc
  }

  function Step(s: State, e: Event): State {
    match e
    case Open(p, pid) => if p in s.procs then s else s.(procs := s.procs[p := Proc(pid, Waiting)])
    case Acquire(p) => if Is(s, p, Waiting) && s.lock == None then At(s.(lock := Some(p)), p, Locked) else s
    case WriteTmp(p, fails) =>
      if !Is(s, p, Locked) then s
      else if fails then At(s, p, WriteFailed)
      else At(s.(tmps := s.tmps[s.procs[p].pid := Mine(s, p)]), p, TmpWritten)
    case RenameTmp(p, fails) =>
      if !Is(s, p, TmpWritten) || s.procs[p].pid !in s.tmps then s
      else
        var pid := s.procs[p].pid;
        if fails then At(s.(tmps := s.tmps - {pid}), p, WriteFailed)
        else At(s.(sidecar := Some(s.tmps[pid]), tmps := s.tmps - {pid}), p, Holding(true))
    case RemoveStale(p, fails) =>
      if !Is(s, p, WriteFailed) then s
      else if fails then At(s.(kept := s.kept + {p}), p, Holding(false))
      else At(s.(sidecar := None), p, Holding(false))
    case CheckOwn(p) =>
      if p !in s.procs || !s.procs[p].pc.Holding? then s
      else if s.sidecar.Some? && s.sidecar.value.pid == s.procs[p].pid then At(s, p, Removing)
      else At(s, p, Cleared)
    case RemoveOwn(p, fails) =>
      if !Is(s, p, Removing) then s
      else if fails then At(s.(unremoved := s.unremoved + {p}), p, Cleared)
      else At(s.(sidecar := None), p, Cleared)
    case Release(p) => if Is(s, p, Cleared) then At(s.(lock := None), p, Gone) else s
    case Crash(p) =>
      if p !in s.procs then s
      else if OwnsLock(s.procs[p].pc) then At(s.(lock := None, crashed := s.crashed + {p}), p, Gone)
      else At(s, p, Gone)
  }

  function Run(s: State, events: seq<Event>): State {
    if events == [] then s else Step(Run(s, events[..|events| - 1]), events[|events| - 1])
  }

  /** A collection nobody has opened yet; its directory may hold temporary files of the past. */
  function Fresh(tmps: map<nat, Record>): State {
    State(None, None, tmps, map[], {}, {}, {})
  }

  /** Who is remembered: for each failure those it happened to, once and for all. */
  lemma RemembersWhom(s: State, e: Event)
    ensures Step(s, e).crashed ==
            s.crashed + if e.Crash? && e.p in s.procs && OwnsLock(s.procs[e.p].pc) then {e.p} else {}
    ensures Step(s, e).kept == s.kept + if e.RemoveStale? && e.fails && Is(s, e.p, WriteFailed) then {e.p} else {}
    ensures Step(s, e).unremoved ==
            s.unremoved + if e.RemoveOwn? && e.fails && Is(s, e.p, Removing) then {e.p} else {}
  {
  }

  // ---- what every step keeps ----

  ghost predicate LockInv(s: State) {
    && (s.lock.Some? ==> s.lock.value in s.procs && OwnsLock(s.procs[s.lock.value].pc))
    && (forall p :: p in s.procs && OwnsLock(s.procs[p].pc) ==> s.lock == Some(p))
  }

  /** The opening a record speaks of has it in force, or left it behind. */
  ghost predicate Accounted(s: State, r: Record) {
    && r.opener in s.procs && r.pid == s.procs[r.opener].pid
    && (s.procs[r.opener].pc.Holding? || s.procs[r.opener].pc.Removing? || r.opener in s.crashed ||
       r.opener in s.unremoved)
  }

  ghost predicate HolderInv(s: State, p: nat)
    requires p in s.procs
  {
    match s.procs[p].pc
    case TmpWritten => s.procs[p].pid in s.tmps && s.tmps[s.procs[p].pid] == Mine(s, p)
    case Holding(named) => if named then s.sidecar == Some(Mine(s, p))
      else s.sidecar.None? || (p in s.kept && s.sidecar.value.opener != p)
    case Removing => s.sidecar.Some? && s.sidecar.value.pid == s.procs[p].pid &&
      (s.sidecar.value.opener != p ==> p in s.kept)
    case _ => s.sidecar.Some? && s.sidecar.value.opener == p ==> p in s.crashed || p in s.unremoved
  }

  ghost predicate Inv(s: State) {
    && LockInv(s)
    && (s.sidecar.Some? ==> Accounted(s, s.sidecar.value))
    && (forall p :: p in s.procs ==> HolderInv(s, p))
    && (forall p :: p in s.crashed ==> p in s.procs && s.procs[p].pc.Gone?)
    && (forall p :: p in s.unremoved ==> p in s.procs && (s.procs[p].pc.Cleared? || s.procs[p].pc.Gone?))
  }

  lemma OpenKeeps(s: State, p: nat, pid: nat)
    requires Inv(s)
    ensures Inv(Step(s, Open(p, pid)))
  {
  }

  lemma AcquireKeeps(s: State, p: nat)
    requires Inv(s)
    ensures Inv(Step(s, Acquire(p)))
  {
  }

  lemma WriteTmpKeeps(s: State, p: nat, fails: bool)
    requires Inv(s)
    ensures Inv(Step(s, WriteTmp(p, fails)))
  {
  }

  lemma RenameTmpKeeps(s: State, p: nat, fails: bool)
    requires Inv(s)
    ensures Inv(Step(s, RenameTmp(p, fails)))
  {
  }

  lemma RemoveStaleKeeps(s: State, p: nat, fails: bool)
    requires Inv(s)
    ensures Inv(Step(s, RemoveStale(p, fails)))
  {
  }

  lemma CheckOwnKeeps(s: State, p: nat)
    requires Inv(s)
    ensures Inv(Step(s, CheckOwn(p)))
  {
  }

  lemma RemoveOwnKeeps(s: State, p: nat, fails: bool)
    requires Inv(s)
    ensures Inv(Step(s, RemoveOwn(p, fails)))
  {
  }

  lemma ReleaseKeeps(s: State, p: nat)
    requires Inv(s)
    ensures Inv(Step(s, Release(p)))
  {
  }

  lemma CrashKeeps(s: State, p: nat)
    requires Inv(s)
    ensures Inv(Step(s, Crash(p)))
  {
  }

  lemma StepKeeps(s: State, e: Event)
    requires Inv(s)
    ensures Inv(Step(s, e))
  {
    match e
    case Open(p, pid) => OpenKeeps(s, p, pid);
    case Acquire(p) => AcquireKeeps(s, p);
    case WriteTmp(p, fails) => WriteTmpKeeps(s, p, fails);
    case RenameTmp(p, fails) => RenameTmpKeeps(s, p, fails);
    case RemoveStale(p, fails) => RemoveStaleKeeps(s, p, fails);
    case CheckOwn(p) => CheckOwnKeeps(s, p);
    case RemoveOwn(p, fails) => RemoveOwnKeeps(s, p, fails);
    case Release(p) => ReleaseKeeps(s, p);
    case Crash(p) => CrashKeeps(s, p);
  }

  lemma {:induction false} RunKeeps(s: State, events: seq<Event>)
    requires Inv(s)
    ensures Inv(Run(s, events))
  {
    if events != [] {
      RunKeeps(s, events[..|events| - 1]);
      StepKeeps(Run(s, events[..|events| - 1]), events[|events| - 1]);
    }
  }

  // ---- what a reader of the sidecar can rely on ----

  /** Past recording, the sidecar names the holder or is absent, unless the holder could neither write
      its own record nor remove the one it found. */
  lemma HolderIsNamed(tmps: map<nat, Record>, events: seq<Event>, p: nat)
    requires var s := Run(Fresh(tmps), events); p in s.procs && s.procs[p].pc.Holding?
    ensures var s := Run(Fresh(tmps), events);
            && s.lock == Some(p)
            && (s.procs[p].pc.named ==> s.sidecar == Some(Mine(s, p)))
            && (s.sidecar.Some? && s.sidecar.value.opener != p ==> p in s.kept)
  {
    RunKeeps(Fresh(tmps), events);
  }

  /** When the lock is free, a sidecar names an opening that crashed holding the lock, or whose own
      removal failed. */
  lemma FreeLockNamesTheDead(tmps: map<nat, Record>, events: seq<Event>)
    requires Run(Fresh(tmps), events).lock == None && Run(Fresh(tmps), events).sidecar.Some?
    ensures var s := Run(Fresh(tmps), events);
            var r := s.sidecar.value;
            && r.opener in s.procs && r.pid == s.procs[r.opener].pid && s.procs[r.opener].pc.Gone?
            && (r.opener in s.crashed || r.opener in s.unremoved)
  {
    RunKeeps(Fresh(tmps), events);
  }

  function Actor(e: Event): nat {
    e.p
  }

  /** No step takes away the record of another opening that still holds the lock. */
  lemma RecordsAreSpared(s: State, e: Event)
    requires Inv(s) && s.sidecar.Some? && Step(s, e).sidecar != s.sidecar
    ensures var owner := s.sidecar.value.opener;
            owner == Actor(e) || !OwnsLock(s.procs[owner].pc)
  {
  }

  ghost predicate Leaves(s: State, p: nat, pid: nat) {
    p in s.procs && s.procs[p].pid == pid && (s.procs[p].pc.TmpWritten? || p in s.crashed)
  }

  ghost predicate TmpsAccounted(s: State, found: set<nat>) {
    forall pid :: pid in s.tmps && pid !in found ==> exists p :: Leaves(s, p, pid)
  }

  lemma StepKeepsTmps(s: State, e: Event, found: set<nat>)
    requires Inv(s) && TmpsAccounted(s, found)
    ensures TmpsAccounted(Step(s, e), found)
  {
    hide Inv, HolderInv, Accounted;
    var t := Step(s, e);
    forall pid | pid in t.tmps && pid !in found
      ensures exists p :: Leaves(t, p, pid)
    {
      if pid in s.tmps {
        var p :| Leaves(s, p, pid);
        assert Leaves(t, p, pid);
      } else {
        assert Leaves(t, Actor(e), pid);
      }
    }
  }

  /** A temporary file stands only between writing and renaming: in every run each one that was not found at the start
      is of an opening that is right there, or of one that crashed. */
  lemma TmpsAreInUse(tmps: map<nat, Record>, events: seq<Event>, pid: nat)
    requires pid in Run(Fresh(tmps), events).tmps
    ensures pid in tmps || exists p :: Leaves(Run(Fresh(tmps), events), p, pid)
  {
    TmpsRun(tmps, events);
  }

  lemma {:induction false} TmpsRun(tmps: map<nat, Record>, events: seq<Event>)
    ensures TmpsAccounted(Run(Fresh(tmps), events), tmps.Keys)
  {
    if events != [] {
      TmpsRun(tmps, events[..|events| - 1]);
      RunKeeps(Fresh(tmps), events[..|events| - 1]);
      StepKeepsTmps(Run(Fresh(tmps), events[..|events| - 1]), events[|events| - 1], tmps.Keys);
    }
  }

  predicate Smooth(e: Event) {
    !e.Crash? && ((e.WriteTmp? || e.RenameTmp? || e.RemoveStale? || e.RemoveOwn?) ==> !e.fails)
  }

  ghost predicate Unhurt(s: State) {
    && s.crashed == {} && s.kept == {} && s.unremoved == {}
    && forall p :: p in s.procs ==> !s.procs[p].pc.WriteFailed? && s.procs[p].pc != Holding(false)
  }

  lemma {:induction false} SmoothRunIsUnhurt(s: State, events: seq<Event>)
    requires Unhurt(s) && forall e :: e in events ==> Smooth(e)
    ensures Unhurt(Run(s, events))
  {
    if events != [] {
      SmoothRunIsUnhurt(s, events[..|events| - 1]);
      assert Smooth(events[|events| - 1]);
    }
  }

  /** Without failures the sidecar is there exactly while some opening is between recording and
      removing, and then it is that opening's record. */
  lemma SmoothSidecarIffHeld(tmps: map<nat, Record>, events: seq<Event>, r: Record)
    requires forall e :: e in events ==> Smooth(e)
    ensures var s := Run(Fresh(tmps), events);
            s.sidecar == Some(r) <==>
            (r.opener in s.procs && r == Mine(s, r.opener) &&
              (s.procs[r.opener].pc == Holding(true) || s.procs[r.opener].pc.Removing?))
  {
    RunKeeps(Fresh(tmps), events);
    SmoothRunIsUnhurt(Fresh(tmps), events);
  }

  lemma RunThree(s: State, a: Event, b: Event, c: Event)
    ensures Run(s, [a, b, c]) == Step(Step(Step(s, a), b), c)
  {
    assert [a, b, c][..2] == [a, b] && [a, b][..1] == [a] && [a][..0] == [];
    assert Run(s, [a]) == Step(s, a);
    assert Run(s, [a, b]) == Step(Run(s, [a]), b);
  }

  lemma RunFour(s: State, a: Event, b: Event, c: Event, d: Event)
    ensures Run(s, [a, b, c, d]) == Step(Step(Step(Step(s, a), b), c), d)
  {
    hide Step;
    assert [a, b, c, d][..3] == [a, b, c];
    RunThree(s, a, b, c);
  }

  /** A free lock is there to be taken: an opening that nothing disturbs names itself. */
  lemma UndisturbedHolds(s: State, p: nat, pid: nat)
    requires p !in s.procs && s.lock == None
    ensures Run(s, [Open(p, pid), Acquire(p), WriteTmp(p, false), RenameTmp(p, false)]) ==
            s.(lock := Some(p), sidecar := Some(Record.Record(pid, p)), tmps := s.tmps - {pid},
               procs := s.procs[p := Proc(pid, Holding(true))])
  {
    RunFour(s, Open(p, pid), Acquire(p), WriteTmp(p, false), RenameTmp(p, false));
    var waiting := Step(s, Open(p, pid));
    var locked := Step(waiting, Acquire(p));
    assert locked == s.(lock := Some(p), procs := s.procs[p := Proc(pid, Locked)]);
    var written := Step(locked, WriteTmp(p, false));
    assert written.procs == s.procs[p := Proc(pid, TmpWritten)];
    assert written.tmps - {pid} == s.tmps - {pid};
    assert Step(written, RenameTmp(p, false)).procs == s.procs[p := Proc(pid, Holding(true))];
  }

  /** And it leaves both the lock and the sidecar free. */
  lemma UndisturbedLeaves(s: State, p: nat)
    requires p in s.procs && s.lock == Some(p) && s.procs[p].pc == Holding(true) && s.sidecar == Some(Mine(s, p))
    ensures Run(s, [CheckOwn(p), RemoveOwn(p, false), Release(p)]) ==
            s.(lock := None, sidecar := None, procs := s.procs[p := Proc(s.procs[p].pid, Gone)])
  {
    RunThree(s, CheckOwn(p), RemoveOwn(p, false), Release(p));
    var removing := Step(s, CheckOwn(p));
    assert removing == At(s, p, Removing);
    var cleared := Step(removing, RemoveOwn(p, false));
    assert cleared == s.(sidecar := None, procs := s.procs[p := Proc(s.procs[p].pid, Cleared)]);
    assert Step(cleared, Release(p)).procs == s.procs[p := Proc(s.procs[p].pid, Gone)];
  }

  /** A crash frees the lock of its holder, and touches no file and no other opening. */
  lemma CrashFrees(s: State, p: nat)
    requires LockInv(s) && p in s.procs
    ensures var t := Step(s, Crash(p));
            && Is(t, p, Gone) && t.lock != Some(p) && (s.lock != Some(p) ==> t.lock == s.lock)
            && t.sidecar == s.sidecar && t.tmps == s.tmps && t.procs - {p} == s.procs - {p}
  {
  }

  // ---- the guard ----

  /** What recording leaves behind: the own record, nothing, or what neither step could get rid of. */
  function Recorded(content: Option<Record>, me: Record, writeFails: bool, renameFails: bool,
      removeFails: bool): Option<Record> {
    if !writeFails && !renameFails then Some(me)
    else if removeFails then content
    else None
  }

  /** What dropping the guard leaves behind: only a record with the own pid goes. */
  function Dropped(content: Option<Record>, me: Record, removeFails: bool): Option<Record> {
    if content.Some? && content.value.pid == me.pid && !removeFails then None else content
  }

  function RecordEvents(p: nat, writeFails: bool, renameFails: bool, removeFails: bool): seq<Event> {
    [WriteTmp(p, writeFails), RenameTmp(p, renameFails), RemoveStale(p, removeFails)]
  }

  /** The guard's constructor is the three steps of the protocol. */
  lemma RecordIsSteps(s: State, p: nat, writeFails: bool, renameFails: bool, removeFails: bool)
    requires Is(s, p, Locked)
    ensures var t := Run(s, RecordEvents(p, writeFails, renameFails, removeFails));
            && t.sidecar == Recorded(s.sidecar, Mine(s, p), writeFails, renameFails, removeFails)
            && Is(t, p, Holding(!writeFails && !renameFails))
  {
    RunThree(s, WriteTmp(p, writeFails), RenameTmp(p, renameFails), RemoveStale(p, removeFails));
  }

  lemma DropIsSteps(s: State, p: nat, removeFails: bool)
    requires p in s.procs && s.procs[p].pc.Holding?
    ensures var t := Step(Step(s, CheckOwn(p)), RemoveOwn(p, removeFails));
            t.sidecar == Dropped(s.sidecar, Mine(s, p), removeFails) && Is(t, p, Cleared)
  {
  }

  class Sidecar {
    var content: Option<Record>

    constructor (found: Option<Record>)
      ensures content == found
    {
      content := found;
    }

    /** Creates the guard: temporary file, rename, and on failure the removal of any older record. */
    method Record(me: Record, writeFails: bool, renameFails: bool, removeFails: bool)
      modifies this
      ensures content == Recorded(old(content), me, writeFails, renameFails, removeFails)
    {
      var written := false;
      if !writeFails {
        var tmp := me;
        if !renameFails {
          content := Some(tmp);
          written := true;
        }
      }
      if !written && !removeFails {
        content := None;
      }
    }

    /** Drops the guard: removes the record if it names this pid. */
    method Drop(me: Record, removeFails: bool)
      modifies this
      ensures content == Dropped(old(content), me, removeFails)
    {
      if content.Some? && content.value.pid == me.pid {
        if !removeFails {
          content := None;
        }
      }
    }
  }
}
