/**
 The split cache layout: legacy entries at the collection root are renamed, one by one and by any
 number of processes, into `models/` and `index/`, while readers resolve each artifact on its own.
 */
module CacheLayout {
  import opened Prelude

  /** A directory entry: a file with its length, a directory, or something that is neither. */
  datatype Node = File(len: nat) | Dir(entries: seq<Node>) | Special

  /** Where an entry of a collection can stand. */
  datatype Loc = AtRoot(name: string) | InModels(name: string) | InIndex(name: string)

  type Disk = map<Loc, Node>

  predicate IsModelName(name: string) {
    "models--" <= name
  }

  predicate IsIndexName(name: string) {
    name == "tantivy" || name == "vectors" || name == "engine.redb"
  }

  /** The new home of a root entry; unknown entries have none. */
  function Target(name: string): Option<Loc> {
    if IsModelName(name) then Some(InModels(name))
    else if IsIndexName(name) then Some(InIndex(name))
    else None
  }

  function Lookup(disk: Disk, l: Loc): Option<Node> {
    if l in disk then Some(disk[l]) else None
  }

  /** A recognised root entry whose new home is free. */
  predicate Movable(disk: Disk, name: string) {
    AtRoot(name) in disk && Target(name).Some? && Target(name).value !in disk
  }

  function Rename(disk: Disk, from: Loc, to: Loc): Disk
    requires from in disk
  {
    disk[to := disk[from]] - {from}
  }

  // ---- readers ----

  /** The path `model_dir` and `index_artifact` return when the two checks see two different disks. */
  function ResolvePath(first: Disk, second: Disk, name: string): Loc
    requires Target(name).Some?
  {
    if Target(name).value in first then Target(name).value
    else if AtRoot(name) in second then AtRoot(name)
    else Target(name).value
  }

  function Resolve(disk: Disk, name: string): Option<Node>
    requires Target(name).Some?
  {
    Lookup(disk, ResolvePath(disk, disk, name))
  }

  datatype LayoutState = Split | Legacy | Partial

  ghost predicate HasLegacy(disk: Disk) {
    exists l :: l in disk && l.AtRoot? && Target(l.name).Some?
  }

  ghost predicate HasNew(disk: Disk) {
    exists l :: l in disk && !l.AtRoot? && Target(l.name) == Some(l)
  }

  ghost function Detect(disk: Disk): LayoutState {
    if !HasLegacy(disk) then Split else if HasNew(disk) then Partial else Legacy
  }

  // ---- what every run leads to ----

  /** What stands at `l` once every movable entry has moved. */
  function SettledAt(disk: Disk, l: Loc): Option<Node> {
    if l.AtRoot? then (if Movable(disk, l.name) then None else Lookup(disk, l))
    else if l in disk then Some(disk[l])
    else if Target(l.name) == Some(l) then Lookup(disk, AtRoot(l.name))
    else None
  }

  ghost predicate SameSettled(a: Disk, b: Disk) {
    forall l :: SettledAt(a, l) == SettledAt(b, l)
  }

  /** Readers see on any disk what stands in the new home once everything has moved. */
  lemma ResolveIsSettled(disk: Disk, name: string)
    requires Target(name).Some?
    ensures Resolve(disk, name) == SettledAt(disk, Target(name).value)
  {
  }

  lemma MoveKeepsSettled(disk: Disk, name: string)
    requires Movable(disk, name)
    ensures SameSettled(disk, Rename(disk, AtRoot(name), Target(name).value))
  {
    var moved := Rename(disk, AtRoot(name), Target(name).value);
    forall l
      ensures SettledAt(disk, l) == SettledAt(moved, l)
    {
      assert forall k: Loc :: k != AtRoot(name) && k != Target(name).value ==>
             (k in moved <==> k in disk) && (k in disk ==> moved[k] == disk[k]);
    }
  }

  lemma MovableAfter(disk: Disk, name: string)
    requires Movable(disk, name)
    ensures forall n :: Movable(Rename(disk, AtRoot(name), Target(name).value), n) <==> Movable(disk, n) && n != name
  {
  }

  // ---- sizes ----

  function NodeSize(n: Node): nat
    decreases n, 1
  {
    match n
    case File(len) => len
    case Dir(entries) => EntriesSize(n, entries, 0)
    case Special => 0
  }

  function EntriesSize(n: Node, entries: seq<Node>, from: nat): nat
    requires n == Dir(entries) && from <= |entries|
    decreases n, 0, |entries| - from
  {
    if from == |entries| then 0 else NodeSize(entries[from]) + EntriesSize(n, entries, from + 1)
  }

  ghost function SizeOf(disk: Disk, locs: set<Loc>): nat
    requires locs <= disk.Keys
    decreases |locs|
  {
    if locs == {} then 0
    else
      var l :| l in locs;
      NodeSize(disk[l]) + SizeOf(disk, locs - {l})
  }

  lemma {:induction false} SizeSplit(disk: Disk, locs: set<Loc>, k: Loc)
    requires locs <= disk.Keys && k in locs
    ensures SizeOf(disk, locs) == NodeSize(disk[k]) + SizeOf(disk, locs - {k})
    decreases |locs|
  {
    var l :| l in locs && SizeOf(disk, locs) == NodeSize(disk[l]) + SizeOf(disk, locs - {l});
    if l != k {
      SizeSplit(disk, locs - {l}, k);
      SizeSplit(disk, locs - {k}, l);
      assert locs - {l} - {k} == locs - {k} - {l};
    }
  }

  lemma {:induction false} SizeSame(a: Disk, b: Disk, locs: set<Loc>)
    requires locs <= a.Keys && locs <= b.Keys && forall l :: l in locs ==> a[l] == b[l]
    ensures SizeOf(a, locs) == SizeOf(b, locs)
    decreases |locs|
  {
    if locs != {} {
      var l :| l in locs;
      SizeSplit(a, locs, l);
      SizeSplit(b, locs, l);
      SizeSame(a, b, locs - {l});
    }
  }

  /** What `models_size_bytes` adds up: all of `models/`, and the model directories still at the root. */
  predicate CountsAsModel(l: Loc) {
    l.InModels? || (l.AtRoot? && IsModelName(l.name))
  }

  ghost function ModelsSize(disk: Disk): nat {
    SizeOf(disk, set l | l in disk && CountsAsModel(l))
  }

  function ArtifactSize(disk: Disk, name: string): nat
    requires Target(name).Some?
  {
    match Resolve(disk, name)
    case None => 0
    case Some(n) => NodeSize(n)
  }

  function IndexSize(disk: Disk): nat {
    ArtifactSize(disk, "tantivy") + ArtifactSize(disk, "vectors") + ArtifactSize(disk, "engine.redb")
  }

  lemma MoveKeepsModelsSize(disk: Disk, name: string)
    requires Movable(disk, name)
    ensures ModelsSize(Rename(disk, AtRoot(name), Target(name).value)) == ModelsSize(disk)
  {
    var from, to := AtRoot(name), Target(name).value;
    var moved := Rename(disk, from, to);
    var before := set l | l in disk && CountsAsModel(l);
    var after := set l | l in moved && CountsAsModel(l);
    if IsModelName(name) {
      assert after - {to} == before - {from};
      SizeSplit(disk, before, from);
      SizeSplit(moved, after, to);
      SizeSame(disk, moved, before - {from});
    } else {
      assert after == before;
      SizeSame(disk, moved, before);
    }
  }

  lemma SettledSizes(a: Disk, b: Disk)
    requires SameSettled(a, b)
    ensures IndexSize(a) == IndexSize(b)
  {
    assert forall l :: SettledAt(a, l) == SettledAt(b, l);
    ArtifactSettled(a, b, "tantivy");
    ArtifactSettled(a, b, "vectors");
    ArtifactSettled(a, b, "engine.redb");
  }

  lemma ArtifactSettled(a: Disk, b: Disk, name: string)
    requires SameSettled(a, b) && Target(name).Some?
    ensures Resolve(a, name) == Resolve(b, name)
  {
    ResolveIsSettled(a, name);
    ResolveIsSettled(b, name);
  }

  // ---- any number of interleaved migrations ----

  /** One process inside `migrate`: entries still to visit, or about to rename an entry whose home it saw free. */
  datatype Pc = Walking(todo: seq<string>) | Moving(name: string, todo: seq<string>) | Ended

  datatype State = State(disk: Disk, procs: map<int, Pc>)

  /** A listing may be stale: the names are whatever the directory iterator produced. */
  datatype Event = Start(p: int, listing: seq<string>) | Check(p: int) | Move(p: int, fails: bool) | Crash(p: int)

  function Visit(s: State, p: int, todo: seq<string>): State {
    if todo == [] then s.(procs := s.procs[p := Ended])
    else
      var name := todo[0];
      if Target(name).None? || Target(name).value in s.disk then s.(procs := s.procs[p := Walking(todo[1..])])
      else s.(procs := s.procs[p := Moving(name, todo[1..])])
  }

  /** The rename replaces whatever stands at the target; a missing source makes it fail. */
  function Finish(s: State, p: int, name: string, todo: seq<string>, fails: bool): State {
    if fails || AtRoot(name) !in s.disk || Target(name).None? then s.(procs := s.procs[p := Ended])
    else State(Rename(s.disk, AtRoot(name), Target(name).value), s.procs[p := Walking(todo)])
  }

  function Step(s: State, e: Event): State {
    match e
    case Start(p, listing) => s.(procs := s.procs[p := Walking(listing)])
    case Check(p) => if p in s.procs && s.procs[p].Walking? then Visit(s, p, s.procs[p].todo) else s
    case Move(p, fails) =>
      if p in s.procs && s.procs[p].Moving? then Finish(s, p, s.procs[p].name, s.procs[p].todo, fails) else s
    case Crash(p) => s.(procs := s.procs[p := Ended])
  }

  function Run(s: State, events: seq<Event>): State {
    if events == [] then s else Step(Run(s, events[..|events| - 1]), events[|events| - 1])
  }

  /** A name some process is about to move is either gone from the root or still has a free home. */
  ghost predicate Inv(s: State) {
    forall p :: p in s.procs && s.procs[p].Moving? ==>
      Target(s.procs[p].name).Some? && (AtRoot(s.procs[p].name) in s.disk ==> Movable(s.disk, s.procs[p].name))
  }

  /** One step moves at most one entry, never onto another. */
  lemma StepKeeps(s: State, e: Event)
    requires Inv(s)
    ensures Inv(Step(s, e))
    ensures SameSettled(s.disk, Step(s, e).disk) && ModelsSize(Step(s, e).disk) == ModelsSize(s.disk)
    ensures Step(s, e).disk == s.disk ||
            exists name :: Movable(s.disk, name) && Step(s, e).disk == Rename(s.disk, AtRoot(name), Target(name).value)
  {
    if e.Move? && Step(s, e).disk != s.disk {
      var name := s.procs[e.p].name;
      MoveKeepsSettled(s.disk, name);
      MoveKeepsModelsSize(s.disk, name);
    }
  }

  lemma {:induction false} RunKeeps(s: State, events: seq<Event>)
    requires Inv(s)
    ensures Inv(Run(s, events))
    ensures SameSettled(s.disk, Run(s, events).disk) && ModelsSize(Run(s, events).disk) == ModelsSize(s.disk)
  {
    if events != [] {
      RunKeeps(s, events[..|events| - 1]);
      StepKeeps(Run(s, events[..|events| - 1]), events[|events| - 1]);
    }
  }

  /** Before any migration has started. */
  function Quiet(disk: Disk): State {
    State(disk, map[])
  }

  /** In every reachable state every artifact resolves to what it resolved to at the start, and both
      sizes are what they were. */
  lemma ArtifactsSurvive(disk: Disk, events: seq<Event>, name: string)
    requires Target(name).Some?
    ensures Resolve(Run(Quiet(disk), events).disk, name) == Resolve(disk, name)
    ensures ModelsSize(Run(Quiet(disk), events).disk) == ModelsSize(disk)
    ensures IndexSize(Run(Quiet(disk), events).disk) == IndexSize(disk)
  {
    RunKeeps(Quiet(disk), events);
    ArtifactSettled(disk, Run(Quiet(disk), events).disk, name);
    SettledSizes(disk, Run(Quiet(disk), events).disk);
  }

  ghost predicate Stands(disk: Disk, l: Loc, n: Option<Node>) {
    Lookup(disk, l) == n
  }

  /** A reader whose two checks fall at two moments of a run gets a path at which, at one of the two,
      the artifact stood with its original content; with no artifact, the new home, still free. */
  lemma ReaderDuringRun(disk: Disk, events: seq<Event>, i: nat, j: nat, name: string)
    requires Target(name).Some? && i <= j <= |events|
    ensures var first, second := Run(Quiet(disk), events[..i]).disk, Run(Quiet(disk), events[..j]).disk;
            var path := ResolvePath(first, second, name);
            && (Stands(first, path, Resolve(disk, name)) || Stands(second, path, Resolve(disk, name)))
            && (Resolve(disk, name).None? ==> path == Target(name).value)
  {
    ArtifactsSurvive(disk, events[..i], name);
    ArtifactsSurvive(disk, events[..j], name);
  }

  // ---- one run to its end ----

  /** Nothing left to move: every recognised entry is in its new home, or its home is taken. */
  ghost predicate Settled(disk: Disk) {
    forall name :: !Movable(disk, name)
  }

  /** Two settled disks from the same start are the same disk: failures, retries and races do not show. */
  lemma SettledIsUnique(a: Disk, b: Disk)
    requires SameSettled(a, b) && Settled(a) && Settled(b)
    ensures a == b
  {
    forall l
      ensures Lookup(a, l) == Lookup(b, l)
    {
      assert SettledAt(a, l) == SettledAt(b, l);
      assert !Movable(a, l.name) && !Movable(b, l.name);
    }
    LookupIsAll(a, b);
  }

  lemma LookupIsAll(a: Disk, b: Disk)
    requires forall l :: Lookup(a, l) == Lookup(b, l)
    ensures a == b
  {
    forall l
      ensures l in a <==> l in b
      ensures l in a ==> a[l] == b[l]
    {
      assert Lookup(a, l) == Lookup(b, l);
    }
  }

  ghost predicate HasTwin(disk: Disk) {
    exists name :: AtRoot(name) in disk && Target(name).Some? && Target(name).value in disk
  }

  /** A finished migration is `Split` unless some artifact stood in both places at the start; then it is
      `Partial`. It is never `Legacy`. */
  lemma MigratedIsSplitIffNoTwin(start: Disk, end: Disk)
    requires SameSettled(start, end) && Settled(end)
    ensures Detect(end) == if HasTwin(start) then Partial else Split
  {
    if HasTwin(start) {
      var name :| AtRoot(name) in start && Target(name).Some? && Target(name).value in start;
      TwinStays(start, end, name);
    } else if HasLegacy(end) {
      var l :| l in end && l.AtRoot? && Target(l.name).Some?;
      LegacyWasTwin(start, end, l);
    }
  }

  lemma TwinStays(start: Disk, end: Disk, name: string)
    requires SameSettled(start, end) && Settled(end)
    requires AtRoot(name) in start && Target(name).Some? && Target(name).value in start
    ensures AtRoot(name) in end && Target(name).value in end && Target(name).value.name == name && HasLegacy(end) &&
            HasNew(end)
  {
    assert SettledAt(start, AtRoot(name)) == SettledAt(end, AtRoot(name));
    assert SettledAt(start, Target(name).value) == SettledAt(end, Target(name).value);
    assert !Movable(end, name);
    assert AtRoot(name).name == name;
  }

  lemma LegacyWasTwin(start: Disk, end: Disk, l: Loc)
    requires SameSettled(start, end) && Settled(end) && l in end && l.AtRoot? && Target(l.name).Some?
    ensures HasTwin(start)
  {
    assert SettledAt(start, l) == SettledAt(end, l);
    assert !Movable(end, l.name);
    assert AtRoot(l.name) in start && Target(l.name).value in start;
  }

  /** Whatever interleaving, failures and crashes came before, finishing the migration gives the disk
      that an undisturbed migration would have given. */
  lemma RetryPicksUp(disk: Disk, events: seq<Event>, clean: Disk, retried: Disk)
    requires SameSettled(disk, clean) && Settled(clean)
    requires SameSettled(Run(Quiet(disk), events).disk, retried) && Settled(retried)
    ensures clean == retried
  {
    RunKeeps(Quiet(disk), events);
    forall l
      ensures SettledAt(clean, l) == SettledAt(retried, l)
    {
      assert SettledAt(disk, l) == SettledAt(clean, l);
      assert SettledAt(disk, l) == SettledAt(Run(Quiet(disk), events).disk, l) == SettledAt(retried, l);
    }
    SettledIsUnique(clean, retried);
  }

  // ---- one process on its own ----

  /** The directory is listed, and each entry is looked at and moved if its home is free. */
  function Walk(p: int, listing: seq<string>, n: nat): seq<Event> {
    if n == 0 then [Start(p, listing)] else Walk(p, listing, n - 1) + [Check(p), Move(p, false)]
  }

  ghost predicate WalkedTo(start: Disk, s: State, p: int, listing: seq<string>, n: nat)
    requires n <= |listing|
  {
    && p in s.procs && s.procs[p] == Walking(listing[n..])
    && (forall k :: n <= k < |listing| ==> AtRoot(listing[k]) in s.disk)
    && (forall name :: Movable(s.disk, name) ==> Movable(start, name) && name !in listing[..n])
  }

  lemma WalkStep(start: Disk, s: State, p: int, listing: seq<string>, n: nat)
    requires n < |listing| && WalkedTo(start, s, p, listing, n) && Distinct(listing)
    ensures WalkedTo(start, Step(Step(s, Check(p)), Move(p, false)), p, listing, n + 1)
  {
    var name := listing[n];
    assert listing[n..][0] == name && listing[n..][1..] == listing[n + 1..];
    assert listing[..n + 1] == listing[..n] + [name];
    var next := Step(Step(s, Check(p)), Move(p, false));
    if Movable(s.disk, name) {
      assert Step(s, Check(p)) == s.(procs := s.procs[p := Moving(name, listing[n + 1..])]);
      MovableAfter(s.disk, name);
      assert next == State(Rename(s.disk, AtRoot(name), Target(name).value), s.procs[p := Walking(listing[n + 1..])]);
    } else {
      assert next == s.(procs := s.procs[p := Walking(listing[n + 1..])]);
    }
  }

  /** A listing as the directory gives it: every root entry once. */
  predicate Distinct(listing: seq<string>) {
    forall i, j :: 0 <= i < j < |listing| ==> listing[i] != listing[j]
  }

  lemma {:induction false} WalkIsWalked(start: Disk, p: int, listing: seq<string>, n: nat)
    requires n <= |listing| && Distinct(listing) && forall k :: 0 <= k < |listing| ==> AtRoot(listing[k]) in start
    ensures WalkedTo(start, Run(Quiet(start), Walk(p, listing, n)), p, listing, n)
  {
    hide Movable, Step;
    var before := Run(Quiet(start), Walk(p, listing, n));
    if n > 0 {
      WalkIsWalked(start, p, listing, n - 1);
      RunTwo(Quiet(start), Walk(p, listing, n - 1), Check(p), Move(p, false));
      WalkStep(start, Run(Quiet(start), Walk(p, listing, n - 1)), p, listing, n - 1);
    } else {
      WalkStarts(start, p, listing);
    }
  }

  lemma WalkStarts(start: Disk, p: int, listing: seq<string>)
    requires forall k :: 0 <= k < |listing| ==> AtRoot(listing[k]) in start
    ensures WalkedTo(start, Run(Quiet(start), [Start(p, listing)]), p, listing, 0)
  {
    assert [Start(p, listing)][..0] == [] && listing[0..] == listing;
  }

  lemma RunTwo(s: State, events: seq<Event>, e: Event, f: Event)
    ensures Run(s, events + [e, f]) == Step(Step(Run(s, events), e), f)
  {
    assert (events + [e, f])[..|events| + 1] == events + [e] && (events + [e])[..|events|] == events;
  }

  lemma WalkEnds(start: Disk, end: State, p: int, listing: seq<string>)
    requires WalkedTo(start, end, p, listing, |listing|) && forall name :: AtRoot(name) in start <==> name in listing
    ensures Settled(end.disk) && Step(end, Check(p)).procs == end.procs[p := Ended]
  {
    assert listing[..|listing|] == listing;
  }

  /** A process that nothing disturbs moves everything that can move, and so ends as every finished migration does. */
  lemma WalkSettles(start: Disk, p: int, listing: seq<string>)
    requires Distinct(listing) && forall name :: AtRoot(name) in start <==> name in listing
    ensures var end := Run(Quiet(start), Walk(p, listing, |listing|));
            && Settled(end.disk) && IsMigrated(start, end.disk)
            && Step(end, Check(p)).procs == end.procs[p := Ended]
  {
    hide Run, Step, Walk, WalkedTo, Settled, IsMigrated, StrangersStay, SameSettled;
    var end := Run(Quiet(start), Walk(p, listing, |listing|));
    WalkIsWalked(start, p, listing, |listing|);
    WalkEnds(start, end, p, listing);
    RunKeeps(Quiet(start), Walk(p, listing, |listing|));
    RunSparesStrangers(start, Walk(p, listing, |listing|));
    SettledIsMigrated(start, end.disk);
  }

  /** A rename that fails and a crash end the process and change nothing on disk. */
  lemma FailureEnds(s: State, p: int)
    ensures Step(s, Crash(p)) == s.(procs := s.procs[p := Ended])
    ensures p in s.procs && s.procs[p].Moving? ==> Step(s, Move(p, true)) == s.(procs := s.procs[p := Ended])
  {
  }

  // ---- what the sizes add up ----

  /** A file counts its length, a directory what its entries count, anything else nothing. */
  lemma NodeSizes(len: nat, entries: seq<Node>, last: Node)
    ensures NodeSize(File(len)) == len && NodeSize(Special) == 0 && NodeSize(Dir([])) == 0
    ensures NodeSize(Dir(entries + [last])) == NodeSize(Dir(entries)) + NodeSize(last)
  {
    EntriesSnoc(entries, last, 0);
  }

  lemma {:induction false} EntriesSnoc(entries: seq<Node>, last: Node, from: nat)
    requires from <= |entries|
    ensures EntriesSize(Dir(entries + [last]), entries + [last], from) ==
            EntriesSize(Dir(entries), entries, from) + NodeSize(last)
    decreases |entries| - from
  {
    if from < |entries| {
      EntriesSnoc(entries, last, from + 1);
    }
  }

  /** The models' size is that of `models/` and of the root entries whose name starts with `models--`. */
  lemma ModelsSizeIs(disk: Disk)
    ensures ModelsSize(disk) ==
            SizeOf(disk, set l | l in disk && l.InModels?) +
            SizeOf(disk, set l | l in disk && l.AtRoot? && "models--" <= l.name)
  {
    var a, b := set l | l in disk && l.InModels?, set l | l in disk && l.AtRoot? && "models--" <= l.name;
    assert (set l | l in disk && CountsAsModel(l)) == a + b;
    SizeOfUnion(disk, a, b);
  }

  function SizeAt(disk: Disk, l: Loc): nat {
    if l in disk then NodeSize(disk[l]) else 0
  }

  /** The index size is that of the three artifacts, each in `index/` or, only where it is not there, at the root. */
  lemma IndexSizeIs(disk: Disk)
    ensures IndexSize(disk) ==
            SizeAt(disk, if InIndex("tantivy") in disk then InIndex("tantivy") else AtRoot("tantivy")) +
            SizeAt(disk, if InIndex("vectors") in disk then InIndex("vectors") else AtRoot("vectors")) +
            SizeAt(disk, if InIndex("engine.redb") in disk then InIndex("engine.redb") else AtRoot("engine.redb"))
  {
    hide NodeSize, Resolve, Target;
    ResolvesAt(disk, "tantivy", InIndex("tantivy"));
    ResolvesAt(disk, "vectors", InIndex("vectors"));
    ResolvesAt(disk, "engine.redb", InIndex("engine.redb"));
  }

  lemma {:induction false} SizeOfUnion(disk: Disk, a: set<Loc>, b: set<Loc>)
    requires a <= disk.Keys && b <= disk.Keys && a !! b
    ensures SizeOf(disk, a + b) == SizeOf(disk, a) + SizeOf(disk, b)
    decreases |a|
  {
    if a == {} {
      assert a + b == b;
    } else {
      var l :| l in a;
      SizeSplit(disk, a, l);
      SizeSplit(disk, a + b, l);
      assert a + b - {l} == (a - {l}) + b;
      SizeOfUnion(disk, a - {l}, b);
    }
  }

  // ---- the names themselves ----

  /** A root entry that is none of the collection's artifacts: its lock, its markers, any other file. */
  predicate IsStranger(name: string) {
    !("models--" <= name) && name != "tantivy" && name != "vectors" && name != "engine.redb"
  }

  /** Every such entry is where it was, and as it was. */
  ghost predicate StrangersStay(before: Disk, after: Disk) {
    forall name :: IsStranger(name) ==> Lookup(after, AtRoot(name)) == Lookup(before, AtRoot(name))
  }

  lemma RenameSparesStrangers(disk: Disk, name: string)
    requires Movable(disk, name)
    ensures StrangersStay(disk, Rename(disk, AtRoot(name), Target(name).value))
  {
  }

  /** In every state of every run, whatever fails. */
  lemma {:induction false} RunSparesStrangers(disk: Disk, events: seq<Event>)
    ensures StrangersStay(disk, Run(Quiet(disk), events).disk)
  {
    if events != [] {
      var before := Run(Quiet(disk), events[..|events| - 1]);
      RunSparesStrangers(disk, events[..|events| - 1]);
      RunKeeps(Quiet(disk), events[..|events| - 1]);
      StepKeeps(before, events[|events| - 1]);
      if Step(before, events[|events| - 1]).disk != before.disk {
        var name :| Movable(before.disk, name) &&
                    Step(before, events[|events| - 1]).disk == Rename(before.disk, AtRoot(name), Target(name).value);
        RenameSparesStrangers(before.disk, name);
      }
    }
  }

  /** What stood at the root, or had its new home already, is in that home. */
  ghost predicate CameHome(before: Disk, after: Disk, name: string, home: Loc) {
    AtRoot(name) in before || home in before ==>
      home in after && after[home] == before[if home in before then home else AtRoot(name)]
  }

  /** Models come to `models/`, the three index artifacts to `index/`, and what is at the root afterwards is a
      stranger or stood in both places before. */
  ghost predicate IsMigrated(before: Disk, after: Disk) {
    && StrangersStay(before, after)
    && (forall name: string :: "models--" <= name ==> CameHome(before, after, name, InModels(name)))
    && (forall name: string :: name in {"tantivy", "vectors", "engine.redb"} ==>
          CameHome(before, after, name, InIndex(name)))
    && (forall name: string :: AtRoot(name) in after && "models--" <= name ==> InModels(name) in before)
    && (forall name: string :: AtRoot(name) in after && name in {"tantivy", "vectors", "engine.redb"} ==>
          InIndex(name) in before)
  }

  /** Reading an artifact: its new home first, then the root. */
  lemma ResolvesAt(disk: Disk, name: string, home: Loc)
    requires ("models--" <= name && home == InModels(name)) ||
             (name in {"tantivy", "vectors", "engine.redb"} && home == InIndex(name))
    ensures Target(name).Some?
    ensures Resolve(disk, name) == if home in disk then Some(disk[home]) else Lookup(disk, AtRoot(name))
    ensures ResolvePath(disk, disk, name) == if home !in disk && AtRoot(name) in disk then AtRoot(name) else home
  {
    HomesAre(name);
  }

  lemma HomesAre(name: string)
    ensures "models--" <= name ==> Target(name) == Some(InModels(name))
    ensures name in {"tantivy", "vectors", "engine.redb"} ==> Target(name) == Some(InIndex(name))
  {
    assert "tantivy"[0] != 'm' && "vectors"[0] != 'm' && "engine.redb"[0] != 'm' && "models--"[0] == 'm';
  }

  lemma SettledIsHome(start: Disk, end: Disk, name: string)
    requires SameSettled(start, end) && Settled(end) && Target(name).Some?
    ensures CameHome(start, end, name, Target(name).value)
    ensures AtRoot(name) in end ==> Target(name).value in start
  {
    assert SettledAt(start, Target(name).value) == SettledAt(end, Target(name).value);
    assert SettledAt(start, AtRoot(name)) == SettledAt(end, AtRoot(name));
    assert !Movable(end, name);
  }

  lemma SettledIsMigrated(start: Disk, end: Disk)
    requires SameSettled(start, end) && Settled(end) && StrangersStay(start, end)
    ensures IsMigrated(start, end)
  {
    hide SameSettled, Settled, StrangersStay, CameHome, Target;
    forall name: string | "models--" <= name
      ensures CameHome(start, end, name, InModels(name))
      ensures AtRoot(name) in end ==> InModels(name) in start
    {
      HomesAre(name);
      SettledIsHome(start, end, name);
    }
    forall name: string | name in {"tantivy", "vectors", "engine.redb"}
      ensures CameHome(start, end, name, InIndex(name))
      ensures AtRoot(name) in end ==> InIndex(name) in start
    {
      HomesAre(name);
      SettledIsHome(start, end, name);
    }
  }

  /** A collection's cache directory, changed in place. */
  class CacheDir {
    var disk: Disk

    constructor (initial: Disk)
      ensures disk == initial
    {
      disk := initial;
    }

    /** Walks the root listing. `setupFails`: the two directories cannot be made or the root not be listed;
        `badEntry`: the entry at which the listing breaks off; `failing` names the entries whose rename fails.
        After an error the collection is part-way but reads the same. */
    method Migrate(listing: seq<string>, setupFails: bool, badEntry: Option<nat>, failing: set<string>)
        returns (done: bool)
      requires forall name :: AtRoot(name) in disk <==> name in listing
      requires forall i, j :: 0 <= i < j < |listing| ==> listing[i] != listing[j]
      modifies this
      ensures SameSettled(old(disk), disk)
      ensures StrangersStay(old(disk), disk)
      ensures done ==> Settled(disk) && IsMigrated(old(disk), disk)
      ensures !done <==> setupFails || (badEntry.Some? && badEntry.value < |listing|) ||
                         exists name :: name in failing && Movable(old(disk), name)
    {
      if setupFails { return false; }
      for i := 0 to |listing|
        invariant SameSettled(old(disk), disk) && StrangersStay(old(disk), disk)
        invariant badEntry.Some? ==> badEntry.value >= i
        invariant forall k :: i <= k < |listing| ==> AtRoot(listing[k]) in disk
        invariant forall name :: Movable(disk, name) ==> Movable(old(disk), name) && name in listing[i..]
        invariant forall name :: Movable(old(disk), name) ==> Movable(disk, name) || name !in failing
      {
        if badEntry == Some(i) { return false; }
        var name := listing[i];
        assert listing[i..] == [name] + listing[i + 1..];
        if Target(name).Some? && Target(name).value !in disk {
          if name in failing {
            return false;
          }
          MoveKeepsSettled(disk, name);
          MovableAfter(disk, name);
          RenameSparesStrangers(disk, name);
          disk := Rename(disk, AtRoot(name), Target(name).value);
        }
      }
      SettledIsMigrated(old(disk), disk);
      done := true;
    }
  }
}
