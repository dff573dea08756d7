/** The checkpoint cadence: a counter and a clock kept in a small text file between stops of a session. */
module Checkpoint {
  import opened Prelude
  import opened Text
  import opened Decimals

  const U32_MAX := 0xFFFF_FFFF
  const U64_MAX := 0xFFFF_FFFF_FFFF_FFFF
  const SKIP_WINDOW := 60
  const MIN_ACTIVITY := 2

  /** Parsing an unsigned number: an optional plus sign, at least one digit, and no overflow. */
  function ParseUnsigned(s: string, max: nat): Option<nat> {
    var digits := if s != "" && s[0] == '+' then s[1..] else s;
    if digits == "" || !AllDigits(digits) || DigitsValue(digits) > max then None else Some(DigitsValue(digits))
  }

  lemma ParseDecimal(n: nat, max: nat)
    requires n <= max
    ensures ParseUnsigned(Decimal(n), max) == Some(n)
  {
    DecimalValue(n);
    assert IsDigit(Decimal(n)[0]);
  }

  /** Two digits at least. */
  function Padded(n: nat): string {
    if n < 10 then "0" + Decimal(n) else Decimal(n)
  }

  predicate IsNn(s: string) {
    |s| == 2 && AllDigits(s)
  }

  lemma PaddedIsNnIff(n: nat)
    ensures IsNn(Padded(n)) <==> n <= 99
    ensures AllDigits(Padded(n))
  {
    DecimalLen(n);
    if n < 10 { assert |Padded(n)| == 2; }
  }

  // ---- the state and its text ----

  datatype State = State(count: nat, lastTs: nat, nn: string)

  const FRESH := State(0, 0, "00")

  predicate Storable(s: State) {
    s.count <= U32_MAX && s.lastTs <= U64_MAX && IsNn(s.nn)
  }

  function Print(s: State): string {
    Decimal(s.count) + (":" + (Decimal(s.lastTs) + (":" + s.nn)))
  }

  /** Exactly three fields: two numbers and two digits. */
  function Parse(raw: string): Option<State> {
    var i := IndexOf(raw, ':');
    if i == |raw| then None
    else
      var rest := raw[i + 1..];
      var j := IndexOf(rest, ':');
      if j == |rest| then None
      else ParseFields(raw[..i], rest[..j], rest[j + 1..])
  }

  function ParseFields(count: string, ts: string, nn: string): Option<State> {
    match ParseUnsigned(count, U32_MAX)
    case None => None
    case Some(c) =>
      match ParseUnsigned(ts, U64_MAX)
      case None => None
      case Some(t) => if IsNn(nn) then Some(State(c, t, nn)) else None
  }

  lemma ColonAfter(digits: string, rest: string)
    requires AllDigits(digits)
    ensures var s := digits + (":" + rest);
            IndexOf(s, ':') == |digits| < |s| && s[..|digits|] == digits && s[|digits| + 1..] == rest
  {
    var s := digits + (":" + rest);
    assert s[|digits|] == ':';
    assert forall k :: 0 <= k < |digits| ==> s[k] == digits[k];
  }

  lemma ParsePrinted(s: State)
    ensures Parse(Print(s)) == ParseFields(Decimal(s.count), Decimal(s.lastTs), s.nn)
  {
    ColonAfter(Decimal(s.count), Decimal(s.lastTs) + (":" + s.nn));
    ColonAfter(Decimal(s.lastTs), s.nn);
  }

  /** What a read makes of the file: anything missing or malformed is the fresh state. */
  function Read(file: Option<string>): State {
    if file.None? then FRESH
    else
      match Parse(Trim(file.value))
      case None => FRESH
      case Some(s) => s
  }

  /** A state survives being written and read back. */
  lemma ReadWritten(s: State)
    requires Storable(s)
    ensures Read(Some(Print(s))) == s
  {
    var p := Print(s);
    assert p[0] == Decimal(s.count)[0] && p[|p| - 1] == s.nn[1];
    TrimmedAlready(p);
    ParsePrinted(s);
    ParseDecimal(s.count, U32_MAX);
    ParseDecimal(s.lastTs, U64_MAX);
  }

  /** A number of three digits is lost together with everything else the file held. */
  lemma WideNnForgets(s: State)
    requires |s.nn| > 2 && AllDigits(s.nn)
    ensures Read(Some(Print(s))) == FRESH
  {
    var p := Print(s);
    assert p[0] == Decimal(s.count)[0] && p[|p| - 1] == s.nn[|s.nn| - 1];
    TrimmedAlready(p);
    ParsePrinted(s);
  }

  // ---- the text, by its characters ----

  /** Digits, at least one, with or without a plus sign in front, and their value. */
  ghost predicate SpellsNumber(s: string, max: nat, n: nat) {
    exists digits: string :: digits != "" && AllDigits(digits) && (s == digits || s == "+" + digits) &&
      DigitsValue(digits) == n <= max
  }

  lemma ParseUnsignedIff(s: string, max: nat, n: nat)
    ensures ParseUnsigned(s, max) == Some(n) <==> SpellsNumber(s, max, n)
  {
    hide DigitsValue;
    if s != "" && s[0] == '+' { assert s == "+" + s[1..]; }
    if SpellsNumber(s, max, n) {
      var digits: string :|
        digits != "" && AllDigits(digits) && (s == digits || s == "+" + digits) && DigitsValue(digits) == n <= max;
      if s == "+" + digits { assert s[1..] == digits && s[0] == '+'; } else { assert IsDigit(s[0]); }
    }
  }

  /** A number, a colon, a number, a colon, two digits. */
  ghost predicate SpellsState(raw: string, s: State) {
    exists count: string, ts: string :: SpellsNumber(count, U32_MAX, s.count) && SpellsNumber(ts, U64_MAX, s.lastTs) &&
      IsNn(s.nn) && raw == count + (":" + (ts + (":" + s.nn)))
  }

  lemma NumberHasNoColon(s: string, max: nat, n: nat)
    requires SpellsNumber(s, max, n)
    ensures ':' !in s
  {
    var digits: string :|
      digits != "" && AllDigits(digits) && (s == digits || s == "+" + digits) && DigitsValue(digits) == n <= max;
    forall i | 0 <= i < |s|
      ensures s[i] != ':'
    {
      if s == "+" + digits && i > 0 { assert s[i] == digits[i - 1]; }
    }
  }

  lemma FieldsSplit(a: string, rest: string)
    requires ':' !in a
    ensures var s := a + (":" + rest); IndexOf(s, ':') == |a| < |s| && s[..|a|] == a && s[|a| + 1..] == rest
  {
    var s := a + (":" + rest);
    assert s[|a|] == ':' && forall k :: 0 <= k < |a| ==> s[k] == a[k] && a[k] in a;
  }

  lemma ParsedSpells(raw: string, s: State)
    requires Parse(raw) == Some(s)
    ensures SpellsState(raw, s)
  {
    hide ParseUnsigned, SpellsNumber, IndexOf, IsNn;
    var i := IndexOf(raw, ':');
    var rest := raw[i + 1..];
    var j := IndexOf(rest, ':');
    var count, ts := raw[..i], rest[..j];
    ParseUnsignedIff(count, U32_MAX, s.count);
    ParseUnsignedIff(ts, U64_MAX, s.lastTs);
    AroundColon(rest, j);
    AroundColon(raw, i);
    assert rest[j + 1..] == s.nn && rest == ts + (":" + s.nn);
    assert raw == count + (":" + rest);
  }

  lemma AroundColon(s: string, i: nat)
    requires i < |s| && s[i] == ':'
    ensures s == s[..i] + (":" + s[i + 1..])
  {
  }

  lemma ThreeFields(raw: string, count: string, ts: string, nn: string)
    requires raw == count + (":" + (ts + (":" + nn))) && ':' !in count && ':' !in ts
    ensures Parse(raw) == ParseFields(count, ts, nn)
  {
    hide ParseFields, IndexOf;
    FieldsSplit(count, ts + (":" + nn));
    FieldsSplit(ts, nn);
  }

  lemma SpelledParses(raw: string, s: State)
    requires SpellsState(raw, s)
    ensures Parse(raw) == Some(s)
  {
    hide ParseUnsigned, SpellsNumber, Parse, IsNn;
    var count: string, ts: string :| SpellsNumber(count, U32_MAX, s.count) && SpellsNumber(ts, U64_MAX, s.lastTs) &&
      IsNn(s.nn) && raw == count + (":" + (ts + (":" + s.nn)));
    NumberHasNoColon(count, U32_MAX, s.count);
    NumberHasNoColon(ts, U64_MAX, s.lastTs);
    ThreeFields(raw, count, ts, s.nn);
    ParseUnsignedIff(count, U32_MAX, s.count);
    ParseUnsignedIff(ts, U64_MAX, s.lastTs);
  }

  /** The file is read as a state exactly when its text, white space around it aside, spells that state; every other
      file is read as fresh. */
  lemma ReadIff(file: string, s: State)
    ensures (exists raw: string :: Trims(file, raw) && SpellsState(raw, s)) ==> Read(Some(file)) == s
    ensures Read(Some(file)) == s ==> s == FRESH || exists raw: string :: Trims(file, raw) && SpellsState(raw, s)
  {
    hide Parse, SpellsState, Trims, Trim;
    TrimIff(file, Trim(file));
    if raw: string :| Trims(file, raw) && SpellsState(raw, s) {
      TrimIff(file, raw);
      SpelledParses(raw, s);
    }
    if Parse(Trim(file)) == Some(s) { ParsedSpells(Trim(file), s); }
  }

  // ---- one stop ----

  datatype Config = Config(messages: nat, minutes: nat)

  predicate Skipped(s: State, now: nat) {
    s.count == 0 && s.lastTs > 0 && now >= s.lastTs && now - s.lastTs < SKIP_WINDOW
  }

  /** The count after one more stop; 32-bit, wrapping. */
  function Bumped(s: State, now: nat): State {
    State((s.count + 1) % (U32_MAX + 1), if s.lastTs == 0 then now else s.lastTs, s.nn)
  }

  function Elapsed(s: State, now: nat): nat {
    if now >= s.lastTs then now - s.lastTs else 0
  }

  /** Whether a counted stop asks for a checkpoint; `s` is the state with the stop counted. */
  predicate Due(s: State, now: nat, cfg: Config) {
    && (s.count >= cfg.messages || Elapsed(s, now) >= cfg.minutes * 60)
    && s.count >= MIN_ACTIVITY
  }

  predicate Blocks(s: State, now: nat, cfg: Config) {
    !Skipped(s, now) && Due(Bumped(s, now), now, cfg)
  }

  function AfterStop(s: State, now: nat, cfg: Config, maxNn: nat): State {
    if Skipped(s, now) then s
    else if Blocks(s, now, cfg) then State(0, now, Padded(maxNn + 1))
    else Bumped(s, now)
  }

  function AfterReset(now: nat): State {
    State(0, now, "00")
  }

  // ---- runs ----

  datatype Event = Stop(now: nat, maxNn: nat) | Reset(now: nat)

  function Apply(s: State, e: Event, cfg: Config): State {
    match e
    case Stop(now, maxNn) => AfterStop(s, now, cfg, maxNn)
    case Reset(now) => AfterReset(now)
  }

  function Run(s: State, events: seq<Event>, cfg: Config): State {
    if events == [] then s else Apply(Run(s, events[..|events| - 1], cfg), events[|events| - 1], cfg)
  }

  /** A clock that starts above zero, fits 64 bits and never goes back. */
  ghost predicate Clocked(events: seq<Event>) {
    && (forall i :: 0 <= i < |events| ==> 0 < events[i].now <= U64_MAX)
    && (forall i, j :: 0 <= i < j < |events| ==> events[i].now <= events[j].now)
  }

  function At(events: seq<Event>, i: nat, cfg: Config): State
    requires i <= |events|
  {
    Run(FRESH, events[..i], cfg)
  }

  predicate BlocksAt(events: seq<Event>, i: nat, cfg: Config)
    requires i < |events|
  {
    events[i].Stop? && Blocks(At(events, i, cfg), events[i].now, cfg)
  }

  predicate CountedAt(events: seq<Event>, i: nat, cfg: Config)
    requires i < |events|
  {
    events[i].Stop? && !Skipped(At(events, i, cfg), events[i].now)
  }

  /** A block or a reset. */
  predicate MarkAt(events: seq<Event>, i: nat, cfg: Config)
    requires i < |events|
  {
    events[i].Reset? || BlocksAt(events, i, cfg)
  }

  /** The time of the last block or reset among the first `n` events. */
  function LastMark(events: seq<Event>, n: nat, cfg: Config): Option<nat>
    requires n <= |events|
  {
    if n == 0 then None
    else if MarkAt(events, n - 1, cfg) then Some(events[n - 1].now)
    else LastMark(events, n - 1, cfg)
  }

  /** The counted stops since then. */
  function SinceMark(events: seq<Event>, n: nat, cfg: Config): nat
    requires n <= |events|
  {
    if n == 0 || MarkAt(events, n - 1, cfg) then 0
    else SinceMark(events, n - 1, cfg) + if CountedAt(events, n - 1, cfg) then 1 else 0
  }

  function Bound(cfg: Config): nat {
    Max(cfg.messages, MIN_ACTIVITY)
  }

  ghost predicate Inv(events: seq<Event>, n: nat, cfg: Config)
    requires n <= |events|
  {
    var s, mark := At(events, n, cfg), LastMark(events, n, cfg);
    && s.count == SinceMark(events, n, cfg) < Bound(cfg)
    && (mark.Some? ==> s.lastTs == mark.value && mark.value > 0 && n > 0 && mark.value <= events[n - 1].now)
    && (mark.Some? && s.count > 0 ==> events[n - 1].now >= mark.value + SKIP_WINDOW)
  }

  lemma AtNext(events: seq<Event>, n: nat, cfg: Config)
    requires n < |events|
    ensures At(events, n + 1, cfg) == Apply(At(events, n, cfg), events[n], cfg)
  {
    assert events[..n + 1][..n] == events[..n];
  }

  lemma MarkStep(events: seq<Event>, n: nat, cfg: Config)
    requires n < |events| && events[n].now > 0 && MarkAt(events, n, cfg)
    ensures Inv(events, n + 1, cfg)
  {
    AtNext(events, n, cfg);
  }

  lemma StopStep(events: seq<Event>, n: nat, cfg: Config)
    requires Clocked(events) && Bound(cfg) <= U32_MAX && n < |events| && Inv(events, n, cfg)
    requires !MarkAt(events, n, cfg)
    ensures Inv(events, n + 1, cfg)
  {
    AtNext(events, n, cfg);
    assert n > 0 ==> events[n - 1].now <= events[n].now;
  }

  lemma InvStep(events: seq<Event>, n: nat, cfg: Config)
    requires Clocked(events) && Bound(cfg) <= U32_MAX && n < |events| && Inv(events, n, cfg)
    ensures Inv(events, n + 1, cfg)
  {
    if MarkAt(events, n, cfg) { MarkStep(events, n, cfg); } else { StopStep(events, n, cfg); }
  }

  lemma {:induction false} RunInv(events: seq<Event>, n: nat, cfg: Config)
    requires Clocked(events) && Bound(cfg) <= U32_MAX && n <= |events|
    ensures Inv(events, n, cfg)
  {
    if n > 0 {
      RunInv(events, n - 1, cfg);
      InvStep(events, n - 1, cfg);
    }
  }

  /** Every block is on at least the second counted stop since the last block or reset, and at least
      sixty seconds after it. */
  lemma BlocksAreSpaced(events: seq<Event>, n: nat, cfg: Config)
    requires Clocked(events) && Bound(cfg) <= U32_MAX && n < |events| && BlocksAt(events, n, cfg)
    ensures SinceMark(events, n, cfg) + 1 >= MIN_ACTIVITY
    ensures LastMark(events, n, cfg).Some? ==> events[n].now >= LastMark(events, n, cfg).value + SKIP_WINDOW
  {
    hide Run, LastMark, SinceMark, AfterStop, Max;
    RunInv(events, n, cfg);
    assert n > 0 ==> events[n - 1].now <= events[n].now;
  }

  /** The time of the first counted stop among the first `n` events. */
  function FirstCounted(events: seq<Event>, n: nat, cfg: Config): Option<nat>
    requires n <= |events|
  {
    if n == 0 then None
    else
      match FirstCounted(events, n - 1, cfg)
      case Some(t) => Some(t)
      case None => if CountedAt(events, n - 1, cfg) then Some(events[n - 1].now) else None
  }

  /** Since when the minutes are counted at event `n`: the last block or reset, before any the first counted
      stop, and before that the event itself. */
  function Since(events: seq<Event>, n: nat, cfg: Config): nat
    requires n < |events|
  {
    match LastMark(events, n, cfg)
    case Some(t) => t
    case None =>
      match FirstCounted(events, n, cfg)
      case Some(t) => t
      case None => events[n].now
  }

  ghost predicate IsAnchored(events: seq<Event>, n: nat, cfg: Config)
    requires n <= |events|
  {
    var mark, first, ts := LastMark(events, n, cfg), FirstCounted(events, n, cfg), At(events, n, cfg).lastTs;
    ts == if mark.Some? then mark.value else if first.Some? then first.value else 0
  }

  lemma {:induction false} StateIsAnchored(events: seq<Event>, n: nat, cfg: Config)
    requires Clocked(events) && n <= |events|
    ensures IsAnchored(events, n, cfg)
    ensures LastMark(events, n, cfg).Some? ==> 0 < LastMark(events, n, cfg).value
    ensures FirstCounted(events, n, cfg).Some? ==> 0 < FirstCounted(events, n, cfg).value
    ensures n < |events| ==> At(events, n, cfg).lastTs <= events[n].now
  {
    if n > 0 {
      StateIsAnchored(events, n - 1, cfg);
      AtNext(events, n - 1, cfg);
      assert n < |events| ==> events[n - 1].now <= events[n].now;
    }
  }

  /** Which stops count, and which of them block: a stop counts unless it is the first one less than sixty seconds
      after a block or reset; and it blocks when it is at least the second counted one since then and either as
      many as `messages` have been counted or `minutes` have passed. */
  lemma BlocksExactly(events: seq<Event>, n: nat, cfg: Config)
    requires Clocked(events) && Bound(cfg) <= U32_MAX && n < |events| && events[n].Stop?
    ensures var mark, since, now := LastMark(events, n, cfg), SinceMark(events, n, cfg), events[n].now;
            && (CountedAt(events, n, cfg) <==> !(mark.Some? && since == 0 && now - mark.value < 60))
            && (BlocksAt(events, n, cfg) <==>
                && CountedAt(events, n, cfg) && since + 1 >= 2
                && (since + 1 >= cfg.messages || now - Since(events, n, cfg) >= 60 * cfg.minutes))
  {
    hide Run, LastMark, SinceMark, FirstCounted, AfterStop, Max;
    RunInv(events, n, cfg);
    StateIsAnchored(events, n, cfg);
    NoMarkNoCount(events, n, cfg);
  }

  /** A reset neither counts nor blocks; it starts the session's counting again. */
  lemma ResetStartsAgain(events: seq<Event>, n: nat, cfg: Config)
    requires n < |events| && events[n].Reset?
    ensures !CountedAt(events, n, cfg) && !BlocksAt(events, n, cfg)
    ensures At(events, n + 1, cfg) == State(0, events[n].now, "00")
    ensures LastMark(events, n + 1, cfg) == Some(events[n].now) && SinceMark(events, n + 1, cfg) == 0
  {
    AtNext(events, n, cfg);
  }

  lemma {:induction false} NoMarkNoCount(events: seq<Event>, n: nat, cfg: Config)
    requires n <= |events|
    ensures LastMark(events, n, cfg).None? ==> (SinceMark(events, n, cfg) == 0 <==> FirstCounted(events, n, cfg).None?)
  {
    if n > 0 {
      NoMarkNoCount(events, n - 1, cfg);
    }
  }

  /** After the clock has gone back, a stop counts, and no minutes have passed. */
  lemma ClockGoneBack(s: State, now: nat, cfg: Config)
    requires now < s.lastTs && s.count < U32_MAX
    ensures !Skipped(s, now)
    ensures Blocks(s, now, cfg) <==> s.count + 1 >= 2 && (s.count + 1 >= cfg.messages || cfg.minutes == 0)
    ensures AfterStop(s, now, cfg, 0) == if Blocks(s, now, cfg) then State(0, now, "01") else s.(count := s.count + 1)
  {
  }

  function CountedIn(events: seq<Event>, i: nat, j: nat, cfg: Config): nat
    requires i <= j <= |events|
    decreases j - i
  {
    if i == j then 0 else CountedIn(events, i, j - 1, cfg) + if CountedAt(events, j - 1, cfg) then 1 else 0
  }

  lemma {:induction false} CountsAddUp(events: seq<Event>, i: nat, j: nat, cfg: Config)
    requires i <= j <= |events| && forall k :: i <= k < j ==> !MarkAt(events, k, cfg)
    ensures SinceMark(events, j, cfg) == SinceMark(events, i, cfg) + CountedIn(events, i, j, cfg)
    decreases j - i
  {
    if i < j {
      CountsAddUp(events, i, j - 1, cfg);
    }
  }

  /** At every point of every run the stored count is below the bound. */
  lemma {:induction false} CountStaysLow(events: seq<Event>, n: nat, cfg: Config)
    requires Clocked(events) && Bound(cfg) <= U32_MAX && n <= |events|
    ensures At(events, n, cfg).count < Bound(cfg)
  {
    RunInv(events, n, cfg);
  }

  /** As many counted stops as the bound, without a reset, hold a block. */
  lemma BlocksComeInTime(events: seq<Event>, i: nat, j: nat, cfg: Config)
    requires Clocked(events) && Bound(cfg) <= U32_MAX && i <= j <= |events|
    requires CountedIn(events, i, j, cfg) >= Bound(cfg) && forall k :: i <= k < j ==> events[k].Stop?
    ensures exists k :: i <= k < j && BlocksAt(events, k, cfg)
  {
    RunInv(events, j, cfg);
    if forall k :: i <= k < j ==> !BlocksAt(events, k, cfg) {
      CountsAddUp(events, i, j, cfg);
    }
  }

  // ---- the file ----

  /** The file after an event. */
  function FileAfter(file: Option<string>, e: Event, cfg: Config): Option<string> {
    var s := Read(file);
    if e.Stop? && Skipped(s, e.now) then file
    else Some(Print(Apply(s, e, cfg)))
  }

  /** A stop that does not count leaves the file as it is, character by character; every other event writes it. */
  lemma SkippedLeavesFile(file: Option<string>, e: Event, cfg: Config)
    ensures FileAfter(file, e, cfg) ==
            if e.Stop? && Apply(Read(file), e, cfg) == Read(file) && Read(file).count == 0 && Read(file).lastTs > 0 &&
               0 <= e.now - Read(file).lastTs < 60
            then file else Some(Print(Apply(Read(file), e, cfg)))
  {
    hide Read, Print;
  }

  function FileRun(file: Option<string>, events: seq<Event>, cfg: Config): Option<string> {
    if events == [] then file else FileAfter(FileRun(file, events[..|events| - 1], cfg), events[|events| - 1], cfg)
  }

  predicate LowNn(e: Event) {
    e.Stop? ==> e.maxNn <= 98
  }

  lemma AppliedIsStorable(s: State, e: Event, cfg: Config)
    requires Storable(s) && e.now <= U64_MAX && LowNn(e)
    ensures Storable(Apply(s, e, cfg))
  {
    if e.Stop? { PaddedIsNnIff(e.maxNn + 1); }
  }

  lemma FileStep(file: Option<string>, s: State, e: Event, cfg: Config)
    requires Read(file) == s && Storable(s) && e.now <= U64_MAX && LowNn(e)
    ensures Read(FileAfter(file, e, cfg)) == Apply(s, e, cfg)
  {
    AppliedIsStorable(s, e, cfg);
    ReadWritten(Apply(s, e, cfg));
  }

  /** As long as no checkpoint number above 98 is on disk, the file carries the state from event to event. */
  lemma {:induction false} FileCarriesState(events: seq<Event>, cfg: Config)
    requires Clocked(events) && forall i :: 0 <= i < |events| ==> LowNn(events[i])
    ensures Read(FileRun(None, events, cfg)) == Run(FRESH, events, cfg) && Storable(Run(FRESH, events, cfg))
  {
    if events != [] {
      var n := |events| - 1;
      FileCarriesState(events[..n], cfg);
      AppliedIsStorable(Run(FRESH, events[..n], cfg), events[n], cfg);
      FileStep(FileRun(None, events[..n], cfg), Run(FRESH, events[..n], cfg), events[n], cfg);
    }
  }

  /** A block with number 99 or higher on disk forgets the session: the next read is fresh. */
  lemma BlockSurvivesIff(s: State, now: nat, cfg: Config, maxNn: nat)
    requires Blocks(s, now, cfg) && 0 < now <= U64_MAX
    ensures Read(Some(Print(AfterStop(s, now, cfg, maxNn)))) == AfterStop(s, now, cfg, maxNn) <==> maxNn <= 98
  {
    var out := AfterStop(s, now, cfg, maxNn);
    PaddedIsNnIff(maxNn + 1);
    if maxNn <= 98 { ReadWritten(out); } else { WideNnForgets(out); }
  }

  lemma SecondStopBlocks(cfg: Config)
    requires cfg.messages <= 2
    ensures AfterStop(FRESH, 100, cfg, 0) == State(1, 100, "00")
    ensures !Skipped(State(1, 100, "00"), 200) && Blocks(State(1, 100, "00"), 200, cfg)
    ensures AfterStop(State(1, 100, "00"), 200, cfg, 99) == State(0, 200, Padded(100))
  {
    hide Padded;
  }

  /** Two stops, the second one with a checkpoint of number 99 on disk: it blocks, and the file forgets it. */
  lemma NinetyNineForgets(cfg: Config)
    requires cfg.messages <= 2
    ensures var events := [Stop(100, 0), Stop(200, 99)];
            && BlocksAt(events, 1, cfg) && Run(FRESH, events, cfg) == State(0, 200, Padded(100))
            && Read(FileRun(None, events, cfg)) == FRESH
  {
    hide Padded, Read, Print, Blocks, AfterStop, Skipped, Storable;
    var events := [Stop(100, 0), Stop(200, 99)];
    var first := events[..1];
    assert first == [Stop(100, 0)] && first[..0] == [] && events[..2] == events;
    SecondStopBlocks(cfg);
    FileCarriesState(first, cfg);
    assert Run(FRESH, first, cfg) == State(1, 100, "00");
    HundredIsWide();
    WideNnForgets(State(0, 200, Padded(100)));
  }

  lemma HundredIsWide()
    ensures |Padded(100)| > 2 && AllDigits(Padded(100))
  {
    PaddedIsNnIff(100);
  }

  // ---- numbers on disk ----

  predicate EndsInMd(s: string) {
    |s| >= 3 && s[|s| - 3..] == ".md"
  }

  /** Takes off every `.md` at the end, not only one. */
  function WithoutMd(s: string): string {
    if EndsInMd(s) then WithoutMd(s[..|s| - 3]) else s
  }

  function NnOf(name: string, prefix: string): Option<nat> {
    if !(prefix <= name) || !EndsInMd(name) then None
    else
      var nn := WithoutMd(name[|prefix|..]);
      if IsNn(nn) then Some(DigitsValue(nn)) else None
  }

  /** The suffix `.md`, `k` times. */
  function Mds(k: nat): string {
    if k == 0 then "" else Mds(k - 1) + ".md"
  }

  lemma {:induction false} MdsTaken(s: string, k: nat)
    requires !EndsInMd(s)
    ensures WithoutMd(s + Mds(k)) == s
  {
    if k > 0 {
      var t := s + Mds(k - 1);
      assert s + Mds(k) == t + ".md";
      assert (t + ".md")[..|t|] == t && (t + ".md")[|t|..] == ".md";
      MdsTaken(s, k - 1);
    } else {
      assert s + "" == s;
    }
  }

  lemma {:induction false} MdsLeft(s: string) returns (k: nat)
    ensures s == WithoutMd(s) + Mds(k) && (EndsInMd(s) <==> k > 0)
  {
    if EndsInMd(s) {
      var shorter := s[..|s| - 3];
      k := MdsLeft(shorter);
      assert s == shorter + ".md";
      Behind(WithoutMd(s), Mds(k), ".md");
      k := k + 1;
    } else {
      k := 0;
      assert s + "" == s;
    }
  }

  lemma Behind(a: string, b: string, c: string)
    ensures a + b + c == a + (b + c)
  {
  }

  /** The prefix, two digits and the suffix once or more. */
  ghost predicate SpellsNumbered(name: string, prefix: string, nn: string, k: nat) {
    IsNn(nn) && k > 0 && name == prefix + (nn + Mds(k))
  }

  lemma NumberedIsSpelled(name: string, prefix: string) returns (k: nat)
    requires prefix <= name && EndsInMd(name) && IsNn(WithoutMd(name[|prefix|..]))
    ensures SpellsNumbered(name, prefix, WithoutMd(name[|prefix|..]), k)
  {
    hide WithoutMd, Mds;
    var rest := name[|prefix|..];
    SuffixBehind(name, prefix);
    k := MdsLeft(rest);
    assert name == prefix + rest;
  }

  lemma SpelledIsNumbered(name: string, prefix: string, nn: string, k: nat)
    requires SpellsNumbered(name, prefix, nn, k)
    ensures prefix <= name && EndsInMd(name) && WithoutMd(name[|prefix|..]) == nn
  {
    hide WithoutMd;
    var rest := nn + Mds(k);
    assert name[|prefix|..] == rest;
    NnIsNoMd(nn);
    MdsTaken(nn, k);
    Behind(prefix, nn, Mds(k));
    Behind(prefix + nn, Mds(k - 1), ".md");
    assert name == prefix + nn + Mds(k - 1) + ".md";
  }

  lemma NnIsNoMd(nn: string)
    requires IsNn(nn)
    ensures !EndsInMd(nn)
  {
  }

  /** Such a name counts, for the value of its digits, and no other does. */
  lemma NnOfIff(name: string, prefix: string, n: nat)
    ensures NnOf(name, prefix) == Some(n) <==>
            exists nn: string, k: nat :: IsNn(nn) && SpellsNumbered(name, prefix, nn, k) && DigitsValue(nn) == n
  {
    hide DigitsValue, WithoutMd, EndsInMd, SpellsNumbered;
    if NnOf(name, prefix) == Some(n) {
      var k := NumberedIsSpelled(name, prefix);
    }
    if nn: string, k: nat :| IsNn(nn) && SpellsNumbered(name, prefix, nn, k) && DigitsValue(nn) == n {
      SpelledIsNumbered(name, prefix, nn, k);
    }
  }

  lemma LastIs(name: string, n: nat)
    requires n < |name|
    ensures name[n..][|name| - n - 1] == name[|name| - 1]
    ensures EndsInMd(name) ==> name[|name| - 1] == 'd'
    ensures EndsInMd(name) && |name| - n >= 3 ==> EndsInMd(name[n..])
  {
    if EndsInMd(name) {
      assert name[|name| - 1] == name[|name| - 3..][2] == ".md"[2];
      if |name| - n >= 3 { assert name[n..][|name| - n - 3..] == name[|name| - 3..]; }
    }
  }

  lemma SuffixBehind(name: string, prefix: string)
    requires prefix <= name && EndsInMd(name) && IsNn(WithoutMd(name[|prefix|..]))
    ensures EndsInMd(name[|prefix|..])
  {
    LastIs(name, |prefix|);
  }

  lemma NnIsSmall(nn: string)
    requires IsNn(nn)
    ensures DigitsValue(nn) <= 99
  {
    assert nn[..1][..0] == "";
    assert DigitsValue(nn) == DigitsValue(nn[..1]) * 10 + Value(nn[1]);
  }

  /** The highest checkpoint number among the names in a directory; zero when there is none. */
  method MaxCheckpointNn(names: seq<string>, prefix: string) returns (max: nat)
    ensures forall name :: name in names && NnOf(name, prefix).Some? ==> NnOf(name, prefix).value <= max
    ensures max == 0 || exists name :: name in names && NnOf(name, prefix) == Some(max)
    ensures max <= 99
  {
    max := 0;
    for i := 0 to |names|
      invariant forall k :: 0 <= k < i && NnOf(names[k], prefix).Some? ==> NnOf(names[k], prefix).value <= max
      invariant max == 0 || exists name :: name in names && NnOf(name, prefix) == Some(max)
      invariant max <= 99
    {
      var name := names[i];
      if !(prefix <= name) || !EndsInMd(name) { continue; }
      var nn := WithoutMd(name[|prefix|..]);
      if !IsNn(nn) { continue; }
      NnIsSmall(nn);
      assert NnOf(name, prefix) == Some(DigitsValue(nn));
      if DigitsValue(nn) > max {
        max := DigitsValue(nn);
      }
    }
  }

  // ---- the hooks ----

  function Reason(maxNn: nat): string {
    Padded(maxNn + 1) + if maxNn == 0 then " since start" else " since checkpoint-" + Padded(maxNn)
  }

  /** The reason names the number just given out, and the one on disk before it. */
  lemma ReasonSays(s: State, now: nat, cfg: Config, maxNn: nat)
    requires Blocks(s, now, cfg)
    ensures AfterStop(s, now, cfg, maxNn).nn == Padded(maxNn + 1)
    ensures Reason(maxNn) == AfterStop(s, now, cfg, maxNn).nn +
            (if maxNn == 0 then " since start" else " since checkpoint-" + Padded(maxNn))
  {
    hide Padded;
  }

  /** Two digits at least, and the number's value. */
  lemma PaddedIs(n: nat)
    ensures |Padded(n)| >= 2 && AllDigits(Padded(n)) && DigitsValue(Padded(n)) == n
  {
    PaddedIsNnIff(n);
    DecimalValue(n);
    DecimalLen(n);
    if n < 10 { ZeroInFront(Decimal(n)); }
  }

  lemma {:induction false} ZeroInFront(s: string)
    requires AllDigits(s)
    ensures AllDigits("0" + s) && DigitsValue("0" + s) == DigitsValue(s)
  {
    if s != "" {
      var n := |s| - 1;
      assert ("0" + s)[..|s|] == "0" + s[..n] && ("0" + s)[|s|] == s[n];
      ZeroInFront(s[..n]);
    } else {
      assert ("0" + s)[..0] == "" && "0" + s == "0";
    }
  }

  class StateFile {
    var content: Option<string>

    constructor (found: Option<string>)
      ensures content == found
    {
      content := found;
    }

    /** Reads the state; a missing or malformed file is rewritten as fresh. */
    method ReadState() returns (s: State)
      modifies this
      ensures s == Read(old(content)) && Read(content) == s
      ensures s != FRESH ==> content == old(content)
    {
      if content.Some? {
        var parsed := Parse(Trim(content.value));
        if parsed.Some? { return parsed.value; }
      }
      ReadWritten(FRESH);
      content := Some(Print(FRESH));
      s := FRESH;
    }

    /** The stop hook; the reason is what it prints when it blocks. */
    method HandleStop(now: nat, cfg: Config, maxNn: nat) returns (reason: Option<string>)
      modifies this
      ensures content == FileAfter(old(content), Stop(now, maxNn), cfg)
      ensures reason == if Blocks(Read(old(content)), now, cfg) then Some(Reason(maxNn)) else None
    {
      var s := ReadState();
      if s.count == 0 && s.lastTs > 0 && now >= s.lastTs && now - s.lastTs < SKIP_WINDOW { return None; }
      var out;
      out, reason := CountStop(s, now, cfg, maxNn);
      content := Some(Print(out));
    }

    /** The counted stop: the state to write, and the reason if it blocks. */
    static method CountStop(found: State, now: nat, cfg: Config, maxNn: nat)
        returns (out: State, reason: Option<string>)
      requires !Skipped(found, now)
      ensures out == AfterStop(found, now, cfg, maxNn)
      ensures reason == if Blocks(found, now, cfg) then Some(Reason(maxNn)) else None
    {
      var s := found.(count := (found.count + 1) % (U32_MAX + 1));
      if s.lastTs == 0 {
        s := s.(lastTs := now);
      }
      var elapsed := if now >= s.lastTs then now - s.lastTs else 0;
      var thresholdMet := s.count >= cfg.messages || elapsed >= cfg.minutes * 60;
      if !thresholdMet { return s, None; }
      if s.count < MIN_ACTIVITY { return s, None; }
      reason := Some(Reason(maxNn));
      out := State(0, now, Padded(maxNn + 1));
    }

    method HandleReset(now: nat)
      modifies this
      ensures forall cfg :: content == FileAfter(old(content), Reset(now), cfg)
    {
      content := Some(Print(State(0, now, "00")));
    }
  }
}
