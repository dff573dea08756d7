/**
 Installing the Codex plugin as a compensating transaction: the configuration is merged, a receipt
 written, the plugin added, a marker and the final receipt written; every step can fail, and two
 rollbacks undo what was done before it. File replacements are atomic: a failed one changes nothing.
 */
module CodexPlugin {
  import opened Prelude
  import opened FeatureFlags
  import opened FeatureTexts

  /** `Foreign` is a receipt file that does not match the vault. */
  datatype Receipt = NoReceipt | Pending | Installed | Foreign

  datatype Marker = NoMarker | Valid | Invalid

  datatype State = State(config: Option<string>, backup: Option<string>, receipt: Receipt, marker: Marker, plugin: bool)

  datatype Exit = SpawnFails | Fails | Succeeds

  /** How each fallible step of one installation goes; a flag is true when the step fails. `addLeaves` and
      `removeTakes` say what a command that exits with an error did all the same. */
  datatype Faults = Faults(
    marketplace: Exit,
    list: bool,
    readConfig: bool,
    saveBackup: bool,
    writeConfig: bool,
    pending: bool,
    add: Exit,
    addLeaves: bool,
    writeMarker: bool,
    installed: bool,
    remove: Exit,
    removeTakes: bool,
    dropReceipt: bool,
    dropMarker: bool,
    rewrite: bool,
    restore: bool
  )

  datatype Presence = Present | Absent | Unknown

  predicate HasReceipt(s: State) {
    s.receipt.Pending? || s.receipt.Installed?
  }

  predicate Managed(s: State) {
    s.marker.Valid? && s.receipt.Installed?
  }

  function Reported(s: State, listFails: bool): Presence {
    if listFails then Unknown else if s.plugin then Present else Absent
  }

  // ---- the installation ----

  /** The configuration with the two feature flags on. */
  function WithFlags(config: Option<string>): string {
    MergeText(if config.Some? then config.value else "")
  }

  /** The new configuration is the old one with both flags on and every other line in its order; from none it is
      the table alone. */
  ghost predicate FlagsAdded(before: Option<string>, after: string) {
    match before
    case None => after == Ended(["[features]", "hooks = true", "multi_agent = true"])
    case Some(text) => MergesInto(text, after)
  }

  lemma MergedKeepsConfig(config: Option<string>)
    ensures FlagsAdded(config, WithFlags(config))
  {
    MergeOfNothing();
    if config.Some? { MergeTextMerges(config.value); }
  }

  /** `text` stands for the merged configuration throughout. */
  function Merged(s: State, text: string): State {
    s.(backup := s.config, config := Some(text))
  }

  /** Puts the saved configuration back, or removes the one that was not there before. */
  function Restored(s: State, existed: bool, fails: bool): State {
    if fails || (existed && s.backup.None?) then s else s.(config := if existed then s.backup else None)
  }

  function RollbackBefore(s: State, existed: bool, managed: bool, f: Faults): State {
    Restored(if managed || f.dropReceipt then s else s.(receipt := NoReceipt), existed, f.restore)
  }

  function AfterRemove(s: State, f: Faults): State {
    if f.remove.Succeeds? || (f.remove.Fails? && f.removeTakes) then s.(plugin := false) else s
  }

  function Forgotten(s: State, f: Faults): State {
    s.(receipt := if f.dropReceipt then s.receipt else NoReceipt, marker := if f.dropMarker then s.marker else NoMarker)
  }

  function RollbackAfter(s: State, existed: bool, managed: bool, presence: Presence, f: Faults): State {
    if !managed && presence.Absent? && !f.remove.Succeeds? then
      (if f.rewrite then AfterRemove(s, f) else Restored(AfterRemove(s, f).(receipt := Pending), existed, f.restore))
    else if !managed && presence.Absent? then Restored(Forgotten(AfterRemove(s, f), f), existed, f.restore)
    else if !managed && presence.Present? then Restored(Forgotten(s, f), existed, f.restore)
    else Restored(s, existed, f.restore)
  }

  /** From the merged configuration on. */
  function AddAndFinish(s: State, existed: bool, managed: bool, presence: Presence, f: Faults): (State, bool) {
    if !f.add.Succeeds? then
      (RollbackBefore(s.(plugin := s.plugin || (f.add.Fails? && f.addLeaves)), existed, managed, f), false)
    else
      var added := s.(plugin := true);
      if f.writeMarker then (RollbackAfter(added, existed, managed, presence, f), false)
      else if f.installed then (RollbackAfter(added.(marker := Valid), existed, managed, presence, f), false)
      else (added.(marker := Valid, receipt := Installed), true)
  }

  predicate MergeFails(f: Faults) {
    f.readConfig || f.saveBackup || f.writeConfig
  }

  /** The state after an installation, and whether it reports success. */
  function AfterInstall(s: State, f: Faults, text: string): (State, bool) {
    if !f.marketplace.Succeeds? then (s, false)
    else if MergeFails(f) then (if f.readConfig || f.saveBackup then s else s.(backup := s.config), false)
    else if !Managed(s) && f.pending then (Restored(Merged(s, text), s.config.Some?, f.restore), false)
    else
      var merged := if Managed(s) then Merged(s, text) else Merged(s, text).(receipt := Pending);
      AddAndFinish(merged, s.config.Some?, Managed(s), Reported(s, f.list), f)
  }

  /** What goes wrong in an uninstallation. */
  datatype Snags = Snags(remove: Exit, removeTakes: bool, dropMarker: bool, dropReceipt: bool)

  /** Anything but a receipt of this vault means there is nothing to uninstall. */
  function AfterUninstall(s: State, g: Snags): (State, bool) {
    if !Managed(s) && !HasReceipt(s) then (s, true)
    else if !g.remove.Succeeds? then (s.(plugin := s.plugin && !(g.remove.Fails? && g.removeTakes)), false)
    else if g.dropMarker then (s.(plugin := false), false)
    else if g.dropReceipt then (s.(plugin := false, marker := NoMarker), false)
    else (s.(plugin := false, marker := NoMarker, receipt := NoReceipt), true)
  }

  function AfterRefresh(s: State, add: Exit, addLeaves: bool): State {
    if Managed(s) then s.(plugin := s.plugin || add.Succeeds? || (add.Fails? && addLeaves)) else s
  }

  // ---- what an installation leaves behind ----

  /** The plugin is installed and nothing authorises its removal. */
  predicate Stranded(s: State) {
    s.plugin && !HasReceipt(s)
  }

  /** The step that fails after the configuration was merged, if one does. */
  predicate ReachesAdd(s: State, f: Faults) {
    f.marketplace.Succeeds? && !MergeFails(f) && (Managed(s) || !f.pending)
  }

  predicate FinishFails(f: Faults) {
    f.add.Succeeds? && (f.writeMarker || f.installed)
  }

  lemma DoneIsManaged(s: State, f: Faults, text: string)
    requires AfterInstall(s, f, text).1
    ensures var out := AfterInstall(s, f, text).0;
            out.plugin && Managed(out) && out.config == Some(text) && out.backup == s.config
  {
  }

  lemma SuccessKeepsConfig(s: State, f: Faults)
    requires AfterInstall(s, f, WithFlags(s.config)).1
    ensures var out := AfterInstall(s, f, WithFlags(s.config)).0;
            out.config.Some? && FlagsAdded(s.config, out.config.value) && out.backup == s.config
  {
    hide FlagsAdded, WithFlags;
    DoneIsManaged(s, f, WithFlags(s.config));
    MergedKeepsConfig(s.config);
  }

  /** Exactly when a failed installation leaves the plugin with no receipt that lets it be removed. */
  lemma StrandedIff(s: State, f: Faults, text: string)
    requires !AfterInstall(s, f, text).1
    ensures Stranded(AfterInstall(s, f, text).0) <==>
            if ReachesAdd(s, f) then
              !Managed(s) && !f.dropReceipt &&
              ((f.add.Fails? && f.addLeaves) || (s.plugin && (!f.add.Succeeds? || (FinishFails(f) && !f.list))))
            else Stranded(s)
  {
  }

  /** With the plugin reported absent and unmanaged, a failed run ends with it absent or with a receipt,
      unless the add command exits with an error although it installed the plugin. */
  lemma AbsentOrReceipt(s: State, f: Faults, text: string)
    requires !s.plugin && !Managed(s) && !f.list && !AfterInstall(s, f, text).1
    ensures var out := AfterInstall(s, f, text).0;
            (!out.plugin || HasReceipt(out)) <==> !(ReachesAdd(s, f) && f.add.Fails? && f.addLeaves && !f.dropReceipt)
  {
    StrandedIff(s, f, text);
  }

  /** An add command that exits with an error at once. */
  const ADD_FAILS := Faults(Succeeds, false, false, false, false, false, SpawnFails, false,
                            false, false, Succeeds, false, false, false, false, false)

  /** One that exits with an error after it installed the plugin. */
  const ADD_LEAVES := ADD_FAILS.(add := Fails, addLeaves := true)

  /** The guard that can be checked before the call: no failure of an installation strands the plugin, as long
      as a failing add command installs nothing, exactly when the plugin is managed or absent; without that
      proviso, exactly when it is managed. */
  lemma InstallIsSafeIff(s: State, text: string)
    requires !Stranded(s)
    ensures (forall f: Faults :: !f.addLeaves ==> !Stranded(AfterInstall(s, f, text).0)) <==> Managed(s) || !s.plugin
    ensures (forall f: Faults :: !Stranded(AfterInstall(s, f, text).0)) <==> Managed(s)
  {
    forall f: Faults | Managed(s) || (!s.plugin && !f.addLeaves)
      ensures !Stranded(AfterInstall(s, f, text).0)
    {
      StepStrandsIff(s, Install(f, text));
    }
    StepStrandsIff(s, Install(ADD_FAILS, text));
    StepStrandsIff(s, Install(ADD_LEAVES, text));
    assert !Managed(s) && s.plugin ==> Stranded(AfterInstall(s, ADD_FAILS, text).0);
    assert !Managed(s) ==> Stranded(AfterInstall(s, ADD_LEAVES, text).0);
  }

  /** A retry after an installation whose cleanup failed can lose the receipt that the cleanup had kept:
      the plugin is present by then, and both rollbacks take the receipt away. */
  lemma RetryLosesReceipt(s: State, f: Faults, text: string)
    requires s.plugin && s.receipt.Pending? && ReachesAdd(s, f) && !f.dropReceipt
    requires f.add.SpawnFails? || (FinishFails(f) && !f.list)
    ensures !AfterInstall(s, f, text).1 && Stranded(AfterInstall(s, f, text).0)
  {
    StrandedIff(s, f, text);
  }

  /** The backup was made, the configuration written and the receipt recorded, so the add command runs. */
  predicate AddRuns(s: State, f: Faults) {
    && f.marketplace.Succeeds? && !f.readConfig && !f.saveBackup && !f.writeConfig
    && ((s.marker.Valid? && s.receipt.Installed?) || !f.pending)
  }

  /** The plugin was added, the installation failed behind that, and it is not one that was managed before. */
  predicate Unfinished(s: State, f: Faults) {
    AddRuns(s, f) && f.add.Succeeds? && (f.writeMarker || f.installed) && !(s.marker.Valid? && s.receipt.Installed?)
  }

  /** The cleanup removes the plugin only if it was not there before, and forgets it only once it is gone. */
  predicate Removes(s: State, f: Faults) {
    Unfinished(s, f) && !s.plugin && !f.list
  }

  predicate Forgets(s: State, f: Faults) {
    Unfinished(s, f) && !f.list && (s.plugin || f.remove.Succeeds?)
  }

  lemma SucceedsIff(s: State, f: Faults, text: string)
    ensures var (out, ok) := AfterInstall(s, f, text);
            && (ok <==> AddRuns(s, f) && f.add.Succeeds? && !f.writeMarker && !f.installed)
            && out.backup == if f.marketplace.Succeeds? && !f.readConfig && !f.saveBackup then s.config else s.backup
  {
  }

  lemma PluginAfter(s: State, f: Faults, text: string)
    ensures AfterInstall(s, f, text).0.plugin <==>
            if Removes(s, f) then !f.remove.Succeeds? && !(f.remove.Fails? && f.removeTakes)
            else s.plugin || (AddRuns(s, f) && (f.add.Succeeds? || (f.add.Fails? && f.addLeaves)))
  {
  }

  lemma ReceiptAfter(s: State, f: Faults, text: string)
    ensures var (out, ok) := AfterInstall(s, f, text);
            out.receipt == if ok then Installed
                           else if !AddRuns(s, f) || (s.marker.Valid? && s.receipt.Installed?) then s.receipt
                           else if (!f.add.Succeeds? || Forgets(s, f)) && !f.dropReceipt then NoReceipt
                           else Pending
  {
  }

  lemma MarkerAfter(s: State, f: Faults, text: string)
    ensures var (out, ok) := AfterInstall(s, f, text);
            out.marker == if Forgets(s, f) && !f.dropMarker then NoMarker
                          else if AddRuns(s, f) && f.add.Succeeds? && !f.writeMarker then Valid
                          else s.marker
  {
  }

  /** The cleanup after the plugin was added stops before the configuration is restored. */
  predicate CleanupGivesUp(s: State, f: Faults) {
    !Managed(s) && FinishFails(f) && !s.plugin && !f.list && !f.remove.Succeeds? && f.rewrite
  }

  /** A failed installation ends with the original configuration, byte for byte, unless it was merged and
      the restore itself fails or the cleanup stops before it; before the merge only the backup can change. */
  lemma ConfigComesBack(s: State, f: Faults, text: string)
    requires !AfterInstall(s, f, text).1
    ensures var merged := f.marketplace.Succeeds? && !MergeFails(f);
            var out := AfterInstall(s, f, text).0;
            && (!merged ==> out == s.(backup := out.backup))
            && out.config == if merged && (f.restore || (ReachesAdd(s, f) && CleanupGivesUp(s, f))) then Some(text)
               else s.config
  {
    if f.marketplace.Succeeds? && !MergeFails(f) { MergedComesBack(s, f, text); }
  }

  lemma MergedComesBack(s: State, f: Faults, text: string)
    requires f.marketplace.Succeeds? && !MergeFails(f) && !AfterInstall(s, f, text).1
    ensures AfterInstall(s, f, text).0.config ==
            if f.restore || (ReachesAdd(s, f) && CleanupGivesUp(s, f)) then Some(text) else s.config
  {
  }

  /** A failed run neither breaks nor creates a managed installation. */
  lemma FailureKeepsManagement(s: State, f: Faults, text: string)
    requires !AfterInstall(s, f, text).1
    ensures Managed(AfterInstall(s, f, text).0) <==> Managed(s)
  {
  }

  // ---- undoing it ----

  /** Uninstalling acts exactly when there is a receipt; a failed attempt can be repeated, and one without
      failures leaves nothing. */
  lemma UninstallLaws(s: State, g: Snags)
    ensures AfterUninstall(s, g) == (s, true) || HasReceipt(s)
    ensures !AfterUninstall(s, g).1 ==> HasReceipt(AfterUninstall(s, g).0)
    ensures HasReceipt(s) && AfterUninstall(s, g).1 ==>
              AfterUninstall(s, g).0 == s.(plugin := false, marker := NoMarker, receipt := NoReceipt)
  {
  }

  /** What an uninstallation changes: the plugin goes when its removal works, the marker after that, the receipt last;
      the configuration stays as it is. */
  lemma UninstallFields(s: State, g: Snags)
    ensures var (out, ok) := AfterUninstall(s, g);
            var acts := s.receipt.Pending? || s.receipt.Installed?;
            && out.config == s.config && out.backup == s.backup
            && (ok <==> acts ==> g.remove.Succeeds? && !g.dropMarker && !g.dropReceipt)
            && (out.plugin <==> s.plugin && !(acts && (g.remove.Succeeds? || (g.remove.Fails? && g.removeTakes))))
            && out.marker == (if acts && g.remove.Succeeds? && !g.dropMarker then NoMarker else s.marker)
            && out.receipt == (if acts && ok then NoReceipt else s.receipt)
  {
  }

  /** A refresh adds the plugin to a managed installation again, and touches nothing else. */
  lemma RefreshFields(s: State, add: Exit, addLeaves: bool)
    ensures var out := AfterRefresh(s, add, addLeaves);
            && out == s.(plugin := out.plugin)
            && (out.plugin <==> s.plugin || (s.marker.Valid? && s.receipt.Installed? &&
                                             (add.Succeeds? || (add.Fails? && addLeaves))))
  {
  }

  datatype Command = Install(f: Faults, text: string) | Uninstall(g: Snags) | Refresh(add: Exit, addLeaves: bool)

  function Do(s: State, c: Command): State {
    match c
    case Install(f, text) => AfterInstall(s, f, text).0
    case Uninstall(g) => AfterUninstall(s, g).0
    case Refresh(add, addLeaves) => AfterRefresh(s, add, addLeaves)
  }

  function Run(s: State, commands: seq<Command>): State {
    if commands == [] then s else Do(Run(s, commands[..|commands| - 1]), commands[|commands| - 1])
  }

  /** The installations that drop a receipt while the plugin is, or may be, there. */
  predicate DropsReceipt(s: State, c: Command) {
    c.Install? && ReachesAdd(s, c.f) && !Managed(s) && !c.f.dropReceipt &&
    ((c.f.add.Fails? && c.f.addLeaves) || (s.plugin && (!c.f.add.Succeeds? || (FinishFails(c.f) && !c.f.list))))
  }

  /** A run gets the plugin stranded exactly at the first such command. */
  lemma StepStrandsIff(s: State, c: Command)
    requires !Stranded(s)
    ensures Stranded(Do(s, c)) <==> DropsReceipt(s, c)
  {
    match c
    case Install(f, text) =>
      if AfterInstall(s, f, text).1 { DoneIsManaged(s, f, text); } else { StrandedIff(s, f, text); }
    case Uninstall(g) =>
    case Refresh(add, addLeaves) =>
  }

  /** The marker cannot be written, and neither can the plugin be removed again. */
  const CLEANUP_FAILS := ADD_FAILS.(add := Succeeds, writeMarker := true, remove := Fails)

  /** Two installations that get there, from a plugin that is absent and was never managed: the cleanup of the
      first keeps the plugin and a pending receipt, and the second takes that receipt away. */
  lemma TwoFailuresStrand(s: State)
    requires !s.plugin && s.receipt.NoReceipt? && s.marker.NoMarker?
    ensures var commands := [Install(CLEANUP_FAILS, WithFlags(s.config)), Install(ADD_FAILS, WithFlags(s.config))];
            && Run(s, commands[..1]) == s.(backup := s.config, receipt := Pending, plugin := true)
            && Run(s, commands) == s.(backup := s.config, plugin := true)
            && !AfterInstall(s, CLEANUP_FAILS, WithFlags(s.config)).1 && Stranded(Run(s, commands))
  {
    hide WithFlags;
    var commands := [Install(CLEANUP_FAILS, WithFlags(s.config)), Install(ADD_FAILS, WithFlags(s.config))];
    assert commands[..2] == commands;
    RunSnoc(s, commands, 0);
    RunSnoc(s, commands, 1);
  }

  lemma RunSnoc(s: State, commands: seq<Command>, n: nat)
    requires n < |commands|
    ensures Run(s, commands[..n + 1]) == Do(Run(s, commands[..n]), commands[n])
  {
    assert commands[..n + 1][..n] == commands[..n];
  }

  /** Over every run the plugin is never stranded exactly when no command drops a receipt in such a case. */
  lemma NeverStrandedIff(s: State, commands: seq<Command>)
    requires !Stranded(s)
    ensures (forall n :: 0 <= n <= |commands| ==> !Stranded(Run(s, commands[..n]))) <==>
            (forall n :: 0 <= n < |commands| ==> !DropsReceipt(Run(s, commands[..n]), commands[n]))
  {
    if forall n :: 0 <= n < |commands| ==> !DropsReceipt(Run(s, commands[..n]), commands[n]) {
      forall n: nat | n <= |commands|
        ensures !Stranded(Run(s, commands[..n]))
      {
        SafeUpTo(s, commands, n);
      }
    } else {
      var n :| 0 <= n < |commands| && DropsReceipt(Run(s, commands[..n]), commands[n]);
      RunSnoc(s, commands, n);
      if !Stranded(Run(s, commands[..n])) { StepStrandsIff(Run(s, commands[..n]), commands[n]); }
    }
  }

  lemma {:induction false} SafeUpTo(s: State, commands: seq<Command>, n: nat)
    requires !Stranded(s) && n <= |commands|
    requires forall k :: 0 <= k < n ==> !DropsReceipt(Run(s, commands[..k]), commands[k])
    ensures !Stranded(Run(s, commands[..n]))
  {
    if n > 0 {
      SafeUpTo(s, commands, n - 1);
      RunSnoc(s, commands, n - 1);
      StepStrandsIff(Run(s, commands[..n - 1]), commands[n - 1]);
    }
  }

  predicate Succeeded(s: State, c: Command)
    requires !c.Refresh?
  {
    match c
    case Install(f, text) => AfterInstall(s, f, text).1
    case Uninstall(g) => AfterUninstall(s, g).1
  }

  /** Refreshes aside, the last command reported success; before the first, the plugin is managed or absent. */
  predicate Settled(s: State, commands: seq<Command>) {
    if commands == [] then Managed(s) || !s.plugin
    else
      var n := |commands| - 1;
      if commands[n].Refresh? then Settled(s, commands[..n]) else Succeeded(Run(s, commands[..n]), commands[n])
  }

  lemma {:induction false} SettledIsSafe(s: State, commands: seq<Command>)
    requires Settled(s, commands) && !Stranded(Run(s, commands))
    ensures Managed(Run(s, commands)) || !Run(s, commands).plugin
  {
    if commands != [] {
      var n := |commands| - 1;
      var before := Run(s, commands[..n]);
      match commands[n]
      case Install(f, text) => DoneIsManaged(before, f, text);
      case Uninstall(g) => UninstallLaws(before, g);
      case Refresh(_, _) => if Managed(before) { } else { SettledIsSafe(s, commands[..n]); }
    }
  }

  /** A caller that uninstalls after a failure before it installs again never strands the plugin, whatever
      fails, as long as a failing add command installs nothing. */
  lemma {:induction false} RetryAfterUninstall(s: State, commands: seq<Command>)
    requires !Stranded(s)
    requires forall n :: 0 <= n < |commands| && commands[n].Install? ==>
             Settled(s, commands[..n]) && !commands[n].f.addLeaves
    ensures !Stranded(Run(s, commands))
  {
    if commands != [] {
      var n := |commands| - 1;
      assert forall k :: 0 <= k < n ==> commands[..n][..k] == commands[..k] && commands[..n][k] == commands[k];
      RetryAfterUninstall(s, commands[..n]);
      StepStrandsIff(Run(s, commands[..n]), commands[n]);
      if commands[n].Install? { SettledIsSafe(s, commands[..n]); }
    }
  }

  // ---- the procedures ----

  /** The files of one vault and of CODEX_HOME, and the plugin Codex has installed. */
  class CodexHome {
    var config: Option<string>
    var backup: Option<string>
    var receipt: Receipt
    var marker: Marker
    var plugin: bool

    constructor (s: State)
      ensures Snapshot() == s
    {
      config, backup, receipt, marker, plugin := s.config, s.backup, s.receipt, s.marker, s.plugin;
    }

    ghost function Snapshot(): State
      reads this
    {
      State(config, backup, receipt, marker, plugin)
    }

    predicate IsManaged()
      reads this
      ensures IsManaged() == Managed(Snapshot())
    {
      marker.Valid? && receipt.Installed?
    }

    method Install(f: Faults) returns (ok: bool)
      modifies this
      ensures (Snapshot(), ok) == AfterInstall(old(Snapshot()), f, WithFlags(old(config)))
      ensures ok ==> config.Some? && FlagsAdded(old(config), config.value) && backup == old(config)
    {
      hide FlagsAdded, WithFlags;
      if AfterInstall(Snapshot(), f, WithFlags(config)).1 { SuccessKeepsConfig(Snapshot(), f); }
      if !f.marketplace.Succeeds? { return false; }
      var wasManaged := IsManaged();
      var presence := if f.list then Unknown else if plugin then Present else Absent;
      var existed := config.Some?;
      var merged := MergeConfig(f);
      if !merged { return false; }
      if !wasManaged {
        if f.pending {
          RestoreConfig(existed, f.restore);
          return false;
        }
        receipt := Pending;
      }
      ok := AddOrUndo(existed, wasManaged, presence, f);
    }

    method AddOrUndo(existed: bool, wasManaged: bool, presence: Presence, f: Faults) returns (ok: bool)
      modifies this
      ensures (Snapshot(), ok) == AddAndFinish(old(Snapshot()), existed, wasManaged, presence, f)
    {
      if !f.add.Succeeds? {
        plugin := plugin || (f.add.Fails? && f.addLeaves);
        UndoBeforeAdd(existed, wasManaged, f);
        return false;
      }
      plugin := true;
      ok := Finalize(f);
      if !ok {
        UndoAfterAdd(existed, wasManaged, presence, f);
      }
    }

    method MergeConfig(f: Faults) returns (ok: bool)
      modifies this
      ensures ok == !MergeFails(f)
      ensures ok ==> Snapshot() == Merged(old(Snapshot()), WithFlags(old(config)))
      ensures !ok ==> Snapshot() == if f.readConfig || f.saveBackup then old(Snapshot())
              else old(Snapshot()).(backup := old(config))
    {
      if f.readConfig || f.saveBackup { return false; }
      var text := WithFlags(config);
      backup := config;
      if f.writeConfig { return false; }
      config := Some(text);
      ok := true;
    }

    method RestoreConfig(existed: bool, fails: bool)
      modifies this
      ensures Snapshot() == Restored(old(Snapshot()), existed, fails)
    {
      if fails { return; }
      if existed {
        if backup.Some? { config := backup; }
      } else {
        config := None;
      }
    }

    method Finalize(f: Faults) returns (ok: bool)
      modifies this
      ensures ok == !(f.writeMarker || f.installed)
      ensures Snapshot() == if f.writeMarker then old(Snapshot())
              else if f.installed then old(Snapshot()).(marker := Valid)
                            else old(Snapshot()).(marker := Valid, receipt := Installed)
    {
      if f.writeMarker { return false; }
      marker := Valid;
      if f.installed { return false; }
      receipt := Installed;
      ok := true;
    }

    method UndoBeforeAdd(existed: bool, wasManaged: bool, f: Faults)
      modifies this
      ensures Snapshot() == RollbackBefore(old(Snapshot()), existed, wasManaged, f)
    {
      if !wasManaged && !f.dropReceipt {
        receipt := NoReceipt;
      }
      RestoreConfig(existed, f.restore);
    }

    method UndoAfterAdd(existed: bool, wasManaged: bool, presence: Presence, f: Faults)
      modifies this
      ensures Snapshot() == RollbackAfter(old(Snapshot()), existed, wasManaged, presence, f)
    {
      var cleanupFailed := false;
      if !wasManaged && presence.Absent? {
        if f.remove.Succeeds? || (f.remove.Fails? && f.removeTakes) {
          plugin := false;
        }
        cleanupFailed := !f.remove.Succeeds?;
      }
      if !cleanupFailed {
        if !wasManaged && !presence.Unknown? {
          if !f.dropReceipt { receipt := NoReceipt; }
          if !f.dropMarker { marker := NoMarker; }
        }
      } else {
        if f.rewrite { return; }
        receipt := Pending;
      }
      RestoreConfig(existed, f.restore);
    }

    method Uninstall(g: Snags) returns (ok: bool)
      modifies this
      ensures (Snapshot(), ok) == AfterUninstall(old(Snapshot()), g)
    {
      if !IsManaged() && !receipt.Pending? && !receipt.Installed? { return true; }
      if !g.remove.Succeeds? {
        plugin := plugin && !(g.remove.Fails? && g.removeTakes);
        return false;
      }
      plugin := false;
      if g.dropMarker { return false; }
      marker := NoMarker;
      if g.dropReceipt { return false; }
      receipt := NoReceipt;
      ok := true;
    }
  }
}
