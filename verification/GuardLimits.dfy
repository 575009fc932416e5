/** Where the lockout guard stops protecting: runs that show it, and exactly when
    it happens. */
module GuardLimits {
  import opened Options
  import opened GuardHost
  import opened GuardProtocol
  import opened GuardInvariant
  import opened GuardOutcomes

  // ---------------- exact conditions ----------------

  /** A change that raises is disarmed. The guarantee survives the cancel exactly
      when the change had not touched the host, the host is back, or the cancel
      reached nothing. */
  lemma RaiseKeepsGuardExactly(g: Guard, stopped: bool, removed: bool)
    requires g.alive && g.phase.ApplyRaised? && Protected(g) && !g.released
    ensures Protected(Next(g, BestEffortCancel(stopped, removed))) <==>
            !g.mutated || BackOn(g.host, g.captured) || (!stopped && !removed)
  {
  }

  /** A verified change survives whatever the timer does exactly when the cancel
      stopped the timer or removed the snapshot, or the change left the captured
      files as they were. */
  lemma VerifiedSurvivesExactly(g: Guard, stopped: bool, removed: bool)
    requires g.alive && g.phase.Verified? && g.host.timer && Kept(g)
    ensures var after := Next(g, BestEffortCancel(stopped, removed));
            (after.host.timer ==> Fired(after.host).files == g.host.files) <==>
            stopped || removed || Matches(g.host.files, g.captured)
  {
    var after := Next(g, BestEffortCancel(stopped, removed));
    if !stopped && !removed {
      FiringIsIdempotent(after.host);
      OverlayIsBack(after.host.(timer := false), g.captured);
    }
  }

  /** An operator's confirmation that raises leaves the window open exactly when it
      neither stopped the timer nor removed the snapshot. */
  lemma FailedConfirmExactly(g: Guard, stopped: bool, removed: bool)
    requires g.row == Armed && g.host.timer && Kept(g)
    ensures var after := Next(g, OperatorConfirms(stopped, removed, false));
            after.row == Armed && (after.host.timer && Kept(after) <==> !stopped && !removed)
  {
  }

  // ---------------- runs that show it ----------------

  /** What a snapshot holds when every copy succeeds, or all but that of ufw.conf. */
  function Copied(files: Files, conf: bool): Files {
    if conf then files else files - {UfwConf}
  }

  /** Armed, recorded, and about to apply the change. */
  function Ready(h: Host, conf: bool): Guard
    requires !h.timer && h.dir.None?
  {
    var captured := Copied(h.files, conf);
    Start(h).(host := h.(timer := true, dir := Some(Snapshot(captured, true))), row := Armed, phase := Applying,
              captured := captured)
  }

  function Copy(from: Files, to: Files, f: File): Files {
    if f in from then to[f := from[f]] else to
  }

  lemma CopiesAll(files: Files, conf: bool)
    ensures var two := Copy(files, Copy(files, map[], UserRules), User6Rules);
            (if conf then Copy(files, two, UfwConf) else two) == Copied(files, conf)
  {
    var two := Copy(files, Copy(files, map[], UserRules), User6Rules);
    var all := if conf then Copy(files, two, UfwConf) else two;
    forall f: File ensures Read(all, f) == Read(Copied(files, conf), f) {
      match f
      case UserRules =>
      case User6Rules =>
      case UfwConf =>
    }
    SameFiles(all, Copied(files, conf));
  }

  function Arm(h: Host, captured: Files, next: nat, script: bool): Guard
    requires !h.timer && h.dir.None?
  {
    Start(h).(host := h.(dir := Some(Snapshot(captured, script))), phase := Arming(next, true), captured := captured)
  }

  lemma ReachCopies(h: Host, conf: bool, lawful: bool)
    requires !h.timer && h.dir.None?
    ensures Reachable(Start(h), Arm(h, Copied(h.files, conf), 4, false), lawful)
  {
    var s := Start(h);
    ReachStart(s, lawful);
    ReachNext(s, s, ArmStep(true, true), lawful);
    assert Next(s, ArmStep(true, true)) == Arm(h, map[], 1, false);
    var one := Copy(h.files, map[], UserRules);
    ReachNext(s, Arm(h, map[], 1, false), ArmStep(true, true), lawful);
    assert Next(Arm(h, map[], 1, false), ArmStep(true, true)) == Arm(h, one, 2, false);
    var two := Copy(h.files, one, User6Rules);
    ReachNext(s, Arm(h, one, 2, false), ArmStep(true, true), lawful);
    assert Next(Arm(h, one, 2, false), ArmStep(true, true)) == Arm(h, two, 3, false);
    ReachNext(s, Arm(h, two, 3, false), ArmStep(conf, conf), lawful);
    CopiesAll(h.files, conf);
    assert Next(Arm(h, two, 3, false), ArmStep(conf, conf)) == Arm(h, Copied(h.files, conf), 4, false);
  }

  lemma ReachReady(h: Host, conf: bool, lawful: bool)
    requires !h.timer && h.dir.None?
    ensures Reachable(Start(h), Ready(h, conf), lawful)
  {
    var s, captured := Start(h), Copied(h.files, conf);
    ReachCopies(h, conf, lawful);
    ReachNext(s, Arm(h, captured, 4, false), ArmStep(true, true), lawful);
    assert Next(Arm(h, captured, 4, false), ArmStep(true, true)) == Arm(h, captured, 5, true);
    ReachNext(s, Arm(h, captured, 5, true), ArmStep(true, true), lawful);
    var armed := Next(Arm(h, captured, 5, true), ArmStep(true, true));
    ReachNext(s, armed, ArmEnds(true), lawful);
    ReachNext(s, Next(armed, ArmEnds(true)), Commit(true), lawful);
    assert Next(Next(armed, ArmEnds(true)), Commit(true)) == Ready(h, conf);
  }

  /** The change as it lands on a ready host. */
  function Changed(h: Host, conf: bool, files: Files): Guard
    requires !h.timer && h.dir.None?
  {
    Next(Ready(h, conf), Mutate(files, Reloaded(files)))
  }

  lemma ReachChanged(h: Host, conf: bool, files: Files, lawful: bool)
    requires !h.timer && h.dir.None?
    ensures Reachable(Start(h), Changed(h, conf, files), lawful)
  {
    ReachReady(h, conf, lawful);
    ReachNext(Start(h), Ready(h, conf), Mutate(files, Reloaded(files)), lawful);
  }

  /** A change that raises half way is recorded as rolled back, disarmed, and left
      on the host: on every host, for every change of a captured file. */
  lemma HalfAppliedChangeEscapes(h: Host, files: Files) returns (g: Guard)
    requires !h.timer && h.dir.None? && !Matches(files, h.files)
    ensures Reachable(Start(h), g, false) && g.row == RolledBack(false)
    ensures g.host.files == files && !g.host.timer && !Protected(g)
  {
    var s := Start(h);
    ReachChanged(h, true, files, false);
    g := Changed(h, true, files);
    ReachNext(s, g, ApplyEnds(true), false);
    g := Next(g, ApplyEnds(true));
    ReachNext(s, g, BestEffortCancel(true, true), false);
    g := Next(g, BestEffortCancel(true, true));
    ReachNext(s, g, Record, false);
    g := Next(g, Record);
  }

  /** A change that was verified and recorded as confirmed is undone by the timer
      when the cancel did not get through. */
  lemma ConfirmedThenReverted(h: Host, files: Files) returns (g: Guard)
    requires !h.timer && h.dir.None? && !Matches(files, h.files)
    ensures Reachable(Start(h), g, true) && g.row == Confirmed && g.phase.Over?
    ensures g.host.files == files && g.host.timer && Fired(g.host).files != files
  {
    var s := Start(h);
    ReachChanged(h, true, files, true);
    g := Changed(h, true, files);
    ReachNext(s, g, ApplyEnds(false), true);
    g := Next(g, ApplyEnds(false));
    ReachNext(s, g, Probe(true), true);
    g := Next(g, Probe(true));
    VerifiedSurvivesExactly(g, false, false);
    ReachNext(s, g, BestEffortCancel(false, false), true);
    g := Next(g, BestEffortCancel(false, false));
    ReachNext(s, g, Record, true);
    g := Next(g, Record);
  }

  /** A confirmation that raises may already have removed the snapshot: the row
      goes from armed to expired, which says the host restored itself, and the
      change is still there after the timer fired. */
  lemma FailedConfirmStrands(h: Host, files: Files) returns (g: Guard)
    requires !h.timer && h.dir.None? && !Matches(files, h.files)
    ensures Reachable(Start(h), g, true) && g.row == Expired
    ensures !g.host.timer && g.host.files == files && !BackOn(g.host, g.captured)
  {
    var s := Start(h);
    ReachChanged(h, true, files, true);
    g := Changed(h, true, files);
    ReachNext(s, g, Dies, true);
    g := Next(g, Dies);
    ReachNext(s, g, OperatorConfirms(false, true, false), true);
    g := Next(g, OperatorConfirms(false, true, false));
    ReachNext(s, g, Fires, true);
    g := Next(g, Fires);
    ReachNext(s, g, Sweep, true);
    g := Next(g, Sweep);
  }

  /** No confirmation is needed for that: the probe passes, the cancel goes through,
      the process dies before it records anything, and the sweep writes that the host
      restored itself over a change that stays. */
  lemma VerifiedThenExpired(h: Host, files: Files) returns (g: Guard)
    requires !h.timer && h.dir.None? && !Matches(files, h.files)
    ensures Reachable(Start(h), g, true) && g.row == Expired
    ensures !g.host.timer && g.host.files == files && !BackOn(g.host, g.captured)
  {
    var s := Start(h);
    ReachChanged(h, true, files, true);
    g := Changed(h, true, files);
    ReachNext(s, g, ApplyEnds(false), true);
    g := Next(g, ApplyEnds(false));
    ReachNext(s, g, Probe(true), true);
    g := Next(g, Probe(true));
    ReachNext(s, g, BestEffortCancel(true, true), true);
    g := Next(g, BestEffortCancel(true, true));
    ReachNext(s, g, Dies, true);
    g := Next(g, Dies);
    ReachNext(s, g, Sweep, true);
    g := Next(g, Sweep);
  }

  /** An operator's restore at its k-th line, undisturbed. */
  function OperatorAt(from: Guard, k: nat): Guard {
    from.(host := ScriptTo(from.host, k), operators := map[0 := k])
  }

  lemma OperatorNext(from: Guard, k: nat)
    requires k < LINES
    ensures Possible(OperatorAt(from, k), OperatorLine(0))
    ensures Next(OperatorAt(from, k), OperatorLine(0)) == OperatorAt(from, k + 1)
  {
    assert map[0 := k][0 := k + 1] == map[0 := k + 1];
  }

  lemma {:induction false} OperatorRuns(s: Guard, from: Guard, k: nat)
    requires Reachable(s, from, true) && from.row == Armed && HasScript(from.host) && from.operators == map[]
    requires k <= LINES
    ensures Reachable(s, OperatorAt(from, k), true)
  {
    if k == 0 {
      ReachNext(s, from, OperatorBegins(0), true);
      assert Next(from, OperatorBegins(0)) == OperatorAt(from, 0);
    } else {
      OperatorRuns(s, from, k - 1);
      OperatorNext(from, k - 1);
      ReachNext(s, OperatorAt(from, k - 1), OperatorLine(0), true);
    }
  }

  /** An operator's restore that nothing disturbs. */
  lemma OperatorRestored(s: Guard, from: Guard) returns (g: Guard)
    requires Reachable(s, from, true) && from.row == Armed && HasScript(from.host) && from.operators == map[]
    ensures Reachable(s, g, true) && g.row == RolledBack(true)
    ensures g.host.files == Overlaid(from.host, from.host.dir.value.files).files
            && g.host.live == Reloaded(g.host.files)
    ensures g.released == from.released && g.captured == from.captured && g.before == from.before
  {
    OperatorRuns(s, from, LINES);
    g := OperatorAt(from, LINES);
    ScriptOverlays(from.host);
    ReachNext(s, g, OperatorCancels(0, true, true, true), true);
    g := Next(g, OperatorCancels(0, true, true, true));
  }

  /** Arming does not insist on the copy of ufw.conf. Without it a recorded
      rollback does not bring the on/off state back. */
  lemma OnOffLostWithoutConf(h: Host, files: Files) returns (g: Guard)
    requires !h.timer && h.dir.None? && files.Keys == h.files.Keys && ConfOn(files) != ConfOn(h.files)
    ensures Reachable(Start(h), g, true) && g.row == RolledBack(true) && !g.released
    ensures g.host.live.On? <==> !ConfOn(g.before.files)
  {
    var s := Start(h);
    ReachChanged(h, false, files, true);
    g := Changed(h, false, files);
    g := OperatorRestored(s, g);
    assert g.host.files[UfwConf] == files[UfwConf];
  }

  /** A script whose snapshot is gone copies nothing and still reports success. */
  lemma RestoreWithoutSnapshot(s: Guard, from: Guard) returns (g: Guard)
    requires Reachable(s, from, true) && from.alive && from.phase == Restoring(0) && from.host.dir.None?
    ensures Reachable(s, g, true) && g.row == RolledBack(true)
    ensures g.host.files == from.host.files && g.captured == from.captured && g.before == from.before
  {
    g := from;
    for i := 0 to LINES
      invariant Reachable(s, g, true) && g.phase == Restoring(i) && g.alive && g.host.dir.None?
      invariant g.host.files == from.host.files && g.captured == from.captured && g.before == from.before
    {
      ReachNext(s, g, RestoreLine, true);
      g := Next(g, RestoreLine);
    }
    ReachNext(s, g, RestoreCancels(true, true, true), true);
    g := Next(g, RestoreCancels(true, true, true));
    ReachNext(s, g, Record, true);
    g := Next(g, Record);
  }

  /** A confirmation that lands while the run is restoring pulls the snapshot from
      under the script: the run then records a rollback of files it did not restore.
      This is why the rollback guarantee asks that nothing was let go. */
  lemma ConfirmRacesRestore(h: Host, files: Files) returns (g: Guard)
    requires !h.timer && h.dir.None? && !Matches(files, h.files)
    ensures Reachable(Start(h), g, true) && g.row == RolledBack(true) && g.host.files == files
    ensures !AsArmed(g)
  {
    var s := Start(h);
    ReachChanged(h, true, files, true);
    g := Changed(h, true, files);
    ReachNext(s, g, ApplyEnds(false), true);
    g := Next(g, ApplyEnds(false));
    ReachNext(s, g, Probe(false), true);
    g := Next(g, Probe(false));
    ReachNext(s, g, RestoreBegins(true), true);
    g := Next(g, RestoreBegins(true));
    ReachNext(s, g, OperatorConfirms(true, true, true), true);
    g := Next(g, OperatorConfirms(true, true, true));
    g := RestoreWithoutSnapshot(s, g);
    var f: File :| !Agrees(files, h.files, f);
  }
}
