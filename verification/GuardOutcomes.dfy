/** What the guard's row is worth: over every run, what a recorded rollback, an
    expired window and a resolved row say about the host. */
module GuardOutcomes {
  import opened Options
  import opened GuardHost
  import opened GuardProtocol
  import opened GuardInvariant

  // ---------------- what a recorded rollback means ----------------

  /** The host's captured files and its on/off state are those of arming time, and so
      are the rules it has loaded, where they were captured. */
  ghost predicate AsArmed(g: Guard) {
    && (forall f: File :: f in g.captured ==>
          f in g.before.files && f in g.host.files && g.host.files[f] == g.before.files[f])
    && (UfwConf in g.captured ==> (g.host.live.On? <==> ConfOn(g.before.files)))
    && (g.host.live.On? && UserRules in g.captured ==>
          UserRules in g.before.files && g.host.live.rules == Some(g.before.files[UserRules]))
    && (g.host.live.On? && User6Rules in g.captured ==>
          User6Rules in g.before.files && g.host.live.rules6 == Some(g.before.files[User6Rules]))
    && g.host.live == Reloaded(g.host.files)
  }

  lemma BackIsAsArmed(g: Guard)
    requires Matches(g.before.files, g.captured) && BackOn(g.host, g.captured)
    ensures AsArmed(g)
  {
    forall f: File | f in g.captured
      ensures f in g.before.files && f in g.host.files && g.host.files[f] == g.before.files[f]
    {
      assert Agrees(g.before.files, g.captured, f) && Agrees(g.host.files, g.captured, f);
    }
  }

  lemma AsArmedMatches(g: Guard)
    requires Matches(g.before.files, g.captured) && AsArmed(g)
    ensures Matches(g.host.files, g.captured)
  {
    forall f: File ensures Agrees(g.host.files, g.captured, f) {
      assert Agrees(g.before.files, g.captured, f);
    }
  }

  /** No cancel on the way took away a snapshot that was still needed. */
  ghost predicate Harmless(g: Guard, events: seq<Event>)
    requires IsRun(g, events, true)
  {
    events != [] ==>
      && Harmless(g, events[..|events| - 1])
      && !Harms(After(g, events[..|events| - 1], true), events[|events| - 1])
  }

  /** The snapshot is gone and the files are not back; nothing can mend that. */
  ghost predicate Harmed(g: Guard) {
    && g.host.dir.None? && !Matches(g.host.files, g.captured)
    && !g.phase.Arming? && !g.phase.Committing?
  }

  lemma HarmBegins(g: Guard, e: Event)
    requires Framed(g) && Possible(g, e) && Harms(g, e)
    ensures Harmed(Next(g, e))
  {
  }

  lemma HarmStays(g: Guard, e: Event)
    requires Harmed(g) && Possible(g, e) && Assumed(g, e)
    ensures Harmed(Next(g, e))
  {
  }

  /** A run keeps its restores at work as long as no cancel harms them, and is
      beyond repair from the first that does. */
  lemma {:induction false} IntactOrHarmed(g: Guard, events: seq<Event>)
    requires Framed(g) && Intact(g) && IsRun(g, events, true)
    ensures Framed(After(g, events, true))
    ensures if Harmless(g, events) then Intact(After(g, events, true)) else Harmed(After(g, events, true))
  {
    if events != [] {
      var prefix, e := events[..|events| - 1], events[|events| - 1];
      var before := After(g, prefix, true);
      IntactOrHarmed(g, prefix);
      StepFramed(before, e);
      if !Harmless(g, prefix) {
        HarmStays(before, e);
      } else if Harms(before, e) {
        HarmBegins(before, e);
      } else {
        IntactStep(before, e);
      }
    }
  }

  /** Nothing is armed, the host is back, and no step left can change that. */
  ghost predicate Settled(g: Guard) {
    && !g.host.timer && BackOn(g.host, g.captured) && Resolved(g.row)
    && (g.phase.Recording? ==> Resolved(g.phase.outcome))
    && !g.phase.Arming? && !g.phase.Committing?
    && (g.host.dir.Some? ==> g.host.dir.value.files == g.captured)
  }

  lemma SettledStep(g: Guard, e: Event)
    requires Settled(g) && Possible(g, e) && Assumed(g, e)
    ensures Settled(Next(g, e)) && Next(g, e).host.files == g.host.files && Next(g, e).host.live == g.host.live
    ensures Next(g, e).captured == g.captured && Next(g, e).before == g.before
  {
    if e.RestoreLine? {
      LineKeepsBack(g.host, g.captured, g.phase.line);
    } else if e.OperatorLine? {
      LineKeepsBack(g.host, g.captured, g.operators[e.id]);
    }
  }

  lemma {:induction false} SettledForever(g: Guard, events: seq<Event>)
    requires Settled(g) && IsRun(g, events, true)
    ensures var later := After(g, events, true);
            && Settled(later) && later.host.files == g.host.files && later.host.live == g.host.live
            && later.captured == g.captured && later.before == g.before
  {
    if events != [] {
      var prefix := events[..|events| - 1];
      SettledForever(g, prefix);
      SettledStep(After(g, prefix, true), events[|events| - 1]);
    }
  }

  /** The host is as armed, nothing is left to fire, and no lawful step that can
      still happen changes its files or its ruleset. */
  ghost predicate FinallyAsArmed(g: Guard) {
    && AsArmed(g) && !g.host.timer
    && forall events :: IsRun(g, events, true) ==>
         var later := After(g, events, true);
         && AsArmed(later) && !later.host.timer
         && later.host.files == g.host.files && later.host.live == g.host.live
  }

  lemma SettledIsFinal(g: Guard)
    requires Settled(g) && Framed(g)
    ensures FinallyAsArmed(g)
  {
    BackIsAsArmed(g);
    forall events | IsRun(g, events, true)
      ensures var later := After(g, events, true);
              && AsArmed(later) && !later.host.timer
              && later.host.files == g.host.files && later.host.live == g.host.live
    {
      SettledForever(g, events);
      BackIsAsArmed(After(g, events, true));
    }
  }

  lemma RecordedExactly(g: Guard, events: seq<Event>)
    requires Framed(g) && Intact(g) && IsRun(g, events, true) && After(g, events, true).row == RolledBack(true)
    ensures var later := After(g, events, true);
            !later.host.timer && (AsArmed(later) <==> Harmless(g, events)) && (AsArmed(later) ==> FinallyAsArmed(later))
  {
    var later := After(g, events, true);
    IntactOrHarmed(g, events);
    if Harmless(g, events) {
      SettledIsFinal(later);
    } else if AsArmed(later) {
      AsArmedMatches(later);
    }
  }

  /** What a rollback recorded after a restore, by the run or by an operator, is
      worth over a whole lawful run: the captured files and the on/off state are
      those of arming time, finally, exactly when no cancel took the snapshot from a
      host that was not back. In either case nothing is left to fire. */
  lemma RolledBackExactly(h: Host, events: seq<Event>)
    requires !h.timer && h.dir.None? && IsRun(Start(h), events, true)
    requires After(Start(h), events, true).row == RolledBack(true)
    ensures var g := After(Start(h), events, true);
            && !g.host.timer && (AsArmed(g) <==> Harmless(Start(h), events))
            && (AsArmed(g) ==> FinallyAsArmed(g))
  {
    StartSound(h);
    RecordedExactly(Start(h), events);
  }

  /** The scripts under way, if any, are at their first line, with the snapshot. */
  predicate Fresh(g: Guard) {
    && HasScript(g.host) && !SaysRestored(g) && (g.phase.Restoring? ==> g.phase.line == 0)
    && (forall id :: id in g.operators ==> g.operators[id] == 0)
  }

  /** The same for restores that begin in any state of any run, whatever the change
      did before and whoever let it go. A run's own restore, once begun, is lawful
      whatever happens. */
  lemma RestoreExactly(h: Host, g: Guard, lawful: bool, events: seq<Event>)
    requires !h.timer && h.dir.None? && Reachable(Start(h), g, lawful) && Fresh(g) && IsRun(g, events, true)
    requires After(g, events, true).row == RolledBack(true)
    ensures var later := After(g, events, true);
            && !later.host.timer && (AsArmed(later) <==> Harmless(g, events))
            && (AsArmed(later) ==> FinallyAsArmed(later))
  {
    ReachableIsFramed(h, g, lawful);
    RecordedExactly(g, events);
  }

  /** While a restore of the run is under way or over, every run is lawful. */
  lemma {:induction false} RestoringIsLawful(g: Guard, events: seq<Event>)
    requires IsRun(g, events, false) && (g.phase.Restoring? || g.phase.Recording? || g.phase.Over?)
    ensures IsRun(g, events, true) && After(g, events, true) == After(g, events, false)
    ensures var later := After(g, events, false).phase; later.Restoring? || later.Recording? || later.Over?
  {
    if events != [] {
      RestoringIsLawful(g, events[..|events| - 1]);
    }
  }

  /** A rollback recorded while nothing was let go is final. */
  lemma RolledBackIsFinal(h: Host, g: Guard)
    requires !h.timer && h.dir.None? && Reachable(Start(h), g, true)
    requires g.row == RolledBack(true) && !g.released
    ensures FinallyAsArmed(g)
  {
    ReachableIsSound(h, g);
    SettledIsFinal(g);
  }

  /** With every file captured and none added, the host's files are those of
      arming time, and so is its ruleset if it was loaded from them. */
  lemma WhollyRestored(g: Guard)
    requires AsArmed(g) && g.captured.Keys == g.before.files.Keys && g.host.files.Keys <= g.before.files.Keys
    ensures g.host.files == g.before.files
    ensures g.before.live == Reloaded(g.before.files) ==> g.host.live == g.before.live
  {
    assert g.host.files == g.before.files by {
      forall f: File ensures Read(g.host.files, f) == Read(g.before.files, f) {
        if f in g.before.files {
          assert f in g.captured;
        }
      }
      SameFiles(g.host.files, g.before.files);
    }
  }

  // ---------------- the on/off state ----------------

  /** After the change, ufw.conf stays as it is unless it was captured. */
  ghost predicate ConfKept(start: Guard, g: Guard) {
    && g.captured == start.captured && g.before == start.before
    && (UfwConf !in g.captured ==> Read(g.host.files, UfwConf) == Read(start.host.files, UfwConf))
    && !g.phase.Arming? && !g.phase.Committing? && !g.phase.Applying?
  }

  lemma ConfStep(start: Guard, g: Guard, e: Event)
    requires Framed(g) && ConfKept(start, g) && Possible(g, e)
    ensures ConfKept(start, Next(g, e))
  {
    if e.Fires? && HasScript(g.host) {
      ScriptOverlays(g.host.(timer := false));
    }
  }

  lemma {:induction false} ConfStays(h: Host, g: Guard, events: seq<Event>)
    requires !h.timer && h.dir.None? && Reachable(Start(h), g, true) && g.phase.Applied? && IsRun(g, events, true)
    ensures ConfKept(g, After(g, events, true))
  {
    if events != [] {
      var prefix := events[..|events| - 1];
      ConfStays(h, g, prefix);
      ReachRun(Start(h), g, prefix, true);
      ReachableIsFramed(h, After(g, prefix, true), true);
      ConfStep(g, After(g, prefix, true), events[|events| - 1]);
    }
  }

  /** Whether a rollback brings the on/off state of arming time back is settled when
      the change ends: exactly when ufw.conf was captured, or the change left its
      setting alone. */
  lemma OnOffRestoredExactly(h: Host, g: Guard, events: seq<Event>)
    requires !h.timer && h.dir.None? && Reachable(Start(h), g, true) && g.phase.Applied? && IsRun(g, events, true)
    requires After(g, events, true).row == RolledBack(true) && !After(g, events, true).released
    ensures (After(g, events, true).host.live.On? <==> ConfOn(g.before.files)) <==>
            UfwConf in g.captured || ConfOn(g.host.files) == ConfOn(g.before.files)
  {
    var later := After(g, events, true);
    ConfStays(h, g, events);
    ReachRun(Start(h), g, events, true);
    RolledBackIsFinal(h, later);
  }

  // ---------------- the row over every run ----------------

  /** No process is left that would write the row without checking it. */
  predicate Finished(g: Guard) {
    (!g.alive || g.phase.Over?) && g.operators == map[]
  }

  /** A resolved row stays resolved. The sweep and a confirmation never change it;
      only the run's own record does, or a restore that an operator began before. */
  lemma ResolvedStep(g: Guard, e: Event)
    requires Framed(g) && Possible(g, e) && Resolved(g.row)
    ensures Resolved(Next(g, e).row)
    ensures Finished(g) ==> Finished(Next(g, e))
    ensures Next(g, e).row != g.row ==> (e == Record || e.OperatorCancels?) && !Finished(g)
  {
  }

  /** Over every run a resolved row stays resolved, and never changes once the
      guarded run is over or dead and no operator's restore is under way. */
  lemma {:induction false} ResolvedOnce(h: Host, g: Guard, events: seq<Event>, lawful: bool)
    requires !h.timer && h.dir.None? && Reachable(Start(h), g, lawful) && IsRun(g, events, lawful)
    requires Resolved(g.row)
    ensures Resolved(After(g, events, lawful).row)
    ensures Finished(g) ==> Finished(After(g, events, lawful)) && After(g, events, lawful).row == g.row
  {
    if events != [] {
      var prefix := events[..|events| - 1];
      ResolvedOnce(h, g, prefix, lawful);
      var last := After(g, prefix, lawful);
      ReachRun(Start(h), g, prefix, lawful);
      ReachableIsFramed(h, last, lawful);
      ResolvedStep(last, events[|events| - 1]);
    }
  }

  /** What an expired row says, that the host restored itself, is true as soon as
      nothing is pending: the host was not touched or is as armed. The only
      exceptions are changes let go by a probe or by a cancel that reached the host. */
  lemma ExpiredIsTrue(h: Host, g: Guard)
    requires !h.timer && h.dir.None? && Reachable(Start(h), g, true)
    requires g.row == Expired && !g.released
    ensures g.host.files == g.before.files || AsArmed(g.(host := Eventually(g.host)))
  {
    ReachableIsSound(h, g);
    if g.mutated {
      AlwaysProtected(h, g);
      BackIsAsArmed(g.(host := Eventually(g.host)));
    }
  }

  // ---------------- a restore whose snapshot is gone ----------------

  /** Scripts past their snapshot: what is left of the run from `start` copies
      nothing and loads what is there. */
  ghost predicate Bare(start: Guard, g: Guard) {
    && g.host.dir.None? && g.host.files == start.host.files
    && g.captured == start.captured && g.before == start.before
    && !g.phase.Arming? && !g.phase.Committing?
    && (g.phase.Restoring? && g.phase.line >= 4 ==> g.host.live == Reloaded(g.host.files))
    && (forall id :: id in g.operators && g.operators[id] >= 4 ==> g.host.live == Reloaded(g.host.files))
    && (SaysRestored(g) ==> g.host.live == Reloaded(g.host.files))
  }

  lemma BareStep(start: Guard, g: Guard, e: Event)
    requires Bare(start, g) && Possible(g, e) && Assumed(g, e)
    ensures Bare(start, Next(g, e))
  {
  }

  lemma {:induction false} BareForever(g: Guard, events: seq<Event>)
    requires Bare(g, g) && IsRun(g, events, true)
    ensures Bare(g, After(g, events, true))
  {
    if events != [] {
      var prefix := events[..|events| - 1];
      BareForever(g, prefix);
      BareStep(g, After(g, prefix, true), events[|events| - 1]);
    }
  }

  /** If the snapshot is gone while scripts still have files to copy or to load, a
      rollback recorded later is one exactly when the files matched the snapshot
      already. */
  lemma RestoreWithoutSnapshotExactly(h: Host, g: Guard, events: seq<Event>, lawful: bool)
    requires !h.timer && h.dir.None? && Reachable(Start(h), g, lawful) && IsRun(g, events, true)
    requires g.row != NoRow && g.host.dir.None? && !SaysRestored(g)
    requires (g.phase.Restoring? ==> g.phase.line < 4) && forall id :: id in g.operators ==> g.operators[id] < 4
    requires After(g, events, true).row == RolledBack(true)
    ensures AsArmed(After(g, events, true)) <==> Matches(g.host.files, g.captured)
  {
    var later := After(g, events, true);
    ReachableIsFramed(h, g, lawful);
    BareForever(g, events);
    if Matches(g.host.files, g.captured) {
      BackIsAsArmed(later);
    } else if AsArmed(later) {
      AsArmedMatches(later);
    }
  }
}
