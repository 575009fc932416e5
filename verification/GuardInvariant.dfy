/** What every run of the guard protocol keeps, and the guarantee that follows. */
module GuardInvariant {
  import opened Options
  import opened GuardHost
  import opened GuardProtocol

  // ---------------- what every run keeps ----------------

  /** A recorded or about to be recorded restore. */
  predicate SaysRestored(g: Guard) {
    g.row == RolledBack(true) || g.phase == Recording(RolledBack(true))
  }

  predicate Resolved(row: Row) {
    row != NoRow && row != Armed
  }

  /** What holds in every run, whatever the change does and when it lands. */
  ghost predicate Framed(g: Guard) {
    && Matches(g.before.files, g.captured)
    && (g.host.dir.Some? ==> g.host.dir.value.files == g.captured)
    && (g.phase.Arming? || g.phase.Committing? ==> !g.mutated && !g.released && g.row == NoRow)
    && (!g.mutated ==> g.host.files == g.before.files)
    && (g.phase.Recording? ==> Resolved(g.phase.outcome))
    && (g.operators != map[] ==> g.row != NoRow)
    && (SaysRestored(g) ==> !g.host.timer)
  }

  lemma StartSound(h: Host)
    requires !h.timer && h.dir.None?
    ensures Sound(Start(h))
  {
  }

  lemma ArmStepFramed(g: Guard, e: Event)
    requires Framed(g) && e.ArmStep? && Possible(g, e)
    ensures Framed(Next(g, e))
  {
    var after := Next(g, e);
    forall f: File ensures Agrees(after.before.files, after.captured, f) {
      assert Agrees(g.before.files, g.captured, f);
    }
  }

  lemma FiresFramed(g: Guard)
    requires Framed(g) && Possible(g, Fires)
    ensures Framed(Next(g, Fires))
  {
    if HasScript(g.host) {
      var spent := g.host.(timer := false);
      CutScript(spent, g.captured, LINES);
      ScriptOverlays(spent);
      if !g.mutated {
        OverlayIsBack(spent, g.captured);
      }
    }
  }

  /** Any script's next line, on a host as every run keeps it. */
  lemma LineFramed(g: Guard, k: nat)
    requires Framed(g)
    ensures Framed(g.(host := ScriptLine(g.host, k)))
  {
    if !g.mutated {
      MatchesStays(g.host, g.captured, k);
    }
  }

  predicate IsCancel(e: Event) {
    e.BestEffortCancel? || e.RestoreCancels? || e.OperatorConfirms? || e.OperatorCancels?
  }

  /** Steps that leave the host alone. */
  predicate IsPaperwork(e: Event) {
    !IsCancel(e) && !e.ArmStep? && !e.Fires? && !e.RestoreLine? && !e.OperatorLine? && !e.Mutate?
  }

  lemma MutateFramed(g: Guard, e: Event)
    requires Framed(g) && e.Mutate? && Possible(g, e)
    ensures Framed(Next(g, e))
  {
  }

  lemma CancelFramed(g: Guard, e: Event)
    requires Framed(g) && IsCancel(e) && Possible(g, e)
    ensures Framed(Next(g, e))
  {
  }

  lemma PaperworkFramed(g: Guard, e: Event)
    requires Framed(g) && IsPaperwork(e) && Possible(g, e)
    ensures Framed(Next(g, e))
  {
  }

  lemma StepFramed(g: Guard, e: Event)
    requires Framed(g) && Possible(g, e)
    ensures Framed(Next(g, e))
  {
    if IsCancel(e) {
      CancelFramed(g, e);
    } else if IsPaperwork(e) {
      PaperworkFramed(g, e);
    } else if e.ArmStep? {
      ArmStepFramed(g, e);
    } else if e.Fires? {
      FiresFramed(g);
    } else if e.Mutate? {
      MutateFramed(g, e);
    } else {
      LineFramed(g, if e.RestoreLine? then g.phase.line else g.operators[e.id]);
    }
  }

  lemma {:induction false} RunFramed(h: Host, events: seq<Event>, lawful: bool)
    requires !h.timer && h.dir.None? && IsRun(Start(h), events, lawful)
    ensures Framed(After(Start(h), events, lawful))
  {
    if events == [] {
      StartSound(h);
    } else {
      var prefix := events[..|events| - 1];
      RunFramed(h, prefix, lawful);
      StepFramed(After(Start(h), prefix, lawful), events[|events| - 1]);
    }
  }

  lemma ReachableIsFramed(h: Host, g: Guard, lawful: bool)
    requires !h.timer && h.dir.None? && Reachable(Start(h), g, lawful)
    ensures Framed(g)
  {
    var events :| IsRun(Start(h), events, lawful) && After(Start(h), events, lawful) == g;
    RunFramed(h, events, lawful);
  }

  // ---------------- restores under way ----------------

  /** Every restore under way is doing its work, and a recorded one did it. */
  ghost predicate Intact(g: Guard) {
    && (g.phase.Restoring? ==> Progress(g.host, g.captured, g.phase.line))
    && (forall id :: id in g.operators ==> Progress(g.host, g.captured, g.operators[id]))
    && (SaysRestored(g) ==> BackOn(g.host, g.captured))
  }

  /** A cancel that removes the snapshot of a host whose files are not back. */
  ghost predicate Harms(g: Guard, e: Event) {
    && (e.OperatorConfirms? || e.BestEffortCancel?) && e.removed
    && g.host.dir.Some? && !Matches(g.host.files, g.captured)
  }

  /** What a script's line does to the restores under way and to a finished one. */
  lemma LineIntact(g: Guard, k: nat)
    requires Framed(g) && Intact(g) && Progress(g.host, g.captured, k) && k < LINES
    ensures Intact(g.(host := ScriptLine(g.host, k)))
    ensures Progress(ScriptLine(g.host, k), g.captured, k + 1)
  {
    var after := g.(host := ScriptLine(g.host, k));
    LineKeepsProgress(g.host, g.captured, k, k);
    if g.phase.Restoring? {
      LineKeepsProgress(g.host, g.captured, k, g.phase.line);
    }
    forall id | id in g.operators ensures Progress(after.host, g.captured, g.operators[id]) {
      LineKeepsProgress(g.host, g.captured, k, g.operators[id]);
    }
    if SaysRestored(g) {
      LineKeepsBack(g.host, g.captured, k);
    }
  }

  /** A host that is back is one every script has done its work on. */
  lemma BackIsProgress(h: Host, captured: Files, k: nat)
    requires BackOn(h, captured) && k <= LINES
    ensures Progress(h, captured, k)
  {
  }

  lemma FiresIntact(g: Guard)
    requires Framed(g) && Intact(g) && Possible(g, Fires)
    ensures Intact(Next(g, Fires))
  {
    var after := Next(g, Fires);
    if HasScript(g.host) {
      CutScript(g.host.(timer := false), g.captured, LINES);
      forall k: nat | k <= LINES ensures Progress(after.host, g.captured, k) {
        BackIsProgress(after.host, g.captured, k);
      }
    }
  }

  lemma CancelIntact(g: Guard, e: Event)
    requires Framed(g) && Intact(g) && Possible(g, e) && !Harms(g, e)
    requires IsCancel(e)
    ensures Intact(Next(g, e))
  {
    if e.RestoreCancels? || e.OperatorCancels? {
      BackUpToEnd(g.host, g.captured, LINES);
    }
  }

  lemma OperatorLineIntact(g: Guard, id: nat)
    requires Framed(g) && Intact(g) && Possible(g, OperatorLine(id))
    ensures Intact(Next(g, OperatorLine(id)))
  {
    LineIntact(g, g.operators[id]);
  }

  lemma PaperworkIntact(g: Guard, e: Event)
    requires Framed(g) && Intact(g) && IsPaperwork(e) && Possible(g, e)
    ensures Intact(Next(g, e))
  {
  }

  lemma ChangeIntact(g: Guard, e: Event)
    requires Framed(g) && Intact(g) && (e.ArmStep? || e.Mutate?) && Possible(g, e) && Assumed(g, e)
    ensures Intact(Next(g, e))
  {
  }

  lemma IntactStep(g: Guard, e: Event)
    requires Framed(g) && Intact(g) && Possible(g, e) && Assumed(g, e) && !Harms(g, e)
    ensures Intact(Next(g, e))
  {
    if IsCancel(e) {
      CancelIntact(g, e);
    } else if IsPaperwork(e) {
      PaperworkIntact(g, e);
    } else if e.Fires? {
      FiresIntact(g);
    } else if e.RestoreLine? {
      LineIntact(g, g.phase.line);
    } else if e.OperatorLine? {
      OperatorLineIntact(g, e.id);
    } else {
      ChangeIntact(g, e);
    }
  }

  // ---------------- the guarantee ----------------

  /** Until the change is let go, either it has not touched the host, or the armed
      timer stands with its snapshot, or the host is back. */
  ghost predicate Protected(g: Guard) {
    g.released || !g.mutated || (g.host.timer && Kept(g)) || BackOn(g.host, g.captured)
  }

  ghost predicate Sound(g: Guard) {
    && Framed(g) && (!g.released ==> Intact(g)) && Protected(g)
    && (g.phase.ApplyRaised? ==> !g.mutated) && (g.phase.Verified? ==> g.released)
  }

  /** Only a cancel that lets the change go can take a needed snapshot away. */
  lemma HarmReleases(g: Guard, e: Event)
    requires Sound(g) && Possible(g, e) && Harms(g, e)
    ensures Next(g, e).released
  {
  }

  lemma LineProtected(g: Guard, k: nat)
    requires Sound(g) && !g.released && Progress(g.host, g.captured, k) && k < LINES
    ensures Protected(g.(host := ScriptLine(g.host, k)))
  {
    LineAdvances(g.host, g.captured, k);
  }

  lemma FiresProtected(g: Guard)
    requires Sound(g) && Possible(g, Fires)
    ensures Protected(Next(g, Fires))
  {
    if HasScript(g.host) {
      CutScript(g.host.(timer := false), g.captured, LINES);
    }
  }

  lemma CancelProtected(g: Guard, e: Event)
    requires Sound(g) && Possible(g, e)
    requires IsCancel(e)
    ensures Protected(Next(g, e))
  {
    if (e.RestoreCancels? || e.OperatorCancels?) && !g.released {
      BackUpToEnd(g.host, g.captured, LINES);
    }
  }

  lemma StepProtected(g: Guard, e: Event)
    requires Sound(g) && Possible(g, e) && Assumed(g, e)
    ensures Protected(Next(g, e))
  {
    match e
    case Fires => FiresProtected(g);
    case RestoreLine =>
      if !g.released {
        LineProtected(g, g.phase.line);
      }
    case OperatorLine(id) =>
      if !g.released {
        LineProtected(g, g.operators[id]);
      }
    case _ =>
      if IsCancel(e) {
        CancelProtected(g, e);
      }
  }

  lemma StepSound(g: Guard, e: Event)
    requires Sound(g) && Possible(g, e) && Assumed(g, e)
    ensures Sound(Next(g, e))
  {
    StepFramed(g, e);
    StepProtected(g, e);
    if !Next(g, e).released {
      if Harms(g, e) {
        HarmReleases(g, e);
      }
      IntactStep(g, e);
    }
    StepPhases(g, e);
  }

  lemma StepPhases(g: Guard, e: Event)
    requires Sound(g) && Possible(g, e) && Assumed(g, e)
    ensures Next(g, e).phase.ApplyRaised? ==> !Next(g, e).mutated
    ensures Next(g, e).phase.Verified? ==> Next(g, e).released
  {
  }

  lemma {:induction false} RunSound(h: Host, events: seq<Event>)
    requires !h.timer && h.dir.None? && IsRun(Start(h), events, true)
    ensures Sound(After(Start(h), events, true))
  {
    if events == [] {
      StartSound(h);
    } else {
      var prefix := events[..|events| - 1];
      RunSound(h, prefix);
      StepSound(After(Start(h), prefix, true), events[|events| - 1]);
    }
  }

  lemma ReachableIsSound(h: Host, g: Guard)
    requires !h.timer && h.dir.None? && Reachable(Start(h), g, true)
    ensures Sound(g)
  {
    var events :| IsRun(Start(h), events, true) && After(Start(h), events, true) == g;
    RunSound(h, events);
  }

  /** The host as it is once nothing is pending: what the timer leaves, if armed. */
  function Eventually(h: Host): Host {
    if h.timer then Fired(h) else h
  }

  /** In every run, with any step failing, the process dying anywhere and the timer
      firing at any time: until a fresh probe succeeds or an operator's cancel
      reaches the host, a touched host has the armed timer with its snapshot or is
      back on it; so that, left alone until the timer fires, it is back. */
  lemma AlwaysProtected(h: Host, g: Guard)
    requires !h.timer && h.dir.None? && Reachable(Start(h), g, true)
    requires g.mutated && !g.released
    ensures (g.host.timer && Kept(g)) || BackOn(g.host, g.captured)
    ensures BackOn(Eventually(g.host), g.captured)
  {
    ReachableIsSound(h, g);
    if g.host.timer && HasScript(g.host) {
      CutScript(g.host.(timer := false), g.captured, LINES);
    }
  }

  /** Before the change lands, and whenever it raised, the files are untouched. */
  lemma UntouchedUntilMutated(h: Host, g: Guard)
    requires !h.timer && h.dir.None? && Reachable(Start(h), g, true)
    ensures !g.mutated ==> g.host.files == g.before.files
    ensures g.phase.ApplyRaised? ==> !g.mutated
  {
    ReachableIsSound(h, g);
  }
}
