/** One guarded firewall change as a state machine: the API process, the guard's
    row, the host, its timer, and operators acting on the row from outside. */
module GuardProtocol {
  import opened Options
  import opened GuardHost

  /** The guard's row. A rollback says whether a restore was behind it or the
      change never applied. */
  datatype Row = NoRow | Armed | Confirmed | RolledBack(restored: bool) | Expired

  /** Where the guarded run is. */
  datatype Phase =
    | Arming(next: nat, good: bool)
    | Committing
    | Applying
    | ApplyRaised
    | Applied
    | Verified
    | ProbeFailed
    | Restoring(line: nat)
    | Recording(outcome: Row)
    | Over

  /** The state, with what the proofs remember: the host before arming, what was
      captured, whether the change has touched the host, and whether a fresh probe
      has let the change go, or an operator whose cancel reached the host.
      `operators` are the restores that operators have under way, by call, with the
      script line each is at. */
  datatype Guard = Guard(
    host: Host, row: Row, phase: Phase, alive: bool, operators: map<nat, nat>,
    before: Host, captured: Files, mutated: bool, released: bool)

  /** A host about to be armed under a new token. */
  function Start(h: Host): Guard
    requires !h.timer && h.dir.None?
  {
    Guard(h, NoRow, Arming(0, true), true, map[], h, map[], false, false)
  }

  datatype Event =
    // the guarded run; a command may take effect and still report failure
    | ArmStep(took: bool, ok: bool)
    | ArmEnds(ok: bool)
    | Commit(ok: bool)
    | ApplyEnds(raised: bool)
    | Probe(ok: bool)
    | BestEffortCancel(stopped: bool, removed: bool)
    | RestoreBegins(connected: bool)
    | RestoreLine
    | RestoreBreaks
    | RestoreCancels(stopped: bool, removed: bool, ok: bool)
    | Record
    // the change reaching the host
    | Mutate(files: Files, live: Live)
    // the world
    | Dies
    | Fires
    | OperatorConfirms(stopped: bool, removed: bool, ok: bool)
    | OperatorBegins(id: nat)
    | OperatorLine(id: nat)
    | OperatorBreaks(id: nat)
    | OperatorCancels(id: nat, stopped: bool, removed: bool, ok: bool)
    | Sweep

  /** The snapshot as it was taken is still there, script and all. */
  predicate Kept(g: Guard) {
    g.host.dir == Some(Snapshot(g.captured, true))
  }

  predicate Possible(g: Guard, e: Event) {
    match e
    case ArmStep(took, ok) =>
      && g.alive && g.phase.Arming? && g.phase.next < ARM_COMMANDS
      && (ok ==> took) && (ok && g.phase.next == 4 ==> g.host.dir.Some?)
    case ArmEnds(ok) => g.alive && g.phase.Arming? && (ok ==> g.phase == Arming(ARM_COMMANDS, true))
    case Commit(ok) => g.alive && g.phase.Committing?
    case ApplyEnds(raised) => g.alive && g.phase.Applying?
    case Probe(ok) => g.alive && g.phase.Applied?
    case BestEffortCancel(stopped, removed) => g.alive && (g.phase.ApplyRaised? || g.phase.Verified?)
    case RestoreBegins(connected) => g.alive && g.phase.ProbeFailed?
    case RestoreLine => g.phase.Restoring? && g.phase.line < LINES
    case RestoreBreaks => g.phase.Restoring?
    case RestoreCancels(stopped, removed, ok) => g.alive && g.phase == Restoring(LINES) && (ok ==> stopped)
    case Record => g.alive && g.phase.Recording?
    case Mutate(files, live) => g.phase.Applying?
    case Dies => g.alive
    case Fires => g.host.timer
    case OperatorConfirms(stopped, removed, ok) => g.row == Armed && (ok ==> stopped)
    case OperatorBegins(id) => g.row == Armed && HasScript(g.host) && id !in g.operators
    case OperatorLine(id) => id in g.operators && g.operators[id] < LINES
    case OperatorBreaks(id) => id in g.operators
    case OperatorCancels(id, stopped, removed, ok) => id in g.operators && g.operators[id] == LINES && (ok ==> stopped)
    case Sweep => g.row == Armed
  }

  /** The copies of an arming step that takes effect are remembered. */
  function AfterArmStep(g: Guard, took: bool, ok: bool): Guard
    requires g.phase.Arming?
  {
    var k := g.phase.next;
    var h := if took then ArmCommand(g.host, k) else g.host;
    g.(host := h, phase := Arming(k + 1, g.phase.good && (ok || !MustSucceed(k))),
       captured := if h.dir.Some? then h.dir.value.files else g.captured)
  }

  function Next(g: Guard, e: Event): Guard
    requires Possible(g, e)
  {
    match e
    case ArmStep(took, ok) => AfterArmStep(g, took, ok)
    case ArmEnds(ok) => g.(phase := if ok then Committing else Over)
    case Commit(ok) => if ok then g.(row := Armed, phase := Applying) else g.(phase := Over)
    case ApplyEnds(raised) => g.(phase := if raised then ApplyRaised else Applied)
    case Probe(ok) => if ok then g.(phase := Verified, released := true) else g.(phase := ProbeFailed)
    case BestEffortCancel(stopped, removed) =>
      g.(host := Disarmed(g.host, stopped, removed),
         phase := Recording(if g.phase.Verified? then Confirmed else RolledBack(false)))
    case RestoreBegins(connected) => g.(phase := if connected && HasScript(g.host) then Restoring(0) else Over)
    case RestoreLine => g.(host := ScriptLine(g.host, g.phase.line), phase := Restoring(g.phase.line + 1))
    case RestoreBreaks => g.(phase := Over)
    case RestoreCancels(stopped, removed, ok) =>
      g.(host := Disarmed(g.host, stopped, removed), phase := if ok then Recording(RolledBack(true)) else Over)
    case Record => g.(row := g.phase.outcome, phase := Over)
    case Mutate(files, live) => g.(host := g.host.(files := files, live := live), mutated := true)
    case Dies => g.(alive := false)
    case Fires => g.(host := Fired(g.host))
    case OperatorConfirms(stopped, removed, ok) =>
      g.(host := Disarmed(g.host, stopped, removed), row := if ok then Confirmed else Armed,
         released := g.released || stopped || removed)
    case OperatorBegins(id) => g.(operators := g.operators[id := 0])
    case OperatorLine(id) =>
      g.(host := ScriptLine(g.host, g.operators[id]), operators := g.operators[id := g.operators[id] + 1])
    case OperatorBreaks(id) => g.(operators := g.operators - {id})
    case OperatorCancels(id, stopped, removed, ok) =>
      g.(host := Disarmed(g.host, stopped, removed), operators := g.operators - {id},
         row := if ok then RolledBack(true) else g.row)
    case Sweep => g.(row := Expired)
  }

  /** The two hypotheses about the change: it lands inside the window, while the
      timer and its snapshot stand and nobody is restoring, and it raises only
      before touching the host. */
  predicate Assumed(g: Guard, e: Event) {
    match e
    case Mutate(files, live) => g.host.timer && Kept(g) && g.operators == map[]
    case ApplyEnds(raised) => raised ==> !g.mutated
    case _ => true
  }

  // ---------------- runs ----------------

  ghost predicate IsRun(start: Guard, events: seq<Event>, lawful: bool)
    decreases |events|, 0
  {
    events != [] ==>
      && IsRun(start, events[..|events| - 1], lawful)
      && Possible(After(start, events[..|events| - 1], lawful), events[|events| - 1])
      && (lawful ==> Assumed(After(start, events[..|events| - 1], lawful), events[|events| - 1]))
  }

  ghost function After(start: Guard, events: seq<Event>, lawful: bool): Guard
    requires IsRun(start, events, lawful)
    decreases |events|, 1
  {
    if events == [] then start
    else Next(After(start, events[..|events| - 1], lawful), events[|events| - 1])
  }

  /** Some run leads there; a lawful one meets the hypotheses at every step. */
  ghost predicate Reachable(start: Guard, g: Guard, lawful: bool) {
    exists events :: IsRun(start, events, lawful) && After(start, events, lawful) == g
  }

  lemma ReachStart(start: Guard, lawful: bool)
    ensures Reachable(start, start, lawful)
  {
    assert IsRun(start, [], lawful) && After(start, [], lawful) == start;
  }

  /** A lawful run is a run. */
  lemma {:induction false} RunWeakens(start: Guard, events: seq<Event>)
    requires IsRun(start, events, true)
    ensures IsRun(start, events, false) && After(start, events, false) == After(start, events, true)
  {
    if events != [] {
      RunWeakens(start, events[..|events| - 1]);
    }
  }

  lemma ReachWeakens(start: Guard, g: Guard, lawful: bool)
    requires Reachable(start, g, lawful)
    ensures Reachable(start, g, false)
  {
    if lawful {
      var events :| IsRun(start, events, true) && After(start, events, true) == g;
      RunWeakens(start, events);
    }
  }

  lemma ReachNext(start: Guard, g: Guard, e: Event, lawful: bool)
    requires Reachable(start, g, lawful) && Possible(g, e) && (lawful ==> Assumed(g, e))
    ensures Reachable(start, Next(g, e), lawful)
  {
    var events :| IsRun(start, events, lawful) && After(start, events, lawful) == g;
    var longer := events + [e];
    assert longer[..|longer| - 1] == events;
    assert IsRun(start, longer, lawful) && After(start, longer, lawful) == Next(g, e);
  }

  lemma {:induction false} ReachRun(start: Guard, g: Guard, events: seq<Event>, lawful: bool)
    requires Reachable(start, g, lawful) && IsRun(g, events, lawful)
    ensures Reachable(start, After(g, events, lawful), lawful)
  {
    if events != [] {
      var prefix := events[..|events| - 1];
      ReachRun(start, g, prefix, lawful);
      ReachNext(start, After(g, prefix, lawful), events[|events| - 1], lawful);
    }
  }
}
