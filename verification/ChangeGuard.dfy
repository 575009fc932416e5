/** The lockout guard as it runs: arm, record, apply, probe, then disarm or
    restore. Every call is a run of the protocol, with the timer and the operators
    acting wherever they can; what a call answers is tied to the host by it. */
module ChangeGuard {
  import opened Options
  import opened GuardHost
  import opened GuardProtocol
  import opened GuardInvariant
  import opened GuardOutcomes

  /** How a guarded change ends for its caller. */
  datatype Outcome =
    | Unavailable
    | NotArmed
    | NotRecorded
    | ApplyFailed
    | Returned
    | Reverted(byNetFleet: bool)

  datatype Answer = Done | Refused | Failed

  /** What became of one arming command: whether it took effect on the host, and
      whether the batch saw it succeed. */
  datatype Reply = Reply(took: bool, ok: bool)

  /** One write of the change. */
  datatype Write = Write(files: Files, live: Live)

  /** What the cancel did: stopped the timer, removed the directory, reported. */
  datatype Cancel = Cancel(stopped: bool, removed: bool, ok: bool)

  /** How far a restore gets: whether it connects, how many script lines run before
      the connection breaks, and its cancel. */
  datatype Attempt = Attempt(connected: bool, lines: nat, cancel: Cancel)

  /** Everything the network and the database decide about one guarded change. A
      batch with fewer replies than commands broke off. */
  datatype Wire = Wire(
    supported: bool, arming: seq<Reply>, recorded: bool, writes: seq<Write>, raises: bool,
    reachable: bool, disarm: Cancel, restore: Attempt)

  /** All six commands were answered; creating the directory, writing the script and
      scheduling the timer succeeded. */
  predicate ArmingReported(arming: seq<Reply>) {
    && |arming| >= 6 && arming[0].took && arming[0].ok
    && arming[4].took && arming[4].ok && arming[5].took && arming[5].ok
  }

  /** Each of the first k commands that copied a file of the host has it captured. */
  ghost predicate CopiesCaptured(files: Files, captured: Files, arming: seq<Reply>, k: nat)
    requires k <= |arming|
  {
    && (1 < k && arming[1].took && UserRules in files ==> UserRules in captured)
    && (2 < k && arming[2].took && User6Rules in files ==> User6Rules in captured)
    && (3 < k && arming[3].took && UfwConf in files ==> UfwConf in captured)
  }

  /** Each file that a copy command got hold of has its content of arming time. */
  ghost predicate CopiesBack(first: Files, now: Files, arming: seq<Reply>)
    requires |arming| >= 4
  {
    && (arming[1].took && UserRules in first ==> Read(now, UserRules) == Some(first[UserRules]))
    && (arming[2].took && User6Rules in first ==> Read(now, User6Rules) == Some(first[User6Rules]))
    && (arming[3].took && UfwConf in first ==> Read(now, UfwConf) == Some(first[UfwConf]))
  }

  predicate GoodSoFar(arming: seq<Reply>, k: nat)
    requires k <= |arming|
  {
    forall i :: 0 <= i < k && MustSucceed(i) ==> arming[i].took && arming[i].ok
  }

  /** The restore connects, its script ends and its cancel stops the timer. */
  predicate Completes(attempt: Attempt) {
    attempt.connected && attempt.lines >= LINES && attempt.cancel.ok && attempt.cancel.stopped
  }

  /** An event of the host or of operators other than the call `mine`. */
  predicate IsWorld(e: Event, mine: Option<nat>) {
    || e.Fires? || e.OperatorConfirms? || e.Sweep?
    || ((e.OperatorBegins? || e.OperatorLine? || e.OperatorBreaks? || e.OperatorCancels?) && mine != Some(e.id))
  }

  predicate SameCall(a: Guard, b: Guard, mine: Option<nat>) {
    mine.Some? ==> (mine.value in a.operators <==> mine.value in b.operators)
                   && (mine.value in a.operators ==> b.operators[mine.value] == a.operators[mine.value])
  }

  /** What the world cannot change between two steps of the run or of a call. */
  predicate OnlyWorld(a: Guard, b: Guard, mine: Option<nat>) {
    && b.phase == a.phase && b.alive == a.alive && b.mutated == a.mutated
    && b.before == a.before && b.captured == a.captured
    && SameCall(a, b, mine)
    && (a.released ==> b.released)
    && (a.row == NoRow && a.operators == map[] ==> b.row == NoRow && b.released == a.released && b.operators == map[])
    && (!a.host.timer ==> !b.host.timer && (a.row == NoRow && a.operators == map[] ==> b == a))
  }

  lemma WorldStep(a: Guard, b: Guard, e: Event, mine: Option<nat>)
    requires OnlyWorld(a, b, mine) && IsWorld(e, mine) && Possible(b, e)
    ensures OnlyWorld(a, Next(b, e), mine) && Assumed(b, e)
  {
    if e.Fires? && HasScript(b.host) {
      ScriptOverlays(b.host.(timer := false));
    }
  }

  /** The restores are at work, or beyond repair. */
  ghost predicate Tracks(g: Guard, harmed: bool) {
    if harmed then Harmed(g) else Intact(g)
  }

  lemma TracksNext(g: Guard, e: Event, harmed: bool)
    requires Framed(g) && Tracks(g, harmed) && Possible(g, e) && Assumed(g, e)
    ensures Tracks(Next(g, e), harmed || Harms(g, e))
  {
    if harmed {
      HarmStays(g, e);
    } else if Harms(g, e) {
      HarmBegins(g, e);
    } else {
      IntactStep(g, e);
    }
  }

  lemma GoodNext(arming: seq<Reply>, k: nat)
    requires k < |arming|
    ensures GoodSoFar(arming, k + 1) <==>
            GoodSoFar(arming, k) && (MustSucceed(k) ==> arming[k].took && arming[k].ok)
  {
  }

  class GuardedChange {
    const first: Host
    var g: Guard
    /** So far every write landed inside the window and no write was followed by a
        raise. */
    ghost var lawful: bool
    /** A cancel has taken the snapshot from a host that was not back. */
    ghost var harmed: bool

    ghost predicate Valid()
      reads this
    {
      && !first.timer && first.dir.None? && Reachable(Start(first), g, lawful)
      && (lawful ==> Tracks(g, harmed))
    }

    constructor (h: Host)
      requires !h.timer && h.dir.None?
      ensures Valid() && first == h && g == Start(h) && lawful && !harmed
    {
      first, g, lawful, harmed := h, Start(h), true, false;
      ReachStart(Start(h), true);
    }

    /** One step of the protocol. */
    method Do(e: Event)
      requires Valid() && Possible(g, e)
      modifies this
      ensures Valid() && g == Next(old(g), e) && lawful == (old(lawful) && Assumed(old(g), e))
      ensures harmed == (old(harmed) || Harms(old(g), e))
    {
      ReachableIsFramed(first, g, lawful);
      if lawful && Assumed(g, e) {
        TracksNext(g, e, harmed);
      }
      harmed := harmed || Harms(g, e);
      if !Assumed(g, e) {
        ReachWeakens(Start(first), g, lawful);
        lawful := false;
      }
      ReachNext(Start(first), g, e, lawful);
      g := Next(g, e);
    }

    /** Whatever the host and the operators do between two steps, the call `mine`
        left out. */
    method World(mine: Option<nat>)
      requires Valid()
      modifies this
      ensures Valid() && OnlyWorld(old(g), g, mine) && lawful == old(lawful)
    {
      var steps: int := *;
      for i := 0 to if steps > 0 then steps else 0
        invariant Valid() && OnlyWorld(old(g), g, mine) && lawful == old(lawful)
      {
        var e: Event := *;
        if IsWorld(e, mine) && Possible(g, e) {
          WorldStep(old(g), g, e, mine);
          Do(e);
        }
      }
    }

    /** The batch has run its first k commands; nothing can fire before the last. */
    ghost predicate ArmedSoFar(arming: seq<Reply>, k: nat)
      requires k <= |arming|
      reads this
    {
      && g.alive && g.row == NoRow && g.operators == map[] && !g.mutated && g.before == first
      && g.phase == Arming(k, GoodSoFar(arming, k))
      && (k < ARM_COMMANDS ==> !g.host.timer)
      && (0 < k && GoodSoFar(arming, k) ==> g.host.dir.Some? && CopiesCaptured(first.files, g.captured, arming, k))
      && (4 < k && GoodSoFar(arming, k) ==> Kept(g))
      && (k == ARM_COMMANDS && GoodSoFar(arming, k) ==> g.host.timer)
    }

    method ArmOne(arming: seq<Reply>, k: nat)
      requires Valid() && k < |arming| && k < ARM_COMMANDS && ArmedSoFar(arming, k)
      modifies this
      ensures Valid() && ArmedSoFar(arming, k + 1) && lawful == old(lawful)
    {
      GoodNext(arming, k);
      ReachableIsFramed(first, g, lawful);
      var reply := arming[k];
      Do(ArmStep(reply.took, reply.took && reply.ok && (k == 4 ==> g.host.dir.Some?)));
    }

    /** Snapshot and schedule, in one batch that may break at any command. Armed
        means that every command that must succeed did: the timer stands with its
        snapshot, which holds every file a copy command got hold of. */
    method Arm(arming: seq<Reply>) returns (armed: bool)
      requires Valid() && g == Start(first)
      modifies this
      ensures Valid() && g.alive && g.row == NoRow && !g.mutated && g.before == first
      ensures g.phase == if armed then Committing else Over
      ensures armed <==> ArmingReported(arming)
      ensures armed ==> g.host.timer && Kept(g) && CopiesCaptured(first.files, g.captured, arming, |arming|)
      ensures lawful == old(lawful)
    {
      for k := 0 to ARM_COMMANDS
        invariant Valid() && k <= |arming| && ArmedSoFar(arming, k) && lawful == old(lawful)
      {
        World(None);
        if k == |arming| {
          Do(ArmEnds(false));
          return false;
        }
        ArmOne(arming, k);
      }
      armed := g.phase.good;
      Do(ArmEnds(armed));
    }

    /** The change: any writes, whenever they land, and a raise at any point. */
    method Apply(writes: seq<Write>, raises: bool)
      requires Valid() && g.alive && g.phase.Applying? && !g.mutated
      modifies this
      ensures Valid() && g.alive && g.phase == (if raises then ApplyRaised else Applied)
      ensures g.before == old(g.before) && g.captured == old(g.captured)
      ensures g.mutated <==> writes != []
      ensures writes != [] ==>
                g.host.files == writes[|writes| - 1].files && g.host.live == writes[|writes| - 1].live
      ensures lawful ==> old(lawful) && (raises ==> writes == [])
      ensures writes == [] ==> lawful == old(lawful)
    {
      for i := 0 to |writes|
        invariant Valid() && g.alive && g.phase.Applying? && g.before == old(g.before) && g.captured == old(g.captured)
        invariant g.mutated <==> i > 0
        invariant i > 0 ==> g.host.files == writes[i - 1].files && g.host.live == writes[i - 1].live
        invariant lawful ==> old(lawful)
        invariant i == 0 ==> lawful == old(lawful)
      {
        World(None);
        Do(Mutate(writes[i].files, writes[i].live));
      }
      Do(ApplyEnds(raises));
    }

    method BestEffortDisarm(cancel: Cancel)
      requires Valid() && g.alive && (g.phase.ApplyRaised? || g.phase.Verified?)
      modifies this
      ensures Valid() && g.alive && g.mutated == old(g.mutated)
      ensures g.before == old(g.before) && g.captured == old(g.captured)
      ensures cancel.removed ==> g.host.dir.None?
      ensures g.phase == Recording(if old(g.phase).Verified? then Confirmed else RolledBack(false))
      ensures old(g.released) ==> g.released
      ensures cancel.stopped ==> !g.host.timer
      ensures lawful == old(lawful)
    {
      World(None);
      Do(BestEffortCancel(cancel.stopped, cancel.removed));
    }

    method RunScript(lines: nat) returns (ended: bool)
      requires Valid() && g.alive && g.phase == Restoring(0)
      modifies this
      ensures Valid() && g.alive && g.mutated == old(g.mutated) && lawful == old(lawful)
      ensures g.before == old(g.before) && g.captured == old(g.captured)
      ensures ended <==> lines >= LINES
      ensures g.phase == if ended then Restoring(LINES) else Over
    {
      for k := 0 to LINES
        invariant Valid() && g.alive && g.phase == Restoring(k) && k <= lines
        invariant g.before == old(g.before) && g.captured == old(g.captured)
        invariant g.mutated == old(g.mutated) && lawful == old(lawful)
      {
        World(None);
        if k == lines {
          Do(RestoreBreaks);
          return false;
        }
        Do(RestoreLine);
      }
      return true;
    }

    /** Run the script over a new connection, then disarm; either may break. */
    method Restore(attempt: Attempt) returns (restored: bool)
      requires Valid() && g.alive && g.phase.ProbeFailed?
      modifies this
      ensures Valid() && g.alive && g.mutated == old(g.mutated) && lawful == old(lawful)
      ensures g.before == old(g.before) && g.captured == old(g.captured)
      ensures g.phase == if restored then Recording(RolledBack(true)) else Over
      ensures restored ==> Completes(attempt) && !g.host.timer && (attempt.cancel.removed ==> g.host.dir.None?)
      ensures Completes(attempt) && !restored ==> !HasScript(g.host)
    {
      World(None);
      Do(RestoreBegins(attempt.connected));
      if g.phase.Over? {
        return false;
      }
      var ended := RunScript(attempt.lines);
      if !ended {
        return false;
      }
      World(None);
      restored := attempt.cancel.ok && attempt.cancel.stopped;
      Do(RestoreCancels(attempt.cancel.stopped, attempt.cancel.removed, restored));
    }

    /** A recorded rollback is one exactly when no cancel did harm. */
    lemma RecordedNow()
      requires Valid() && lawful && g.row == RolledBack(true)
      ensures AsArmed(g) <==> !harmed
    {
      ReachableIsFramed(first, g, lawful);
      if harmed {
        if AsArmed(g) {
          AsArmedMatches(g);
        }
      } else {
        BackIsAsArmed(g);
      }
    }

    /** Arm, record, apply, verify. The answer is the one the network's replies call
        for, and while the change kept its side it is true of the host. */
    method RunGuarded(w: Wire) returns (r: Outcome)
      requires Valid() && g == Start(first) && lawful
      modifies this
      ensures Valid()
      ensures r.Unavailable? <==> !w.supported
      ensures r.NotArmed? <==> w.supported && !ArmingReported(w.arming)
      ensures r.NotRecorded? <==> w.supported && ArmingReported(w.arming) && !w.recorded
      ensures r.ApplyFailed? <==> w.supported && ArmingReported(w.arming) && w.recorded && w.raises
      ensures r.Returned? ==> w.reachable
      ensures r.Reverted? ==> !w.reachable
      ensures r == Reverted(true) ==> Completes(w.restore)
      ensures r == Reverted(false) && Completes(w.restore) ==> !HasScript(g.host)
      ensures r.Unavailable? ==> g == old(g)
      ensures g.mutated <==> (r.ApplyFailed? || r.Returned? || r.Reverted?) && w.writes != []
      ensures !g.mutated ==> lawful && g.host.files == first.files
      ensures r.ApplyFailed? ==> g.row == RolledBack(false)
      ensures r.ApplyFailed? && w.writes != [] ==> !lawful
      ensures r.Returned? ==> g.row == Confirmed && g.released
      ensures (r.ApplyFailed? || r.Returned?) && w.disarm.stopped ==> !g.host.timer
      ensures r == Reverted(true) ==> g.row == RolledBack(true)
      ensures r == Reverted(true) && lawful && !harmed ==> CopiesBack(first.files, g.host.files, w.arming)
      ensures r == Reverted(true) ==> !g.host.timer && (lawful ==> (AsArmed(g) <==> !harmed))
      ensures r == Reverted(false) && lawful && g.mutated && !g.released ==>
                (g.host.timer && Kept(g) && BackOn(Fired(g.host), g.captured)) || BackOn(g.host, g.captured)
    {
      if !w.supported {
        return Unavailable;
      }
      r := Guarded(w);
      ReachableIsFramed(first, g, lawful);
      if r == Reverted(true) && lawful {
        RecordedNow();
      }
      if r == Reverted(false) && lawful && g.mutated && !g.released {
        AlwaysProtected(first, g);
      }
    }

    /** The same, once the host is known to support the timer. */
    method Guarded(w: Wire) returns (r: Outcome)
      requires Valid() && g == Start(first) && lawful
      modifies this
      ensures Valid() && g.phase.Over? && !r.Unavailable? && g.before == first
      ensures r.NotArmed? <==> !ArmingReported(w.arming)
      ensures r.NotRecorded? <==> ArmingReported(w.arming) && !w.recorded
      ensures r.ApplyFailed? <==> ArmingReported(w.arming) && w.recorded && w.raises
      ensures r.Returned? ==> w.reachable && g.row == Confirmed && g.released
      ensures r.Reverted? ==> !w.reachable
      ensures r.Reverted? || r.Returned? ==> CopiesCaptured(first.files, g.captured, w.arming, |w.arming|)
      ensures g.mutated <==> (r.ApplyFailed? || r.Returned? || r.Reverted?) && w.writes != []
      ensures !g.mutated ==> lawful
      ensures r.ApplyFailed? ==> g.row == RolledBack(false) && (w.writes != [] ==> !lawful)
      ensures (r.ApplyFailed? || r.Returned?) && w.disarm.stopped ==> !g.host.timer
      ensures r == Reverted(true) ==> g.row == RolledBack(true) && Completes(w.restore)
      ensures r == Reverted(false) && Completes(w.restore) ==> !HasScript(g.host)
    {
      var armed := Arm(w.arming);
      if !armed {
        return NotArmed;
      }
      World(None);
      Do(Commit(w.recorded));
      if !w.recorded {
        return NotRecorded;
      }
      Apply(w.writes, w.raises);
      if w.raises {
        BestEffortDisarm(w.disarm);
        World(None);
        Do(Record);
        return ApplyFailed;
      }
      r := Verify(w);
    }

    method Verify(w: Wire) returns (r: Outcome)
      requires Valid() && g.alive && g.phase.Applied?
      modifies this
      ensures Valid() && g.phase.Over? && g.mutated == old(g.mutated) && lawful == old(lawful)
      ensures g.before == old(g.before) && g.captured == old(g.captured)
      ensures if w.reachable then r.Returned? else r.Reverted?
      ensures r.Returned? ==> g.row == Confirmed && g.released && (w.disarm.stopped ==> !g.host.timer)
      ensures r == Reverted(true) ==> g.row == RolledBack(true) && Completes(w.restore)
      ensures r == Reverted(false) && Completes(w.restore) ==> !HasScript(g.host)
    {
      World(None);
      Do(Probe(w.reachable));
      if w.reachable {
        BestEffortDisarm(w.disarm);
        World(None);
        Do(Record);
        return Returned;
      }
      var restored := Restore(w.restore);
      if restored {
        World(None);
        Do(Record);
      }
      return Reverted(restored);
    }

    // ---------------- calls from outside the run ----------------

    /** An operator disarms a pending guard. Success means the timer is gone. */
    method Confirm(cancel: Cancel) returns (r: Answer)
      requires Valid()
      modifies this
      ensures Valid()
      ensures r.Refused? <==> old(g.row) != Armed
      ensures r.Done? <==> old(g.row) == Armed && cancel.ok && cancel.stopped
      ensures r.Refused? ==> g == old(g)
      ensures r.Done? ==> g.row == Confirmed && !g.host.timer
      ensures r.Failed? ==> g.row == Armed
      ensures !r.Refused? ==>
                && g.host.timer == (old(g.host.timer) && !cancel.stopped)
                && g.host.dir == (if cancel.removed then None else old(g.host.dir))
      ensures g.host.files == old(g.host.files) && g.host.live == old(g.host.live)
    {
      if g.row != Armed {
        return Refused;
      }
      var ok := cancel.ok && cancel.stopped;
      Do(OperatorConfirms(cancel.stopped, cancel.removed, ok));
      return if ok then Done else Failed;
    }

    /** An operator restores the snapshot now, line by line, with the host and other
        operators acting in between. Success means nothing is left to fire, and that
        the snapshot is restored unless a cancel took it away too early. */
    method Rollback(id: nat, attempt: Attempt) returns (r: Answer)
      requires Valid() && id !in g.operators
      modifies this
      ensures Valid()
      ensures r.Refused? <==> old(g.row) != Armed
      ensures r.Done? <==> old(g.row) == Armed && HasScript(old(g.host)) && Completes(attempt)
      ensures r.Refused? || !attempt.connected ==> g == old(g)
      ensures r.Done? ==> g.row == RolledBack(true) && !g.host.timer && (attempt.cancel.removed ==> g.host.dir.None?)
      ensures r.Done? && lawful ==> (AsArmed(g) <==> !harmed)
      ensures id !in g.operators && lawful == old(lawful)
    {
      if g.row != Armed {
        return Refused;
      }
      if !attempt.connected || !HasScript(g.host) {
        return Failed;
      }
      var ok := RestoreAs(id, attempt);
      return if ok then Done else Failed;
    }

    method RestoreAs(id: nat, attempt: Attempt) returns (ok: bool)
      requires Valid() && g.row == Armed && HasScript(g.host) && id !in g.operators
      modifies this
      ensures Valid() && id !in g.operators && lawful == old(lawful)
      ensures ok <==> attempt.lines >= LINES && attempt.cancel.ok && attempt.cancel.stopped
      ensures ok ==> g.row == RolledBack(true) && !g.host.timer && (attempt.cancel.removed ==> g.host.dir.None?)
      ensures ok && lawful ==> (AsArmed(g) <==> !harmed)
    {
      Do(OperatorBegins(id));
      var ended := RunOperatorScript(id, attempt.lines);
      if !ended {
        return false;
      }
      World(Some(id));
      ok := FinishRollback(id, attempt.cancel);
    }

    /** The cancel after the script, and the record if it stopped the timer. */
    method FinishRollback(id: nat, cancel: Cancel) returns (ok: bool)
      requires Valid() && id in g.operators && g.operators[id] == LINES
      modifies this
      ensures Valid() && id !in g.operators && lawful == old(lawful)
      ensures ok <==> cancel.ok && cancel.stopped
      ensures (cancel.stopped ==> !g.host.timer) && (cancel.removed ==> g.host.dir.None?)
      ensures ok ==> g.row == RolledBack(true)
      ensures ok && lawful ==> (AsArmed(g) <==> !harmed)
    {
      ok := cancel.ok && cancel.stopped;
      Do(OperatorCancels(id, cancel.stopped, cancel.removed, ok));
      if ok && lawful {
        RecordedNow();
      }
    }

    method RunOperatorScript(id: nat, lines: nat) returns (ended: bool)
      requires Valid() && id in g.operators && g.operators[id] == 0
      modifies this
      ensures Valid() && lawful == old(lawful)
      ensures ended <==> lines >= LINES
      ensures if ended then id in g.operators && g.operators[id] == LINES else id !in g.operators
    {
      for k := 0 to LINES
        invariant Valid() && lawful == old(lawful) && id in g.operators && g.operators[id] == k && k <= lines
      {
        World(Some(id));
        if k == lines {
          Do(OperatorBreaks(id));
          return false;
        }
        Do(OperatorLine(id));
      }
      return true;
    }
  }

  // ---------------- the table ----------------

  /** A guard's row with the end of its window, and the guard it stands for. */
  datatype TableRow = TableRow(guard: Guard, expiresAt: int)

  predicate IsStale(r: TableRow, now: int) {
    r.guard.row == Armed && r.expiresAt < now
  }

  function Swept(r: TableRow, now: int): TableRow {
    if IsStale(r, now) then r.(guard := r.guard.(row := Expired)) else r
  }

  function StaleCount(rows: seq<TableRow>, now: int): nat {
    if rows == [] then 0
    else StaleCount(rows[..|rows| - 1], now) + if IsStale(rows[|rows| - 1], now) then 1 else 0
  }

  /** Sweeping a row is a step of its guard's protocol, so it keeps all of the above. */
  lemma SweptIsReachable(start: Guard, r: TableRow, now: int, lawful: bool)
    requires Reachable(start, r.guard, lawful)
    ensures Reachable(start, Swept(r, now).guard, lawful) && !IsStale(Swept(r, now), now)
    ensures Swept(r, now).guard.host == r.guard.host
  {
    if IsStale(r, now) {
      ReachNext(start, r.guard, Sweep, lawful);
    }
  }

  class GuardTable {
    var rows: seq<TableRow>

    /** The sweep over the table: it closes exactly the armed rows whose window has
        passed, counts them, and leaves none behind. */
    method ExpireStaleGuards(now: int) returns (expired: nat)
      modifies this
      ensures |rows| == |old(rows)| && forall i :: 0 <= i < |rows| ==> rows[i] == Swept(old(rows)[i], now)
      ensures forall i :: 0 <= i < |rows| ==>
                rows[i].guard.row ==
                  if old(rows)[i].guard.row == Armed && old(rows)[i].expiresAt < now then Expired
                  else old(rows)[i].guard.row
      ensures expired == StaleCount(old(rows), now)
      ensures forall r :: r in rows ==> !IsStale(r, now)
    {
      expired := 0;
      var before := rows;
      for i := 0 to |before|
        invariant |rows| == |before| && forall j :: i <= j < |before| ==> rows[j] == before[j]
        invariant forall j :: 0 <= j < i ==> rows[j] == Swept(before[j], now)
        invariant expired == StaleCount(before[..i], now)
      {
        assert before[..i + 1][..i] == before[..i];
        if IsStale(rows[i], now) {
          rows := rows[i := rows[i].(guard := rows[i].guard.(row := Expired))];
          expired := expired + 1;
        }
      }
      assert before[..|before|] == before;
    }
  }
}
