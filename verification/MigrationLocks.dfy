/** The watcher that ends backends which keep blocking a schema migration. */
module MigrationLocks {
  import opened Options

  type Pid = int

  /** One turn of the polling loop. A turn that fails before the database answers
      learns nothing; one that is answered may still fail after some terminations. */
  datatype Poll =
    | Unanswered
    | Answered(now: real, blockers: seq<Pid>, failsAfter: Option<nat>)

  // ---------------- the watcher ----------------

  /** The blockers in the order a dictionary built from them iterates. */
  function Distinct(pids: seq<Pid>): seq<Pid> {
    if pids == [] then []
    else
      var before, last := Distinct(pids[..|pids| - 1]), pids[|pids| - 1];
      if last in before then before else before + [last]
  }

  lemma DistinctSame(pids: seq<Pid>)
    ensures forall p :: p in Distinct(pids) <==> p in pids
  {
    if pids != [] {
      DistinctSame(pids[..|pids| - 1]);
      assert pids == pids[..|pids| - 1] + [pids[|pids| - 1]];
    }
  }

  class Watcher {
    const grace: real
    var firstSeen: map<Pid, real>

    constructor (grace: real)
      ensures this.grace == grace && firstSeen == map[]
    {
      this.grace := grace;
      firstSeen := map[];
    }

    /** One poll: forget what no longer blocks, remember what newly does, and end
        what has blocked for the grace period, until an error stops the turn. */
    method Turn(poll: Poll) returns (ended: seq<Pid>)
      modifies this`firstSeen
      ensures poll.Unanswered? ==> firstSeen == old(firstSeen) && ended == []
      ensures poll.Answered? ==>
                firstSeen == map p | p in poll.blockers :: if p in old(firstSeen) then old(firstSeen)[p] else poll.now
      ensures forall p :: p in ended ==> p in firstSeen && poll.Answered? && poll.now - firstSeen[p] >= grace
      ensures poll.Answered? && poll.failsAfter.Some? ==> |ended| <= poll.failsAfter.value
      ensures poll.Answered? && poll.failsAfter.None? ==>
                forall p :: p in firstSeen && poll.now - firstSeen[p] >= grace ==> p in ended
    {
      ended := [];
      if poll.Unanswered? {
        return;
      }
      firstSeen := map p | p in poll.blockers :: if p in firstSeen then firstSeen[p] else poll.now;
      var order := Distinct(poll.blockers);
      DistinctSame(poll.blockers);
      assert forall p :: p in order ==> p in firstSeen;
      for i := 0 to |order|
        invariant forall p :: p in ended ==> p in firstSeen && poll.now - firstSeen[p] >= grace
        invariant forall j :: 0 <= j < |order| ==> order[j] in firstSeen
        invariant poll.failsAfter.Some? ==> |ended| <= poll.failsAfter.value
        invariant forall j :: 0 <= j < i ==> order[j] in ended || poll.now - firstSeen[order[j]] < grace
      {
        var pid := order[i];
        if poll.now - firstSeen[pid] < grace {
          continue;
        }
        if poll.failsAfter.Some? && |ended| >= poll.failsAfter.value {
          return;
        }
        ended := ended + [pid];
      }
    }

    /** The loop over any finite run of polls, with what each turn ended. */
    method Watch(polls: seq<Poll>) returns (log: seq<seq<Pid>>)
      requires firstSeen == map[]
      requires ClockMonotone(polls)
      modifies this`firstSeen
      ensures |log| == |polls|
      ensures forall i :: 0 <= i < |polls| ==> Sound(polls, i, grace, log[i]) && Complete(polls, i, grace, log[i])
    {
      log := [];
      for i := 0 to |polls|
        invariant |log| == i
        invariant Remembers(polls[..i], firstSeen)
        invariant forall j :: 0 <= j < i ==> Sound(polls, j, grace, log[j]) && Complete(polls, j, grace, log[j])
      {
        ghost var before := firstSeen;
        var ended := Turn(polls[i]);
        assert polls[..i + 1] == polls[..i] + [polls[i]];
        RemembersNext(polls[..i], polls[i], before, firstSeen);
        TurnIsExact(polls, i, grace, firstSeen, ended);
        log := log + [ended];
      }
    }
  }

  // ---------------- what the run of polls justifies ----------------

  predicate ClockMonotone(polls: seq<Poll>) {
    forall i, j :: 0 <= i < j < |polls| && polls[i].Answered? && polls[j].Answered? ==> polls[i].now <= polls[j].now
  }

  /** The backend was reported at every answered poll from `from` to `to`. */
  ghost predicate Stretch(polls: seq<Poll>, pid: Pid, from: nat, to: nat)
    requires to < |polls|
  {
    && from <= to && polls[from].Answered? && polls[to].Answered?
    && forall k :: from <= k <= to && polls[k].Answered? ==> pid in polls[k].blockers
  }

  /** The backend has blocked for the grace period when poll `i` answers: some
      unbroken stretch of reports ending there lasts that long. */
  ghost predicate Overdue(polls: seq<Poll>, pid: Pid, i: nat, grace: real)
    requires i < |polls|
  {
    exists from: nat :: Stretch(polls, pid, from, i) && polls[i].now - polls[from].now >= grace
  }

  ghost predicate Sound(polls: seq<Poll>, i: nat, grace: real, ended: seq<Pid>)
    requires i < |polls|
  {
    forall p :: p in ended ==> Overdue(polls, p, i, grace)
  }

  ghost predicate Complete(polls: seq<Poll>, i: nat, grace: real, ended: seq<Pid>)
    requires i < |polls|
  {
    polls[i].Answered? && polls[i].failsAfter.None? ==>
      forall p :: Overdue(polls, p, i, grace) ==> p in ended
  }

  /** The last answered poll, or the length. */
  ghost function LastAnswered(polls: seq<Poll>): (k: nat)
    ensures k <= |polls|
    ensures k < |polls| ==> polls[k].Answered?
    ensures forall j :: 0 <= j < |polls| && polls[j].Answered? ==> k < |polls| && j <= k
  {
    if polls == [] then 0
    else if polls[|polls| - 1].Answered? then |polls| - 1
    else
      var k := LastAnswered(polls[..|polls| - 1]);
      if k == |polls| - 1 then |polls| else k
  }

  /** `since` is when the longest stretch of reports ending at the last answer began. */
  ghost predicate BeganAt(polls: seq<Poll>, pid: Pid, since: real) {
    var last := LastAnswered(polls);
    && last < |polls|
    && (exists from: nat :: Stretch(polls, pid, from, last) && polls[from].now == since)
    && (forall from: nat :: Stretch(polls, pid, from, last) ==> since <= polls[from].now)
  }

  ghost predicate Remembers(polls: seq<Poll>, seen: map<Pid, real>) {
    var last := LastAnswered(polls);
    && (last == |polls| ==> seen == map[])
    && (last < |polls| ==> forall p :: p in seen <==> p in polls[last].blockers)
    && (forall p :: p in seen ==> BeganAt(polls, p, seen[p]))
  }

  lemma StretchPrefix(polls: seq<Poll>, next: Poll, pid: Pid, from: nat, to: nat)
    requires to < |polls|
    ensures Stretch(polls + [next], pid, from, to) <==> Stretch(polls, pid, from, to)
  {
    var all := polls + [next];
    assert forall k :: 0 <= k < |polls| ==> all[k] == polls[k];
  }

  lemma LastAnsweredNext(polls: seq<Poll>, next: Poll)
    ensures next.Answered? ==> LastAnswered(polls + [next]) == |polls|
    ensures next.Unanswered? && LastAnswered(polls) < |polls| ==> LastAnswered(polls + [next]) == LastAnswered(polls)
    ensures next.Unanswered? && LastAnswered(polls) == |polls| ==> LastAnswered(polls + [next]) == |polls| + 1
  {
    assert (polls + [next])[..|polls|] == polls;
  }

  /** A stretch up to a new answer is a stretch up to the previous one, extended,
      or starts at the new answer. */
  lemma StretchExtends(polls: seq<Poll>, next: Poll, pid: Pid, from: nat)
    requires next.Answered?
    ensures var all, last := polls + [next], LastAnswered(polls);
            Stretch(all, pid, from, |polls|) <==>
            && pid in next.blockers
            && (from == |polls| || (last < |polls| && from <= last && Stretch(polls, pid, from, last)))
  {
    var all, last := polls + [next], LastAnswered(polls);
    assert forall k :: 0 <= k < |polls| ==> all[k] == polls[k];
    assert all[|polls|] == next;
    if last < |polls| {
      StretchPrefix(polls, next, pid, from, last);
      assert forall k :: last < k < |polls| ==> !all[k].Answered?;
    }
  }

  lemma {:induction false} RemembersNext(polls: seq<Poll>, next: Poll, seen: map<Pid, real>, seen': map<Pid, real>)
    requires Remembers(polls, seen) && ClockMonotone(polls + [next])
    requires next.Unanswered? ==> seen' == seen
    requires next.Answered? ==> seen' == map p | p in next.blockers :: if p in seen then seen[p] else next.now
    ensures Remembers(polls + [next], seen')
  {
    var all, last := polls + [next], LastAnswered(polls);
    LastAnsweredNext(polls, next);
    forall p | p in seen' ensures BeganAt(all, p, seen'[p]) {
      if next.Unanswered? {
        KeepsBeginning(polls, next, p, seen[p]);
      } else {
        NextBeginning(polls, next, seen, p);
      }
    }
  }

  lemma KeepsBeginning(polls: seq<Poll>, next: Poll, p: Pid, since: real)
    requires next.Unanswered? && BeganAt(polls, p, since)
    ensures BeganAt(polls + [next], p, since)
  {
    var all, last := polls + [next], LastAnswered(polls);
    LastAnsweredNext(polls, next);
    forall from: nat ensures Stretch(all, p, from, last) <==> Stretch(polls, p, from, last) {
      StretchPrefix(polls, next, p, from, last);
    }
    var from: nat :| Stretch(polls, p, from, last) && polls[from].now == since;
    assert Stretch(all, p, from, last) && all[from].now == since;
  }

  lemma NextBeginning(polls: seq<Poll>, next: Poll, seen: map<Pid, real>, p: Pid)
    requires Remembers(polls, seen) && ClockMonotone(polls + [next])
    requires next.Answered? && p in next.blockers
    ensures BeganAt(polls + [next], p, if p in seen then seen[p] else next.now)
  {
    var all, last := polls + [next], LastAnswered(polls);
    var since := if p in seen then seen[p] else next.now;
    LastAnsweredNext(polls, next);
    StretchExtends(polls, next, p, |polls|);
    if p in seen {
      assert BeganAt(polls, p, since);
      var from: nat :| Stretch(polls, p, from, last) && polls[from].now == since;
      StretchExtends(polls, next, p, from);
      assert all[from] == polls[from] && all[|polls|] == next;
      assert Stretch(all, p, from, |polls|) && all[from].now == since <= next.now;
    } else {
      assert Stretch(all, p, |polls|, |polls|) && all[|polls|].now == since;
    }
    forall from: nat | Stretch(all, p, from, |polls|)
      ensures since <= all[from].now
    {
      StretchExtends(polls, next, p, from);
      if from != |polls| {
        assert p in polls[last].blockers && all[from] == polls[from];
      }
    }
  }

  /** A turn ends only overdue backends, and all of them if it raises no error. */
  lemma {:induction false} TurnIsExact(polls: seq<Poll>, i: nat, grace: real, seen: map<Pid, real>, ended: seq<Pid>)
    requires i < |polls| && Remembers(polls[..i + 1], seen)
    requires forall p :: p in ended ==> p in seen && polls[i].Answered? && polls[i].now - seen[p] >= grace
    requires polls[i].Answered? && polls[i].failsAfter.None? ==>
               forall p :: p in seen && polls[i].now - seen[p] >= grace ==> p in ended
    ensures Sound(polls, i, grace, ended) && Complete(polls, i, grace, ended)
  {
    var past := polls[..i + 1];
    assert forall k :: 0 <= k <= i ==> past[k] == polls[k];
    if polls[i].Answered? {
      assert LastAnswered(past) == i;
      forall p, from: nat ensures Stretch(past, p, from, i) <==> Stretch(polls, p, from, i) {
      }
      forall p | p in ended ensures Overdue(polls, p, i, grace) {
        assert BeganAt(past, p, seen[p]);
        var from: nat :| Stretch(past, p, from, i) && past[from].now == seen[p];
        assert Stretch(polls, p, from, i);
      }
      forall p | Overdue(polls, p, i, grace) && polls[i].failsAfter.None? ensures p in ended {
        var from: nat :| Stretch(polls, p, from, i) && polls[i].now - polls[from].now >= grace;
        assert Stretch(past, p, from, i) && p in polls[i].blockers;
        assert BeganAt(past, p, seen[p]);
      }
    }
  }
}
