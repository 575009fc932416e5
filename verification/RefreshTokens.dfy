/** Refresh tokens: rotation chains, the reuse grace window and revocation. */
module RefreshTokens {
  import opened Options

  /** A stored token. Its id is its place in the table, which is the order in
      which tokens are minted; rows are never deleted. */
  datatype Token = Token(
    user: int,
    expiresAt: int,
    revokedAt: Option<int>,
    replacedBy: Option<nat>,
    session: Option<int>)

  type Store = seq<Token>

  const GRACE := 60
  const MAX_CHAIN_HOPS := 32

  // ---------------- the calls, as functions of the store ----------------

  /** Walk the replacement chain for at most `hops` tokens. */
  function ChainIsLive(store: Store, id: nat, now: int, hops: nat): bool
    requires id < |store|
    decreases hops
  {
    if hops == 0 then false
    else
      var t := store[id];
      if t.revokedAt.None? then t.expiresAt > now
      else if t.replacedBy.None? || t.replacedBy.value >= |store| then false
      else ChainIsLive(store, t.replacedBy.value, now, hops - 1)
  }

  function RevokeWhere(store: Store, which: Token -> bool, now: int): (s: Store)
    ensures |s| == |store|
    ensures forall i :: 0 <= i < |store| ==>
              s[i] == if which(store[i]) && store[i].revokedAt.None?
                      then store[i].(revokedAt := Some(now)) else store[i]
  {
    seq(|store|, i requires 0 <= i < |store| =>
      if which(store[i]) && store[i].revokedAt.None? then store[i].(revokedAt := Some(now)) else store[i])
  }

  function RevokeAll(store: Store, user: int, now: int): Store {
    RevokeWhere(store, (t: Token) => t.user == user, now)
  }

  /** Why presenting a token mints nothing, if it does. */
  datatype Refusal = Unknown | Revoked | Reused | Expired | Inactive

  function Refuses(store: Store, id: nat, now: int, active: bool): Option<Refusal> {
    if id >= |store| then Some(Unknown)
    else
      var t := store[id];
      if t.revokedAt.Some? && t.replacedBy.None? then Some(Revoked)
      else if t.revokedAt.Some? && now - t.revokedAt.value > GRACE then Some(Reused)
      else if t.revokedAt.Some? && !ChainIsLive(store, id, now, MAX_CHAIN_HOPS) then Some(Revoked)
      else if t.expiresAt <= now then Some(Expired)
      else if !active then Some(Inactive)
      else None
  }

  function Min(a: int, b: int): int {
    if a <= b then a else b
  }

  /** The token a successful rotation mints. */
  function Minted(t: Token, now: int, ttl: int, newSid: int): Token {
    Token(t.user, if t.revokedAt.Some? then Min(now + ttl, t.expiresAt) else now + ttl, None, None,
          if t.session.Some? then t.session else Some(newSid))
  }

  function Rotate(store: Store, id: nat, now: int, active: bool, ttl: int, newSid: int): Store {
    var refusal := Refuses(store, id, now, active);
    if refusal == Some(Reused) then RevokeAll(store, store[id].user, now)
    else if refusal.Some? then store
    else
      var t := store[id];
      var kept :=
        if t.revokedAt.None? then store[id := t.(revokedAt := Some(now), replacedBy := Some(|store|))] else store;
      kept + [Minted(t, now, ttl, newSid)]
  }

  function Logout(store: Store, id: nat, now: int): Store {
    if id < |store| && store[id].revokedAt.None? then store[id := store[id].(revokedAt := Some(now))] else store
  }

  /** Everything that changes the table. A sign-in carries a session id; tokens
      from before sessions were tracked carry none. */
  datatype Event =
    | SignIn(user: int, expiresAt: int, session: Option<int>)
    | Present(id: nat, now: int, active: bool, ttl: int, newSid: int)
    | SignOut(id: nat, now: int)
    | EndAll(user: int, now: int)
    | EndSession(sid: int, now: int)

  function Apply(store: Store, e: Event): Store {
    match e
    case SignIn(user, expiresAt, session) => store + [Token(user, expiresAt, None, None, session)]
    case Present(id, now, active, ttl, newSid) => Rotate(store, id, now, active, ttl, newSid)
    case SignOut(id, now) => Logout(store, id, now)
    case EndAll(user, now) => RevokeAll(store, user, now)
    case EndSession(sid, now) => RevokeWhere(store, (t: Token) => t.session == Some(sid), now)
  }

  function Run(store: Store, events: seq<Event>): Store
    decreases |events|
  {
    if events == [] then store else Run(Apply(store, events[0]), events[1..])
  }

  // ---------------- what every reachable store looks like ----------------

  ghost predicate LinkOk(store: Store, i: nat)
    requires i < |store|
  {
    store[i].replacedBy.Some? ==>
      var n := store[i].replacedBy.value;
      && i < n < |store|
      && store[i].revokedAt.Some?
      && store[n].user == store[i].user
      && (store[i].session.Some? ==> store[n].session == store[i].session)
  }

  ghost predicate Injective(store: Store) {
    forall i, j :: 0 <= i < j < |store| && store[i].replacedBy.Some? ==> store[i].replacedBy != store[j].replacedBy
  }

  /** Replacement links are injective and lead to a later token of the same user
      and, once a session id is set, of the same session. */
  ghost predicate Valid(store: Store) {
    (forall i :: 0 <= i < |store| ==> LinkOk(store, i)) && Injective(store)
  }

  /** Rows are never removed; user, expiry and session never change; revocation
      and replacement are written once, and a token revoked without a successor
      never gets one. */
  ghost predicate Grew(a: Store, b: Store) {
    && |a| <= |b|
    && forall i :: 0 <= i < |a| ==>
         && b[i].user == a[i].user && b[i].expiresAt == a[i].expiresAt && b[i].session == a[i].session
         && (a[i].revokedAt.Some? ==> b[i] == a[i])
  }

  /** Adding unlinked rows and revoking rows leaves every link as it was. */
  lemma SameLinks(a: Store, b: Store)
    requires Valid(a) && Grew(a, b)
    requires forall i :: 0 <= i < |b| ==> b[i].replacedBy == if i < |a| then a[i].replacedBy else None
    ensures Valid(b)
  {
    forall i | 0 <= i < |b| ensures LinkOk(b, i) {
      if i < |a| {
        assert LinkOk(a, i);
      }
    }
  }

  /** Linking an unrevoked row to the one just minted keeps the table valid. */
  lemma NewLink(a: Store, id: nat, now: int, m: Token)
    requires Valid(a) && id < |a| && a[id].revokedAt.None?
    requires m.user == a[id].user && m.replacedBy.None? && (a[id].session.Some? ==> m.session == a[id].session)
    ensures Valid(a[id := a[id].(revokedAt := Some(now), replacedBy := Some(|a|))] + [m])
  {
    var b := a[id := a[id].(revokedAt := Some(now), replacedBy := Some(|a|))] + [m];
    forall i | 0 <= i < |b| ensures LinkOk(b, i) {
      if i < |a| {
        assert LinkOk(a, i);
      }
    }
    assert forall i :: 0 <= i < |a| && a[i].replacedBy.Some? ==> LinkOk(a, i);
  }

  lemma ApplyKeeps(store: Store, e: Event)
    requires Valid(store)
    ensures Valid(Apply(store, e)) && Grew(store, Apply(store, e))
  {
    if e.Present? && Refuses(store, e.id, e.now, e.active).None? && store[e.id].revokedAt.None? {
      NewLink(store, e.id, e.now, Minted(store[e.id], e.now, e.ttl, e.newSid));
    } else {
      SameLinks(store, Apply(store, e));
    }
  }

  lemma GrewTransitive(a: Store, b: Store, c: Store)
    requires Grew(a, b) && Grew(b, c)
    ensures Grew(a, c)
  {
  }

  /** Every store reached from the empty table is valid, and what was written once
      on the way is still what was written. */
  lemma {:induction false} RunKeeps(store: Store, events: seq<Event>)
    requires Valid(store)
    ensures Valid(Run(store, events)) && Grew(store, Run(store, events))
    decreases |events|
  {
    if events != [] {
      ApplyKeeps(store, events[0]);
      RunKeeps(Apply(store, events[0]), events[1..]);
      GrewTransitive(store, Apply(store, events[0]), Run(store, events));
    }
  }

  // ---------------- the bounded walk against the unbounded one ----------------

  /** The newest token of a chain, and how many links lead to it. */
  ghost function Tip(store: Store, id: nat): (tip: nat)
    requires Valid(store) && id < |store|
    ensures id <= tip < |store|
    ensures store[tip].revokedAt.None? || store[tip].replacedBy.None?
    ensures store[tip].user == store[id].user
    decreases |store| - id
  {
    assert LinkOk(store, id);
    if store[id].replacedBy.None? then id else Tip(store, store[id].replacedBy.value)
  }

  ghost function Hops(store: Store, id: nat): nat
    requires Valid(store) && id < |store|
    decreases |store| - id
  {
    assert LinkOk(store, id);
    if store[id].replacedBy.None? then 0 else 1 + Hops(store, store[id].replacedBy.value)
  }

  /** The bounded walk says live exactly when the chain's newest token is within
      its hops, unrevoked and unexpired. */
  lemma {:induction false} WalkIsExact(store: Store, id: nat, now: int, hops: nat)
    requires Valid(store) && id < |store|
    ensures ChainIsLive(store, id, now, hops) <==>
            && Hops(store, id) < hops
            && store[Tip(store, id)].revokedAt.None?
            && store[Tip(store, id)].expiresAt > now
    decreases hops
  {
    assert LinkOk(store, id);
    if hops > 0 && store[id].replacedBy.Some? {
      WalkIsExact(store, store[id].replacedBy.value, now, hops - 1);
    }
  }

  // ---------------- no resurrection ----------------

  ghost predicate AllRevoked(store: Store, user: int) {
    forall i :: 0 <= i < |store| && store[i].user == user ==> store[i].revokedAt.Some?
  }

  /** A chain whose newest token is revoked: logout or revocation ended it. */
  ghost predicate DeadChain(store: Store, id: nat)
    requires Valid(store) && id < |store|
  {
    store[Tip(store, id)].revokedAt.Some?
  }

  /** A token on a dead chain is refused, whenever and for whomever it is presented. */
  lemma DeadIsRefused(store: Store, id: nat, now: int, active: bool)
    requires Valid(store) && id < |store| && DeadChain(store, id)
    ensures Refuses(store, id, now, active) in {Some(Revoked), Some(Reused)}
  {
    assert LinkOk(store, id);
    WalkIsExact(store, id, now, MAX_CHAIN_HOPS);
  }

  lemma AllRevokedIsDead(store: Store, id: nat)
    requires Valid(store) && id < |store| && AllRevoked(store, store[id].user)
    ensures DeadChain(store, id)
  {
  }

  lemma EndAllRevokes(store: Store, user: int, now: int)
    ensures AllRevoked(Apply(store, EndAll(user, now)), user)
  {
  }

  lemma StaysRevoked(store: Store, user: int, e: Event)
    requires Valid(store) && AllRevoked(store, user)
    requires !(e.SignIn? && e.user == user)
    ensures AllRevoked(Apply(store, e), user)
    ensures forall i :: |store| <= i < |Apply(store, e)| ==> Apply(store, e)[i].user != user
  {
    if e.Present? && e.id < |store| && store[e.id].user == user {
      AllRevokedIsDead(store, e.id);
      DeadIsRefused(store, e.id, e.now, e.active);
    }
  }

  /** No resurrection: once every token of a user is revoked, no later run without
      a sign-in of that user mints another token for them. */
  lemma {:induction false} NoResurrection(store: Store, user: int, events: seq<Event>)
    requires Valid(store) && AllRevoked(store, user)
    requires forall k :: 0 <= k < |events| ==> !(events[k].SignIn? && events[k].user == user)
    ensures AllRevoked(Run(store, events), user)
    ensures forall i :: |store| <= i < |Run(store, events)| ==> Run(store, events)[i].user != user
    decreases |events|
  {
    if events != [] {
      var next := Apply(store, events[0]);
      ApplyKeeps(store, events[0]);
      StaysRevoked(store, user, events[0]);
      NoResurrection(next, user, events[1..]);
      RunKeeps(next, events[1..]);
    }
  }

  /** After revoke-all, no later run without a sign-in of the user mints a token
      for them, and each token they had is refused at any time. */
  lemma NothingAfterRevokeAll(store: Store, user: int, now: int, events: seq<Event>, id: nat, later: int, active: bool)
    requires Valid(store)
    requires forall k :: 0 <= k < |events| ==> !(events[k].SignIn? && events[k].user == user)
    ensures var after := Run(Apply(store, EndAll(user, now)), events);
            && (forall i :: |store| <= i < |after| ==> after[i].user != user)
            && (id < |after| && after[id].user == user ==>
                Refuses(after, id, later, active) in {Some(Revoked), Some(Reused)})
  {
    var ended := Apply(store, EndAll(user, now));
    var after := Run(ended, events);
    ApplyKeeps(store, EndAll(user, now));
    EndAllRevokes(store, user, now);
    NoResurrection(ended, user, events);
    RunKeeps(ended, events);
    if id < |after| && after[id].user == user {
      AllRevokedIsDead(after, id);
      DeadIsRefused(after, id, later, active);
    }
  }

  lemma {:induction false} TipSettles(a: Store, b: Store, id: nat)
    requires Valid(a) && Valid(b) && Grew(a, b) && id < |a| && DeadChain(a, id)
    ensures Tip(b, id) == Tip(a, id) && DeadChain(b, id)
    decreases |a| - id
  {
    assert LinkOk(a, id);
    if a[id].replacedBy.Some? {
      TipSettles(a, b, a[id].replacedBy.value);
    }
  }

  /** A dead chain is dead forever: after any further run, presenting the token
      still mints nothing. */
  lemma DeadForever(store: Store, id: nat, events: seq<Event>, now: int, active: bool)
    requires Valid(store) && id < |store| && DeadChain(store, id)
    ensures var later := Run(store, events);
            && Valid(later) && id < |later| && DeadChain(later, id)
            && Refuses(later, id, now, active) in {Some(Revoked), Some(Reused)}
  {
    RunKeeps(store, events);
    TipSettles(store, Run(store, events), id);
    DeadIsRefused(Run(store, events), id, now, active);
  }

  lemma {:induction false} TipOfTip(store: Store, id: nat, next: Store)
    requires Valid(store) && Valid(next) && id < |store| && Grew(store, next)
    requires next[Tip(store, id)].replacedBy == store[Tip(store, id)].replacedBy
    ensures Tip(next, id) == Tip(store, id)
    decreases |store| - id
  {
    assert LinkOk(store, id);
    if store[id].replacedBy.Some? {
      TipOfTip(store, store[id].replacedBy.value, next);
    }
  }

  /** Signing out with any token, fresh or stale, kills exactly the chains whose
      newest token it is. */
  lemma SignOutKillsExactly(store: Store, id: nat, j: nat, now: int)
    requires Valid(store) && j < |store|
    ensures Valid(Apply(store, SignOut(id, now)))
    ensures DeadChain(Apply(store, SignOut(id, now)), j) <==> DeadChain(store, j) || Tip(store, j) == id
  {
    var e := SignOut(id, now);
    ApplyKeeps(store, e);
    TipOfTip(store, j, Apply(store, e));
  }

  /** So signing out with a chain's newest token kills every token of the chain. */
  lemma SignOutKillsChain(store: Store, id: nat, now: int)
    requires Valid(store) && id < |store|
    ensures var next := Apply(store, SignOut(Tip(store, id), now));
            Valid(next) && DeadChain(next, id)
  {
    SignOutKillsExactly(store, Tip(store, id), id, now);
  }

  /** It reaches the chain only. A sibling minted in the grace window is linked
      from no token, so it outlives a sign-out of the session it belongs to. */
  lemma {:induction false} SiblingOutlivesSignOut() returns (events: seq<Event>, sibling: nat)
    ensures var store := Run([], events);
            && |events| > 0 && events[|events| - 1].SignOut?
            && Valid(store) && sibling < |store|
            && events[|events| - 1].id < |store|
            && store[sibling].session == store[events[|events| - 1].id].session
            && Refuses(store, sibling, 3, true) == None
  {
    var e0 := SignIn(7, 1000, Some(1));
    var e1, e2, e3 := Present(0, 1, true, 1000, 9), Present(0, 2, true, 1000, 9), SignOut(1, 2);
    events, sibling := [e0, e1, e2, e3], 2;
    var s0: Store := [Token(7, 1000, None, None, Some(1))];
    var s1 := [Token(7, 1000, Some(1), Some(1), Some(1)), Token(7, 1001, None, None, Some(1))];
    var s2 := s1 + [Token(7, 1000, None, None, Some(1))];
    assert Apply([], e0) == s0;
    assert Apply(s0, e1) == s1;
    assert ChainIsLive(s1, 1, 2, 31);
    assert Apply(s1, e2) == s2;
    var s3 := Apply(s2, e3);
    assert events[1..] == [e1, e2, e3] && [e1, e2, e3][1..] == [e2, e3];
    assert [e2, e3][1..] == [e3] && [e3][1..] == [];
    assert Run(s3, []) == s3 && Run(s2, [e3]) == s3 && Run(s1, [e2, e3]) == s3 && Run(s0, [e1, e2, e3]) == s3;
    assert Run([], events) == s3;
    RunKeeps([], events);
  }

  /** A minted token belongs to the presented one's user and session, and a grace
      sibling never outlives the token it came from. */
  lemma MintedBelongs(store: Store, e: Event)
    requires Valid(store) && e.Present? && |Apply(store, e)| > |store|
    ensures |Apply(store, e)| == |store| + 1 && e.id < |store|
    ensures var t, m := store[e.id], Apply(store, e)[|store|];
            && m.user == t.user && m.revokedAt.None? && m.replacedBy.None?
            && (t.session.Some? ==> m.session == t.session)
            && t.expiresAt > e.now
            && (t.revokedAt.Some? ==> m.expiresAt <= t.expiresAt && e.now - t.revokedAt.value <= GRACE
                                      && !DeadChain(store, e.id))
  {
    if store[e.id].revokedAt.Some? {
      WalkIsExact(store, e.id, e.now, MAX_CHAIN_HOPS);
    }
  }

  // ---------------- what presenting a token does ----------------

  /** The token was rotated away more than a minute ago and is presented again. */
  predicate IsReplay(store: Store, id: nat, now: int) {
    && id < |store| && store[id].replacedBy.Some?
    && store[id].revokedAt.Some? && now - store[id].revokedAt.value > 60
  }

  /** Replaying a token ends every session of its user, and no one else's. */
  lemma ReplayEndsEverything(store: Store, e: Event)
    requires e.Present? && IsReplay(store, e.id, e.now)
    ensures var next := Apply(store, e);
            && |next| == |store| && AllRevoked(next, store[e.id].user)
            && forall i :: 0 <= i < |store| && store[i].user != store[e.id].user ==> next[i] == store[i]
  {
  }

  /** So after a replay no later run without a new sign-in serves that user. */
  lemma NothingAfterReplay(store: Store, e: Event, events: seq<Event>)
    requires Valid(store) && e.Present? && IsReplay(store, e.id, e.now)
    requires forall k :: 0 <= k < |events| ==> !(events[k].SignIn? && events[k].user == store[e.id].user)
    ensures var later := Run(Apply(store, e), events);
            forall i :: |store| <= i < |later| ==> later[i].user != store[e.id].user
  {
    ApplyKeeps(store, e);
    ReplayEndsEverything(store, e);
    NoResurrection(Apply(store, e), store[e.id].user, events);
  }

  /** The token may be exchanged: it is current, or was rotated away within the last
      minute and its chain's newest token, at most 31 links on, is alive. */
  ghost predicate Exchangeable(store: Store, id: nat, now: int)
    requires Valid(store)
  {
    && id < |store| && store[id].expiresAt > now
    && (store[id].revokedAt.Some? ==>
          && store[id].replacedBy.Some? && now - store[id].revokedAt.value <= 60
          && Hops(store, id) <= 31
          && store[Tip(store, id)].revokedAt.None? && store[Tip(store, id)].expiresAt > now)
  }

  /** Exactly when a presented token mints another. */
  lemma MintsExactly(store: Store, e: Event)
    requires Valid(store) && e.Present?
    ensures |Apply(store, e)| > |store| <==> e.active && Exchangeable(store, e.id, e.now)
    ensures Refuses(store, e.id, e.now, e.active).None? <==> e.active && Exchangeable(store, e.id, e.now)
    ensures !(e.active && Exchangeable(store, e.id, e.now)) && !IsReplay(store, e.id, e.now) ==>
              Apply(store, e) == store
  {
    if e.id < |store| {
      assert LinkOk(store, e.id);
      WalkIsExact(store, e.id, e.now, MAX_CHAIN_HOPS);
    }
  }

  /** The whole table after a mint: a current token is revoked and linked to its
      successor, which lives for the full time; a token in its grace minute is left
      as it is and its sibling lives no longer than it would have. */
  lemma MintIsExact(store: Store, e: Event)
    requires Valid(store) && e.Present? && e.active && Exchangeable(store, e.id, e.now)
    ensures var next, t := Apply(store, e), store[e.id];
            var session := if t.session.Some? then t.session else Some(e.newSid);
            && |next| == |store| + 1
            && (forall i :: 0 <= i < |store| && i != e.id ==> next[i] == store[i])
            && (t.revokedAt.None? ==>
                  && next[e.id] == Token(t.user, t.expiresAt, Some(e.now), Some(|store|), t.session)
                  && next[|store|] == Token(t.user, e.now + e.ttl, None, None, session))
            && (t.revokedAt.Some? ==>
                  && next[e.id] == t && next[|store|] == Token(t.user, next[|store|].expiresAt, None, None, session)
                  && next[|store|].expiresAt <= e.now + e.ttl && next[|store|].expiresAt <= t.expiresAt
                  && next[|store|].expiresAt in {e.now + e.ttl, t.expiresAt})
  {
    MintsExactly(store, e);
  }

  /** Ending a session revokes its tokens and no others. */
  lemma EndSessionExactly(store: Store, sid: int, now: int, i: nat)
    requires i < |store|
    ensures var next := Apply(store, EndSession(sid, now));
            && |next| == |store|
            && next[i] == if store[i].session == Some(sid) && store[i].revokedAt.None?
                          then store[i].(revokedAt := Some(now)) else store[i]
  {
  }

  // ---------------- the table itself ----------------

  class TokenTable {
    var rows: Store

    constructor ()
      ensures rows == []
    {
      rows := [];
    }

    method IssueRefreshToken(user: int, now: int, ttl: int, session: Option<int>, newSid: int)
      modifies this
      ensures rows == Apply(old(rows), SignIn(user, now + ttl, Some(if session.Some? then session.value else newSid)))
      ensures old(rows) <= rows
      ensures Valid(old(rows)) ==> Valid(rows) && Grew(old(rows), rows)
      ensures ttl > 0 ==> Refuses(rows, |old(rows)|, now, true).None?
    {
      if Valid(rows) {
        ApplyKeeps(rows, SignIn(user, now + ttl, Some(if session.Some? then session.value else newSid)));
      }
      var sid := if session.Some? then session.value else newSid;
      rows := rows + [Token(user, now + ttl, None, None, Some(sid))];
    }

    /** The liveness walk, as the loop runs it. */
    method WalkChain(id: nat, now: int) returns (live: bool)
      requires id < |rows|
      ensures live == ChainIsLive(rows, id, now, MAX_CHAIN_HOPS)
    {
      var current: nat := id;
      for hop := 0 to MAX_CHAIN_HOPS
        invariant 0 <= current < |rows|
        invariant ChainIsLive(rows, id, now, MAX_CHAIN_HOPS) == ChainIsLive(rows, current, now, MAX_CHAIN_HOPS - hop)
      {
        var t := rows[current];
        if t.revokedAt.None? {
          return t.expiresAt > now;
        }
        if t.replacedBy.None? || t.replacedBy.value >= |rows| {
          return false;
        }
        current := t.replacedBy.value;
      }
      return false;
    }

    method RevokeAllForUser(user: int, now: int)
      modifies this
      ensures rows == RevokeAll(old(rows), user, now)
      ensures AllRevoked(rows, user) && |rows| == |old(rows)|
      ensures forall i :: 0 <= i < |rows| ==>
                rows[i] == if old(rows)[i].user == user && old(rows)[i].revokedAt.None?
                           then old(rows)[i].(revokedAt := Some(now)) else old(rows)[i]
    {
      ghost var start := rows;
      var i := 0;
      while i < |rows|
        invariant 0 <= i <= |rows| == |start|
        invariant rows[i..] == start[i..]
        invariant forall j :: 0 <= j < i ==> rows[j] == RevokeAll(start, user, now)[j]
      {
        if rows[i].user == user && rows[i].revokedAt.None? {
          rows := rows[i := rows[i].(revokedAt := Some(now))];
        }
        i := i + 1;
      }
    }

    method RevokeRefreshToken(id: nat, now: int)
      modifies this
      ensures rows == Logout(old(rows), id, now)
      ensures Valid(old(rows)) ==>
                && Valid(rows) && Grew(old(rows), rows)
                && forall j :: 0 <= j < |rows| ==>
                     (DeadChain(rows, j) <==> DeadChain(old(rows), j) || Tip(old(rows), j) == id)
    {
      if Valid(rows) {
        ApplyKeeps(rows, SignOut(id, now));
        forall j | 0 <= j < |rows|
          ensures DeadChain(Logout(rows, id, now), j) <==> DeadChain(rows, j) || Tip(rows, j) == id
        {
          SignOutKillsExactly(rows, id, j, now);
        }
      }
      if id < |rows| && rows[id].revokedAt.None? {
        rows := rows[id := rows[id].(revokedAt := Some(now))];
      }
    }

    /** Present a token: refuse it, detect reuse and revoke everything, or mint a
        successor (or, in the grace window, a sibling). Returns the new id. */
    method RotateRefreshToken(id: nat, now: int, active: bool, ttl: int, newSid: int) returns (minted: Result<nat>)
      modifies this
      ensures rows == Rotate(old(rows), id, now, active, ttl, newSid)
      ensures minted == if Refuses(old(rows), id, now, active).Some? then Raised else Ok(|old(rows)|)
      ensures IsReplay(old(rows), id, now) ==> minted.Raised? && AllRevoked(rows, old(rows)[id].user)
      ensures Valid(old(rows)) ==> (minted.Ok? <==> active && Exchangeable(old(rows), id, now))
    {
      if Valid(rows) {
        MintsExactly(rows, Present(id, now, active, ttl, newSid));
      }
      if id >= |rows| {
        return Raised;
      }
      var rt := rows[id];
      if rt.revokedAt.Some? {
        if rt.replacedBy.None? {
          return Raised;
        }
        if now - rt.revokedAt.value > GRACE {
          RevokeAllForUser(rt.user, now);
          return Raised;
        }
        var live := WalkChain(id, now);
        if !live {
          return Raised;
        }
      }
      if rt.expiresAt <= now || !active {
        return Raised;
      }
      var newExpires := now + ttl;
      if rt.revokedAt.Some? {
        newExpires := Min(newExpires, rt.expiresAt);
      }
      var sid := if rt.session.Some? then rt.session else Some(newSid);
      var newId := |rows|;
      rows := rows + [Token(rt.user, newExpires, None, None, sid)];
      if rt.revokedAt.None? {
        rows := rows[id := rt.(revokedAt := Some(now), replacedBy := Some(newId))];
      }
      return Ok(newId);
    }
  }
}
