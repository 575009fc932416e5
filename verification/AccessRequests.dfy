/** The request-access workflow, as an edit of the assignments the check reads. */
module AccessRequests {
  import opened Options
  import opened Rbac

  datatype Status = Pending | Approved | Denied | Cancelled

  /** When and by whom a request was decided, with the expiry and note given. */
  datatype Decision = Decision(at: int, actor: int, expires: Option<int>, note: Option<string>)

  /** What an administrator adds to an approval. */
  datatype Terms = Terms(at: int, expires: Option<int>, note: Option<string>)

  datatype Request = Request(
    id: int, org: int, requester: int, scope: Scope, scopeId: int, reason: Option<string>,
    status: Status, decision: Option<Decision>)

  /** Records which request an assignment was minted for. */
  datatype GrantRow = GrantRow(request: int, assignment: Assignment)

  datatype Desk = Desk(assignments: seq<Assignment>, requests: seq<Request>, grants: seq<GrantRow>)

  datatype Failure = OrganizationScope | NoTarget | NotFound | Forbidden | AlreadyDecided | RoleMissing

  datatype Reply = Done(request: Request) | Refused(why: Failure)

  // ---------------- the calls, as functions of the tables ----------------

  predicate TargetExists(f: Fleet, org: int, scope: Scope, id: int) {
    match scope
    case Organization => false
    case Tenant => exists i :: 0 <= i < |f.tenants| && f.tenants[i] == TenantRow(id, org)
    case Site => exists i :: 0 <= i < |f.sites| && f.sites[i].id == id && f.sites[i].org == org
    case Device => exists i :: 0 <= i < |f.devices| && f.devices[i].id == id && f.devices[i].org == org
  }

  predicate Asks(r: Request, user: int, scope: Scope, id: int) {
    r.requester == user && r.scope == scope && r.scopeId == id && r.status == Pending
  }

  function FindPending(requests: seq<Request>, user: int, scope: Scope, id: int): (at: nat)
    ensures at <= |requests|
    ensures at < |requests| ==> Asks(requests[at], user, scope, id)
    ensures forall i :: 0 <= i < at ==> !Asks(requests[i], user, scope, id)
  {
    if requests == [] || Asks(requests[0], user, scope, id) then 0 else 1 + FindPending(requests[1..], user, scope, id)
  }

  function FindRequest(requests: seq<Request>, id: int, org: int): (at: nat)
    ensures at <= |requests|
    ensures at < |requests| ==> requests[at].id == id && requests[at].org == org
    ensures forall i :: 0 <= i < at ==> !(requests[i].id == id && requests[i].org == org)
  {
    if requests == [] || (requests[0].id == id && requests[0].org == org) then 0
    else 1 + FindRequest(requests[1..], id, org)
  }

  /** A new request, unless the target is refused or already asked for. The id is
      the one the database would give it. */
  function Created(
    f: Fleet, d: Desk, requester: User, scope: Scope, id: int, reason: Option<string>, newId: int): (Desk, Reply)
  {
    if scope == Organization then (d, Refused(OrganizationScope))
    else if !TargetExists(f, requester.org, scope, id) then (d, Refused(NoTarget))
    else
      var at := FindPending(d.requests, requester.id, scope, id);
      if at < |d.requests| then (d, Done(d.requests[at]))
      else
        var r := Request(newId, requester.org, requester.id, scope, id, reason, Pending, None);
        (d.(requests := d.requests + [r]), Done(r))
  }

  /** The roles of the organization that a list of ids names, in table order. */
  function NamedRoles(roles: seq<RoleRow>, ids: seq<int>, org: int): seq<RoleRow> {
    if roles == [] then []
    else
      var before, last := NamedRoles(roles[..|roles| - 1], ids, org), roles[|roles| - 1];
      if last.id in ids && last.org == org then before + [last] else before
  }

  predicate AllFound(roles: seq<RoleRow>, ids: seq<int>, org: int) {
    forall k :: 0 <= k < |ids| ==> exists i :: 0 <= i < |roles| && roles[i].id == ids[k] && roles[i].org == org
  }

  /** A row for this user, role and scope exists, expired or not. */
  predicate HasRow(assignments: seq<Assignment>, user: int, role: int, scope: Scope, id: int) {
    exists i :: 0 <= i < |assignments| && SameRow(assignments[i], user, role, scope, id)
  }

  predicate SameRow(a: Assignment, user: int, role: int, scope: Scope, id: int) {
    a.user == user && a.role == role && a.scope == scope && a.scopeId == Some(id)
  }

  function Minted(r: Request, role: int, expires: Option<int>): Assignment {
    Assignment(r.requester, role, r.scope, Some(r.scopeId), expires)
  }

  /** The assignments an approval adds: one per named role without a row. */
  function NewRows(held: seq<Assignment>, roles: seq<RoleRow>, r: Request, expires: Option<int>): seq<Assignment> {
    if roles == [] then []
    else
      var before, last := NewRows(held, roles[..|roles| - 1], r, expires), roles[|roles| - 1].id;
      if HasRow(held, r.requester, last, r.scope, r.scopeId) then before else before + [Minted(r, last, expires)]
  }

  function GrantRows(request: int, rows: seq<Assignment>): seq<GrantRow> {
    seq(|rows|, i requires 0 <= i < |rows| => GrantRow(request, rows[i]))
  }

  function ApprovedDesk(d: Desk, at: nat, rows: seq<Assignment>, decision: Decision): Desk
    requires at < |d.requests|
  {
    var r := d.requests[at].(status := Approved, decision := Some(decision));
    Desk(d.assignments + rows, d.requests[at := r], d.grants + GrantRows(r.id, rows))
  }

  function ApproveAt(f: Fleet, d: Desk, actor: User, id: int, roleIds: seq<int>, terms: Terms): (Desk, Reply) {
    if !actor.isAdmin then (d, Refused(Forbidden))
    else
      var at := FindRequest(d.requests, id, actor.org);
      if at == |d.requests| then (d, Refused(NotFound))
      else if d.requests[at].status != Pending then (d, Refused(AlreadyDecided))
      else if !AllFound(f.roles, roleIds, actor.org) then (d, Refused(RoleMissing))
      else
        var rows := NewRows(d.assignments, NamedRoles(f.roles, roleIds, actor.org), d.requests[at], terms.expires);
        var after := ApprovedDesk(d, at, rows, Decision(terms.at, actor.id, terms.expires, terms.note));
        (after, Done(after.requests[at]))
  }

  function Closed(d: Desk, at: nat, status: Status, decision: Decision): (Desk, Reply)
    requires at < |d.requests|
  {
    var r := d.requests[at].(status := status, decision := Some(decision));
    (d.(requests := d.requests[at := r]), Done(r))
  }

  function DenyAt(d: Desk, actor: User, id: int, when: int, note: Option<string>): (Desk, Reply) {
    if !actor.isAdmin then (d, Refused(Forbidden))
    else
      var at := FindRequest(d.requests, id, actor.org);
      if at == |d.requests| then (d, Refused(NotFound))
      else if d.requests[at].status != Pending then (d, Refused(AlreadyDecided))
      else Closed(d, at, Denied, Decision(when, actor.id, None, note))
  }

  function CancelAt(d: Desk, actor: User, id: int, when: int): (Desk, Reply) {
    var at := FindRequest(d.requests, id, actor.org);
    if at == |d.requests| then (d, Refused(NotFound))
    else if d.requests[at].requester != actor.id && !actor.isAdmin then (d, Refused(Forbidden))
    else if d.requests[at].status != Pending then (d, Refused(AlreadyDecided))
    else Closed(d, at, Cancelled, Decision(when, actor.id, None, None))
  }

  // ---------------- the calls, as they run ----------------

  class AccessDesk {
    var assignments: seq<Assignment>
    var requests: seq<Request>
    var grants: seq<GrantRow>

    function State(): Desk
      reads this
    {
      Desk(assignments, requests, grants)
    }

    /** Ask for access to a target: a pending request for it, old or new. */
    method CreateRequest(
      f: Fleet, requester: User, scope: Scope, id: int, reason: Option<string>, newId: int) returns (reply: Reply)
      modifies this
      ensures (State(), reply) == Created(f, old(State()), requester, scope, id, reason, newId)
      ensures reply.Done? <==> Exists(f, requester.org, scope, id)
      ensures reply.Refused? ==> (reply.why.OrganizationScope? <==> scope == Organization)
      ensures assignments == old(assignments) && grants == old(grants)
      ensures reply.Refused? ==> State() == old(State())
      ensures reply.Done? && (exists r :: r in old(requests) && Asks(r, requester.id, scope, id)) ==>
                State() == old(State()) && reply.request in requests && Asks(reply.request, requester.id, scope, id)
      ensures reply.Done? && !(exists r :: r in old(requests) && Asks(r, requester.id, scope, id)) ==>
                && reply.request == Request(newId, requester.org, requester.id, scope, id, reason, Pending, None)
                && requests == old(requests) + [reply.request]
      ensures Sound(old(State())) && (forall r :: r in old(requests) ==> r.id != newId) ==> Sound(State())
    {
      if Sound(State()) && forall r :: r in requests ==> r.id != newId {
        CreateKeeps(f, State(), requester, scope, id, reason, newId);
      }
      ExistsExactly(f, requester.org, scope, id);
      if scope == Organization {
        return Refused(OrganizationScope);
      }
      if !TargetExists(f, requester.org, scope, id) {
        return Refused(NoTarget);
      }
      var at := FindPending(requests, requester.id, scope, id);
      if at < |requests| {
        return Done(requests[at]);
      }
      var r := Request(newId, requester.org, requester.id, scope, id, reason, Pending, None);
      requests := requests + [r];
      return Done(r);
    }

    /** The minting loop: `held` is read once, before any row is added. */
    method MintRows(r: Request, roles: seq<RoleRow>, expires: Option<int>) returns (minted: seq<GrantRow>)
      modifies this`assignments
      ensures var rows := NewRows(old(assignments), roles, r, expires);
              assignments == old(assignments) + rows && minted == GrantRows(r.id, rows)
    {
      var held := assignments;
      minted := [];
      for i := 0 to |roles|
        invariant assignments == held + NewRows(held, roles[..i], r, expires)
        invariant minted == GrantRows(r.id, NewRows(held, roles[..i], r, expires))
      {
        assert roles[..i + 1][..i] == roles[..i];
        if HasRow(held, r.requester, roles[i].id, r.scope, r.scopeId) {
          continue;
        }
        var a := Minted(r, roles[i].id, expires);
        assignments := assignments + [a];
        minted := minted + [GrantRow(r.id, a)];
      }
      assert roles[..|roles|] == roles;
    }

    /** Approve a pending request: for an administrator of its organization, naming
        roles that exist there. */
    method ApproveRequest(f: Fleet, actor: User, id: int, roleIds: seq<int>, terms: Terms) returns (reply: Reply)
      modifies this
      ensures (State(), reply) == ApproveAt(f, old(State()), actor, id, roleIds, terms)
      ensures reply.Refused? ==> State() == old(State())
      ensures reply.Done? ==> Decided(old(requests), requests, reply.request, Approved)
      ensures reply.Done? ==>
                && actor.isAdmin && reply.request.id == id && reply.request.org == actor.org
                && reply.request.decision == Some(Decision(terms.at, actor.id, terms.expires, terms.note))
      ensures UniqueIds(old(requests)) ==>
                (reply.Done? <==> && actor.isAdmin && IsPending(old(requests), id, actor.org)
                                  && forall role :: role in roleIds ==> RoleExists(f.roles, role, actor.org))
    {
      WhoIsFound(requests, id, actor.org);
      AllFoundExactly(f.roles, roleIds, actor.org);
      if !actor.isAdmin {
        return Refused(Forbidden);
      }
      var at := FindRequest(requests, id, actor.org);
      if at == |requests| {
        return Refused(NotFound);
      }
      var r := requests[at];
      if r.status != Pending {
        return Refused(AlreadyDecided);
      }
      if !AllFound(f.roles, roleIds, actor.org) {
        return Refused(RoleMissing);
      }
      var minted := MintRows(r, NamedRoles(f.roles, roleIds, actor.org), terms.expires);
      grants := grants + minted;
      r := r.(status := Approved, decision := Some(Decision(terms.at, actor.id, terms.expires, terms.note)));
      requests := requests[at := r];
      return Done(r);
    }

    /** Deny a pending request: for an administrator of its organization. */
    method DenyRequest(actor: User, id: int, when: int, note: Option<string>) returns (reply: Reply)
      modifies this
      ensures (State(), reply) == DenyAt(old(State()), actor, id, when, note)
      ensures assignments == old(assignments) && grants == old(grants)
      ensures reply.Refused? ==> State() == old(State())
      ensures reply.Done? ==> Decided(old(requests), requests, reply.request, Denied)
      ensures reply.Done? ==>
                && actor.isAdmin && reply.request.id == id && reply.request.org == actor.org
                && reply.request.decision == Some(Decision(when, actor.id, None, note))
      ensures UniqueIds(old(requests)) ==>
                (reply.Done? <==> actor.isAdmin && IsPending(old(requests), id, actor.org))
      ensures Sound(old(State())) ==> Sound(State()) && Advances(old(requests), requests)
    {
      if Sound(State()) {
        DenyKeeps(State(), actor, id, when, note);
      }
      WhoIsFound(requests, id, actor.org);
      if !actor.isAdmin {
        return Refused(Forbidden);
      }
      var at := FindRequest(requests, id, actor.org);
      if at == |requests| {
        return Refused(NotFound);
      }
      if requests[at].status != Pending {
        return Refused(AlreadyDecided);
      }
      var decision := Decision(when, actor.id, None, note);
      requests := requests[at := requests[at].(status := Denied, decision := Some(decision))];
      return Done(requests[at]);
    }

    /** Withdraw a pending request: for its requester, or an administrator. */
    method CancelRequest(actor: User, id: int, when: int) returns (reply: Reply)
      modifies this
      ensures (State(), reply) == CancelAt(old(State()), actor, id, when)
      ensures assignments == old(assignments) && grants == old(grants)
      ensures reply.Refused? ==> State() == old(State())
      ensures reply.Done? ==> Decided(old(requests), requests, reply.request, Cancelled)
      ensures reply.Done? ==>
                && (actor.isAdmin || reply.request.requester == actor.id)
                && reply.request.id == id && reply.request.org == actor.org
                && reply.request.decision == Some(Decision(when, actor.id, None, None))
      ensures UniqueIds(old(requests)) ==>
                (reply.Done? <==> && IsPending(old(requests), id, actor.org)
                                  && (actor.isAdmin || Requested(old(requests), id, actor.id)))
      ensures Sound(old(State())) ==> Sound(State()) && Advances(old(requests), requests)
    {
      if Sound(State()) {
        CancelKeeps(State(), actor, id, when);
      }
      WhoIsFound(requests, id, actor.org);
      var at := FindRequest(requests, id, actor.org);
      if at == |requests| {
        return Refused(NotFound);
      }
      if requests[at].requester != actor.id && !actor.isAdmin {
        return Refused(Forbidden);
      }
      if requests[at].status != Pending {
        return Refused(AlreadyDecided);
      }
      var decision := Decision(when, actor.id, None, None);
      requests := requests[at := requests[at].(status := Cancelled, decision := Some(decision))];
      return Done(requests[at]);
    }
  }

  // ---------------- who may decide what ----------------

  /** The target is a tenant, site or device of the organization. */
  ghost predicate Exists(f: Fleet, org: int, scope: Scope, id: int) {
    || (scope == Tenant && exists t :: t in f.tenants && t.id == id && t.org == org)
    || (scope == Site && exists s :: s in f.sites && s.id == id && s.org == org)
    || (scope == Device && exists d :: d in f.devices && d.id == id && d.org == org)
  }

  lemma ExistsExactly(f: Fleet, org: int, scope: Scope, id: int)
    ensures Exists(f, org, scope, id) <==> TargetExists(f, org, scope, id)
  {
    if t :| t in f.tenants && t.id == id && t.org == org {
      assert t == TenantRow(id, org);
    }
  }

  ghost predicate IsPending(requests: seq<Request>, id: int, org: int) {
    exists r :: r in requests && r.id == id && r.org == org && r.status == Pending
  }

  ghost predicate Requested(requests: seq<Request>, id: int, user: int) {
    exists r :: r in requests && r.id == id && r.requester == user
  }

  ghost predicate RoleExists(roles: seq<RoleRow>, id: int, org: int) {
    exists row :: row in roles && row.id == id && row.org == org
  }

  /** One pending request became this decided one; nothing else changed. */
  ghost predicate Decided(before: seq<Request>, after: seq<Request>, r: Request, status: Status) {
    exists at :: 0 <= at < |before| && before[at].status == Pending && r.status == status
                 && r.(status := Pending, decision := before[at].decision) == before[at]
                 && after == before[at := r]
  }

  lemma AllFoundExactly(roles: seq<RoleRow>, ids: seq<int>, org: int)
    ensures AllFound(roles, ids, org) <==> forall role :: role in ids ==> RoleExists(roles, role, org)
  {
    if AllFound(roles, ids, org) {
      forall role | role in ids ensures RoleExists(roles, role, org) {
        var k :| 0 <= k < |ids| && ids[k] == role;
      }
    }
    if forall role :: role in ids ==> RoleExists(roles, role, org) {
      forall k | 0 <= k < |ids| ensures exists i :: 0 <= i < |roles| && roles[i].id == ids[k] && roles[i].org == org {
        assert RoleExists(roles, ids[k], org);
      }
    }
  }

  /** With unique ids, the request found is the one meant. */
  lemma WhoIsFound(requests: seq<Request>, id: int, org: int)
    ensures var at := FindRequest(requests, id, org);
            UniqueIds(requests) ==>
              && (IsPending(requests, id, org) <==> at < |requests| && requests[at].status == Pending)
              && (at < |requests| ==> forall user :: Requested(requests, id, user) <==> requests[at].requester == user)
  {
    var at := FindRequest(requests, id, org);
    if UniqueIds(requests) && at < |requests| {
      forall r | r in requests && r.id == id ensures r == requests[at] {
        var k :| 0 <= k < |requests| && requests[k] == r;
      }
      assert requests[at] in requests;
    }
  }

  // ---------------- one approval ----------------

  lemma {:induction false} NamedRolesExactly(roles: seq<RoleRow>, ids: seq<int>, org: int, row: RoleRow)
    ensures row in NamedRoles(roles, ids, org) <==> row in roles && row.id in ids && row.org == org
  {
    if roles != [] {
      var prefix := roles[..|roles| - 1];
      assert roles == prefix + [roles[|roles| - 1]];
      NamedRolesExactly(prefix, ids, org, row);
    }
  }

  lemma {:induction false} NewRowsExactly(
    held: seq<Assignment>, roles: seq<RoleRow>, r: Request, expires: Option<int>, a: Assignment)
    ensures a in NewRows(held, roles, r, expires) <==>
            && a == Minted(r, a.role, expires) && !HasRow(held, r.requester, a.role, r.scope, r.scopeId)
            && exists row :: row in roles && row.id == a.role
  {
    if roles != [] {
      var prefix, last := roles[..|roles| - 1], roles[|roles| - 1];
      assert roles == prefix + [last];
      NewRowsExactly(held, prefix, r, expires, a);
    }
  }

  /** The role is among those named, exists in the actor's organization, and the
      requester had no row for it at the request's scope. */
  predicate NewlyGranted(f: Fleet, d: Desk, r: Request, roleIds: seq<int>, org: int, role: int) {
    && role in roleIds && (exists i :: 0 <= i < |f.roles| && f.roles[i].id == role && f.roles[i].org == org)
    && !HasRow(d.assignments, r.requester, role, r.scope, r.scopeId)
  }

  predicate GrantsHere(f: Fleet, a: Assignment, user: User, section: string, action: string, place: Place, now: int) {
    && a.user == user.id && Live(a, now) && ScopeMatches(a, place)
    && RoleGrants(PermissionsOf(f.roles, a.role), section, action)
  }

  /** Some row of the table grants the action. */
  ghost predicate SomeRow(
    f: Fleet, rows: seq<Assignment>, user: User, section: string, action: string, p: Place, now: int)
  {
    exists a :: a in rows && GrantsHere(f, a, user, section, action, Resolve(f, p), now)
  }

  lemma CanBySomeRow(f: Fleet, rows: seq<Assignment>, user: User, section: string, action: string, p: Place, now: int)
    ensures Can(f, rows, user, section, action, p, now) <==>
            user.isAdmin || SomeRow(f, rows, user, section, action, p, now)
  {
    if a :| a in rows && GrantsHere(f, a, user, section, action, Resolve(f, p), now) {
      var i :| 0 <= i < |rows| && rows[i] == a;
      assert CanAt(f, rows, user, section, action, Resolve(f, p), now);
    }
    if Can(f, rows, user, section, action, p, now) && !user.isAdmin {
      var i :| 0 <= i < |rows| && rows[i].user == user.id && Live(rows[i], now) && ScopeMatches(rows[i], Resolve(f, p))
               && RoleGrants(PermissionsOf(f.roles, rows[i].role), section, action);
      assert GrantsHere(f, rows[i], user, section, action, Resolve(f, p), now);
    }
  }

  /** Verdicts of two tables together are those of either. */
  lemma CanConcat(
    f: Fleet, a: seq<Assignment>, b: seq<Assignment>, user: User, section: string, action: string, p: Place, now: int)
    ensures Can(f, a + b, user, section, action, p, now) <==>
            Can(f, a, user, section, action, p, now) || SomeRow(f, b, user, section, action, p, now)
  {
    CanBySomeRow(f, a, user, section, action, p, now);
    CanBySomeRow(f, a + b, user, section, action, p, now);
  }

  /** What an approval gives a user at a place: exactly the permissions of a newly
      granted role, to the requester, under the request's scope, until it expires. */
  ghost predicate Gains(f: Fleet, d: Desk, r: Request, roleIds: seq<int>, org: int, expires: Option<int>, later: Fleet,
                        user: User, section: string, action: string, p: Place, now: int) {
    && user.id == r.requester && (expires.None? || expires.value > now)
    && ScopeMatches(Minted(r, 0, expires), Resolve(later, p))
    && exists role :: NewlyGranted(f, d, r, roleIds, org, role)
                      && RoleGrants(PermissionsOf(later.roles, role), section, action)
  }

  /** Approval removes no verdict, and adds exactly those it gains: for every
      user, action, place and later time, whatever the fleet is by then. */
  lemma ApprovalIsExact(f: Fleet, d: Desk, actor: User, id: int, roleIds: seq<int>, terms: Terms, later: Fleet,
                        user: User, section: string, action: string, p: Place, now: int)
    ensures var (after, reply) := ApproveAt(f, d, actor, id, roleIds, terms);
            Can(later, after.assignments, user, section, action, p, now) <==>
            || Can(later, d.assignments, user, section, action, p, now)
            || (reply.Done? && Gains(f, d, d.requests[FindRequest(d.requests, id, actor.org)], roleIds, actor.org,
                                     terms.expires, later, user, section, action, p, now))
  {
    var (after, reply) := ApproveAt(f, d, actor, id, roleIds, terms);
    if reply.Done? {
      var r := d.requests[FindRequest(d.requests, id, actor.org)];
      var rows := NewRows(d.assignments, NamedRoles(f.roles, roleIds, actor.org), r, terms.expires);
      CanConcat(later, d.assignments, rows, user, section, action, p, now);
      RowsGain(f, d, r, roleIds, actor.org, terms.expires, later, user, section, action, p, now);
    }
  }

  lemma RowsExactly(f: Fleet, d: Desk, r: Request, roleIds: seq<int>, org: int, expires: Option<int>, a: Assignment)
    ensures a in NewRows(d.assignments, NamedRoles(f.roles, roleIds, org), r, expires) <==>
            a == Minted(r, a.role, expires) && NewlyGranted(f, d, r, roleIds, org, a.role)
  {
    var named := NamedRoles(f.roles, roleIds, org);
    NewRowsExactly(d.assignments, named, r, expires, a);
    forall row ensures row in named <==> row in f.roles && row.id in roleIds && row.org == org {
      NamedRolesExactly(f.roles, roleIds, org, row);
    }
    if NewlyGranted(f, d, r, roleIds, org, a.role) {
      var i :| 0 <= i < |f.roles| && f.roles[i].id == a.role && f.roles[i].org == org;
      assert f.roles[i] in named;
    }
  }

  lemma RowsGain(f: Fleet, d: Desk, r: Request, roleIds: seq<int>, org: int, expires: Option<int>, later: Fleet,
                 user: User, section: string, action: string, p: Place, now: int)
    ensures SomeRow(later, NewRows(d.assignments, NamedRoles(f.roles, roleIds, org), r, expires), user, section,
                    action, p, now)
            <==> Gains(f, d, r, roleIds, org, expires, later, user, section, action, p, now)
  {
    var rows := NewRows(d.assignments, NamedRoles(f.roles, roleIds, org), r, expires);
    var place := Resolve(later, p);
    if SomeRow(later, rows, user, section, action, p, now) {
      var a :| a in rows && GrantsHere(later, a, user, section, action, place, now);
      RowsExactly(f, d, r, roleIds, org, expires, a);
      assert ScopeMatches(Minted(r, 0, expires), place);
      assert NewlyGranted(f, d, r, roleIds, org, a.role);
    }
    if Gains(f, d, r, roleIds, org, expires, later, user, section, action, p, now) {
      var role :| NewlyGranted(f, d, r, roleIds, org, role)
          && RoleGrants(PermissionsOf(later.roles, role), section, action);
      RowsExactly(f, d, r, roleIds, org, expires, Minted(r, role, expires));
      assert GrantsHere(later, Minted(r, role, expires), user, section, action, place, now);
    }
  }

  /** The user holds this role here, unexpired. */
  predicate HoldsLive(assignments: seq<Assignment>, user: int, role: int, scope: Scope, id: int, now: int) {
    exists i :: 0 <= i < |assignments| && SameRow(assignments[i], user, role, scope, id) && Live(assignments[i], now)
  }

  /** Whether a named role is really held after an approval: a role without a row
      gets one with the approval's expiry; a role with a row keeps that row, so an
      expired one stays expired. */
  lemma ApprovalDelivers(
    f: Fleet, d: Desk, actor: User, id: int, roleIds: seq<int>, terms: Terms, role: int, now: int)
    requires ApproveAt(f, d, actor, id, roleIds, terms).1.Done? && role in roleIds
    ensures var after, r := ApproveAt(f, d, actor, id, roleIds, terms).0,
            d.requests[FindRequest(d.requests, id, actor.org)];
            HoldsLive(after.assignments, r.requester, role, r.scope, r.scopeId, now) <==>
            if HasRow(d.assignments, r.requester, role, r.scope, r.scopeId)
            then HoldsLive(d.assignments, r.requester, role, r.scope, r.scopeId, now)
            else terms.expires.None? || terms.expires.value > now
  {
    var (after, reply) := ApproveAt(f, d, actor, id, roleIds, terms);
    var r := d.requests[FindRequest(d.requests, id, actor.org)];
    var rows := NewRows(d.assignments, NamedRoles(f.roles, roleIds, actor.org), r, terms.expires);
    assert after.assignments == d.assignments + rows;
    forall a | a in rows
      ensures a == Minted(r, a.role, terms.expires) && NewlyGranted(f, d, r, roleIds, actor.org, a.role)
    {
      RowsExactly(f, d, r, roleIds, actor.org, terms.expires, a);
    }
    if i :| 0 <= i < |d.assignments| && SameRow(d.assignments[i], r.requester, role, r.scope, r.scopeId)
            && Live(d.assignments[i], now) {
      assert after.assignments[i] == d.assignments[i];
    }
    if !HasRow(d.assignments, r.requester, role, r.scope, r.scopeId) {
      var k :| 0 <= k < |roleIds| && roleIds[k] == role;
      RowsExactly(f, d, r, roleIds, actor.org, terms.expires, Minted(r, role, terms.expires));
      var i :| 0 <= i < |rows| && rows[i] == Minted(r, role, terms.expires);
      assert after.assignments[|d.assignments| + i] == rows[i];
    }
  }

  /** Approving a request for a role whose row has expired records an approval and
      grants nothing. */
  lemma {:induction false} ExpiredRowShadowsApproval(now: int)
    ensures var admin, expired := User(1, 9, true), Assignment(2, 5, Tenant, Some(3), Some(now - 1));
            var f := Fleet([TenantRow(3, 9)], [], [], [RoleRow(5, 9, [Permission("*", "*")])]);
            var d := Desk([expired], [Request(7, 9, 2, Tenant, 3, None, Pending, None)], []);
            var (after, reply) := ApproveAt(f, d, admin, 7, [5], Terms(now, None, None));
            reply.Done? && reply.request.status == Approved && after.assignments == [expired]
            && !Can(f, after.assignments, User(2, 9, false), "devices", "read", PlaceOf(Tenant, 3), now)
  {
    var expired := Assignment(2, 5, Tenant, Some(3), Some(now - 1));
    var r, role := Request(7, 9, 2, Tenant, 3, None, Pending, None), RoleRow(5, 9, [Permission("*", "*")]);
    OneRoleFound(role);
    RowAlreadyThere(expired, role, r);
  }

  lemma OneRoleFound(role: RoleRow)
    ensures AllFound([role], [role.id], role.org) && NamedRoles([role], [role.id], role.org) == [role]
  {
    assert [role][..0] == [];
    assert [role][0].id == [role.id][0];
  }

  lemma RowAlreadyThere(a: Assignment, role: RoleRow, r: Request)
    requires SameRow(a, r.requester, role.id, r.scope, r.scopeId)
    ensures NewRows([a], [role], r, None) == []
  {
    assert SameRow([a][0], r.requester, role.id, r.scope, r.scopeId);
    assert [role][..0] == [];
  }

  // ---------------- every run of the workflow ----------------

  datatype Call =
    | Create(requester: User, scope: Scope, id: int, reason: Option<string>, newId: int)
    | Approve(actor: User, request: int, roleIds: seq<int>, terms: Terms)
    | Deny(actor: User, request: int, when: int, note: Option<string>)
    | Cancel(actor: User, request: int, when: int)

  /** A call, with the fleet as it stands when it is made. */
  datatype Event = Event(f: Fleet, call: Call)

  function Step(d: Desk, e: Event): Desk {
    match e.call
    case Create(requester, scope, id, reason, newId) => Created(e.f, d, requester, scope, id, reason, newId).0
    case Approve(actor, request, roleIds, terms) => ApproveAt(e.f, d, actor, request, roleIds, terms).0
    case Deny(actor, request, when, note) => DenyAt(d, actor, request, when, note).0
    case Cancel(actor, request, when) => CancelAt(d, actor, request, when).0
  }

  function Run(d: Desk, events: seq<Event>): Desk {
    if events == [] then d else Step(Run(d, events[..|events| - 1]), events[|events| - 1])
  }

  ghost predicate RoleIdsUnique(roles: seq<RoleRow>) {
    forall i, j :: 0 <= i < j < |roles| ==> roles[i].id != roles[j].id
  }

  /** What the database guarantees: new ids are new and role ids are keys. */
  ghost predicate Lawful(d: Desk, e: Event) {
    && RoleIdsUnique(e.f.roles)
    && (e.call.Create? ==> forall r :: r in d.requests ==> r.id != e.call.newId)
  }

  ghost predicate LawfulRun(d: Desk, events: seq<Event>) {
    events != [] ==>
      LawfulRun(d, events[..|events| - 1]) && Lawful(Run(d, events[..|events| - 1]), events[|events| - 1])
  }

  ghost predicate UniqueIds(requests: seq<Request>) {
    forall i, j :: 0 <= i < j < |requests| ==> requests[i].id != requests[j].id
  }

  ghost predicate OnePending(requests: seq<Request>) {
    forall i, j :: 0 <= i < j < |requests| && requests[i].status == Pending ==>
                     !Asks(requests[j], requests[i].requester, requests[i].scope, requests[i].scopeId)
  }

  /** A status other than pending comes with its decision, and only then. */
  ghost predicate DecisionsRecorded(requests: seq<Request>) {
    forall r :: r in requests ==> (r.status == Pending <==> r.decision.None?)
  }

  /** No two rows for one user, role and scope. As in the database, a row without a
      scope id is not compared. */
  ghost predicate UniqueRows(assignments: seq<Assignment>) {
    forall i, j :: 0 <= i < j < |assignments| && assignments[i].scopeId.Some? ==>
                     KeyOf(assignments[i]) != KeyOf(assignments[j])
  }

  function KeyOf(a: Assignment): (int, int, Scope, Option<int>) {
    (a.user, a.role, a.scope, a.scopeId)
  }

  /** The grant was minted for this approved request, as it asked. */
  ghost predicate MintedFor(g: GrantRow, r: Request) {
    && g.request == r.id && r.status == Approved && r.decision.Some?
    && g.assignment == Minted(r, g.assignment.role, r.decision.value.expires)
  }

  ghost predicate Backed(d: Desk, g: GrantRow) {
    exists i :: 0 <= i < |d.requests| && MintedFor(g, d.requests[i])
  }

  ghost predicate Sound(d: Desk) {
    && UniqueIds(d.requests) && OnePending(d.requests) && DecisionsRecorded(d.requests)
    && UniqueRows(d.assignments)
    && (forall k :: 0 <= k < |d.grants| ==> Backed(d, d.grants[k]))
  }

  /** What a run may do to the requests: decided ones are frozen, pending ones keep
      who asked for what, none disappears. */
  ghost predicate Advances(before: seq<Request>, after: seq<Request>) {
    && |before| <= |after|
    && forall i :: 0 <= i < |before| ==> Later(before[i], after[i])
  }

  ghost predicate Later(r: Request, s: Request) {
    && (r.status != Pending ==> s == r)
    && s.(status := r.status, decision := r.decision) == r
  }

  /** Assignments are only added, each with its grant row. */
  ghost predicate Accounted(before: Desk, after: Desk) {
    && |before.grants| <= |after.grants| && before.grants == after.grants[..|before.grants|]
    && after.assignments == before.assignments + Assignments(after.grants[|before.grants|..])
  }

  function Assignments(grants: seq<GrantRow>): seq<Assignment> {
    seq(|grants|, i requires 0 <= i < |grants| => grants[i].assignment)
  }

  lemma DecideKeeps(d: Desk, at: nat, r: Request)
    requires Sound(d) && at < |d.requests| && d.requests[at].status == Pending
    requires r.status != Pending && r.decision.Some?
    requires r.(status := Pending, decision := None) == d.requests[at].(status := Pending, decision := None)
    ensures Advances(d.requests, d.requests[at := r])
    ensures Sound(d.(requests := d.requests[at := r]))
  {
    var after := d.(requests := d.requests[at := r]);
    forall k | 0 <= k < |d.grants| ensures Backed(after, after.grants[k]) {
      var i :| 0 <= i < |d.requests| && MintedFor(d.grants[k], d.requests[i]);
      assert after.requests[i] == d.requests[i];
    }
  }

  lemma CreateKeeps(f: Fleet, d: Desk, requester: User, scope: Scope, id: int, reason: Option<string>, newId: int)
    requires Sound(d) && forall r :: r in d.requests ==> r.id != newId
    ensures var after := Created(f, d, requester, scope, id, reason, newId).0;
            Sound(after) && Advances(d.requests, after.requests) && Accounted(d, after)
  {
    var after := Created(f, d, requester, scope, id, reason, newId).0;
    forall k | 0 <= k < |d.grants| ensures Backed(after, d.grants[k]) {
      assert Backed(d, d.grants[k]);
      var i :| 0 <= i < |d.requests| && MintedFor(d.grants[k], d.requests[i]);
      assert after.requests[i] == d.requests[i];
    }
    assert d.assignments + Assignments([]) == d.assignments;
  }

  lemma {:induction false} NewRowsUnique(held: seq<Assignment>, roles: seq<RoleRow>, r: Request, expires: Option<int>)
    requires UniqueRows(held) && RoleIdsUnique(roles)
    ensures UniqueRows(held + NewRows(held, roles, r, expires))
  {
    if roles == [] {
      assert held + [] == held;
    } else {
      var prefix, last := roles[..|roles| - 1], roles[|roles| - 1];
      NewRowsUnique(held, prefix, r, expires);
      if !HasRow(held, r.requester, last.id, r.scope, r.scopeId) {
        var rows := NewRows(held, prefix, r, expires);
        forall a | a in rows ensures a.role != last.id {
          NewRowsExactly(held, prefix, r, expires, a);
        }
        UniqueSnoc(held, rows, Minted(r, last.id, expires));
        assert held + (rows + [Minted(r, last.id, expires)]) == held + rows + [Minted(r, last.id, expires)];
      }
    }
  }

  lemma UniqueSnoc(held: seq<Assignment>, rows: seq<Assignment>, a: Assignment)
    requires UniqueRows(held + rows) && a.scopeId.Some?
    requires !HasRow(held, a.user, a.role, a.scope, a.scopeId.value)
    requires forall b :: b in rows ==> b.role != a.role
    ensures UniqueRows(held + rows + [a])
  {
    var all := held + rows;
    forall i | 0 <= i < |all| ensures KeyOf(all[i]) != KeyOf(a) {
      if i < |held| {
        assert !SameRow(held[i], a.user, a.role, a.scope, a.scopeId.value);
      } else {
        assert all[i] == rows[i - |held|];
      }
    }
  }

  lemma {:induction false} NamedRolesUnique(roles: seq<RoleRow>, ids: seq<int>, org: int)
    requires RoleIdsUnique(roles)
    ensures RoleIdsUnique(NamedRoles(roles, ids, org))
  {
    if roles != [] {
      var prefix, last := roles[..|roles| - 1], roles[|roles| - 1];
      NamedRolesUnique(prefix, ids, org);
      var named := NamedRoles(prefix, ids, org);
      forall i | 0 <= i < |named| ensures named[i].id != last.id {
        NamedRolesExactly(prefix, ids, org, named[i]);
      }
    }
  }

  lemma ApproveKeeps(f: Fleet, d: Desk, actor: User, id: int, roleIds: seq<int>, terms: Terms)
    requires Sound(d) && RoleIdsUnique(f.roles)
    ensures var after := ApproveAt(f, d, actor, id, roleIds, terms).0;
            Sound(after) && Advances(d.requests, after.requests) && Accounted(d, after)
  {
    var (after, reply) := ApproveAt(f, d, actor, id, roleIds, terms);
    if reply.Refused? {
      assert d.assignments + Assignments([]) == d.assignments;
    } else {
      var at := FindRequest(d.requests, id, actor.org);
      var named := NamedRoles(f.roles, roleIds, actor.org);
      var rows := NewRows(d.assignments, named, d.requests[at], terms.expires);
      NamedRolesUnique(f.roles, roleIds, actor.org);
      NewRowsUnique(d.assignments, named, d.requests[at], terms.expires);
      forall a | a in rows ensures a == Minted(d.requests[at], a.role, terms.expires) {
        NewRowsExactly(d.assignments, named, d.requests[at], terms.expires, a);
      }
      ApprovedKeeps(d, at, rows, Decision(terms.at, actor.id, terms.expires, terms.note));
    }
  }

  lemma ApprovedKeeps(d: Desk, at: nat, rows: seq<Assignment>, decision: Decision)
    requires Sound(d) && at < |d.requests| && d.requests[at].status == Pending && UniqueRows(d.assignments + rows)
    requires forall a :: a in rows ==> a == Minted(d.requests[at], a.role, decision.expires)
    ensures var after := ApprovedDesk(d, at, rows, decision);
            Sound(after) && Advances(d.requests, after.requests) && Accounted(d, after)
  {
    var after := ApprovedDesk(d, at, rows, decision);
    DecideKeeps(d, at, after.requests[at]);
    var middle := d.(requests := after.requests);
    forall k | 0 <= k < |after.grants| ensures Backed(after, after.grants[k]) {
      if k < |d.grants| {
        assert Backed(middle, middle.grants[k]);
      } else {
        assert after.grants[k] == GrantRow(d.requests[at].id, rows[k - |d.grants|]);
        assert MintedFor(after.grants[k], after.requests[at]);
      }
    }
    assert Assignments(after.grants[|d.grants|..]) == rows;
  }

  lemma NothingAdded(d: Desk, requests: seq<Request>)
    ensures Accounted(d, d.(requests := requests))
  {
    assert d.assignments + Assignments([]) == d.assignments;
  }

  lemma CloseKeeps(d: Desk, at: nat, status: Status, decision: Decision)
    requires Sound(d) && at < |d.requests| && d.requests[at].status == Pending && status != Pending
    ensures var after := Closed(d, at, status, decision).0;
            Sound(after) && Advances(d.requests, after.requests) && Accounted(d, after)
  {
    var r := d.requests[at].(status := status, decision := Some(decision));
    DecideKeeps(d, at, r);
    NothingAdded(d, d.requests[at := r]);
  }

  lemma DenyKeeps(d: Desk, actor: User, id: int, when: int, note: Option<string>)
    requires Sound(d)
    ensures var after := DenyAt(d, actor, id, when, note).0;
            Sound(after) && Advances(d.requests, after.requests) && Accounted(d, after)
  {
    if DenyAt(d, actor, id, when, note).1.Done? {
      CloseKeeps(d, FindRequest(d.requests, id, actor.org), Denied, Decision(when, actor.id, None, note));
    } else {
      NothingAdded(d, d.requests);
    }
  }

  lemma CancelKeeps(d: Desk, actor: User, id: int, when: int)
    requires Sound(d)
    ensures var after := CancelAt(d, actor, id, when).0;
            Sound(after) && Advances(d.requests, after.requests) && Accounted(d, after)
  {
    if CancelAt(d, actor, id, when).1.Done? {
      CloseKeeps(d, FindRequest(d.requests, id, actor.org), Cancelled, Decision(when, actor.id, None, None));
    } else {
      NothingAdded(d, d.requests);
    }
  }

  lemma StepKeeps(d: Desk, e: Event)
    requires Sound(d) && Lawful(d, e)
    ensures Sound(Step(d, e)) && Advances(d.requests, Step(d, e).requests) && Accounted(d, Step(d, e))
  {
    match e.call
    case Create(requester, scope, id, reason, newId) => CreateKeeps(e.f, d, requester, scope, id, reason, newId);
    case Approve(actor, request, roleIds, terms) => ApproveKeeps(e.f, d, actor, request, roleIds, terms);
    case Deny(actor, request, when, note) => DenyKeeps(d, actor, request, when, note);
    case Cancel(actor, request, when) => CancelKeeps(d, actor, request, when);
  }

  lemma AssignmentsConcat(a: seq<GrantRow>, b: seq<GrantRow>)
    ensures Assignments(a + b) == Assignments(a) + Assignments(b)
  {
  }

  lemma SuffixConcat(b: seq<GrantRow>, c: seq<GrantRow>, k: nat)
    requires k <= |b| <= |c| && b == c[..|b|]
    ensures c[k..] == b[k..] + c[|b|..]
  {
  }

  lemma PrefixTrans(a: seq<GrantRow>, b: seq<GrantRow>, c: seq<GrantRow>)
    requires |a| <= |b| <= |c| && a == b[..|a|] && b == c[..|b|]
    ensures a == c[..|a|]
  {
    assert c[..|b|][..|a|] == c[..|a|];
  }

  lemma Regroup(a: seq<Assignment>, x: seq<Assignment>, y: seq<Assignment>)
    ensures a + x + y == a + (x + y)
  {
  }

  lemma AccountedTrans(a: Desk, b: Desk, c: Desk)
    requires Accounted(a, b) && Accounted(b, c)
    ensures Accounted(a, c)
  {
    var first, second := b.grants[|a.grants|..], c.grants[|b.grants|..];
    PrefixTrans(a.grants, b.grants, c.grants);
    SuffixConcat(b.grants, c.grants, |a.grants|);
    AssignmentsConcat(first, second);
    Regroup(a.assignments, Assignments(first), Assignments(second));
  }

  /** Over every run: requests are decided at most once, at most one is pending per
      user and target, rows stay unique, and every added row has its grant. */
  lemma {:induction false} RunKeeps(d: Desk, events: seq<Event>)
    requires Sound(d) && LawfulRun(d, events)
    ensures Sound(Run(d, events)) && Advances(d.requests, Run(d, events).requests) && Accounted(d, Run(d, events))
  {
    if events == [] {
      assert d.assignments + Assignments([]) == d.assignments;
    } else {
      var before := Run(d, events[..|events| - 1]);
      RunKeeps(d, events[..|events| - 1]);
      StepKeeps(before, events[|events| - 1]);
      AccountedTrans(d, before, Run(d, events));
    }
  }

  /** Creating, denying and cancelling leave every verdict alone. */
  lemma OnlyApprovalMovesVerdicts(
    d: Desk, e: Event, later: Fleet, user: User, section: string, action: string, p: Place, now: int)
    requires !e.call.Approve?
    ensures Can(later, Step(d, e).assignments, user, section, action, p, now)
            == Can(later, d.assignments, user, section, action, p, now)
  {
    assert Step(d, e).assignments == d.assignments;
  }

  // ---------------- who is behind a gain ----------------

  /** This call is an administrator's of the request's organization, approving that
      request with the role granted, and is the decision on record. */
  ghost predicate ApprovedBy(r: Request, g: GrantRow, e: Event) {
    && e.call.Approve? && e.call.actor.isAdmin && e.call.actor.org == r.org && e.call.request == r.id
    && g.assignment.role in e.call.roleIds
    && r.decision == Some(Decision(e.call.terms.at, e.call.actor.id, e.call.terms.expires, e.call.terms.note))
  }

  /** An approved request asked for this grant and an approval in the run gave it. */
  ghost predicate Vouched(d: Desk, events: seq<Event>, g: GrantRow) {
    exists r, e :: r in d.requests && e in events && MintedFor(g, r) && ApprovedBy(r, g, e)
  }

  lemma VouchedStays(before: Desk, after: Desk, prefix: seq<Event>, events: seq<Event>, g: GrantRow)
    requires Vouched(before, prefix, g) && Advances(before.requests, after.requests)
    requires forall e :: e in prefix ==> e in events
    ensures Vouched(after, events, g)
  {
    var r, e :| r in before.requests && e in prefix && MintedFor(g, r) && ApprovedBy(r, g, e);
    var i :| 0 <= i < |before.requests| && before.requests[i] == r;
    assert after.requests[i] == r;
  }

  lemma NewGrantIsVouched(d: Desk, e: Event, k: nat)
    requires |d.grants| <= k < |Step(d, e).grants|
    ensures Vouched(Step(d, e), [e], Step(d, e).grants[k])
  {
    assert e.call.Approve?;
    var c := e.call;
    var at := FindRequest(d.requests, c.request, c.actor.org);
    var named := NamedRoles(e.f.roles, c.roleIds, c.actor.org);
    var rows := NewRows(d.assignments, named, d.requests[at], c.terms.expires);
    var g, r := Step(d, e).grants[k], Step(d, e).requests[at];
    assert g == GrantRow(r.id, rows[k - |d.grants|]);
    RowsExactly(e.f, d, d.requests[at], c.roleIds, c.actor.org, c.terms.expires, g.assignment);
    assert r in Step(d, e).requests && e in [e] && MintedFor(g, r) && ApprovedBy(r, g, e);
  }

  lemma {:induction false} RunVouches(d: Desk, events: seq<Event>, k: nat)
    requires Sound(d) && LawfulRun(d, events) && |d.grants| <= k < |Run(d, events).grants|
    ensures Vouched(Run(d, events), events, Run(d, events).grants[k])
  {
    var prefix, e := events[..|events| - 1], events[|events| - 1];
    assert events == prefix + [e];
    var before, after := Run(d, prefix), Run(d, events);
    RunKeeps(d, prefix);
    StepKeeps(before, e);
    if k < |before.grants| {
      RunVouches(d, prefix, k);
      assert after.grants[k] == after.grants[..|before.grants|][k];
      VouchedStays(before, after, prefix, events, before.grants[k]);
    } else {
      NewGrantIsVouched(before, e, k);
      RequestsAdvance(after.requests);
      VouchedStays(after, after, [e], events, after.grants[k]);
    }
  }

  lemma RequestsAdvance(requests: seq<Request>)
    ensures Advances(requests, requests)
  {
  }

  /** A grant minted in the run gives this verdict, with its request and approval. */
  ghost predicate Explained(
    d: Desk, from: nat, events: seq<Event>, later: Fleet,
    user: User, section: string, action: string, p: Place, now: int)
  {
    && from <= |d.grants|
    && exists g :: g in d.grants[from..] && Vouched(d, events, g)
                   && GrantsHere(later, g.assignment, user, section, action, Resolve(later, p), now)
  }

  lemma AssignmentsExactly(grants: seq<GrantRow>, a: Assignment)
    ensures a in Assignments(grants) <==> exists g :: g in grants && g.assignment == a
  {
    if a in Assignments(grants) {
      var i :| 0 <= i < |grants| && Assignments(grants)[i] == a;
      assert grants[i] in grants;
    }
    if g :| g in grants && g.assignment == a {
      var i :| 0 <= i < |grants| && grants[i] == g;
      assert Assignments(grants)[i] == a;
    }
  }

  lemma MintedRowIsExplained(
    d: Desk, from: nat, events: seq<Event>, later: Fleet,
    user: User, section: string, action: string, p: Place, now: int)
    requires from <= |d.grants| && forall k :: from <= k < |d.grants| ==> Vouched(d, events, d.grants[k])
    requires SomeRow(later, Assignments(d.grants[from..]), user, section, action, p, now)
    ensures Explained(d, from, events, later, user, section, action, p, now)
  {
    var added := Assignments(d.grants[from..]);
    var a :| a in added && GrantsHere(later, a, user, section, action, Resolve(later, p), now);
    AssignmentsExactly(d.grants[from..], a);
    var g :| g in d.grants[from..] && g.assignment == a;
    var k :| 0 <= k < |d.grants[from..]| && d.grants[from..][k] == g;
    assert Vouched(d, events, d.grants[from + k]);
  }

  lemma ExplainedIsMinted(
    d: Desk, from: nat, events: seq<Event>, later: Fleet,
    user: User, section: string, action: string, p: Place, now: int)
    requires Explained(d, from, events, later, user, section, action, p, now)
    ensures SomeRow(later, Assignments(d.grants[from..]), user, section, action, p, now)
  {
    var g :| g in d.grants[from..] && Vouched(d, events, g)
             && GrantsHere(later, g.assignment, user, section, action, Resolve(later, p), now);
    AssignmentsExactly(d.grants[from..], g.assignment);
  }

  /** Over a whole run no verdict is lost, and every verdict gained is explained by
      an approved request of that very user for a scope over that very place, and by
      the call of an administrator who approved it with that very role. */
  lemma {:induction false} EveryGainIsExplained(
    d: Desk, events: seq<Event>, later: Fleet, user: User, section: string, action: string, p: Place, now: int)
    requires Sound(d) && LawfulRun(d, events)
    ensures Can(later, Run(d, events).assignments, user, section, action, p, now) <==>
            || Can(later, d.assignments, user, section, action, p, now)
            || Explained(Run(d, events), |d.grants|, events, later, user, section, action, p, now)
  {
    RunKeeps(d, events);
    var after := Run(d, events);
    CanConcat(later, d.assignments, Assignments(after.grants[|d.grants|..]), user, section, action, p, now);
    if SomeRow(later, Assignments(after.grants[|d.grants|..]), user, section, action, p, now) {
      forall k | |d.grants| <= k < |after.grants| ensures Vouched(after, events, after.grants[k]) {
        RunVouches(d, events, k);
      }
      MintedRowIsExplained(after, |d.grants|, events, later, user, section, action, p, now);
    }
    if Explained(after, |d.grants|, events, later, user, section, action, p, now) {
      ExplainedIsMinted(after, |d.grants|, events, later, user, section, action, p, now);
    }
  }
}
