/** The two access reports are one relation read from its two ends, and both
    contain the check. */
module AccessDuality {
  import opened Options
  import opened Rbac
  import opened AccessMap

  // ---------------- hypotheses ----------------

  /** Below organization scope, an assignment names what it is scoped to. */
  ghost predicate Scoped(assignments: seq<Assignment>) {
    forall a :: a in assignments && a.scope != Organization ==> a.scopeId.Some?
  }

  ghost predicate UniqueUsers(users: seq<User>) {
    forall i, j :: 0 <= i < j < |users| ==> users[i].id != users[j].id
  }

  /** The target exists in the organization. */
  ghost predicate InFleet(f: Fleet, org: int, scope: Scope, id: int) {
    match scope
    case Organization => false
    case Tenant => exists t :: t in f.tenants && t.id == id && t.org == org
    case Site => exists s :: s in f.sites && s.id == id && s.org == org
    case Device => exists d :: d in f.devices && d.id == id && d.org == org
  }

  /** What the map builder returns for a user. */
  ghost predicate IsAccessMap(f: Fleet, assignments: seq<Assignment>, org: int, user: User, nodes: seq<TenantNode>) {
    exists g :: Sorts(g, assignments, user) && nodes == TenantNodes(f, f.tenants, org, g)
  }

  // ---------------- reading the reports ----------------

  /** The reasons a report gives for one user. */
  function ForUser(entries: seq<Entry>, user: int): seq<Grant> {
    if entries == [] then []
    else
      var before, last := ForUser(entries[..|entries| - 1], user), entries[|entries| - 1];
      if last.user == user then before + [last.grant] else before
  }

  function DeviceGrants(nodes: seq<DeviceNode>, id: int): seq<Grant> {
    if nodes == [] then []
    else
      var before, last := DeviceGrants(nodes[..|nodes| - 1], id), nodes[|nodes| - 1];
      if last.id == id then before + last.grants else before
  }

  function SiteGrants(nodes: seq<SiteNode>, scope: Scope, id: int): seq<Grant> {
    if nodes == [] then []
    else
      var before, last := SiteGrants(nodes[..|nodes| - 1], scope, id), nodes[|nodes| - 1];
      if scope == Device then before + DeviceGrants(last.devices, id)
      else if last.id == id then before + last.grants
      else before
  }

  /** Every grant the map lists for a target, anywhere in it. */
  function Listed(nodes: seq<TenantNode>, scope: Scope, id: int): seq<Grant> {
    if nodes == [] then []
    else
      var before, last := Listed(nodes[..|nodes| - 1], scope, id), nodes[|nodes| - 1];
      if scope != Tenant then before + SiteGrants(last.sites, scope, id)
      else if last.id == id then before + last.grants
      else before
  }

  // ---------------- the map, target by target ----------------

  lemma DeviceSnoc(nodes: seq<DeviceNode>, n: DeviceNode, id: int)
    ensures DeviceGrants(nodes + [n], id)
            == if n.id == id then DeviceGrants(nodes, id) + n.grants else DeviceGrants(nodes, id)
  {
    assert (nodes + [n])[..|nodes|] == nodes;
  }

  lemma SiteSnoc(nodes: seq<SiteNode>, n: SiteNode, scope: Scope, id: int)
    ensures SiteGrants(nodes + [n], scope, id)
            == if scope == Device then SiteGrants(nodes, scope, id) + DeviceGrants(n.devices, id)
               else if n.id == id then SiteGrants(nodes, scope, id) + n.grants else SiteGrants(nodes, scope, id)
  {
    assert (nodes + [n])[..|nodes|] == nodes;
  }

  lemma ListedSnoc(nodes: seq<TenantNode>, n: TenantNode, scope: Scope, id: int)
    ensures Listed(nodes + [n], scope, id)
            == if scope != Tenant then Listed(nodes, scope, id) + SiteGrants(n.sites, scope, id)
               else if n.id == id then Listed(nodes, scope, id) + n.grants else Listed(nodes, scope, id)
  {
    assert (nodes + [n])[..|nodes|] == nodes;
  }

  ghost predicate DeviceHere(rows: seq<DeviceRow>, id: int, org: int, site: int) {
    DeviceRow(id, org, site) in rows
  }

  /** With no repetition, the last row is new. */
  lemma LastRow<T>(prefix: seq<T>, last: T, row: T)
    requires forall i :: 0 <= i < |prefix| ==> prefix[i] != last
    ensures row in prefix + [last] <==> row in prefix || row == last
    ensures row == last ==> row !in prefix
  {
  }

  lemma DeviceStep(
    prefix: seq<DeviceRow>, d: DeviceRow, org: int, site: int, own: map<int, seq<Grant>>, inherited: seq<Grant>,
    id: int)
    ensures DeviceGrants(DeviceNodes(prefix + [d], org, site, own, inherited), id)
            == DeviceGrants(DeviceNodes(prefix, org, site, own, inherited), id)
               + if d == DeviceRow(id, org, site) then inherited + Of(own, id) else []
  {
    assert (prefix + [d])[..|prefix|] == prefix;
    DeviceSnoc(DeviceNodes(prefix, org, site, own, inherited), DeviceNode(d.id, inherited + Of(own, d.id)), id);
  }

  lemma {:induction false} DeviceNodesAt(
    rows: seq<DeviceRow>, org: int, site: int, own: map<int, seq<Grant>>, inherited: seq<Grant>, id: int)
    requires forall i, j :: 0 <= i < j < |rows| ==> rows[i].id != rows[j].id
    ensures DeviceGrants(DeviceNodes(rows, org, site, own, inherited), id)
            == if DeviceHere(rows, id, org, site) then inherited + Of(own, id) else []
    decreases |rows|
  {
    if rows != [] {
      var prefix, d := rows[..|rows| - 1], rows[|rows| - 1];
      assert rows == prefix + [d];
      LastRow(prefix, d, DeviceRow(id, org, site));
      DeviceNodesAt(prefix, org, site, own, inherited, id);
      DeviceStep(prefix, d, org, site, own, inherited, id);
    }
  }

  lemma SiteStepAt(
    f: Fleet, prefix: seq<SiteRow>, s: SiteRow, org: int, tenant: int, g: Sorted, inherited: seq<Grant>, id: int)
    ensures SiteGrants(SiteNodes(f, prefix + [s], org, tenant, g, inherited), Site, id)
            == SiteGrants(SiteNodes(f, prefix, org, tenant, g, inherited), Site, id)
               + if s == SiteRow(id, org, tenant) then inherited + Of(g.sites, id) else []
  {
    assert (prefix + [s])[..|prefix|] == prefix;
    var grants := inherited + Of(g.sites, s.id);
    SiteSnoc(SiteNodes(f, prefix, org, tenant, g, inherited),
             SiteNode(s.id, grants, DeviceNodes(f.devices, org, s.id, g.devices, grants)), Site, id);
  }

  lemma {:induction false} SiteNodesAt(
    f: Fleet, rows: seq<SiteRow>, org: int, tenant: int, g: Sorted, inherited: seq<Grant>, id: int)
    requires forall i, j :: 0 <= i < j < |rows| ==> rows[i].id != rows[j].id
    ensures SiteGrants(SiteNodes(f, rows, org, tenant, g, inherited), Site, id)
            == if SiteRow(id, org, tenant) in rows then inherited + Of(g.sites, id) else []
    decreases |rows|
  {
    if rows != [] {
      var prefix, s := rows[..|rows| - 1], rows[|rows| - 1];
      assert rows == prefix + [s];
      LastRow(prefix, s, SiteRow(id, org, tenant));
      SiteNodesAt(f, prefix, org, tenant, g, inherited, id);
      SiteStepAt(f, prefix, s, org, tenant, g, inherited, id);
    }
  }

  /** The one row of a device says where it is. */
  lemma DeviceHereExactly(f: Fleet, d: DeviceRow, site: int)
    requires WellFormed(f) && d in f.devices
    ensures DeviceHere(f.devices, d.id, d.org, site) <==> site == d.site
  {
    UniqueDevice(f, d);
  }

  lemma DevicesBelow(f: Fleet, org: int, site: int, g: Sorted, grants: seq<Grant>, d: DeviceRow)
    requires WellFormed(f) && d in f.devices && d.org == org
    ensures DeviceGrants(DeviceNodes(f.devices, org, site, g.devices, grants), d.id)
            == if site == d.site then grants + Of(g.devices, d.id) else []
  {
    DeviceNodesAt(f.devices, org, site, g.devices, grants, d.id);
    DeviceHereExactly(f, d, site);
  }

  lemma SiteStep(
    f: Fleet, prefix: seq<SiteRow>, s: SiteRow, org: int, tenant: int, g: Sorted, inherited: seq<Grant>, id: int)
    ensures var grants := inherited + Of(g.sites, s.id);
            SiteGrants(SiteNodes(f, prefix + [s], org, tenant, g, inherited), Device, id)
            == SiteGrants(SiteNodes(f, prefix, org, tenant, g, inherited), Device, id)
               + if s.org == org && s.tenant == tenant
                 then DeviceGrants(DeviceNodes(f.devices, org, s.id, g.devices, grants), id) else []
  {
    assert (prefix + [s])[..|prefix|] == prefix;
    var grants := inherited + Of(g.sites, s.id);
    var devices := DeviceNodes(f.devices, org, s.id, g.devices, grants);
    SiteSnoc(SiteNodes(f, prefix, org, tenant, g, inherited), SiteNode(s.id, grants, devices), Device, id);
  }

  lemma {:induction false} SiteNodesDevice(
    f: Fleet, rows: seq<SiteRow>, org: int, tenant: int, g: Sorted, inherited: seq<Grant>, d: DeviceRow)
    requires WellFormed(f) && d in f.devices && d.org == org
    requires forall i, j :: 0 <= i < j < |rows| ==> rows[i].id != rows[j].id
    ensures SiteGrants(SiteNodes(f, rows, org, tenant, g, inherited), Device, d.id)
            == if SiteRow(d.site, org, tenant) in rows
               then inherited + Of(g.sites, d.site) + Of(g.devices, d.id) else []
    decreases |rows|
  {
    if rows != [] {
      var prefix, s := rows[..|rows| - 1], rows[|rows| - 1];
      assert rows == prefix + [s];
      LastRow(prefix, s, SiteRow(d.site, org, tenant));
      SiteNodesDevice(f, prefix, org, tenant, g, inherited, d);
      SiteStep(f, prefix, s, org, tenant, g, inherited, d.id);
      DevicesBelow(f, org, s.id, g, inherited + Of(g.sites, s.id), d);
    }
  }

  /** The grants each level adds on the way down to a target. */
  function Inherited(f: Fleet, g: Sorted, scope: Scope, id: int, tenant: Option<int>, site: Option<int>): seq<Grant> {
    g.wide
    + (if tenant.Some? then Of(g.tenants, tenant.value) else [])
    + (if site.Some? then Of(g.sites, site.value) else [])
    + (if scope == Device then Of(g.devices, id) else [])
  }

  lemma TenantStepAt(f: Fleet, prefix: seq<TenantRow>, t: TenantRow, org: int, g: Sorted, id: int)
    ensures Listed(TenantNodes(f, prefix + [t], org, g), Tenant, id)
            == Listed(TenantNodes(f, prefix, org, g), Tenant, id)
               + if t == TenantRow(id, org) then g.wide + Of(g.tenants, id) else []
  {
    assert (prefix + [t])[..|prefix|] == prefix;
    var grants := g.wide + Of(g.tenants, t.id);
    ListedSnoc(TenantNodes(f, prefix, org, g), TenantNode(t.id, grants, SiteNodes(f, f.sites, org, t.id, g, grants)),
               Tenant, id);
  }

  lemma {:induction false} TenantNodesAt(f: Fleet, rows: seq<TenantRow>, org: int, g: Sorted, id: int)
    requires forall i, j :: 0 <= i < j < |rows| ==> rows[i].id != rows[j].id
    ensures Listed(TenantNodes(f, rows, org, g), Tenant, id)
            == if TenantRow(id, org) in rows then g.wide + Of(g.tenants, id) else []
    decreases |rows|
  {
    if rows != [] {
      var prefix, t := rows[..|rows| - 1], rows[|rows| - 1];
      assert rows == prefix + [t];
      LastRow(prefix, t, TenantRow(id, org));
      TenantNodesAt(f, prefix, org, g, id);
      TenantStepAt(f, prefix, t, org, g, id);
    }
  }

  lemma TenantStep(f: Fleet, prefix: seq<TenantRow>, t: TenantRow, org: int, g: Sorted, scope: Scope, id: int)
    requires scope != Tenant
    ensures var grants := g.wide + Of(g.tenants, t.id);
            Listed(TenantNodes(f, prefix + [t], org, g), scope, id)
            == Listed(TenantNodes(f, prefix, org, g), scope, id)
               + if t.org == org then SiteGrants(SiteNodes(f, f.sites, org, t.id, g, grants), scope, id) else []
  {
    assert (prefix + [t])[..|prefix|] == prefix;
    var grants := g.wide + Of(g.tenants, t.id);
    var sites := SiteNodes(f, f.sites, org, t.id, g, grants);
    ListedSnoc(TenantNodes(f, prefix, org, g), TenantNode(t.id, grants, sites), scope, id);
  }

  /** What one tenant's branch lists for a target below it. */
  ghost predicate ListsBelow(f: Fleet, org: int, g: Sorted, scope: Scope, id: int, tenant: int, below: seq<Grant>) {
    forall t: TenantRow :: t.org == org ==>
      SiteGrants(SiteNodes(f, f.sites, org, t.id, g, g.wide + Of(g.tenants, t.id)), scope, id)
      == if t.id == tenant then below else []
  }

  lemma TenantStepBelow(
    f: Fleet, prefix: seq<TenantRow>, t: TenantRow, org: int, g: Sorted, scope: Scope, id: int, tenant: int,
    below: seq<Grant>)
    requires scope != Tenant && ListsBelow(f, org, g, scope, id, tenant, below)
    ensures Listed(TenantNodes(f, prefix + [t], org, g), scope, id)
            == Listed(TenantNodes(f, prefix, org, g), scope, id) + if t == TenantRow(tenant, org) then below else []
  {
    TenantStep(f, prefix, t, org, g, scope, id);
  }

  /** A target listed under one tenant only is listed once. */
  lemma {:induction false} TenantNodesBelow(
    f: Fleet, rows: seq<TenantRow>, org: int, g: Sorted, scope: Scope, id: int, tenant: int, below: seq<Grant>)
    requires scope != Tenant && ListsBelow(f, org, g, scope, id, tenant, below)
    requires forall i, j :: 0 <= i < j < |rows| ==> rows[i].id != rows[j].id
    ensures Listed(TenantNodes(f, rows, org, g), scope, id) == if TenantRow(tenant, org) in rows then below else []
    decreases |rows|
  {
    if rows != [] {
      var prefix, t := rows[..|rows| - 1], rows[|rows| - 1];
      assert rows == prefix + [t];
      LastRow(prefix, t, TenantRow(tenant, org));
      TenantNodesBelow(f, prefix, org, g, scope, id, tenant, below);
      TenantStepBelow(f, prefix, t, org, g, scope, id, tenant, below);
    }
  }

  lemma SiteHereExactly(f: Fleet, s: SiteRow, tenant: int)
    requires WellFormed(f) && s in f.sites
    ensures SiteRow(s.id, s.org, tenant) in f.sites <==> tenant == s.tenant
  {
    UniqueSite(f, s);
  }

  lemma SiteBelow(f: Fleet, org: int, g: Sorted, s: SiteRow)
    requires WellFormed(f) && s in f.sites && s.org == org
    ensures ListsBelow(f, org, g, Site, s.id, s.tenant, g.wide + Of(g.tenants, s.tenant) + Of(g.sites, s.id))
  {
    forall t: TenantRow | t.org == org
      ensures SiteGrants(SiteNodes(f, f.sites, org, t.id, g, g.wide + Of(g.tenants, t.id)), Site, s.id)
              == if t.id == s.tenant then g.wide + Of(g.tenants, s.tenant) + Of(g.sites, s.id) else []
    {
      SiteNodesAt(f, f.sites, org, t.id, g, g.wide + Of(g.tenants, t.id), s.id);
      SiteHereExactly(f, s, t.id);
    }
  }

  lemma DeviceBelow(f: Fleet, org: int, g: Sorted, d: DeviceRow, s: SiteRow)
    requires WellFormed(f) && d in f.devices && d.org == org
    requires s in f.sites && s.id == d.site && s.org == org
    ensures ListsBelow(f, org, g, Device, d.id, s.tenant,
                       g.wide + Of(g.tenants, s.tenant) + Of(g.sites, s.id) + Of(g.devices, d.id))
  {
    forall t: TenantRow | t.org == org
      ensures SiteGrants(SiteNodes(f, f.sites, org, t.id, g, g.wide + Of(g.tenants, t.id)), Device, d.id)
              == if t.id == s.tenant
                 then g.wide + Of(g.tenants, s.tenant) + Of(g.sites, s.id) + Of(g.devices, d.id) else []
    {
      SiteNodesDevice(f, f.sites, org, t.id, g, g.wide + Of(g.tenants, t.id), d);
      SiteHereExactly(f, s, t.id);
    }
  }

  lemma ListedSite(f: Fleet, org: int, g: Sorted, s: SiteRow)
    requires WellFormed(f) && s in f.sites && s.org == org
    ensures Listed(TenantNodes(f, f.tenants, org, g), Site, s.id)
            == g.wide + Of(g.tenants, s.tenant) + Of(g.sites, s.id)
  {
    SiteBelow(f, org, g, s);
    assert TenantRow(s.tenant, s.org) in f.tenants;
    TenantNodesBelow(f, f.tenants, org, g, Site, s.id, s.tenant, g.wide + Of(g.tenants, s.tenant) + Of(g.sites, s.id));
  }

  lemma ListedDevice(f: Fleet, org: int, g: Sorted, d: DeviceRow, s: SiteRow)
    requires WellFormed(f) && d in f.devices && d.org == org
    requires s in f.sites && s.id == d.site && s.org == org
    ensures Listed(TenantNodes(f, f.tenants, org, g), Device, d.id)
            == g.wide + Of(g.tenants, s.tenant) + Of(g.sites, s.id) + Of(g.devices, d.id)
  {
    DeviceBelow(f, org, g, d, s);
    assert TenantRow(s.tenant, s.org) in f.tenants;
    TenantNodesBelow(f, f.tenants, org, g, Device, d.id, s.tenant,
                     g.wide + Of(g.tenants, s.tenant) + Of(g.sites, s.id) + Of(g.devices, d.id));
  }

  lemma DeviceAncestors(f: Fleet, org: int, d: DeviceRow) returns (s: SiteRow)
    requires WellFormed(f) && d in f.devices && d.org == org
    ensures s in f.sites && s.id == d.site && s.org == org
    ensures Ancestors(f, org, Device, d.id) == (Some(s.tenant), Some(s.id))
  {
    FindDeviceRow(f.devices, d);
    s := SiteOfDevice(f, d);
    FindSiteRow(f.sites, s);
  }

  /** What the map lists for a target is exactly what each level adds, once each. */
  lemma ListedIsInherited(f: Fleet, org: int, g: Sorted, scope: Scope, id: int)
    requires WellFormed(f) && InFleet(f, org, scope, id)
    ensures var (tenant, site) := Ancestors(f, org, scope, id);
            Listed(TenantNodes(f, f.tenants, org, g), scope, id) == Inherited(f, g, scope, id, tenant, site)
  {
    match scope
    case Tenant =>
      var t :| t in f.tenants && t.id == id && t.org == org;
      assert t == TenantRow(id, org);
      TenantNodesAt(f, f.tenants, org, g, id);
    case Site =>
      var s :| s in f.sites && s.id == id && s.org == org;
      FindSiteRow(f.sites, s);
      ListedSite(f, org, g, s);
    case Device =>
      var d :| d in f.devices && d.id == id && d.org == org;
      var s := DeviceAncestors(f, org, d);
      ListedDevice(f, org, g, d, s);
  }

  // ---------------- the report, user by user ----------------

  lemma {:induction false} ForUserConcat(a: seq<Entry>, b: seq<Entry>, user: int)
    ensures ForUser(a + b, user) == ForUser(a, user) + ForUser(b, user)
    decreases |b|
  {
    if b == [] {
      assert a + b == a;
    } else {
      assert (a + b)[..|a + b| - 1] == a + b[..|b| - 1];
      ForUserConcat(a, b[..|b| - 1], user);
    }
  }

  lemma {:induction false} AdminForUser(users: seq<User>, org: int, u: User)
    requires UniqueUsers(users) && u.org == org
    ensures ForUser(AdminEntries(users, org), u.id)
            == if exists v :: v in users && v.id == u.id && v.org == org && v.isAdmin then [SUPER] else []
  {
    if users != [] {
      var prefix, last := users[..|users| - 1], users[|users| - 1];
      assert users == prefix + [last];
      AdminForUser(prefix, org, u);
      ForUserConcat([Entry(last.id, SUPER)], AdminEntries(prefix, org), u.id);
      assert [Entry(last.id, SUPER)][..0] == [];
      assert ForUser([Entry(last.id, SUPER)], u.id) == if last.id == u.id then [SUPER] else [];
      if last.id == u.id && last.org == org && last.isAdmin {
        assert forall v :: v in prefix ==> v.id != u.id;
      }
    }
  }

  function OfUser(p: Choice, user: int): Choice {
    (a: Assignment) => p(a) && a.user == user
  }

  lemma {:induction false} EntriesForUser(assignments: seq<Assignment>, p: Choice, user: int)
    ensures ForUser(EntriesWhere(assignments, p), user) == GrantsWhere(assignments, OfUser(p, user))
  {
    if assignments != [] {
      var prefix, last := assignments[..|assignments| - 1], assignments[|assignments| - 1];
      EntriesForUser(prefix, p, user);
      var before := EntriesWhere(prefix, p);
      if p(last) {
        assert (before + [Entry(last.user, GrantOf(last))])[..|before|] == before;
      }
    }
  }

  /** Grants chosen by a choice that splits into four exclusive ones are, as a
      multiset, the sum of the four. */
  lemma {:induction false} SplitFour(
    assignments: seq<Assignment>, all: Choice, p: Choice, q: Choice, r: Choice, s: Choice)
    requires forall a :: a in assignments ==> (all(a) <==> p(a) || q(a) || r(a) || s(a))
    requires forall a :: a in assignments ==>
               !(p(a) && (q(a) || r(a) || s(a))) && !(q(a) && (r(a) || s(a))) && !(r(a) && s(a))
    ensures multiset(GrantsWhere(assignments, all))
            == multiset(GrantsWhere(assignments, p)) + multiset(GrantsWhere(assignments, q))
               + multiset(GrantsWhere(assignments, r)) + multiset(GrantsWhere(assignments, s))
  {
    if assignments != [] {
      var prefix, last := assignments[..|assignments| - 1], assignments[|assignments| - 1];
      assert assignments == prefix + [last];
      SplitFour(prefix, all, p, q, r, s);
    }
  }

  lemma {:induction false} NoneChosen(assignments: seq<Assignment>, p: Choice)
    requires forall a :: a in assignments ==> !p(a)
    ensures GrantsWhere(assignments, p) == []
  {
    if assignments != [] {
      assert assignments[|assignments| - 1] in assignments;
      NoneChosen(assignments[..|assignments| - 1], p);
    }
  }

  // ---------------- duality ----------------

  /** A user's assignments at one exact scope, when there is such a scope. */
  function AtSome(user: int, scope: Scope, id: Option<int>): Choice {
    (a: Assignment) => id.Some? && a.user == user && a.scope == scope && a.scopeId == id
  }

  lemma {:induction false} SameChoice(assignments: seq<Assignment>, p: Choice, q: Choice)
    requires forall a :: a in assignments ==> (p(a) <==> q(a))
    ensures GrantsWhere(assignments, p) == GrantsWhere(assignments, q)
  {
    if assignments != [] {
      assert assignments[|assignments| - 1] in assignments;
      SameChoice(assignments[..|assignments| - 1], p, q);
    }
  }

  lemma GrantsAtSome(
    assignments: seq<Assignment>, user: int, scope: Scope, id: Option<int>, lists: map<int, seq<Grant>>)
    requires scope != Organization && Holds(lists, assignments, user, scope)
    ensures GrantsWhere(assignments, AtSome(user, scope, id)) == if id.Some? then Of(lists, id.value) else []
  {
    if id.Some? {
      SameChoice(assignments, AtSome(user, scope, id), At(user, scope, id));
      assert Of(lists, id.value) == GrantsAt(assignments, user, scope, id.value);
    } else {
      NoneChosen(assignments, AtSome(user, scope, id));
    }
  }

  /** A covering assignment is held at the organization, the tenant, the site or
      the device, and at one of them only. */
  lemma CoversSplit(f: Fleet, org: int, u: int, scope: Scope, id: int, a: Assignment)
    requires scope != Organization && (a.scope != Organization ==> a.scopeId.Some?)
    ensures var (tenant, site) := Ancestors(f, org, scope, id);
            a.user == u && Covers(a, scope, id, tenant, site) <==>
            || At(u, Organization, None)(a) || AtSome(u, Tenant, tenant)(a) || AtSome(u, Site, site)(a)
            || AtSome(u, Device, if scope == Device then Some(id) else None)(a)
  {
    var (tenant, site) := Ancestors(f, org, scope, id);
    assert scope == Tenant ==> tenant == Some(id);
    assert scope == Site ==> site == Some(id);
  }

  function DeviceOf(scope: Scope, id: int): Option<int> {
    if scope == Device then Some(id) else None
  }

  /** The user's assignments that cover a target, by the scope each is held at. */
  lemma {:induction false} CoveringByScope(
    f: Fleet, users: seq<User>, assignments: seq<Assignment>, org: int, u: User, scope: Scope, id: int)
    requires Scoped(assignments) && u in users && u.org == org && scope != Organization
    ensures var (tenant, site) := Ancestors(f, org, scope, id);
            multiset(GrantsWhere(assignments, OfUser(Reaching(f, users, org, scope, id), u.id)))
            == multiset(GrantsWhere(assignments, At(u.id, Organization, None)))
               + multiset(GrantsWhere(assignments, AtSome(u.id, Tenant, tenant)))
               + multiset(GrantsWhere(assignments, AtSome(u.id, Site, site)))
               + multiset(GrantsWhere(assignments, AtSome(u.id, Device, DeviceOf(scope, id))))
  {
    var (tenant, site) := Ancestors(f, org, scope, id);
    var all := OfUser(Reaching(f, users, org, scope, id), u.id);
    var p, q := At(u.id, Organization, None), AtSome(u.id, Tenant, tenant);
    var r, s := AtSome(u.id, Site, site), AtSome(u.id, Device, DeviceOf(scope, id));
    assert InOrg(users, u.id, org);
    forall a | a in assignments ensures all(a) <==> p(a) || q(a) || r(a) || s(a) {
      CoversSplit(f, org, u.id, scope, id, a);
    }
    SplitFour(assignments, all, p, q, r, s);
  }

  lemma ConcatMultiset(a: seq<Grant>, b: seq<Grant>, c: seq<Grant>, d: seq<Grant>, e: seq<Grant>)
    ensures multiset(a + b + c + d + e) == multiset(a) + (multiset(b) + multiset(c) + multiset(d) + multiset(e))
  {
  }

  lemma CoveringGrants(
    f: Fleet, users: seq<User>, assignments: seq<Assignment>, org: int, u: User, scope: Scope, id: int, g: Sorted)
    requires Scoped(assignments) && u in users && u.org == org && scope != Organization
    requires Sorts(g, assignments, u)
    ensures var (tenant, site) := Ancestors(f, org, scope, id);
            multiset(Inherited(f, g, scope, id, tenant, site))
            == multiset(if u.isAdmin then [SUPER] else [])
               + multiset(GrantsWhere(assignments, OfUser(Reaching(f, users, org, scope, id), u.id)))
  {
    var (tenant, site) := Ancestors(f, org, scope, id);
    CoveringByScope(f, users, assignments, org, u, scope, id);
    GrantsAtSome(assignments, u.id, Tenant, tenant, g.tenants);
    GrantsAtSome(assignments, u.id, Site, site, g.sites);
    GrantsAtSome(assignments, u.id, Device, DeviceOf(scope, id), g.devices);
    ConcatMultiset(if u.isAdmin then [SUPER] else [], GrantsWhere(assignments, At(u.id, Organization, None)),
                   GrantsWhere(assignments, AtSome(u.id, Tenant, tenant)),
                   GrantsWhere(assignments, AtSome(u.id, Site, site)),
                   GrantsWhere(assignments, AtSome(u.id, Device, DeviceOf(scope, id))));
  }

  /** For every user and every tenant, site or device of the organization, the
      reasons the report lists for the user at the target and the grants the
      user's map lists for the target are the same multiset. */
  lemma ReportsAreDual(
    f: Fleet, users: seq<User>, assignments: seq<Assignment>, org: int, u: User, scope: Scope, id: int,
    nodes: seq<TenantNode>)
    requires WellFormed(f) && UniqueUsers(users) && Scoped(assignments)
    requires u in users && u.org == org && InFleet(f, org, scope, id)
    requires IsAccessMap(f, assignments, org, u, nodes)
    ensures multiset(ForUser(Who(f, users, assignments, org, scope, id), u.id)) == multiset(Listed(nodes, scope, id))
  {
    var g :| Sorts(g, assignments, u) && nodes == TenantNodes(f, f.tenants, org, g);
    var p := Reaching(f, users, org, scope, id);
    ListedIsInherited(f, org, g, scope, id);
    CoveringGrants(f, users, assignments, org, u, scope, id, g);
    ForUserConcat(AdminEntries(users, org), EntriesWhere(assignments, p), u.id);
    EntriesForUser(assignments, p, u.id);
    AdminForUser(users, org, u);
    OneRowPerUser(users, u);
  }

  lemma OneRowPerUser(users: seq<User>, u: User)
    requires UniqueUsers(users) && u in users
    ensures forall v :: v in users && v.id == u.id ==> v == u
  {
  }

  // ---------------- the check is inside the report ----------------

  /** The report's covering test and the check's scope test are the same relation. */
  lemma CoversIsScopeMatch(f: Fleet, org: int, scope: Scope, id: int, a: Assignment)
    requires WellFormed(f) && InFleet(f, org, scope, id)
    requires a.scope != Organization ==> a.scopeId.Some?
    ensures var (tenant, site) := Ancestors(f, org, scope, id);
            Covers(a, scope, id, tenant, site) <==> ScopeMatches(a, Resolve(f, PlaceOf(scope, id)))
  {
    match scope
    case Tenant =>
    case Site =>
      var s :| s in f.sites && s.id == id && s.org == org;
      FindSiteRow(f.sites, s);
    case Device =>
      var d :| d in f.devices && d.id == id && d.org == org;
      var s := DeviceAncestors(f, org, d);
      DeviceResolves(f, d, s);
  }

  lemma DeviceResolves(f: Fleet, d: DeviceRow, s: SiteRow)
    requires WellFormed(f) && d in f.devices && s in f.sites && s.id == d.site
    ensures Resolve(f, PlaceOf(Device, d.id)) == Place(Some(d.id), Some(s.id), Some(s.tenant))
  {
    FindDeviceRow(f.devices, d);
    FindSiteRow(f.sites, s);
  }

  ghost predicate Named(entries: seq<Entry>, user: int) {
    ForUser(entries, user) != []
  }

  lemma {:induction false} SomeChosen(assignments: seq<Assignment>, p: Choice, i: nat)
    requires i < |assignments| && p(assignments[i])
    ensures GrantsWhere(assignments, p) != []
  {
    if i < |assignments| - 1 {
      SomeChosen(assignments[..|assignments| - 1], p, i);
    }
  }

  /** A user is named exactly when an administrator or held by a covering assignment. */
  lemma NamedExactly(f: Fleet, users: seq<User>, assignments: seq<Assignment>, org: int, u: User, scope: Scope, id: int)
    requires WellFormed(f) && UniqueUsers(users) && Scoped(assignments)
    requires u in users && u.org == org && InFleet(f, org, scope, id)
    ensures Named(Who(f, users, assignments, org, scope, id), u.id) <==>
            || u.isAdmin
            || exists i :: 0 <= i < |assignments| && assignments[i].user == u.id
                           && ScopeMatches(assignments[i], Resolve(f, PlaceOf(scope, id)))
  {
    var p := Reaching(f, users, org, scope, id);
    ForUserConcat(AdminEntries(users, org), EntriesWhere(assignments, p), u.id);
    EntriesForUser(assignments, p, u.id);
    AdminForUser(users, org, u);
    OneRowPerUser(users, u);
    assert InOrg(users, u.id, org);
    var q := OfUser(p, u.id);
    forall i | 0 <= i < |assignments|
      ensures q(assignments[i]) <==> assignments[i].user == u.id
                                     && ScopeMatches(assignments[i], Resolve(f, PlaceOf(scope, id)))
    {
      CoversIsScopeMatch(f, org, scope, id, assignments[i]);
    }
    if i :| 0 <= i < |assignments| && q(assignments[i]) {
      SomeChosen(assignments, q, i);
    } else {
      NoneChosen(assignments, q);
    }
  }

  /** Everyone the check admits at a target is named for it. The converse holds
      when every assignment of the user is unexpired and its role not empty,
      which is what the report does not look at. */
  lemma CheckIsInsideReport(
    f: Fleet, users: seq<User>, assignments: seq<Assignment>, org: int, u: User, scope: Scope, id: int, now: int)
    requires WellFormed(f) && UniqueUsers(users) && Scoped(assignments)
    requires u in users && u.org == org && InFleet(f, org, scope, id)
    ensures Reaches(f, assignments, u, PlaceOf(scope, id), now) ==>
              Named(Who(f, users, assignments, org, scope, id), u.id)
    ensures Named(Who(f, users, assignments, org, scope, id), u.id)
            && (forall i :: 0 <= i < |assignments| && assignments[i].user == u.id ==> Counts(f, assignments[i], u, now))
            ==> Reaches(f, assignments, u, PlaceOf(scope, id), now)
  {
    NamedExactly(f, users, assignments, org, u, scope, id);
    ReachesByAssignment(f, assignments, u, PlaceOf(scope, id), now);
  }

  // ---------------- the check is inside the effective permissions ----------------

  ghost predicate Lists(permissions: set<Permission>, section: string, action: string) {
    exists p :: p in permissions && (p.section == section || p.section == "*")
        && (p.action == action || p.action == "*")
  }

  /** The listed pairs cover an action exactly when the user is an administrator or
      some role assigned to them grants it, at whatever scope and expired or not. */
  lemma PermissionsExactly(f: Fleet, assignments: seq<Assignment>, u: User, section: string, action: string)
    ensures Lists(Effective(f, assignments, u), section, action) <==>
            || u.isAdmin
            || exists a :: a in assignments && a.user == u.id
                           && RoleGrants(PermissionsOf(f.roles, a.role), section, action)
  {
    if u.isAdmin {
      assert EVERYTHING in Effective(f, assignments, u);
    } else if a :| a in assignments && a.user == u.id && RoleGrants(PermissionsOf(f.roles, a.role), section, action) {
      var permissions := PermissionsOf(f.roles, a.role);
      var i :| 0 <= i < |permissions| && (permissions[i].section == section || permissions[i].section == "*")
               && (permissions[i].action == action || permissions[i].action == "*");
      assert permissions[i] in PermissionsOf(f.roles, a.role);
      CarriedIsListed(f, assignments, u, a, permissions[i]);
    } else if Lists(Effective(f, assignments, u), section, action) {
      ListedHasRole(f, assignments, u, section, action);
    }
  }

  lemma CarriedIsListed(f: Fleet, assignments: seq<Assignment>, u: User, a: Assignment, p: Permission)
    requires a in assignments && a.user == u.id && p in PermissionsOf(f.roles, a.role)
    ensures p in Effective(f, assignments, u)
  {
    assert p in RolePermissions(f, assignments, u.id);
  }

  lemma ListedHasRole(f: Fleet, assignments: seq<Assignment>, u: User, section: string, action: string)
    requires Lists(RolePermissions(f, assignments, u.id), section, action)
    ensures exists a :: a in assignments && a.user == u.id
                        && RoleGrants(PermissionsOf(f.roles, a.role), section, action)
  {
    var p :| p in RolePermissions(f, assignments, u.id) && (p.section == section || p.section == "*")
             && (p.action == action || p.action == "*");
    var a :| a in assignments && a.user == u.id && p in PermissionsOf(f.roles, a.role);
    var permissions := PermissionsOf(f.roles, a.role);
    var i :| 0 <= i < |permissions| && permissions[i] == p;
    assert RoleGrants(permissions, section, action);
  }

  /** Whatever the check allows a user anywhere, at any time, is covered by the
      permissions their map lists. */
  lemma CheckIsInsidePermissions(
    f: Fleet, assignments: seq<Assignment>, u: User, section: string, action: string, p: Place, now: int)
    requires Can(f, assignments, u, section, action, p, now)
    ensures Lists(Effective(f, assignments, u), section, action)
  {
    PermissionsExactly(f, assignments, u, section, action);
  }

  // ---------------- nothing else is reported ----------------

  /** The entry says which role is held, at which scope and where. */
  ghost predicate EntryFor(e: Entry, a: Assignment) {
    e.user == a.user && e.grant.role == Some(a.role) && e.grant.via == Some(a.scope) && e.grant.viaId == a.scopeId
  }

  lemma {:induction false} EntriesAreChosen(assignments: seq<Assignment>, p: Choice, e: Entry)
    ensures e in EntriesWhere(assignments, p) <==> exists a :: a in assignments && p(a) && EntryFor(e, a)
  {
    if assignments != [] {
      var prefix := assignments[..|assignments| - 1];
      assert assignments == prefix + [assignments[|assignments| - 1]];
      EntriesAreChosen(prefix, p, e);
    }
  }

  lemma {:induction false} AdminsAreAdmins(users: seq<User>, org: int, e: Entry)
    ensures e in AdminEntries(users, org) <==>
            exists u :: u in users && u.org == org && u.isAdmin && e == Entry(u.id, SUPER)
  {
    if users != [] {
      var prefix := users[..|users| - 1];
      assert users == prefix + [users[|users| - 1]];
      AdminsAreAdmins(prefix, org, e);
    }
  }

  /** An entry is in the report exactly when it is an administrator's of the
      organization, or says of a user of the organization what a covering assignment
      of theirs says. */
  lemma ReportExactly(
    f: Fleet, users: seq<User>, assignments: seq<Assignment>, org: int, scope: Scope, id: int, e: Entry)
    requires WellFormed(f) && Scoped(assignments) && InFleet(f, org, scope, id)
    ensures e in Who(f, users, assignments, org, scope, id) <==>
            || (exists u :: u in users && u.org == org && u.isAdmin && e == Entry(u.id, SUPER))
            || (exists a, u :: a in assignments && u in users && u.id == a.user && u.org == org && EntryFor(e, a)
                               && ScopeMatches(a, Resolve(f, PlaceOf(scope, id))))
  {
    var p := Reaching(f, users, org, scope, id);
    AdminsAreAdmins(users, org, e);
    EntriesAreChosen(assignments, p, e);
    forall a | a in assignments
      ensures p(a) <==> (exists u :: u in users && u.id == a.user && u.org == org)
                        && ScopeMatches(a, Resolve(f, PlaceOf(scope, id)))
    {
      CoversIsScopeMatch(f, org, scope, id, a);
      InOrgExactly(users, a.user, org);
    }
  }

  lemma InOrgExactly(users: seq<User>, id: int, org: int)
    ensures InOrg(users, id, org) <==> exists u :: u in users && u.id == id && u.org == org
  {
  }

  /** Every device node carries a grant; every site and tenant node carries one or
      has something below it that does. */
  ghost predicate NoEmptyDevices(nodes: seq<DeviceNode>) {
    forall n :: n in nodes ==> n.grants != []
  }

  ghost predicate NoEmptySites(nodes: seq<SiteNode>) {
    forall n :: n in nodes ==> (n.grants != [] || n.devices != []) && NoEmptyDevices(n.devices)
  }

  ghost predicate NoEmptyTenants(nodes: seq<TenantNode>) {
    forall n :: n in nodes ==> (n.grants != [] || n.sites != []) && NoEmptySites(n.sites)
  }

  lemma {:induction false} DevicesNotEmpty(
    rows: seq<DeviceRow>, org: int, site: int, own: map<int, seq<Grant>>, inherited: seq<Grant>)
    ensures NoEmptyDevices(DeviceNodes(rows, org, site, own, inherited))
  {
    if rows != [] {
      DevicesNotEmpty(rows[..|rows| - 1], org, site, own, inherited);
    }
  }

  lemma {:induction false} SitesNotEmpty(
    f: Fleet, rows: seq<SiteRow>, org: int, tenant: int, g: Sorted, inherited: seq<Grant>)
    ensures NoEmptySites(SiteNodes(f, rows, org, tenant, g, inherited))
  {
    if rows != [] {
      var s := rows[|rows| - 1];
      SitesNotEmpty(f, rows[..|rows| - 1], org, tenant, g, inherited);
      DevicesNotEmpty(f.devices, org, s.id, g.devices, inherited + Of(g.sites, s.id));
    }
  }

  lemma {:induction false} TenantsNotEmpty(f: Fleet, rows: seq<TenantRow>, org: int, g: Sorted)
    ensures NoEmptyTenants(TenantNodes(f, rows, org, g))
  {
    if rows != [] {
      var t := rows[|rows| - 1];
      TenantsNotEmpty(f, rows[..|rows| - 1], org, g);
      SitesNotEmpty(f, f.sites, org, t.id, g, g.wide + Of(g.tenants, t.id));
    }
  }
}
