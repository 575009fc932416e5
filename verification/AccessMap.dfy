/** The two access reports: who can reach a target, and what a user can reach. */
module AccessMap {
  import opened Options
  import opened Rbac

  /** One reason for access: a role held at a scope. Administrators have one with
      neither. */
  datatype Grant = Grant(role: Option<int>, via: Option<Scope>, viaId: Option<int>)

  const SUPER := Grant(None, None, None)

  datatype Entry = Entry(user: int, grant: Grant)

  function GrantOf(a: Assignment): Grant {
    Grant(Some(a.role), Some(a.scope), a.scopeId)
  }

  type Choice = Assignment -> bool

  function GrantsWhere(assignments: seq<Assignment>, p: Choice): seq<Grant> {
    if assignments == [] then []
    else
      var before, last := GrantsWhere(assignments[..|assignments| - 1], p), assignments[|assignments| - 1];
      if p(last) then before + [GrantOf(last)] else before
  }

  // ---------------- who has access ----------------

  /** The target's ancestors: its tenant and its site, as far as they exist. */
  function Ancestors(f: Fleet, org: int, scope: Scope, id: int): (Option<int>, Option<int>) {
    match scope
    case Organization => (None, None)
    case Tenant => (Some(id), None)
    case Site =>
      var s := FindSite(f.sites, id);
      (if s.Some? && s.value.org == org then Some(s.value.tenant) else None, Some(id))
    case Device =>
      var d := FindDevice(f.devices, id);
      if d.None? || d.value.org != org then (None, None)
      else
        var s := FindSite(f.sites, d.value.site);
        if s.None? then (None, None) else (Some(s.value.tenant), Some(s.value.id))
  }

  predicate Covers(a: Assignment, scope: Scope, id: int, tenant: Option<int>, site: Option<int>) {
    match a.scope
    case Organization => true
    case Tenant => a.scopeId == tenant || (scope == Tenant && a.scopeId == Some(id))
    case Site => a.scopeId == site || (scope == Site && a.scopeId == Some(id))
    case Device => scope == Device && a.scopeId == Some(id)
  }

  predicate InOrg(users: seq<User>, id: int, org: int) {
    exists i :: 0 <= i < |users| && users[i].id == id && users[i].org == org
  }

  function EntriesWhere(assignments: seq<Assignment>, p: Choice): seq<Entry> {
    if assignments == [] then []
    else
      var before, last := EntriesWhere(assignments[..|assignments| - 1], p), assignments[|assignments| - 1];
      if p(last) then before + [Entry(last.user, GrantOf(last))] else before
  }

  /** Administrators of the organization, each inserted in front of the last. */
  function AdminEntries(users: seq<User>, org: int): seq<Entry> {
    if users == [] then []
    else
      var before, last := AdminEntries(users[..|users| - 1], org), users[|users| - 1];
      if last.org == org && last.isAdmin then [Entry(last.id, SUPER)] + before else before
  }

  function Reaching(f: Fleet, users: seq<User>, org: int, scope: Scope, id: int): Choice {
    var ancestors := Ancestors(f, org, scope, id);
    (a: Assignment) => InOrg(users, a.user, org) && Covers(a, scope, id, ancestors.0, ancestors.1)
  }

  function Who(f: Fleet, users: seq<User>, assignments: seq<Assignment>, org: int, scope: Scope, id: int): seq<Entry> {
    AdminEntries(users, org) + EntriesWhere(assignments, Reaching(f, users, org, scope, id))
  }

  method WhoHasAccess(f: Fleet, users: seq<User>, assignments: seq<Assignment>, org: int, scope: Scope, id: int)
    returns (entries: seq<Entry>)
    ensures entries == Who(f, users, assignments, org, scope, id)
  {
    var (tenant, site) := Ancestors(f, org, scope, id);
    entries := [];
    ghost var p := Reaching(f, users, org, scope, id);
    for i := 0 to |assignments|
      invariant entries == EntriesWhere(assignments[..i], p)
    {
      var a := assignments[i];
      assert assignments[..i + 1][..i] == assignments[..i];
      if Covers(a, scope, id, tenant, site) && InOrg(users, a.user, org) {
        entries := entries + [Entry(a.user, GrantOf(a))];
      }
    }
    assert assignments[..|assignments|] == assignments;
    ghost var listed := entries;
    for i := 0 to |users|
      invariant entries == AdminEntries(users[..i], org) + listed
    {
      assert users[..i + 1][..i] == users[..i];
      if users[i].org == org && users[i].isAdmin {
        entries := [Entry(users[i].id, SUPER)] + entries;
      }
    }
    assert users[..|users|] == users;
  }

  // ---------------- what a user can reach ----------------

  datatype DeviceNode = DeviceNode(id: int, grants: seq<Grant>)
  datatype SiteNode = SiteNode(id: int, grants: seq<Grant>, devices: seq<DeviceNode>)
  datatype TenantNode = TenantNode(id: int, grants: seq<Grant>, sites: seq<SiteNode>)

  /** A user's grants at one exact scope. */
  function At(user: int, scope: Scope, id: Option<int>): Choice {
    (a: Assignment) => a.user == user && a.scope == scope && (scope == Organization || a.scopeId == id)
  }

  function GrantsAt(assignments: seq<Assignment>, user: int, scope: Scope, id: int): seq<Grant> {
    GrantsWhere(assignments, At(user, scope, Some(id)))
  }

  /** What every node starts with: the administrator's grant and the grants at
      organization scope. */
  function Wide(assignments: seq<Assignment>, user: User): seq<Grant> {
    (if user.isAdmin then [SUPER] else []) + GrantsWhere(assignments, At(user.id, Organization, None))
  }

  function DeviceNodes(
    rows: seq<DeviceRow>, org: int, site: int, own: map<int, seq<Grant>>, inherited: seq<Grant>): seq<DeviceNode>
  {
    if rows == [] then []
    else
      var before, d := DeviceNodes(rows[..|rows| - 1], org, site, own, inherited), rows[|rows| - 1];
      var grants := inherited + Of(own, d.id);
      if d.org == org && d.site == site && grants != [] then before + [DeviceNode(d.id, grants)] else before
  }

  function Of(grants: map<int, seq<Grant>>, id: int): seq<Grant> {
    if id in grants then grants[id] else []
  }

  /** A user's grants sorted by the scope they are held at. */
  datatype Sorted = Sorted(wide: seq<Grant>, tenants: map<int, seq<Grant>>, sites: map<int, seq<Grant>>,
                           devices: map<int, seq<Grant>>)

  function SiteNodes(
    f: Fleet, rows: seq<SiteRow>, org: int, tenant: int, g: Sorted, inherited: seq<Grant>): seq<SiteNode>
  {
    if rows == [] then []
    else
      var before, s := SiteNodes(f, rows[..|rows| - 1], org, tenant, g, inherited), rows[|rows| - 1];
      var grants := inherited + Of(g.sites, s.id);
      var devices := DeviceNodes(f.devices, org, s.id, g.devices, grants);
      if s.org == org && s.tenant == tenant && (grants != [] || devices != [])
      then before + [SiteNode(s.id, grants, devices)] else before
  }

  function TenantNodes(f: Fleet, rows: seq<TenantRow>, org: int, g: Sorted): seq<TenantNode> {
    if rows == [] then []
    else
      var before, t := TenantNodes(f, rows[..|rows| - 1], org, g), rows[|rows| - 1];
      var grants := g.wide + Of(g.tenants, t.id);
      var sites := SiteNodes(f, f.sites, org, t.id, g, grants);
      if t.org == org && (grants != [] || sites != []) then before + [TenantNode(t.id, grants, sites)] else before
  }

  /** The dictionaries of grants hold, for each id, the user's grants there. */
  ghost predicate Sorts(g: Sorted, assignments: seq<Assignment>, user: User) {
    && g.wide == Wide(assignments, user)
    && Holds(g.tenants, assignments, user.id, Tenant)
    && Holds(g.sites, assignments, user.id, Site)
    && Holds(g.devices, assignments, user.id, Device)
  }

  lemma GrantsNext(assignments: seq<Assignment>, a: Assignment, p: Choice)
    ensures GrantsWhere(assignments + [a], p)
            == if p(a) then GrantsWhere(assignments, p) + [GrantOf(a)] else GrantsWhere(assignments, p)
  {
    assert (assignments + [a])[..|assignments|] == assignments;
  }

  /** Append one grant to the list its scope belongs to. */
  function Filed(g: Sorted, a: Assignment): Sorted {
    if a.scope == Organization then g.(wide := g.wide + [GrantOf(a)])
    else if a.scopeId.None? then g
    else
      var id := a.scopeId.value;
      match a.scope
      case Tenant => g.(tenants := g.tenants[id := Of(g.tenants, id) + [GrantOf(a)]])
      case Site => g.(sites := g.sites[id := Of(g.sites, id) + [GrantOf(a)]])
      case _ => g.(devices := g.devices[id := Of(g.devices, id) + [GrantOf(a)]])
  }

  /** A dictionary of lists, after one grant is filed under its scope id. */
  ghost predicate Holds(lists: map<int, seq<Grant>>, assignments: seq<Assignment>, user: int, scope: Scope) {
    forall id :: Of(lists, id) == GrantsAt(assignments, user, scope, id)
  }

  lemma HoldsNext(lists: map<int, seq<Grant>>, before: seq<Assignment>, a: Assignment, user: int, scope: Scope)
    requires Holds(lists, before, user, scope) && scope != Organization
    ensures a.user == user && a.scope == scope && a.scopeId.Some? ==>
              Holds(lists[a.scopeId.value := Of(lists, a.scopeId.value) + [GrantOf(a)]], before + [a], user, scope)
    ensures !(a.user == user && a.scope == scope && a.scopeId.Some?) ==> Holds(lists, before + [a], user, scope)
  {
    forall id ensures GrantsAt(before + [a], user, scope, id)
        == if a.user == user && a.scope == scope && a.scopeId == Some(id)
           then GrantsAt(before, user, scope, id) + [GrantOf(a)] else GrantsAt(before, user, scope, id)
    {
      GrantsNext(before, a, At(user, scope, Some(id)));
    }
  }

  lemma FiledSorts(g: Sorted, before: seq<Assignment>, a: Assignment, user: User)
    requires Sorts(g, before, user)
    ensures Sorts(if a.user == user.id then Filed(g, a) else g, before + [a], user)
  {
    GrantsNext(before, a, At(user.id, Organization, None));
    HoldsNext(g.tenants, before, a, user.id, Tenant);
    HoldsNext(g.sites, before, a, user.id, Site);
    HoldsNext(g.devices, before, a, user.id, Device);
  }

  lemma FiledNext(g: Sorted, assignments: seq<Assignment>, i: nat, user: User)
    requires i < |assignments| && Sorts(g, assignments[..i], user)
    ensures assignments[i].user == user.id ==> Sorts(Filed(g, assignments[i]), assignments[..i + 1], user)
    ensures assignments[i].user != user.id ==> Sorts(g, assignments[..i + 1], user)
  {
    assert assignments[..i + 1] == assignments[..i] + [assignments[i]];
    FiledSorts(g, assignments[..i], assignments[i], user);
  }

  method SortGrants(assignments: seq<Assignment>, user: User) returns (g: Sorted)
    ensures Sorts(g, assignments, user)
  {
    g := Sorted(if user.isAdmin then [SUPER] else [], map[], map[], map[]);
    for i := 0 to |assignments|
      invariant Sorts(g, assignments[..i], user)
    {
      var a := assignments[i];
      FiledNext(g, assignments, i, user);
      if a.user == user.id {
        g := Filed(g, a);
      }
    }
    assert assignments[..|assignments|] == assignments;
  }

  method BuildDevices(f: Fleet, org: int, site: int, g: Sorted, inherited: seq<Grant>) returns (nodes: seq<DeviceNode>)
    ensures nodes == DeviceNodes(f.devices, org, site, g.devices, inherited)
  {
    nodes := [];
    for i := 0 to |f.devices|
      invariant nodes == DeviceNodes(f.devices[..i], org, site, g.devices, inherited)
    {
      var d := f.devices[i];
      assert f.devices[..i + 1][..i] == f.devices[..i];
      if d.org == org && d.site == site {
        var grants := inherited + Of(g.devices, d.id);
        if grants != [] {
          nodes := nodes + [DeviceNode(d.id, grants)];
        }
      }
    }
    assert f.devices[..|f.devices|] == f.devices;
  }

  method BuildSites(f: Fleet, org: int, tenant: int, g: Sorted, inherited: seq<Grant>) returns (nodes: seq<SiteNode>)
    ensures nodes == SiteNodes(f, f.sites, org, tenant, g, inherited)
  {
    nodes := [];
    for i := 0 to |f.sites|
      invariant nodes == SiteNodes(f, f.sites[..i], org, tenant, g, inherited)
    {
      var s := f.sites[i];
      assert f.sites[..i + 1][..i] == f.sites[..i];
      if s.org == org && s.tenant == tenant {
        var grants := inherited + Of(g.sites, s.id);
        var devices := BuildDevices(f, org, s.id, g, grants);
        if grants != [] || devices != [] {
          nodes := nodes + [SiteNode(s.id, grants, devices)];
        }
      }
    }
    assert f.sites[..|f.sites|] == f.sites;
  }

  method BuildTenants(f: Fleet, org: int, g: Sorted) returns (nodes: seq<TenantNode>)
    ensures nodes == TenantNodes(f, f.tenants, org, g)
  {
    nodes := [];
    for i := 0 to |f.tenants|
      invariant nodes == TenantNodes(f, f.tenants[..i], org, g)
    {
      var t := f.tenants[i];
      assert f.tenants[..i + 1][..i] == f.tenants[..i];
      if t.org == org {
        var grants := g.wide + Of(g.tenants, t.id);
        var sites := BuildSites(f, org, t.id, g, grants);
        if grants != [] || sites != [] {
          nodes := nodes + [TenantNode(t.id, grants, sites)];
        }
      }
    }
    assert f.tenants[..|f.tenants|] == f.tenants;
  }

  // ---------------- effective permissions ----------------

  const EVERYTHING := Permission("*", "*")

  /** The pairs carried by any role assigned to a user. */
  function RolePermissions(f: Fleet, assignments: seq<Assignment>, user: int): set<Permission> {
    set a, p | a in assignments && a.user == user && p in PermissionsOf(f.roles, a.role) :: p
  }

  function Effective(f: Fleet, assignments: seq<Assignment>, user: User): set<Permission> {
    (if user.isAdmin then {EVERYTHING} else {}) + RolePermissions(f, assignments, user.id)
  }

  method AddAll(into: set<Permission>, permissions: seq<Permission>) returns (out: set<Permission>)
    ensures out == into + set p | p in permissions
  {
    out := into;
    for i := 0 to |permissions|
      invariant out == into + set p | p in permissions[..i]
    {
      assert permissions[..i + 1] == permissions[..i] + [permissions[i]];
      out := out + {permissions[i]};
    }
    assert permissions[..|permissions|] == permissions;
  }

  lemma RolePermissionsNext(f: Fleet, before: seq<Assignment>, a: Assignment, user: int)
    ensures RolePermissions(f, before + [a], user)
            == RolePermissions(f, before, user)
               + if a.user == user then (set p | p in PermissionsOf(f.roles, a.role)) else {}
  {
    assert a in before + [a];
  }

  method CollectPermissions(f: Fleet, assignments: seq<Assignment>, user: User) returns (permissions: set<Permission>)
    ensures permissions == Effective(f, assignments, user)
  {
    permissions := if user.isAdmin then {EVERYTHING} else {};
    for i := 0 to |assignments|
      invariant permissions == Effective(f, assignments[..i], user)
    {
      var a := assignments[i];
      assert assignments[..i + 1] == assignments[..i] + [a];
      RolePermissionsNext(f, assignments[..i], a, user.id);
      if a.user == user.id {
        permissions := AddAll(permissions, PermissionsOf(f.roles, a.role));
      }
    }
    assert assignments[..|assignments|] == assignments;
  }

  // ---------------- the whole answer ----------------

  datatype UserMap = UserMap(tenants: seq<TenantNode>, permissions: set<Permission>)

  function FindUser(users: seq<User>, id: int, org: int): (u: Option<User>)
    ensures u.Some? ==> u.value in users && u.value.id == id && u.value.org == org
    ensures u.None? ==> forall v :: v in users ==> !(v.id == id && v.org == org)
  {
    if users == [] then None
    else if users[0].id == id && users[0].org == org then Some(users[0])
    else FindUser(users[1..], id, org)
  }

  /** The map of a user, empty for one who is not of the organization. */
  method UserAccessMap(f: Fleet, users: seq<User>, assignments: seq<Assignment>, org: int, id: int) returns (m: UserMap)
    ensures FindUser(users, id, org).None? ==> m == UserMap([], {})
    ensures FindUser(users, id, org).Some? ==>
              var user := FindUser(users, id, org).value;
              && (exists g :: Sorts(g, assignments, user) && m.tenants == TenantNodes(f, f.tenants, org, g))
              && m.permissions == Effective(f, assignments, user)
  {
    var user := FindUser(users, id, org);
    if user.None? {
      return UserMap([], {});
    }
    var g := SortGrants(assignments, user.value);
    var tenants := BuildTenants(f, org, g);
    var permissions := CollectPermissions(f, assignments, user.value);
    return UserMap(tenants, permissions);
  }
}
