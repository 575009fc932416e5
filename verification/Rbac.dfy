/** Permission checks and the fleet views derived from the same assignments. */
module Rbac {
  import opened Options

  datatype Scope = Organization | Tenant | Site | Device

  datatype Permission = Permission(section: string, action: string)

  datatype RoleRow = RoleRow(id: int, org: int, permissions: seq<Permission>)

  /** Binds a user to a role at a scope; no expiry means permanent. */
  datatype Assignment = Assignment(
    user: int, role: int, scope: Scope, scopeId: Option<int>, expiresAt: Option<int>)

  datatype User = User(id: int, org: int, isAdmin: bool)
  datatype TenantRow = TenantRow(id: int, org: int)
  datatype SiteRow = SiteRow(id: int, org: int, tenant: int)
  datatype DeviceRow = DeviceRow(id: int, org: int, site: int)

  /** The tables a check reads. */
  datatype Fleet = Fleet(
    tenants: seq<TenantRow>, sites: seq<SiteRow>, devices: seq<DeviceRow>, roles: seq<RoleRow>)

  // ---------------- lookups ----------------

  function FindSite(sites: seq<SiteRow>, id: int): Option<SiteRow> {
    if sites == [] then None else if sites[0].id == id then Some(sites[0]) else FindSite(sites[1..], id)
  }

  function FindDevice(devices: seq<DeviceRow>, id: int): Option<DeviceRow> {
    if devices == [] then None else if devices[0].id == id then Some(devices[0]) else FindDevice(devices[1..], id)
  }

  function PermissionsOf(roles: seq<RoleRow>, id: int): seq<Permission> {
    if roles == [] then [] else if roles[0].id == id then roles[0].permissions else PermissionsOf(roles[1..], id)
  }

  function SiteForDevice(f: Fleet, device: int): Option<int> {
    var d := FindDevice(f.devices, device);
    if d.Some? then Some(d.value.site) else None
  }

  function TenantForSite(f: Fleet, site: int): Option<int> {
    var s := FindSite(f.sites, site);
    if s.Some? then Some(s.value.tenant) else None
  }

  /** Ids are keys, and every device and site sits in its own organization. */
  ghost predicate WellFormed(f: Fleet) {
    && (forall i, j :: 0 <= i < j < |f.tenants| ==> f.tenants[i].id != f.tenants[j].id)
    && (forall i, j :: 0 <= i < j < |f.sites| ==> f.sites[i].id != f.sites[j].id)
    && (forall i, j :: 0 <= i < j < |f.devices| ==> f.devices[i].id != f.devices[j].id)
    && (forall s :: s in f.sites ==> TenantRow(s.tenant, s.org) in f.tenants)
    && (forall d :: d in f.devices ==> exists s :: s in f.sites && s.id == d.site && s.org == d.org)
  }

  lemma {:induction false} FindSiteRow(sites: seq<SiteRow>, row: SiteRow)
    requires row in sites
    requires forall i, j :: 0 <= i < j < |sites| ==> sites[i].id != sites[j].id
    ensures FindSite(sites, row.id) == Some(row)
  {
    if sites[0] != row {
      var k :| 0 <= k < |sites| && sites[k] == row;
      assert sites[1..][k - 1] == row;
      FindSiteRow(sites[1..], row);
    }
  }

  lemma {:induction false} FindDeviceRow(devices: seq<DeviceRow>, row: DeviceRow)
    requires row in devices
    requires forall i, j :: 0 <= i < j < |devices| ==> devices[i].id != devices[j].id
    ensures FindDevice(devices, row.id) == Some(row)
  {
    if devices[0] != row {
      var k :| 0 <= k < |devices| && devices[k] == row;
      assert devices[1..][k - 1] == row;
      FindDeviceRow(devices[1..], row);
    }
  }

  // ---------------- the check ----------------

  /** A place in the fleet, with its ancestors resolved. */
  datatype Place = Place(device: Option<int>, site: Option<int>, tenant: Option<int>)

  /** Fill in the rungs the caller left out: device to site to tenant. */
  function Resolve(f: Fleet, p: Place): Place {
    var site := if p.device.Some? && p.site.None? then SiteForDevice(f, p.device.value) else p.site;
    var tenant := if site.Some? && p.tenant.None? then TenantForSite(f, site.value) else p.tenant;
    Place(p.device, site, tenant)
  }

  predicate Live(a: Assignment, now: int) {
    a.expiresAt.None? || a.expiresAt.value > now
  }

  predicate ScopeMatches(a: Assignment, p: Place) {
    match a.scope
    case Organization => true
    case Tenant => p.tenant.Some? && a.scopeId == p.tenant
    case Site => p.site.Some? && a.scopeId == p.site
    case Device => p.device.Some? && a.scopeId == p.device
  }

  predicate RoleGrants(permissions: seq<Permission>, section: string, action: string) {
    exists i :: 0 <= i < |permissions|
                && (permissions[i].section == section || permissions[i].section == "*")
                && (permissions[i].action == action || permissions[i].action == "*")
  }

  /** Some unexpired assignment of the user, at a scope holding the place, has a
      role granting the action. */
  predicate CanAt(
    f: Fleet, assignments: seq<Assignment>, user: User, section: string, action: string, place: Place, now: int)
  {
    user.isAdmin ||
    exists i :: 0 <= i < |assignments|
                && assignments[i].user == user.id && Live(assignments[i], now)
                && ScopeMatches(assignments[i], place)
                && RoleGrants(PermissionsOf(f.roles, assignments[i].role), section, action)
  }

  predicate Can(
    f: Fleet, assignments: seq<Assignment>, user: User, section: string, action: string, p: Place, now: int)
  {
    CanAt(f, assignments, user, section, action, Resolve(f, p), now)
  }

  /** The check as it runs, stopping at the first assignment that grants. */
  method Check(f: Fleet, assignments: seq<Assignment>, user: User, section: string, action: string, p: Place, now: int)
    returns (allowed: bool)
    ensures allowed == Can(f, assignments, user, section, action, p, now)
  {
    if user.isAdmin {
      return true;
    }
    var site, tenant := p.site, p.tenant;
    if p.device.Some? && site.None? {
      site := SiteForDevice(f, p.device.value);
    }
    if site.Some? && tenant.None? {
      tenant := TenantForSite(f, site.value);
    }
    var place := Place(p.device, site, tenant);
    for i := 0 to |assignments|
      invariant forall j :: 0 <= j < i ==>
                  !(assignments[j].user == user.id && Live(assignments[j], now) && ScopeMatches(assignments[j], place)
                    && RoleGrants(PermissionsOf(f.roles, assignments[j].role), section, action))
    {
      var a := assignments[i];
      if a.user != user.id || !Live(a, now) || !ScopeMatches(a, place) {
        continue;
      }
      if RoleGrants(PermissionsOf(f.roles, a.role), section, action) {
        return true;
      }
    }
    return false;
  }

  lemma {:induction false} PermissionsOfRole(roles: seq<RoleRow>, id: int, p: Permission)
    requires forall i, j :: 0 <= i < j < |roles| ==> roles[i].id != roles[j].id
    ensures p in PermissionsOf(roles, id) <==> exists row :: row in roles && row.id == id && p in row.permissions
  {
    if roles != [] {
      PermissionsOfRole(roles[1..], id, p);
      assert roles == [roles[0]] + roles[1..];
    }
  }

  /** What the check means, read off the tables: an administrator may do anything;
      anyone else needs an assignment of theirs that has not run out, at a scope over
      the place, to a role with a permission for that section and action, either of
      which may be a star. */
  ghost predicate Granted(
    f: Fleet, assignments: seq<Assignment>, user: User, section: string, action: string, place: Place, now: int)
  {
    exists a, row, p ::
      && a in assignments && a.user == user.id && (a.expiresAt.Some? ==> now < a.expiresAt.value)
      && ScopeMatches(a, place)
      && row in f.roles && row.id == a.role && p in row.permissions
      && (p.section == section || p.section == "*") && (p.action == action || p.action == "*")
  }

  lemma CanExactly(
    f: Fleet, assignments: seq<Assignment>, user: User, section: string, action: string, p: Place, now: int)
    requires forall i, j :: 0 <= i < j < |f.roles| ==> f.roles[i].id != f.roles[j].id
    ensures Can(f, assignments, user, section, action, p, now) <==>
            user.isAdmin || Granted(f, assignments, user, section, action, Resolve(f, p), now)
  {
    var place := Resolve(f, p);
    if Granted(f, assignments, user, section, action, place, now) {
      GrantedIsAllowed(f, assignments, user, section, action, place, now);
    }
    if Can(f, assignments, user, section, action, p, now) && !user.isAdmin {
      var i :| 0 <= i < |assignments| && assignments[i].user == user.id && Live(assignments[i], now)
               && ScopeMatches(assignments[i], place)
               && RoleGrants(PermissionsOf(f.roles, assignments[i].role), section, action);
      AllowedIsGranted(f, assignments, i, user, section, action, place, now);
    }
  }

  lemma GrantedIsAllowed(
    f: Fleet, assignments: seq<Assignment>, user: User, section: string, action: string, place: Place, now: int)
    requires forall i, j :: 0 <= i < j < |f.roles| ==> f.roles[i].id != f.roles[j].id
    requires Granted(f, assignments, user, section, action, place, now)
    ensures CanAt(f, assignments, user, section, action, place, now)
  {
    var a, row, p :|
      && a in assignments && a.user == user.id && (a.expiresAt.Some? ==> now < a.expiresAt.value)
      && ScopeMatches(a, place)
      && row in f.roles && row.id == a.role && p in row.permissions
      && (p.section == section || p.section == "*") && (p.action == action || p.action == "*");
    PermissionsOfRole(f.roles, a.role, p);
    var permissions := PermissionsOf(f.roles, a.role);
    var k :| 0 <= k < |permissions| && permissions[k] == p;
    assert RoleGrants(permissions, section, action);
    var i :| 0 <= i < |assignments| && assignments[i] == a;
    assert Live(assignments[i], now);
  }

  lemma AllowedIsGranted(
    f: Fleet, assignments: seq<Assignment>, i: nat, user: User, section: string, action: string, place: Place, now: int)
    requires forall i, j :: 0 <= i < j < |f.roles| ==> f.roles[i].id != f.roles[j].id
    requires i < |assignments| && assignments[i].user == user.id && Live(assignments[i], now)
    requires ScopeMatches(assignments[i], place)
    requires RoleGrants(PermissionsOf(f.roles, assignments[i].role), section, action)
    ensures Granted(f, assignments, user, section, action, place, now)
  {
    var a, permissions := assignments[i], PermissionsOf(f.roles, assignments[i].role);
    var k :| 0 <= k < |permissions|
             && (permissions[k].section == section || permissions[k].section == "*")
             && (permissions[k].action == action || permissions[k].action == "*");
    PermissionsOfRole(f.roles, a.role, permissions[k]);
    assert permissions[k] in permissions && a in assignments;
  }

  /** Some section and action are allowed there. */
  ghost predicate Reaches(f: Fleet, assignments: seq<Assignment>, user: User, p: Place, now: int) {
    exists section, action :: Can(f, assignments, user, section, action, p, now)
  }

  /** An assignment that counts towards a user's views. */
  predicate Counts(f: Fleet, a: Assignment, user: User, now: int) {
    a.user == user.id && Live(a, now) && PermissionsOf(f.roles, a.role) != []
  }

  /** A role grants some pair exactly when it has a permission at all. */
  lemma ReachesByAssignment(f: Fleet, assignments: seq<Assignment>, user: User, p: Place, now: int)
    ensures Reaches(f, assignments, user, p, now) <==>
            || user.isAdmin
            || exists i :: 0 <= i < |assignments| && Counts(f, assignments[i], user, now)
                           && ScopeMatches(assignments[i], Resolve(f, p))
  {
    if user.isAdmin {
      assert Can(f, assignments, user, "", "", p, now);
    } else if i :| 0 <= i < |assignments| && Counts(f, assignments[i], user, now)
                   && ScopeMatches(assignments[i], Resolve(f, p)) {
      var first := PermissionsOf(f.roles, assignments[i].role)[0];
      assert RoleGrants(PermissionsOf(f.roles, assignments[i].role), first.section, first.action);
      assert Can(f, assignments, user, first.section, first.action, p, now);
    }
  }

  // ---------------- visibility ----------------

  /** The ids a user is assigned at, per kind of scope. */
  datatype Assigned = Assigned(tenants: set<int>, sites: set<int>, devices: set<int>) {

    predicate SeesDevice(device: int, site: int, tenant: int) {
      device in devices || site in sites || tenant in tenants
    }
  }

  predicate AtScope(f: Fleet, a: Assignment, user: User, scope: Scope, now: int) {
    Counts(f, a, user, now) && a.scope == scope && a.scopeId.Some?
  }

  function AssignedIds(f: Fleet, assignments: seq<Assignment>, user: User, scope: Scope, now: int): set<int> {
    set a | a in assignments && AtScope(f, a, user, scope, now) :: a.scopeId.value
  }

  function AssignedTo(f: Fleet, assignments: seq<Assignment>, user: User, now: int): Assigned {
    Assigned(AssignedIds(f, assignments, user, Tenant, now), AssignedIds(f, assignments, user, Site, now),
             AssignedIds(f, assignments, user, Device, now))
  }

  predicate SeesEverything(f: Fleet, assignments: seq<Assignment>, user: User, now: int) {
    user.isAdmin || exists a :: a in assignments && Counts(f, a, user, now) && a.scope == Organization
  }

  class Visibility {
    var everything: bool
    var tenantIds: set<int>
    var siteIds: set<int>
    var deviceIds: set<int>

    constructor ()
      ensures !everything && Ids() == Assigned({}, {}, {})
    {
      everything, tenantIds, siteIds, deviceIds := false, {}, {}, {};
    }

    function Ids(): Assigned
      reads this
    {
      Assigned(tenantIds, siteIds, deviceIds)
    }

    method Add(scope: Scope, id: int)
      requires scope != Organization
      modifies this
      ensures everything == old(everything)
      ensures Ids() == match scope
                       case Tenant => old(Ids()).(tenants := old(tenantIds) + {id})
                       case Site => old(Ids()).(sites := old(siteIds) + {id})
                       case _ => old(Ids()).(devices := old(deviceIds) + {id})
    {
      if scope == Tenant {
        tenantIds := tenantIds + {id};
      } else if scope == Site {
        siteIds := siteIds + {id};
      } else {
        deviceIds := deviceIds + {id};
      }
    }
  }

  lemma AssignedNext(f: Fleet, before: seq<Assignment>, a: Assignment, user: User, scope: Scope, now: int)
    ensures AssignedIds(f, before + [a], user, scope, now)
            == AssignedIds(f, before, user, scope, now)
               + if AtScope(f, a, user, scope, now) then {a.scopeId.value} else {}
  {
    assert a in before + [a];
  }

  /** The scopes of a user's unexpired, non-empty assignments; one at organization
      scope is enough to see everything. */
  method CollectVisibility(f: Fleet, assignments: seq<Assignment>, user: User, now: int) returns (v: Visibility)
    ensures fresh(v)
    ensures v.everything <==> SeesEverything(f, assignments, user, now)
    ensures !v.everything ==> v.Ids() == AssignedTo(f, assignments, user, now)
  {
    v := new Visibility();
    if user.isAdmin {
      v.everything := true;
      return;
    }
    for i := 0 to |assignments|
      invariant fresh(v) && !v.everything
      invariant v.Ids() == AssignedTo(f, assignments[..i], user, now)
      invariant forall a :: a in assignments[..i] && Counts(f, a, user, now) ==> a.scope != Organization
    {
      var a := assignments[i];
      assert assignments[..i + 1] == assignments[..i] + [a];
      AssignedNext(f, assignments[..i], a, user, Tenant, now);
      AssignedNext(f, assignments[..i], a, user, Site, now);
      AssignedNext(f, assignments[..i], a, user, Device, now);
      if Counts(f, a, user, now) {
        if a.scope == Organization {
          v.everything := true;
          return;
        }
        if a.scopeId.Some? {
          v.Add(a.scope, a.scopeId.value);
        }
      }
    }
    assert assignments[..|assignments|] == assignments;
  }

  // ---------------- expansion ----------------

  /** A device row the user sees, with its site row present. */
  predicate RowSeen(f: Fleet, d: DeviceRow, user: User, ids: Assigned) {
    && d.org == user.org && TenantForSite(f, d.site).Some?
    && ids.SeesDevice(d.id, d.site, TenantForSite(f, d.site).value)
  }

  function SeenRows(f: Fleet, rows: seq<DeviceRow>, user: User, ids: Assigned): set<DeviceRow> {
    set d | d in rows && RowSeen(f, d, user, ids)
  }

  /** What the user may list: three sets of ids, or everything. */
  datatype Visible = All | Only(tenants: set<int>, sites: set<int>, devices: set<int>) {

    predicate Lists(scope: Scope, id: int) {
      match scope
      case Organization => All?
      case Tenant => All? || id in tenants
      case Site => All? || id in sites
      case Device => All? || id in devices
    }
  }

  function AfterDevices(f: Fleet, rows: seq<DeviceRow>, user: User, ids: Assigned): Visible {
    var seen := SeenRows(f, rows, user, ids);
    Only(ids.tenants + (set d | d in seen :: TenantForSite(f, d.site).value),
         ids.sites + (set d | d in seen :: d.site),
         ids.devices + set d | d in seen :: d.id)
  }

  function SitesUnder(rows: seq<SiteRow>, user: User, ids: Assigned): set<int> {
    set s | s in rows && s.org == user.org && s.tenant in ids.tenants :: s.id
  }

  function TenantsOver(rows: seq<SiteRow>, user: User, ids: Assigned): set<int> {
    set s | s in rows && s.org == user.org && s.id in ids.sites :: s.tenant
  }

  function Expanded(f: Fleet, user: User, ids: Assigned): Visible {
    var v := AfterDevices(f, f.devices, user, ids);
    Only(v.tenants + TenantsOver(f.sites, user, ids), v.sites + SitesUnder(f.sites, user, ids), v.devices)
  }

  function VisibleTo(f: Fleet, assignments: seq<Assignment>, user: User, now: int): Visible {
    if SeesEverything(f, assignments, user, now) then All else Expanded(f, user, AssignedTo(f, assignments, user, now))
  }

  lemma DevicesNext(f: Fleet, rows: seq<DeviceRow>, d: DeviceRow, user: User, ids: Assigned)
    ensures var v := AfterDevices(f, rows, user, ids);
            AfterDevices(f, rows + [d], user, ids)
            == if RowSeen(f, d, user, ids)
               then Only(v.tenants + {TenantForSite(f, d.site).value}, v.sites + {d.site}, v.devices + {d.id})
               else v
  {
    assert SeenRows(f, rows + [d], user, ids)
           == SeenRows(f, rows, user, ids) + if RowSeen(f, d, user, ids) then {d} else {} by {
      assert d in rows + [d];
    }
  }

  lemma SitesNext(rows: seq<SiteRow>, s: SiteRow, user: User, ids: Assigned)
    ensures SitesUnder(rows + [s], user, ids)
            == SitesUnder(rows, user, ids) + if s.org == user.org && s.tenant in ids.tenants then {s.id} else {}
    ensures TenantsOver(rows + [s], user, ids)
            == TenantsOver(rows, user, ids) + if s.org == user.org && s.id in ids.sites then {s.tenant} else {}
  {
    assert s in rows + [s];
  }

  /** The pass over the devices: each one seen shows itself, its site and tenant. */
  method ExpandDevices(f: Fleet, user: User, ids: Assigned) returns (v: Visible)
    ensures v == AfterDevices(f, f.devices, user, ids)
  {
    v := Only(ids.tenants, ids.sites, ids.devices);
    for i := 0 to |f.devices|
      invariant v == AfterDevices(f, f.devices[..i], user, ids)
    {
      var d := f.devices[i];
      assert f.devices[..i + 1] == f.devices[..i] + [d];
      DevicesNext(f, f.devices[..i], d, user, ids);
      var tenant := TenantForSite(f, d.site);
      if d.org == user.org && tenant.Some? && ids.SeesDevice(d.id, d.site, tenant.value) {
        v := Only(v.tenants + {tenant.value}, v.sites + {d.site}, v.devices + {d.id});
      }
    }
    assert f.devices[..|f.devices|] == f.devices;
  }

  /** The pass over the sites: those under a tenant, and the tenants over a site. */
  method ExpandSites(f: Fleet, user: User, ids: Assigned) returns (tenants: set<int>, sites: set<int>)
    ensures sites == SitesUnder(f.sites, user, ids) && tenants == TenantsOver(f.sites, user, ids)
  {
    tenants, sites := {}, {};
    for i := 0 to |f.sites|
      invariant sites == SitesUnder(f.sites[..i], user, ids)
      invariant tenants == TenantsOver(f.sites[..i], user, ids)
    {
      var s := f.sites[i];
      assert f.sites[..i + 1] == f.sites[..i] + [s];
      SitesNext(f.sites[..i], s, user, ids);
      if s.org == user.org {
        if s.tenant in ids.tenants {
          sites := sites + {s.id};
        }
        if s.id in ids.sites {
          tenants := tenants + {s.tenant};
        }
      }
    }
    assert f.sites[..|f.sites|] == f.sites;
  }

  /** Expand each assignment downward to what it contains and upward to what
      contains it. */
  method VisibleIds(f: Fleet, assignments: seq<Assignment>, user: User, now: int) returns (r: Visible)
    ensures r == VisibleTo(f, assignments, user, now)
  {
    var v := CollectVisibility(f, assignments, user, now);
    if v.everything {
      return All;
    }
    var seen := ExpandDevices(f, user, v.Ids());
    var tenants, sites := ExpandSites(f, user, v.Ids());
    return Only(seen.tenants + tenants, seen.sites + sites, seen.devices);
  }

  // ---------------- the views agree with the check ----------------

  const NOWHERE := Place(None, None, None)

  function PlaceOf(scope: Scope, id: int): Place {
    match scope
    case Organization => NOWHERE
    case Tenant => NOWHERE.(tenant := Some(id))
    case Site => NOWHERE.(site := Some(id))
    case Device => NOWHERE.(device := Some(id))
  }

  lemma ReachesOrEverything(f: Fleet, assignments: seq<Assignment>, user: User, p: Place, now: int)
    requires !SeesEverything(f, assignments, user, now)
    ensures var r, ids := Resolve(f, p), AssignedTo(f, assignments, user, now);
            Reaches(f, assignments, user, p, now) <==>
            || (r.tenant.Some? && r.tenant.value in ids.tenants)
            || (r.site.Some? && r.site.value in ids.sites)
            || (r.device.Some? && r.device.value in ids.devices)
  {
    ReachesByAssignment(f, assignments, user, p, now);
    var r, ids := Resolve(f, p), AssignedTo(f, assignments, user, now);
    if i :| 0 <= i < |assignments| && Counts(f, assignments[i], user, now) && ScopeMatches(assignments[i], r) {
      assert assignments[i] in assignments && AtScope(f, assignments[i], user, assignments[i].scope, now);
    }
  }

  /** A device of the user's organization is listed exactly when some section and
      action are allowed on it. */
  lemma DeviceListedIffReached(f: Fleet, assignments: seq<Assignment>, user: User, d: DeviceRow, now: int)
    requires WellFormed(f) && d in f.devices && d.org == user.org
    ensures VisibleTo(f, assignments, user, now).Lists(Device, d.id)
            <==> Reaches(f, assignments, user, PlaceOf(Device, d.id), now)
  {
    FindDeviceRow(f.devices, d);
    var s := SiteOfDevice(f, d);
    if SeesEverything(f, assignments, user, now) {
      ReachesByAssignment(f, assignments, user, PlaceOf(Device, d.id), now);
    } else {
      ReachesOrEverything(f, assignments, user, PlaceOf(Device, d.id), now);
      ListedDeviceIsSeen(f, user, AssignedTo(f, assignments, user, now), d);
    }
  }

  lemma UniqueDevice(f: Fleet, d: DeviceRow)
    requires WellFormed(f) && d in f.devices
    ensures forall e :: e in f.devices && e.id == d.id ==> e == d
  {
    forall e | e in f.devices && e.id == d.id ensures e == d {
      FindDeviceRow(f.devices, d);
      FindDeviceRow(f.devices, e);
    }
  }

  lemma UniqueSite(f: Fleet, s: SiteRow)
    requires WellFormed(f) && s in f.sites
    ensures forall e :: e in f.sites && e.id == s.id ==> e == s
  {
    forall e | e in f.sites && e.id == s.id ensures e == s {
      FindSiteRow(f.sites, s);
      FindSiteRow(f.sites, e);
    }
  }

  ghost predicate HasListedDevice(f: Fleet, v: Visible, user: User, site: int) {
    exists d :: d in f.devices && d.org == user.org && d.site == site && v.Lists(Device, d.id)
  }

  ghost predicate HasListedSite(f: Fleet, v: Visible, user: User, tenant: int) {
    exists s :: s in f.sites && s.org == user.org && s.tenant == tenant && v.Lists(Site, s.id)
  }

  /** Membership in the expanded sets, spelled out. */
  lemma ExpandedMembers(f: Fleet, user: User, ids: Assigned, id: int)
    ensures var v, seen := Expanded(f, user, ids), SeenRows(f, f.devices, user, ids);
            && (id in v.devices <==> id in ids.devices || exists d :: d in seen && d.id == id)
            && (id in v.sites <==> id in ids.sites || (exists d :: d in seen && d.site == id)
                                   || exists s :: s in f.sites && s.org == user.org && s.tenant in ids.tenants
                                                  && s.id == id)
            && (id in v.tenants <==> id in ids.tenants
                                     || (exists d :: d in seen && TenantForSite(f, d.site).value == id)
                                     || exists s :: s in f.sites && s.org == user.org && s.id in ids.sites
                                                    && s.tenant == id)
  {
  }

  /** A listed device of the organization was seen through its own row. */
  lemma ListedDeviceIsSeen(f: Fleet, user: User, ids: Assigned, d: DeviceRow)
    requires WellFormed(f) && d in f.devices && d.org == user.org
    ensures Expanded(f, user, ids).Lists(Device, d.id) <==> d in SeenRows(f, f.devices, user, ids)
  {
    var s := SiteOfDevice(f, d);
    UniqueDevice(f, d);
    ExpandedMembers(f, user, ids, d.id);
  }

  lemma SiteOfDevice(f: Fleet, d: DeviceRow) returns (s: SiteRow)
    requires WellFormed(f) && d in f.devices
    ensures s in f.sites && s.id == d.site && s.org == d.org && TenantForSite(f, d.site) == Some(s.tenant)
  {
    s :| s in f.sites && s.id == d.site && s.org == d.org;
    FindSiteRow(f.sites, s);
  }

  /** A site of the organization is listed exactly when something is allowed on
      it, or a device in it is listed. */
  lemma SiteListedIffReached(f: Fleet, assignments: seq<Assignment>, user: User, s: SiteRow, now: int)
    requires WellFormed(f) && s in f.sites && s.org == user.org
    ensures var v := VisibleTo(f, assignments, user, now);
            v.Lists(Site, s.id) <==>
            Reaches(f, assignments, user, PlaceOf(Site, s.id), now) || HasListedDevice(f, v, user, s.id)
  {
    FindSiteRow(f.sites, s);
    if SeesEverything(f, assignments, user, now) {
      ReachesByAssignment(f, assignments, user, PlaceOf(Site, s.id), now);
    } else {
      ReachesOrEverything(f, assignments, user, PlaceOf(Site, s.id), now);
      SiteExpansion(f, user, AssignedTo(f, assignments, user, now), s);
    }
  }

  lemma SeenDeviceIsListed(f: Fleet, user: User, ids: Assigned, site: int)
    requires WellFormed(f)
    ensures (exists d :: d in SeenRows(f, f.devices, user, ids) && d.site == site)
            <==> HasListedDevice(f, Expanded(f, user, ids), user, site)
  {
    var v := Expanded(f, user, ids);
    if d :| d in SeenRows(f, f.devices, user, ids) && d.site == site {
      ListedDeviceIsSeen(f, user, ids, d);
      assert HasListedDevice(f, v, user, site);
    }
    if HasListedDevice(f, v, user, site) {
      var d :| d in f.devices && d.org == user.org && d.site == site && v.Lists(Device, d.id);
      ListedDeviceIsSeen(f, user, ids, d);
    }
  }

  lemma SiteExpansion(f: Fleet, user: User, ids: Assigned, s: SiteRow)
    requires WellFormed(f) && s in f.sites && s.org == user.org
    ensures var v := Expanded(f, user, ids);
            v.Lists(Site, s.id) <==> s.id in ids.sites || s.tenant in ids.tenants || HasListedDevice(f, v, user, s.id)
  {
    UniqueSite(f, s);
    ExpandedMembers(f, user, ids, s.id);
    SeenDeviceIsListed(f, user, ids, s.id);
  }

  /** A tenant is listed exactly when something is allowed on it, or a site of the
      organization under it is listed. */
  lemma TenantListedIffReached(f: Fleet, assignments: seq<Assignment>, user: User, t: TenantRow, now: int)
    requires WellFormed(f) && t in f.tenants && t.org == user.org
    ensures var v := VisibleTo(f, assignments, user, now);
            v.Lists(Tenant, t.id) <==>
            Reaches(f, assignments, user, PlaceOf(Tenant, t.id), now) || HasListedSite(f, v, user, t.id)
  {
    if SeesEverything(f, assignments, user, now) {
      ReachesByAssignment(f, assignments, user, PlaceOf(Tenant, t.id), now);
    } else {
      ReachesOrEverything(f, assignments, user, PlaceOf(Tenant, t.id), now);
      TenantExpansion(f, user, AssignedTo(f, assignments, user, now), t.id);
    }
  }

  lemma TenantExpansion(f: Fleet, user: User, ids: Assigned, tenant: int)
    requires WellFormed(f)
    ensures var v := Expanded(f, user, ids);
            v.Lists(Tenant, tenant) <==> tenant in ids.tenants || HasListedSite(f, v, user, tenant)
  {
    var v := Expanded(f, user, ids);
    ExpandedMembers(f, user, ids, tenant);
    if d :| d in SeenRows(f, f.devices, user, ids) && TenantForSite(f, d.site).value == tenant {
      var s := SiteOfDevice(f, d);
      ExpandedMembers(f, user, ids, s.id);
      assert HasListedSite(f, v, user, tenant);
    }
    if s :| s in f.sites && s.org == user.org && s.id in ids.sites && s.tenant == tenant {
      ExpandedMembers(f, user, ids, s.id);
      assert HasListedSite(f, v, user, tenant);
    }
    if HasListedSite(f, v, user, tenant) {
      ListedSiteShowsTenant(f, user, ids, tenant);
    }
  }

  lemma ListedSiteShowsTenant(f: Fleet, user: User, ids: Assigned, tenant: int)
    requires WellFormed(f) && HasListedSite(f, Expanded(f, user, ids), user, tenant)
    ensures Expanded(f, user, ids).Lists(Tenant, tenant)
  {
    var v := Expanded(f, user, ids);
    var s :| s in f.sites && s.org == user.org && s.tenant == tenant && v.Lists(Site, s.id);
    SiteExpansion(f, user, ids, s);
    ExpandedMembers(f, user, ids, tenant);
    if HasListedDevice(f, v, user, s.id) {
      var d :| d in f.devices && d.org == user.org && d.site == s.id && v.Lists(Device, d.id);
      ListedDeviceIsSeen(f, user, ids, d);
      FindSiteRow(f.sites, s);
    }
  }
}
