/**
 What an actor may do, and the actor an API key stands for (packages/auth/src/access.ts; owners
 are built as in packages/auth/src/server.ts).
 */
module Access {
  import opened Options

  datatype Permission =
    | DeviceView | DeviceCreate | DeviceUpdate | DeviceDelete | DeviceEnroll | DeviceRevokeVpn
    | DeviceStartVnc | DeviceStartRdp | DeviceStartSsh | CredentialReveal
    | OrganizationAdmin | SiteAdmin | UserManage | AuditView | VpnAdminProfile

  datatype PlatformRole = PlatformOwner | PlatformAdmin | PlatformMember

  datatype OrganizationRole = OrgOwner | OrgAdmin | OrgOperator | OrgTechnician | OrgViewer

  datatype SiteRole = SiteOperator | SiteTechnician | SiteViewer

  datatype OrganizationMembership = OrganizationMembership(organizationId: string, role: OrganizationRole, active: bool)

  datatype SiteMembership = SiteMembership(siteId: string, organizationId: string, role: SiteRole, active: bool)

  datatype UiScope = AdminShell | TechnicianShell

  datatype Actor = Actor(
    platformRole: PlatformRole,
    platformPermissions: seq<Permission>,
    permissions: seq<Permission>,
    organizations: seq<OrganizationMembership>,
    sites: seq<SiteMembership>,
    uiScope: UiScope,
    apiKeyId: Option<string>)

  datatype Resource =
    | Platform
    | Organization(organizationId: string)
    | Site(organizationId: string, siteId: string)
    | Device(organizationId: string, maybeSite: Option<string>)
    | Service(organizationId: string, maybeSite: Option<string>)
    | RoutePolicy(maybeOrganization: Option<string>)
    | EnrollmentToken(organizationId: string)
    | Audit(maybeOrganization: Option<string>, deviceId: Option<string>)
    | UserManagement(organizationId: string)

  datatype Reason =
    | ByApiKeyGrant | ByPlatformOwner | ByPlatformAdmin | ByPlatform
    | ByOrganization(role: OrganizationRole) | BySite(siteRole: SiteRole) | ByService(inner: Reason)
    | OutOfScope(kind: string)

  datatype Decision = Decision(allowed: bool, reason: Reason)

  // ----- roles -----

  const FULL_ACCESS: seq<Permission> :=
    [DeviceView, DeviceCreate, DeviceUpdate, DeviceDelete, DeviceEnroll, DeviceRevokeVpn, DeviceStartVnc,
     DeviceStartRdp, DeviceStartSsh, CredentialReveal, OrganizationAdmin, SiteAdmin, UserManage, AuditView,
     VpnAdminProfile]

  const OPERATOR: seq<Permission> :=
    [DeviceView, DeviceUpdate, DeviceRevokeVpn, DeviceStartVnc, DeviceStartRdp, DeviceStartSsh, CredentialReveal,
     AuditView]

  const TECHNICIAN: seq<Permission> :=
    [DeviceView, DeviceUpdate, DeviceStartVnc, DeviceStartRdp, DeviceStartSsh, AuditView]

  const VIEWER: seq<Permission> := [DeviceView, AuditView]

  function PermissionsForRole(role: PlatformRole): seq<Permission> {
    match role
    case PlatformOwner => FULL_ACCESS
    case PlatformAdmin => FULL_ACCESS
    case PlatformMember => []
  }

  function PermissionsForOrganizationRole(role: OrganizationRole): seq<Permission> {
    match role
    case OrgOwner => FULL_ACCESS
    case OrgAdmin => FULL_ACCESS[..14]
    case OrgOperator => OPERATOR
    case OrgTechnician => TECHNICIAN
    case OrgViewer => VIEWER
  }

  function PermissionsForSiteRole(role: SiteRole): seq<Permission> {
    match role
    case SiteOperator => OPERATOR
    case SiteTechnician => TECHNICIAN
    case SiteViewer => VIEWER
  }

  /** The full list really names every permission. */
  lemma FullAccessIsFull(p: Permission)
    ensures p in FULL_ACCESS
  {
    match p
    case DeviceView => assert FULL_ACCESS[0] == p;
    case DeviceCreate => assert FULL_ACCESS[1] == p;
    case DeviceUpdate => assert FULL_ACCESS[2] == p;
    case DeviceDelete => assert FULL_ACCESS[3] == p;
    case DeviceEnroll => assert FULL_ACCESS[4] == p;
    case DeviceRevokeVpn => assert FULL_ACCESS[5] == p;
    case DeviceStartVnc => assert FULL_ACCESS[6] == p;
    case DeviceStartRdp => assert FULL_ACCESS[7] == p;
    case DeviceStartSsh => assert FULL_ACCESS[8] == p;
    case CredentialReveal => assert FULL_ACCESS[9] == p;
    case OrganizationAdmin => assert FULL_ACCESS[10] == p;
    case SiteAdmin => assert FULL_ACCESS[11] == p;
    case UserManage => assert FULL_ACCESS[12] == p;
    case AuditView => assert FULL_ACCESS[13] == p;
    case VpnAdminProfile => assert FULL_ACCESS[14] == p;
  }

  // ----- the role tables -----

  lemma ViewerMay(p: Permission)
    ensures p in VIEWER <==> p == DeviceView || p == AuditView
  {
    assert VIEWER[0] == DeviceView && VIEWER[1] == AuditView;
  }

  lemma TechnicianMay(p: Permission)
    ensures p in TECHNICIAN
            <==> p in VIEWER || p == DeviceUpdate || p == DeviceStartVnc || p == DeviceStartRdp || p == DeviceStartSsh
  {
    ViewerMay(p);
    assert TECHNICIAN[0] == DeviceView && TECHNICIAN[1] == DeviceUpdate && TECHNICIAN[2] == DeviceStartVnc;
    assert TECHNICIAN[3] == DeviceStartRdp && TECHNICIAN[4] == DeviceStartSsh && TECHNICIAN[5] == AuditView;
  }

  lemma OperatorMay(p: Permission)
    ensures p in OPERATOR <==> p in TECHNICIAN || p == DeviceRevokeVpn || p == CredentialReveal
  {
    TechnicianMay(p);
    ViewerMay(p);
    assert OPERATOR[0] == DeviceView && OPERATOR[1] == DeviceUpdate && OPERATOR[2] == DeviceRevokeVpn;
    assert OPERATOR[3] == DeviceStartVnc && OPERATOR[4] == DeviceStartRdp && OPERATOR[5] == DeviceStartSsh;
    assert OPERATOR[6] == CredentialReveal && OPERATOR[7] == AuditView;
  }

  function OrganizationRank(role: OrganizationRole): nat {
    match role
    case OrgViewer => 0
    case OrgTechnician => 1
    case OrgOperator => 2
    case OrgAdmin => 3
    case OrgOwner => 4
  }

  /** What a role in an organization may do: viewers look, and each role above adds to the one below. */
  predicate OrganizationRoleMay(role: OrganizationRole, p: Permission) {
    match p
    case DeviceView => true
    case AuditView => true
    case DeviceUpdate => OrganizationRank(role) >= 1
    case DeviceStartVnc => OrganizationRank(role) >= 1
    case DeviceStartRdp => OrganizationRank(role) >= 1
    case DeviceStartSsh => OrganizationRank(role) >= 1
    case DeviceRevokeVpn => OrganizationRank(role) >= 2
    case CredentialReveal => OrganizationRank(role) >= 2
    case VpnAdminProfile => OrganizationRank(role) >= 4
    case _ => OrganizationRank(role) >= 3
  }

  function SameRole(role: SiteRole): OrganizationRole {
    match role
    case SiteOperator => OrgOperator
    case SiteTechnician => OrgTechnician
    case SiteViewer => OrgViewer
  }

  /** The three tables in terms of ranks: so a higher role is never allowed less. */
  lemma RolesMay(p: Permission, org: OrganizationRole, site: SiteRole, platform: PlatformRole)
    ensures p in PermissionsForOrganizationRole(org) <==> OrganizationRoleMay(org, p)
    ensures p in PermissionsForSiteRole(site)
            <==> OrganizationRoleMay(SameRole(site), p)
    ensures p in PermissionsForRole(platform) <==> platform != PlatformMember
  {
    ViewerMay(p);
    TechnicianMay(p);
    OperatorMay(p);
    FullAccessIsFull(p);
    AdminMay(p);
    hide VIEWER, TECHNICIAN, OPERATOR, FULL_ACCESS;
  }

  lemma AdminMay(p: Permission)
    ensures p in FULL_ACCESS[..14] <==> p != VpnAdminProfile
  {
    FullAccessIsFull(p);
    assert FULL_ACCESS == FULL_ACCESS[..14] + [VpnAdminProfile];
    assert forall i :: 0 <= i < 14 ==> FULL_ACCESS[..14][i] == FULL_ACCESS[i] != VpnAdminProfile;
  }

  lemma HigherRoleKeepsAll(low: OrganizationRole, high: OrganizationRole, p: Permission)
    requires OrganizationRank(low) <= OrganizationRank(high) && p in PermissionsForOrganizationRole(low)
    ensures p in PermissionsForOrganizationRole(high)
  {
    RolesMay(p, low, SiteViewer, PlatformMember);
    RolesMay(p, high, SiteViewer, PlatformMember);
    hide PermissionsForOrganizationRole;
  }

  predicate PlatformWide(a: Actor) {
    a.platformRole == PlatformOwner || a.platformRole == PlatformAdmin
  }

  const MANAGEMENT: seq<Permission> :=
    [OrganizationAdmin, SiteAdmin, UserManage, DeviceEnroll, DeviceCreate, DeviceDelete, VpnAdminProfile]

  function UiScopeFor(platformRole: PlatformRole, permissions: seq<Permission>): UiScope {
    if platformRole == PlatformOwner || platformRole == PlatformAdmin then AdminShell
    else if exists i :: 0 <= i < |MANAGEMENT| && MANAGEMENT[i] in permissions then AdminShell
    else TechnicianShell
  }

  /** The full console is for the platform's owner and admins, and for whoever may manage something. */
  lemma FullConsoleIff(role: PlatformRole, permissions: seq<Permission>)
    ensures UiScopeFor(role, permissions) == AdminShell
            <==> || role != PlatformMember
                 || OrganizationAdmin in permissions || SiteAdmin in permissions || UserManage in permissions
                 || DeviceEnroll in permissions || DeviceCreate in permissions || DeviceDelete in permissions
                 || VpnAdminProfile in permissions
  {
    assert MANAGEMENT[0] == OrganizationAdmin && MANAGEMENT[1] == SiteAdmin && MANAGEMENT[2] == UserManage;
    assert MANAGEMENT[3] == DeviceEnroll && MANAGEMENT[4] == DeviceCreate && MANAGEMENT[5] == DeviceDelete;
    assert MANAGEMENT[6] == VpnAdminProfile;
  }

  // ----- the actor behind a key -----

  /** Grants that the owner has, without repeats, in the order granted. */
  function Intersect(owner: seq<Permission>, grants: seq<Permission>): seq<Permission> {
    if grants == [] then []
    else
      var init, last := Intersect(owner, grants[..|grants| - 1]), grants[|grants| - 1];
      if last !in owner || last in init then init else init + [last]
  }

  method IntersectPermissions(owner: seq<Permission>, grants: seq<Permission>) returns (result: seq<Permission>)
    ensures result == Intersect(owner, grants)
    ensures forall p :: p in result <==> p in owner && p in grants
    ensures forall i, j :: 0 <= i < j < |result| ==> result[i] != result[j]
  {
    var allowed := set i | 0 <= i < |owner| :: owner[i];
    var seen: set<Permission> := {};
    result := [];
    for i := 0 to |grants|
      invariant result == Intersect(owner, grants[..i])
      invariant forall p :: p in seen <==> p in result
    {
      assert grants[..i + 1][..i] == grants[..i];
      if grants[i] !in allowed || grants[i] in seen {
        continue;
      }
      seen := seen + {grants[i]};
      result := result + [grants[i]];
    }
    assert grants[..|grants|] == grants;
    IntersectMembers(owner, grants);
  }

  lemma {:induction false} IntersectMembers(owner: seq<Permission>, grants: seq<Permission>)
    ensures forall p :: p in Intersect(owner, grants) <==> p in owner && p in grants
    ensures forall i, j :: 0 <= i < j < |Intersect(owner, grants)| ==>
            Intersect(owner, grants)[i] != Intersect(owner, grants)[j]
    decreases |grants|
  {
    if grants != [] {
      var init, last := grants[..|grants| - 1], grants[|grants| - 1];
      IntersectMembers(owner, init);
      assert grants == init + [last];
    }
  }

  datatype KeyGrant = KeyGrant(id: string, organizationId: Option<string>, permissions: seq<Permission>)

  /** An empty text counts as no organization at all. */
  predicate Scoped(key: KeyGrant) {
    key.organizationId.Some? && key.organizationId.value != ""
  }

  function ActiveIn(ms: seq<OrganizationMembership>, org: string): seq<OrganizationMembership> {
    if ms == [] then []
    else if ms[0].organizationId == org && ms[0].active then [ms[0]] + ActiveIn(ms[1..], org)
    else ActiveIn(ms[1..], org)
  }

  function SitesIn(ms: seq<SiteMembership>, org: string): seq<SiteMembership> {
    if ms == [] then []
    else if ms[0].organizationId == org then [ms[0]] + SitesIn(ms[1..], org)
    else SitesIn(ms[1..], org)
  }

  function ActorForApiKey(owner: Actor, key: KeyGrant): Actor {
    var permissions := Intersect(owner.permissions, key.permissions);
    if Scoped(key) then
      var org := key.organizationId.value;
      var existing := ActiveIn(owner.organizations, org);
      var organizations :=
        if |existing| > 0 then existing
        else if PlatformWide(owner) then [OrganizationMembership(org, OrgOwner, true)]
        else [];
      Actor(PlatformMember, [], permissions, organizations, SitesIn(owner.sites, org),
            UiScopeFor(PlatformMember, permissions), Some(key.id))
    else
      owner.(platformPermissions := Intersect(owner.platformPermissions, key.permissions), permissions := permissions,
             uiScope := UiScopeFor(owner.platformRole, permissions), apiKeyId := Some(key.id))
  }

  // ----- decisions -----

  /** The first active membership of an organization. */
  function OrganizationMembershipFor(ms: seq<OrganizationMembership>, org: string): Option<OrganizationMembership> {
    if ms == [] then None
    else if ms[0].organizationId == org && ms[0].active then Some(ms[0])
    else OrganizationMembershipFor(ms[1..], org)
  }

  function SiteMembershipFor(ms: seq<SiteMembership>, siteId: string): Option<SiteMembership> {
    if ms == [] then None
    else if ms[0].siteId == siteId && ms[0].active then Some(ms[0])
    else SiteMembershipFor(ms[1..], siteId)
  }

  /** The first active site membership whose role has a permission. */
  function AnySiteAllowing(ms: seq<SiteMembership>, p: Permission): Option<SiteMembership> {
    if ms == [] then None
    else if ms[0].active && p in PermissionsForSiteRole(ms[0].role) then Some(ms[0])
    else AnySiteAllowing(ms[1..], p)
  }

  function ByOrganizationRole(a: Actor, p: Permission, org: string, otherwise: Decision): Decision {
    var m := OrganizationMembershipFor(a.organizations, org);
    if m.Some? && p in PermissionsForOrganizationRole(m.value.role) then Decision(true, ByOrganization(m.value.role))
    else otherwise
  }

  function BySiteRole(m: Option<SiteMembership>, p: Permission, otherwise: Decision): Decision {
    if m.Some? && p in PermissionsForSiteRole(m.value.role) then Decision(true, BySite(m.value.role)) else otherwise
  }

  predicate HasKeyId(a: Actor) {
    a.apiKeyId.Some? && a.apiKeyId.value != ""
  }

  function Truthy(s: Option<string>): Option<string> {
    if s.Some? && s.value != "" then s else None
  }

  function SiteOf(a: Actor, site: Option<string>): Option<SiteMembership> {
    if site.Some? then SiteMembershipFor(a.sites, site.value) else None
  }

  function DeviceDecision(a: Actor, p: Permission, org: string, site: Option<string>): Decision {
    BySiteRole(SiteOf(a, site), p, ByOrganizationRole(a, p, org, Decision(false, OutOfScope("device_scope"))))
  }

  function AuditDecision(a: Actor, p: Permission, org: Option<string>, device: Option<string>): Decision {
    var bySite :=
      if Truthy(device).Some? then
        BySiteRole(AnySiteAllowing(a.sites, p), p, Decision(false, OutOfScope("audit_scope")))
      else Decision(false, OutOfScope("audit_scope"));
    if Truthy(org).Some? then ByOrganizationRole(a, p, org.value, bySite) else bySite
  }

  /** The case split over resources: what memberships, or platform permissions on the platform itself, allow. */
  function ScopeDecision(a: Actor, p: Permission, r: Resource): Decision {
    match r
    case Platform => Decision(p in a.platformPermissions, ByPlatform)
    case Organization(org) => ByOrganizationRole(a, p, org, Decision(false, OutOfScope("organization_scope")))
    case Site(org, site) =>
      ByOrganizationRole(a, p, org,
        BySiteRole(SiteMembershipFor(a.sites, site), p, Decision(false, OutOfScope("site_scope"))))
    case Device(org, site) => DeviceDecision(a, p, org, site)
    case Service(org, site) =>
      var device := DeviceDecision(a, p, org, site);
      if device.allowed then Decision(true, ByService(device.reason)) else device
    case EnrollmentToken(org) => ByOrganizationRole(a, p, org, Decision(false, OutOfScope("enrollment_scope")))
    case RoutePolicy(org) =>
      if Truthy(org).None? then Decision(false, OutOfScope("route_policy_scope"))
      else ByOrganizationRole(a, p, org.value, Decision(false, OutOfScope("route_policy_scope")))
    case Audit(org, device) => AuditDecision(a, p, org, device)
    case UserManagement(org) => ByOrganizationRole(a, p, org, Decision(false, OutOfScope("user_management_scope")))
  }

  function Authorize(a: Actor, p: Permission, r: Resource): Decision {
    if HasKeyId(a) && p !in a.permissions then Decision(false, ByApiKeyGrant)
    else if a.platformRole == PlatformOwner then Decision(true, ByPlatformOwner)
    else if a.platformRole == PlatformAdmin && p in a.platformPermissions then Decision(true, ByPlatformAdmin)
    else ScopeDecision(a, p, r)
  }

  // ----- decisions, by the fields -----

  predicate FirstActiveIn(ms: seq<OrganizationMembership>, org: string, i: nat) {
    && i < |ms| && ms[i].organizationId == org && ms[i].active
    && forall j :: 0 <= j < i ==> ms[j].organizationId != org || !ms[j].active
  }

  predicate NoneActiveIn(ms: seq<OrganizationMembership>, org: string) {
    forall j :: 0 <= j < |ms| ==> ms[j].organizationId != org || !ms[j].active
  }

  predicate FirstActiveAt(ms: seq<SiteMembership>, site: string, i: nat) {
    && i < |ms| && ms[i].siteId == site && ms[i].active
    && forall j :: 0 <= j < i ==> ms[j].siteId != site || !ms[j].active
  }

  predicate NoneActiveAt(ms: seq<SiteMembership>, site: string) {
    forall j :: 0 <= j < |ms| ==> ms[j].siteId != site || !ms[j].active
  }

  lemma {:induction false} OrganizationMembershipIs(ms: seq<OrganizationMembership>, org: string)
    ensures OrganizationMembershipFor(ms, org) == None <==> NoneActiveIn(ms, org)
    ensures forall i: nat :: FirstActiveIn(ms, org, i) ==> OrganizationMembershipFor(ms, org) == Some(ms[i])
    decreases |ms|
  {
    if ms != [] {
      var rest := ms[1..];
      OrganizationMembershipIs(rest, org);
      if ms[0].organizationId != org || !ms[0].active {
        assert NoneActiveIn(rest, org) ==> NoneActiveIn(ms, org) by {
          assert forall j :: 1 <= j < |ms| ==> ms[j] == rest[j - 1];
        }
        forall i: nat | FirstActiveIn(ms, org, i) ensures OrganizationMembershipFor(ms, org) == Some(ms[i]) {
          assert FirstActiveIn(rest, org, i - 1);
        }
      }
    }
  }

  lemma {:induction false} SiteMembershipIs(ms: seq<SiteMembership>, site: string)
    ensures SiteMembershipFor(ms, site) == None <==> NoneActiveAt(ms, site)
    ensures forall i: nat :: FirstActiveAt(ms, site, i) ==> SiteMembershipFor(ms, site) == Some(ms[i])
    decreases |ms|
  {
    if ms != [] {
      var rest := ms[1..];
      SiteMembershipIs(rest, site);
      if ms[0].siteId != site || !ms[0].active {
        assert NoneActiveAt(rest, site) ==> NoneActiveAt(ms, site) by {
          assert forall j :: 1 <= j < |ms| ==> ms[j] == rest[j - 1];
        }
        forall i: nat | FirstActiveAt(ms, site, i) ensures SiteMembershipFor(ms, site) == Some(ms[i]) {
          assert FirstActiveAt(rest, site, i - 1);
        }
      }
    }
  }

  /** The first active membership of the organization has a role with the permission. */
  ghost predicate MayIn(a: Actor, p: Permission, org: string) {
    exists i: nat :: FirstActiveIn(a.organizations, org, i) && OrganizationRoleMay(a.organizations[i].role, p)
  }

  ghost predicate MayAt(a: Actor, p: Permission, site: string) {
    exists i: nat :: FirstActiveAt(a.sites, site, i) && p in PermissionsForSiteRole(a.sites[i].role)
  }

  ghost predicate MayAtSomeSite(a: Actor, p: Permission) {
    exists i :: 0 <= i < |a.sites| && a.sites[i].active && p in PermissionsForSiteRole(a.sites[i].role)
  }

  // ----- owners -----

  /** The permissions of a user: those of the platform role and of every active membership. */
  predicate Effective(
      p: Permission, role: PlatformRole, orgs: seq<OrganizationMembership>, sites: seq<SiteMembership>) {
    || p in PermissionsForRole(role)
    || (exists i :: 0 <= i < |orgs| && orgs[i].active && p in PermissionsForOrganizationRole(orgs[i].role))
    || (exists i :: 0 <= i < |sites| && sites[i].active && p in PermissionsForSiteRole(sites[i].role))
  }

  /** An owner as loaded: each site belongs to one organization, and permissions are the effective ones. */
  ghost predicate Built(owner: Actor, siteOrg: string -> string) {
    && owner.platformPermissions == PermissionsForRole(owner.platformRole)
    && owner.apiKeyId == None
    && owner.uiScope == UiScopeFor(owner.platformRole, owner.permissions)
    && (forall i :: 0 <= i < |owner.sites| ==> owner.sites[i].organizationId == siteOrg(owner.sites[i].siteId))
    && (forall p :: p in owner.permissions <==> Effective(p, owner.platformRole, owner.organizations, owner.sites))
  }

  function AddAll(into: seq<Permission>, more: seq<Permission>): seq<Permission> {
    if more == [] then into
    else
      var init, last := AddAll(into, more[..|more| - 1]), more[|more| - 1];
      if last in init then init else init + [last]
  }

  lemma {:induction false} AddAllMembers(into: seq<Permission>, more: seq<Permission>)
    ensures forall p :: p in AddAll(into, more) <==> p in into || p in more
    decreases |more|
  {
    if more != [] {
      AddAllMembers(into, more[..|more| - 1]);
      assert more == more[..|more| - 1] + [more[|more| - 1]];
    }
  }

  predicate Distinct(ps: seq<Permission>) {
    forall i, j :: 0 <= i < j < |ps| ==> ps[i] != ps[j]
  }

  function Place(p: Permission): nat {
    match p
    case DeviceView => 0
    case DeviceCreate => 1
    case DeviceUpdate => 2
    case DeviceDelete => 3
    case DeviceEnroll => 4
    case DeviceRevokeVpn => 5
    case DeviceStartVnc => 6
    case DeviceStartRdp => 7
    case DeviceStartSsh => 8
    case CredentialReveal => 9
    case OrganizationAdmin => 10
    case SiteAdmin => 11
    case UserManage => 12
    case AuditView => 13
    case VpnAdminProfile => 14
  }

  lemma FullAccessDistinct()
    ensures Distinct(FULL_ACCESS) && Distinct([])
  {
    forall i | 0 <= i < |FULL_ACCESS| ensures Place(FULL_ACCESS[i]) == i {
    }
    hide FULL_ACCESS, Place;
  }

  lemma {:induction false} AddAllDistinct(into: seq<Permission>, more: seq<Permission>)
    requires Distinct(into)
    ensures Distinct(AddAll(into, more))
    decreases |more|
  {
    if more != [] {
      AddAllDistinct(into, more[..|more| - 1]);
    }
  }

  /** Loading an owner from its rows; the site rows carry the organization of their site. */
  method BuildOwner(
      role: PlatformRole, orgs: seq<OrganizationMembership>, sites: seq<SiteMembership>,
      ghost siteOrg: string -> string)
    returns (owner: Actor)
    requires forall i :: 0 <= i < |sites| ==> sites[i].organizationId == siteOrg(sites[i].siteId)
    ensures Built(owner, siteOrg) && owner.platformRole == role && owner.organizations == orgs && owner.sites == sites
    ensures Distinct(owner.permissions)
  {
    hide PermissionsForOrganizationRole, PermissionsForSiteRole;
    var platformPermissions := PermissionsForRole(role);
    var effective := platformPermissions;
    FullAccessDistinct();
    for i := 0 to |orgs|
      invariant Distinct(effective)
      invariant forall p :: p in effective <==> Effective(p, role, orgs[..i], [])
    {
      AddAllMembers(effective, PermissionsForOrganizationRole(orgs[i].role));
      AddAllDistinct(effective, PermissionsForOrganizationRole(orgs[i].role));
      forall p { EffectiveOneOrg(p, role, orgs, i); }
      if !orgs[i].active {
        continue;
      }
      effective := AddAll(effective, PermissionsForOrganizationRole(orgs[i].role));
    }
    assert orgs[..|orgs|] == orgs && sites[..0] == [];
    for i := 0 to |sites|
      invariant Distinct(effective)
      invariant forall p :: p in effective <==> Effective(p, role, orgs, sites[..i])
    {
      AddAllMembers(effective, PermissionsForSiteRole(sites[i].role));
      AddAllDistinct(effective, PermissionsForSiteRole(sites[i].role));
      forall p { EffectiveOneSite(p, role, orgs, sites, i); }
      if !sites[i].active {
        continue;
      }
      effective := AddAll(effective, PermissionsForSiteRole(sites[i].role));
    }
    assert sites[..|sites|] == sites;
    owner := Actor(role, platformPermissions, effective, orgs, sites, UiScopeFor(role, effective), None);
  }

  lemma EffectiveOneOrg(p: Permission, role: PlatformRole, orgs: seq<OrganizationMembership>, i: nat)
    requires i < |orgs|
    ensures Effective(p, role, orgs[..i + 1], [])
            <==> Effective(p, role, orgs[..i], [])
                 || (orgs[i].active && p in PermissionsForOrganizationRole(orgs[i].role))
  {
    hide PermissionsForRole, PermissionsForOrganizationRole, PermissionsForSiteRole;
    var a, b := orgs[..i], orgs[..i + 1];
    assert b[i] == orgs[i] && forall j :: 0 <= j < i ==> a[j] == b[j];
  }

  lemma EffectiveOneSite(
      p: Permission, role: PlatformRole, orgs: seq<OrganizationMembership>, sites: seq<SiteMembership>, i: nat)
    requires i < |sites|
    ensures Effective(p, role, orgs, sites[..i + 1])
            <==> Effective(p, role, orgs, sites[..i]) || (sites[i].active && p in PermissionsForSiteRole(sites[i].role))
  {
    hide PermissionsForRole, PermissionsForOrganizationRole, PermissionsForSiteRole;
    var a, b := sites[..i], sites[..i + 1];
    assert b[i] == sites[i] && forall j :: 0 <= j < i ==> a[j] == b[j];
  }

  // ----- a key never has more than its owner -----

  lemma {:induction false} SameOrganization(ms: seq<OrganizationMembership>, org: string, asked: string)
    ensures OrganizationMembershipFor(ActiveIn(ms, org), asked)
            == if asked == org then OrganizationMembershipFor(ms, org) else None
    ensures ActiveIn(ms, org) == [] <==> OrganizationMembershipFor(ms, org) == None
    decreases |ms|
  {
    if ms != [] {
      SameOrganization(ms[1..], org, asked);
      assert forall m, rest: seq<OrganizationMembership> :: ([m] + rest)[1..] == rest;
    }
  }

  /** Where every site has one organization, cutting a list down to one keeps or drops a site altogether. */
  lemma {:induction false} SameSite(ms: seq<SiteMembership>, org: string, site: string, siteOrg: string -> string)
    requires forall i :: 0 <= i < |ms| ==> ms[i].organizationId == siteOrg(ms[i].siteId)
    ensures SiteMembershipFor(SitesIn(ms, org), site)
            == if siteOrg(site) == org then SiteMembershipFor(ms, site) else None
    decreases |ms|
  {
    if ms != [] {
      assert forall i :: 0 <= i < |ms[1..]| ==> ms[1..][i] == ms[i + 1];
      SameSite(ms[1..], org, site, siteOrg);
      assert ([ms[0]] + SitesIn(ms[1..], org))[1..] == SitesIn(ms[1..], org);
    }
  }

  lemma {:induction false} SomeSite(ms: seq<SiteMembership>, org: string, p: Permission)
    ensures AnySiteAllowing(SitesIn(ms, org), p).Some? ==> AnySiteAllowing(ms, p).Some?
    ensures AnySiteAllowing(ms, p).Some? ==> p in PermissionsForSiteRole(AnySiteAllowing(ms, p).value.role)
    decreases |ms|
  {
    hide PermissionsForSiteRole;
    if ms != [] {
      SomeSite(ms[1..], org, p);
      assert ([ms[0]] + SitesIn(ms[1..], org))[1..] == SitesIn(ms[1..], org);
    }
  }

  predicate OrgAllows(a: Actor, p: Permission, org: string) {
    var m := OrganizationMembershipFor(a.organizations, org);
    m.Some? && p in PermissionsForOrganizationRole(m.value.role)
  }

  predicate SiteAllows(a: Actor, p: Permission, site: string) {
    var m := SiteMembershipFor(a.sites, site);
    m.Some? && p in PermissionsForSiteRole(m.value.role)
  }

  /** Whether memberships alone let an actor do something, apart from its platform role and key. */
  predicate MembershipAllows(a: Actor, p: Permission, r: Resource) {
    match r
    case Platform => false
    case Organization(org) => OrgAllows(a, p, org)
    case Site(org, site) => OrgAllows(a, p, org) || SiteAllows(a, p, site)
    case Device(org, site) => OrgAllows(a, p, org) || (site.Some? && SiteAllows(a, p, site.value))
    case Service(org, site) => OrgAllows(a, p, org) || (site.Some? && SiteAllows(a, p, site.value))
    case EnrollmentToken(org) => OrgAllows(a, p, org)
    case RoutePolicy(org) => Truthy(org).Some? && OrgAllows(a, p, org.value)
    case Audit(org, device) =>
      (Truthy(org).Some? && OrgAllows(a, p, org.value)) || (Truthy(device).Some? && AnySiteAllowing(a.sites, p).Some?)
    case UserManagement(org) => OrgAllows(a, p, org)
  }

  predicate PlatformAllows(a: Actor, p: Permission, r: Resource) {
    || a.platformRole == PlatformOwner
    || (p in a.platformPermissions && (a.platformRole == PlatformAdmin || r == Platform))
  }

  lemma DeviceAllowedIff(a: Actor, p: Permission, org: string, site: Option<string>)
    ensures DeviceDecision(a, p, org, site).allowed
            <==> OrgAllows(a, p, org) || (site.Some? && SiteAllows(a, p, site.value))
  {
    hide PermissionsForOrganizationRole, PermissionsForSiteRole, OrganizationMembershipFor, SiteMembershipFor;
  }

  lemma AuditAllowedIff(a: Actor, p: Permission, org: Option<string>, device: Option<string>)
    ensures AuditDecision(a, p, org, device).allowed
            <==> (Truthy(org).Some? && OrgAllows(a, p, org.value))
                 || (Truthy(device).Some? && AnySiteAllowing(a.sites, p).Some?)
  {
    SomeSite(a.sites, "", p);
    hide PermissionsForOrganizationRole, PermissionsForSiteRole, OrganizationMembershipFor, AnySiteAllowing;
  }

  lemma OrganizationAllowedIff(a: Actor, p: Permission, org: string, otherwise: Decision)
    ensures ByOrganizationRole(a, p, org, otherwise).allowed <==> OrgAllows(a, p, org) || otherwise.allowed
  {
    hide PermissionsForOrganizationRole, OrganizationMembershipFor;
  }

  lemma SiteAllowedIff(a: Actor, p: Permission, site: string, otherwise: Decision)
    ensures BySiteRole(SiteMembershipFor(a.sites, site), p, otherwise).allowed
            <==> SiteAllows(a, p, site) || otherwise.allowed
  {
    hide PermissionsForSiteRole, SiteMembershipFor;
  }

  lemma ScopeAllowedIff(a: Actor, p: Permission, r: Resource)
    ensures ScopeDecision(a, p, r).allowed
            <==> (r == Platform && p in a.platformPermissions) || MembershipAllows(a, p, r)
  {
    hide ByOrganizationRole, BySiteRole, DeviceDecision, AuditDecision, OrgAllows, SiteAllows, AnySiteAllowing;
    match r
    case Platform =>
    case Organization(org) => OrganizationAllowedIff(a, p, org, Decision(false, OutOfScope("organization_scope")));
    case Site(org, site) =>
      var bySite := BySiteRole(SiteMembershipFor(a.sites, site), p, Decision(false, OutOfScope("site_scope")));
      OrganizationAllowedIff(a, p, org, bySite);
      SiteAllowedIff(a, p, site, Decision(false, OutOfScope("site_scope")));
    case Device(org, site) => DeviceAllowedIff(a, p, org, site);
    case Service(org, site) => DeviceAllowedIff(a, p, org, site);
    case EnrollmentToken(org) => OrganizationAllowedIff(a, p, org, Decision(false, OutOfScope("enrollment_scope")));
    case RoutePolicy(org) =>
      if org.Some? {
        OrganizationAllowedIff(a, p, org.value, Decision(false, OutOfScope("route_policy_scope")));
      }
    case Audit(org, device) => AuditAllowedIff(a, p, org, device);
    case UserManagement(org) => OrganizationAllowedIff(a, p, org, Decision(false, OutOfScope("user_management_scope")));
  }

  /** The long case split of the authorizer, in three conditions. */
  lemma AllowedIff(a: Actor, p: Permission, r: Resource)
    ensures Authorize(a, p, r).allowed
            <==> (HasKeyId(a) ==> p in a.permissions) && (PlatformAllows(a, p, r) || MembershipAllows(a, p, r))
  {
    hide ScopeDecision, MembershipAllows;
    ScopeAllowedIff(a, p, r);
  }

  lemma {:induction false} SomeActiveIsFirst(ms: seq<OrganizationMembership>, org: string) returns (i: nat)
    requires !NoneActiveIn(ms, org)
    ensures FirstActiveIn(ms, org, i)
    decreases |ms|
  {
    if ms[0].organizationId == org && ms[0].active {
      i := 0;
    } else {
      assert !NoneActiveIn(ms[1..], org) by {
        assert forall j :: 1 <= j < |ms| ==> ms[j] == ms[1..][j - 1];
      }
      var k := SomeActiveIsFirst(ms[1..], org);
      i := k + 1;
    }
  }

  lemma {:induction false} SomeActiveIsFirstAt(ms: seq<SiteMembership>, site: string) returns (i: nat)
    requires !NoneActiveAt(ms, site)
    ensures FirstActiveAt(ms, site, i)
    decreases |ms|
  {
    if ms[0].siteId == site && ms[0].active {
      i := 0;
    } else {
      assert !NoneActiveAt(ms[1..], site) by {
        assert forall j :: 1 <= j < |ms| ==> ms[j] == ms[1..][j - 1];
      }
      var k := SomeActiveIsFirstAt(ms[1..], site);
      i := k + 1;
    }
  }

  lemma MayInIff(a: Actor, p: Permission, org: string)
    ensures OrgAllows(a, p, org) <==> MayIn(a, p, org)
  {
    OrganizationMembershipIs(a.organizations, org);
    hide OrganizationMembershipFor, PermissionsForOrganizationRole, OrganizationRoleMay;
    forall role ensures p in PermissionsForOrganizationRole(role) <==> OrganizationRoleMay(role, p) {
      RolesMay(p, role, SiteViewer, PlatformMember);
    }
    if !NoneActiveIn(a.organizations, org) {
      var i := SomeActiveIsFirst(a.organizations, org);
    }
  }

  lemma MayAtIff(a: Actor, p: Permission, site: string)
    ensures SiteAllows(a, p, site) <==> MayAt(a, p, site)
  {
    SiteMembershipIs(a.sites, site);
    hide SiteMembershipFor, PermissionsForSiteRole;
    if !NoneActiveAt(a.sites, site) {
      var i := SomeActiveIsFirstAt(a.sites, site);
    }
  }

  lemma {:induction false} MayAtSomeSiteIff(ms: seq<SiteMembership>, p: Permission)
    ensures AnySiteAllowing(ms, p).Some?
            <==> exists i :: 0 <= i < |ms| && ms[i].active && p in PermissionsForSiteRole(ms[i].role)
    decreases |ms|
  {
    hide PermissionsForSiteRole;
    if ms != [] {
      var rest := ms[1..];
      MayAtSomeSiteIff(rest, p);
      if i :| 0 <= i < |rest| && rest[i].active && p in PermissionsForSiteRole(rest[i].role) {
        assert ms[i + 1] == rest[i];
      }
      if i :| 1 <= i < |ms| && ms[i].active && p in PermissionsForSiteRole(ms[i].role) {
        assert rest[i - 1] == ms[i];
      }
    }
  }

  /** By the fields: what memberships give on each kind of resource. */
  ghost predicate MayOn(a: Actor, p: Permission, r: Resource) {
    match r
    case Platform => false
    case Organization(org) => MayIn(a, p, org)
    case Site(org, site) => MayIn(a, p, org) || MayAt(a, p, site)
    case Device(org, site) => MayIn(a, p, org) || (site != None && MayAt(a, p, site.value))
    case Service(org, site) => MayIn(a, p, org) || (site != None && MayAt(a, p, site.value))
    case EnrollmentToken(org) => MayIn(a, p, org)
    case RoutePolicy(org) => org != None && org.value != "" && MayIn(a, p, org.value)
    case Audit(org, device) =>
      || (org != None && org.value != "" && MayIn(a, p, org.value))
      || (device != None && device.value != "" && MayAtSomeSite(a, p))
    case UserManagement(org) => MayIn(a, p, org)
  }

  lemma MembershipMayIff(a: Actor, p: Permission, r: Resource)
    ensures MembershipAllows(a, p, r) <==> MayOn(a, p, r)
  {
    MayAtSomeSiteIff(a.sites, p);
    hide OrgAllows, SiteAllows, AnySiteAllowing, MayIn, MayAt;
    forall org ensures OrgAllows(a, p, org) <==> MayIn(a, p, org) { MayInIff(a, p, org); }
    forall site ensures SiteAllows(a, p, site) <==> MayAt(a, p, site) { MayAtIff(a, p, site); }
  }

  /**
   When an actor may: a key must grant it, and then it is the platform's owner, an admin with the
   platform permission, anyone with it on the platform itself, or someone whose membership gives it.
   */
  lemma AuthorizeIff(a: Actor, p: Permission, r: Resource)
    ensures Authorize(a, p, r).allowed
            <==> && (a.apiKeyId != None && a.apiKeyId.value != "" ==> p in a.permissions)
                 && (|| a.platformRole == PlatformOwner
                     || (p in a.platformPermissions && (a.platformRole == PlatformAdmin || r == Platform))
                     || MayOn(a, p, r))
  {
    AllowedIff(a, p, r);
    MembershipMayIff(a, p, r);
    hide Authorize, MembershipAllows, MayOn;
  }

  /** The scope named when a request is refused for want of a membership. */
  function RefusedScope(r: Resource): string
    requires !r.Platform?
  {
    match r
    case Organization(_) => "organization_scope"
    case Site(_, _) => "site_scope"
    case Device(_, _) => "device_scope"
    case Service(_, _) => "device_scope"
    case EnrollmentToken(_) => "enrollment_scope"
    case RoutePolicy(_) => "route_policy_scope"
    case Audit(_, _) => "audit_scope"
    case UserManagement(_) => "user_management_scope"
  }

  lemma RefusedAsGiven(a: Actor, p: Permission, org: string, site: Option<SiteMembership>, otherwise: Decision)
    ensures !ByOrganizationRole(a, p, org, otherwise).allowed ==> ByOrganizationRole(a, p, org, otherwise) == otherwise
    ensures !BySiteRole(site, p, otherwise).allowed ==> BySiteRole(site, p, otherwise) == otherwise
  {
  }

  lemma ScopeRefused(a: Actor, p: Permission, r: Resource)
    requires !ScopeDecision(a, p, r).allowed
    ensures ScopeDecision(a, p, r).reason == if r == Platform then ByPlatform else OutOfScope(RefusedScope(r))
  {
    hide ByOrganizationRole, BySiteRole, AnySiteAllowing, SiteMembershipFor;
    forall org, otherwise
      ensures var d := ByOrganizationRole(a, p, org, otherwise);
              !d.allowed ==> d == otherwise
    {
      RefusedAsGiven(a, p, org, None, otherwise);
    }
    forall site, otherwise
      ensures !BySiteRole(site, p, otherwise).allowed ==> BySiteRole(site, p, otherwise) == otherwise
    {
      RefusedAsGiven(a, p, "", site, otherwise);
    }
  }

  /** Why a request is refused: the key's grant comes first, then the scope of the resource. */
  lemma RefusedBecause(a: Actor, p: Permission, r: Resource)
    requires !Authorize(a, p, r).allowed
    ensures Authorize(a, p, r).reason
            == if a.apiKeyId != None && a.apiKeyId.value != "" && p !in a.permissions then ByApiKeyGrant
               else if r == Platform then ByPlatform else OutOfScope(RefusedScope(r))
  {
    hide ScopeDecision, RefusedScope;
    if !ScopeDecision(a, p, r).allowed {
      ScopeRefused(a, p, r);
    }
  }

  predicate ByRoleIn(a: Actor, p: Permission, org: string, reason: Reason) {
    OrgAllows(a, p, org) && reason == ByOrganization(OrganizationMembershipFor(a.organizations, org).value.role)
  }

  predicate ByRoleAt(a: Actor, p: Permission, site: string, reason: Reason) {
    SiteAllows(a, p, site) && reason == BySite(SiteMembershipFor(a.sites, site).value.role)
  }

  /** The membership a grant rests on: on devices a site role goes before one in the organization, else after. */
  predicate RestsOn(a: Actor, p: Permission, r: Resource, reason: Reason) {
    match r
    case Platform => reason == ByPlatform
    case Device(org, site) =>
      if site != None && SiteAllows(a, p, site.value) then ByRoleAt(a, p, site.value, reason)
      else ByRoleIn(a, p, org, reason)
    case Service(org, site) => reason == ByService(Authorize(a, p, Device(org, site)).reason)
    case Site(org, site) =>
      if OrgAllows(a, p, org) then ByRoleIn(a, p, org, reason) else ByRoleAt(a, p, site, reason)
    case Audit(org, device) =>
      if org != None && org.value != "" && OrgAllows(a, p, org.value) then ByRoleIn(a, p, org.value, reason)
      else AnySiteAllowing(a.sites, p).Some? && reason == BySite(AnySiteAllowing(a.sites, p).value.role)
    case Organization(org) => ByRoleIn(a, p, org, reason)
    case EnrollmentToken(org) => ByRoleIn(a, p, org, reason)
    case RoutePolicy(org) => org != None && ByRoleIn(a, p, org.value, reason)
    case UserManagement(org) => ByRoleIn(a, p, org, reason)
  }

  lemma DecidedByOrganization(a: Actor, p: Permission, org: string, otherwise: Decision)
    ensures var d := ByOrganizationRole(a, p, org, otherwise);
            if OrgAllows(a, p, org) then d.allowed && ByRoleIn(a, p, org, d.reason) else d == otherwise
  {
    hide PermissionsForOrganizationRole, OrganizationMembershipFor;
  }

  lemma DecidedBySite(a: Actor, p: Permission, site: Option<string>, otherwise: Decision)
    ensures var d := BySiteRole(SiteOf(a, site), p, otherwise);
            if site.Some? && SiteAllows(a, p, site.value) then d.allowed && ByRoleAt(a, p, site.value, d.reason)
            else d == otherwise
  {
    hide PermissionsForSiteRole, SiteMembershipFor;
  }

  lemma AnySiteRests(a: Actor, p: Permission, otherwise: Decision)
    ensures var m := AnySiteAllowing(a.sites, p);
            BySiteRole(m, p, otherwise) == if m.Some? then Decision(true, BySite(m.value.role)) else otherwise
  {
    SomeSite(a.sites, "", p);
    hide PermissionsForSiteRole, AnySiteAllowing;
  }

  /** On the membership's side alone, a grant names what it rests on. */
  lemma ScopeRests(a: Actor, p: Permission, r: Resource)
    requires ScopeDecision(a, p, r).allowed && !r.Service?
    ensures RestsOn(a, p, r, ScopeDecision(a, p, r).reason)
  {
    AnySiteRests(a, p, Decision(false, OutOfScope("audit_scope")));
    hide PermissionsForOrganizationRole, PermissionsForSiteRole, OrganizationMembershipFor, SiteMembershipFor,
      AnySiteAllowing, ByOrganizationRole, BySiteRole, OrgAllows, SiteAllows, ByRoleIn, ByRoleAt;
    forall org, otherwise
      ensures var d := ByOrganizationRole(a, p, org, otherwise);
              if OrgAllows(a, p, org) then d.allowed && ByRoleIn(a, p, org, d.reason) else d == otherwise
    {
      DecidedByOrganization(a, p, org, otherwise);
    }
    if r.Site? {
      DecidedBySite(a, p, Some(r.siteId), Decision(false, OutOfScope("site_scope")));
    } else if r.Device? {
      var byOrg := ByOrganizationRole(a, p, r.organizationId, Decision(false, OutOfScope("device_scope")));
      DecidedBySite(a, p, r.maybeSite, byOrg);
    }
  }

  lemma DeviceRests(a: Actor, p: Permission, org: string, site: Option<string>)
    requires DeviceDecision(a, p, org, site).allowed && a.platformRole != PlatformOwner
    requires !(a.platformRole == PlatformAdmin && p in a.platformPermissions) && (HasKeyId(a) ==> p in a.permissions)
    ensures Authorize(a, p, Device(org, site)).reason == DeviceDecision(a, p, org, site).reason
  {
    hide DeviceDecision;
  }

  /** Why it is granted: the platform role comes first. */
  lemma GrantedBecause(a: Actor, p: Permission, r: Resource)
    requires Authorize(a, p, r).allowed
    ensures var reason := Authorize(a, p, r).reason;
            if a.platformRole == PlatformOwner then reason == ByPlatformOwner
            else if a.platformRole == PlatformAdmin && p in a.platformPermissions then reason == ByPlatformAdmin
            else RestsOn(a, p, r, reason)
  {
    hide DeviceDecision, AuditDecision, ByOrganizationRole, BySiteRole, OrgAllows, SiteAllows, ByRoleIn, ByRoleAt;
    if a.platformRole != PlatformOwner && !(a.platformRole == PlatformAdmin && p in a.platformPermissions) {
      if r.Service? {
        DeviceRests(a, p, r.organizationId, r.maybeSite);
      } else {
        ScopeRests(a, p, r);
      }
    }
  }

  lemma OrgAllowsIsEffective(a: Actor, p: Permission, org: string)
    requires OrgAllows(a, p, org)
    ensures Effective(p, a.platformRole, a.organizations, a.sites)
  {
    hide PermissionsForOrganizationRole, PermissionsForSiteRole;
    OrganizationFound(a.organizations, org);
  }

  lemma SiteAllowsIsEffective(a: Actor, p: Permission, site: string)
    requires SiteAllows(a, p, site)
    ensures Effective(p, a.platformRole, a.organizations, a.sites)
  {
    hide PermissionsForOrganizationRole, PermissionsForSiteRole;
    SiteFound(a.sites, site);
  }

  lemma MembershipIsEffective(a: Actor, p: Permission, r: Resource)
    requires MembershipAllows(a, p, r)
    ensures Effective(p, a.platformRole, a.organizations, a.sites)
  {
    AnySiteFound(a.sites, p);
    hide OrgAllows, SiteAllows, PermissionsForOrganizationRole, PermissionsForSiteRole, PermissionsForRole;
    forall org | OrgAllows(a, p, org) ensures Effective(p, a.platformRole, a.organizations, a.sites) {
      OrgAllowsIsEffective(a, p, org);
    }
    forall site | SiteAllows(a, p, site) ensures Effective(p, a.platformRole, a.organizations, a.sites) {
      SiteAllowsIsEffective(a, p, site);
    }
  }

  /** Whatever an owner may do anywhere is among its permissions. */
  lemma AllowedIsEffective(owner: Actor, p: Permission, r: Resource, siteOrg: string -> string)
    requires Built(owner, siteOrg) && Authorize(owner, p, r).allowed
    ensures p in owner.permissions
  {
    AllowedIff(owner, p, r);
    FullAccessIsFull(p);
    hide Authorize, MembershipAllows, PermissionsForOrganizationRole, PermissionsForSiteRole;
    if MembershipAllows(owner, p, r) {
      MembershipIsEffective(owner, p, r);
    }
  }

  lemma {:induction false} OrganizationFound(ms: seq<OrganizationMembership>, org: string)
    ensures var m := OrganizationMembershipFor(ms, org);
            m.Some? ==> m.value.active && exists i :: 0 <= i < |ms| && ms[i] == m.value
    decreases |ms|
  {
    if ms != [] {
      OrganizationFound(ms[1..], org);
      assert forall i :: 0 <= i < |ms[1..]| ==> ms[1..][i] == ms[i + 1];
    }
  }

  lemma {:induction false} SiteFound(ms: seq<SiteMembership>, site: string)
    ensures var m := SiteMembershipFor(ms, site);
            m.Some? ==> m.value.active && exists i :: 0 <= i < |ms| && ms[i] == m.value
    decreases |ms|
  {
    if ms != [] {
      SiteFound(ms[1..], site);
      assert forall i :: 0 <= i < |ms[1..]| ==> ms[1..][i] == ms[i + 1];
    }
  }

  lemma {:induction false} AnySiteFound(ms: seq<SiteMembership>, p: Permission)
    ensures var m := AnySiteAllowing(ms, p);
            m.Some? ==> m.value.active && p in PermissionsForSiteRole(m.value.role)
                        && exists i :: 0 <= i < |ms| && ms[i] == m.value
    decreases |ms|
  {
    hide PermissionsForSiteRole;
    if ms != [] {
      AnySiteFound(ms[1..], p);
      assert forall i :: 0 <= i < |ms[1..]| ==> ms[1..][i] == ms[i + 1];
    }
  }

  lemma SameMemberships(a: Actor, b: Actor, p: Permission, r: Resource)
    requires a.organizations == b.organizations && a.sites == b.sites
    ensures MembershipAllows(a, p, r) <==> MembershipAllows(b, p, r)
  {
  }

  /** A key that is not tied to an organization allows exactly what its owner is allowed and the key grants. */
  lemma UnscopedKeyAllowsIff(owner: Actor, key: KeyGrant, p: Permission, r: Resource, siteOrg: string -> string)
    requires Built(owner, siteOrg) && key.id != "" && !Scoped(key)
    ensures Authorize(ActorForApiKey(owner, key), p, r).allowed
            <==> Authorize(owner, p, r).allowed && p in key.permissions
  {
    AllowedIff(owner, p, r);
    AllowedIff(ActorForApiKey(owner, key), p, r);
    IntersectMembers(owner.permissions, key.permissions);
    IntersectMembers(owner.platformPermissions, key.permissions);
    if Authorize(owner, p, r).allowed {
      AllowedIsEffective(owner, p, r, siteOrg);
    }
    hide Authorize, Effective, Intersect, OrgAllows, SiteAllows, AnySiteAllowing, UiScopeFor, MembershipAllows;
    SameMemberships(owner, ActorForApiKey(owner, key), p, r);
    FullAccessIsFull(p);
  }

  lemma {:induction false} ActiveInIs(ms: seq<OrganizationMembership>, org: string, m: OrganizationMembership)
    ensures m in ActiveIn(ms, org) <==> m in ms && m.organizationId == org && m.active
    decreases |ms|
  {
    if ms != [] {
      ActiveInIs(ms[1..], org, m);
      assert ms == [ms[0]] + ms[1..];
    }
  }

  lemma {:induction false} SitesInIs(ms: seq<SiteMembership>, org: string, m: SiteMembership)
    ensures m in SitesIn(ms, org) <==> m in ms && m.organizationId == org
    decreases |ms|
  {
    if ms != [] {
      SitesInIs(ms[1..], org, m);
      assert ms == [ms[0]] + ms[1..];
    }
  }

  /** The key names an organization. */
  predicate NamesOrganization(key: KeyGrant) {
    key.organizationId != None && key.organizationId.value != ""
  }

  /**
   The actor of a key: the grants its owner has, and the owner's roles; a key that names an
   organization leaves only the memberships there and no platform role, but a platform-wide owner
   without an active membership there counts as the organization's owner.
   */
  lemma KeyActorIs(owner: Actor, key: KeyGrant)
    ensures var a := ActorForApiKey(owner, key);
            && a.apiKeyId == Some(key.id) && a.uiScope == UiScopeFor(a.platformRole, a.permissions)
            && (forall p :: p in a.permissions <==> p in owner.permissions && p in key.permissions)
    ensures !NamesOrganization(key) ==>
              var a := ActorForApiKey(owner, key);
              && a.platformRole == owner.platformRole
              && a.organizations == owner.organizations && a.sites == owner.sites
              && (forall p :: p in a.platformPermissions <==> p in owner.platformPermissions && p in key.permissions)
    ensures NamesOrganization(key) ==>
              var a, org := ActorForApiKey(owner, key), key.organizationId.value;
              && a.platformRole == PlatformMember && a.platformPermissions == []
              && (forall m :: m in a.sites <==> m in owner.sites && m.organizationId == org)
              && (!NoneActiveIn(owner.organizations, org) ==>
                    forall m :: m in a.organizations <==>
                                  m in owner.organizations && m.organizationId == org && m.active)
              && (NoneActiveIn(owner.organizations, org) ==>
                    a.organizations == if owner.platformRole != PlatformMember
                                       then [OrganizationMembership(org, OrgOwner, true)] else [])
  {
    IntersectMembers(owner.permissions, key.permissions);
    IntersectMembers(owner.platformPermissions, key.permissions);
    hide Intersect, UiScopeFor;
    if NamesOrganization(key) {
      var org := key.organizationId.value;
      forall m ensures m in SitesIn(owner.sites, org) <==> m in owner.sites && m.organizationId == org {
        SitesInIs(owner.sites, org, m);
      }
      forall m
        ensures m in ActiveIn(owner.organizations, org)
                <==> m in owner.organizations && m.organizationId == org && m.active
      {
        ActiveInIs(owner.organizations, org, m);
      }
      SameOrganization(owner.organizations, org, org);
      OrganizationMembershipIs(owner.organizations, org);
      hide SitesIn, ActiveIn, OrganizationMembershipFor;
    }
  }

  lemma ScopedOrgAllows(owner: Actor, key: KeyGrant, p: Permission, asked: string)
    requires Scoped(key) && OrgAllows(ActorForApiKey(owner, key), p, asked)
    ensures asked == key.organizationId.value && (OrgAllows(owner, p, asked) || PlatformWide(owner))
  {
    hide PermissionsForOrganizationRole, Intersect, UiScopeFor;
    SameOrganization(owner.organizations, key.organizationId.value, asked);
    var org := key.organizationId.value;
    assert OrganizationMembershipFor([OrganizationMembership(org, OrgOwner, true)][1..], asked) == None;
  }

  lemma ScopedSiteAllows(owner: Actor, key: KeyGrant, p: Permission, site: string, siteOrg: string -> string)
    requires Built(owner, siteOrg) && Scoped(key) && SiteAllows(ActorForApiKey(owner, key), p, site)
    ensures siteOrg(site) == key.organizationId.value && SiteAllows(owner, p, site)
  {
    hide PermissionsForSiteRole, Intersect, UiScopeFor, Effective;
    SameSite(owner.sites, key.organizationId.value, site, siteOrg);
  }

  /** The owner is allowed whatever the key's own memberships allow. */
  lemma ScopedMembershipAllows(owner: Actor, key: KeyGrant, p: Permission, r: Resource, siteOrg: string -> string)
    requires Built(owner, siteOrg) && Scoped(key) && MembershipAllows(ActorForApiKey(owner, key), p, r)
    ensures MembershipAllows(owner, p, r) || PlatformWide(owner)
  {
    var actor := ActorForApiKey(owner, key);
    assert actor.sites == SitesIn(owner.sites, key.organizationId.value);
    SomeSite(owner.sites, key.organizationId.value, p);
    hide OrgAllows, SiteAllows, AnySiteAllowing, ActorForApiKey, Built;
    forall org | OrgAllows(actor, p, org) ensures OrgAllows(owner, p, org) || PlatformWide(owner) {
      ScopedOrgAllows(owner, key, p, org);
    }
    forall site | SiteAllows(actor, p, site) ensures SiteAllows(owner, p, site) {
      ScopedSiteAllows(owner, key, p, site, siteOrg);
    }
  }

  lemma PlatformWideAllows(owner: Actor, p: Permission, r: Resource, siteOrg: string -> string)
    requires Built(owner, siteOrg) && PlatformWide(owner)
    ensures Authorize(owner, p, r).allowed
  {
    AllowedIff(owner, p, r);
    FullAccessIsFull(p);
  }

  /** The actor of a key is allowed nothing that its owner is not, and nothing the key does not grant. */
  lemma KeyNeverExceedsOwner(owner: Actor, key: KeyGrant, p: Permission, r: Resource, siteOrg: string -> string)
    requires Built(owner, siteOrg) && key.id != ""
    requires Authorize(ActorForApiKey(owner, key), p, r).allowed
    ensures Authorize(owner, p, r).allowed && p in key.permissions && p in owner.permissions
  {
    var actor := ActorForApiKey(owner, key);
    if !Scoped(key) {
      UnscopedKeyAllowsIff(owner, key, p, r, siteOrg);
    } else {
      AllowedIff(actor, p, r);
      AllowedIff(owner, p, r);
      hide Authorize, Effective, MembershipAllows, UiScopeFor;
      ScopedMembershipAllows(owner, key, p, r, siteOrg);
      if PlatformWide(owner) {
        PlatformWideAllows(owner, p, r, siteOrg);
      }
    }
    IntersectMembers(owner.permissions, key.permissions);
  }

  /** The organizations a resource lies in: its own, or that of its site. */
  predicate LiesIn(r: Resource, org: string, siteOrg: string -> string) {
    match r
    case Platform => false
    case Organization(o) => o == org
    case Site(o, site) => o == org || siteOrg(site) == org
    case Device(o, site) => o == org || (site.Some? && siteOrg(site.value) == org)
    case Service(o, site) => o == org || (site.Some? && siteOrg(site.value) == org)
    case EnrollmentToken(o) => o == org
    case RoutePolicy(o) => o == Some(org)
    case Audit(o, _) => o == Some(org)
    case UserManagement(o) => o == org
  }

  predicate RoleIn(m: SiteMembership, org: string, p: Permission) {
    m.organizationId == org && m.active && p in PermissionsForSiteRole(m.role)
  }

  /** Some active site membership in the organization has a role with the permission. */
  ghost predicate SiteRoleIn(ms: seq<SiteMembership>, org: string, p: Permission) {
    exists i :: 0 <= i < |ms| && RoleIn(ms[i], org, p)
  }

  lemma SiteRoleFirst(ms: seq<SiteMembership>, org: string, p: Permission)
    requires ms != []
    ensures SiteRoleIn(ms, org, p) <==> RoleIn(ms[0], org, p) || SiteRoleIn(ms[1..], org, p)
  {
    hide RoleIn;
    var rest := ms[1..];
    if i :| 0 <= i < |rest| && RoleIn(rest[i], org, p) {
      assert ms[i + 1] == rest[i];
    }
    if i :| 1 <= i < |ms| && RoleIn(ms[i], org, p) {
      assert rest[i - 1] == ms[i];
    }
  }

  lemma {:induction false} AnySiteInIff(ms: seq<SiteMembership>, org: string, p: Permission)
    ensures AnySiteAllowing(SitesIn(ms, org), p).Some? <==> SiteRoleIn(ms, org, p)
    decreases |ms|
  {
    hide PermissionsForSiteRole;
    if ms != [] {
      SiteRoleFirst(ms, org, p);
      hide SiteRoleIn;
      AnySiteInIff(ms[1..], org, p);
      assert ([ms[0]] + SitesIn(ms[1..], org))[1..] == SitesIn(ms[1..], org);
    }
  }

  lemma OutsideMembership(owner: Actor, key: KeyGrant, p: Permission, r: Resource, siteOrg: string -> string)
    requires Built(owner, siteOrg) && Scoped(key) && !LiesIn(r, key.organizationId.value, siteOrg)
    ensures MembershipAllows(ActorForApiKey(owner, key), p, r)
            <==> r.Audit? && Truthy(r.deviceId).Some? && SiteRoleIn(owner.sites, key.organizationId.value, p)
  {
    var actor := ActorForApiKey(owner, key);
    assert actor.sites == SitesIn(owner.sites, key.organizationId.value);
    AnySiteInIff(owner.sites, key.organizationId.value, p);
    hide OrgAllows, SiteAllows, ActorForApiKey, Built, AnySiteAllowing, SitesIn, SiteRoleIn;
    forall org | OrgAllows(actor, p, org) ensures org == key.organizationId.value {
      ScopedOrgAllows(owner, key, p, org);
    }
    forall site | SiteAllows(actor, p, site) ensures siteOrg(site) == key.organizationId.value {
      ScopedSiteAllows(owner, key, p, site, siteOrg);
    }
  }

  lemma SiteRoleIsEffective(owner: Actor, org: string, p: Permission, siteOrg: string -> string)
    requires Built(owner, siteOrg) && SiteRoleIn(owner.sites, org, p)
    ensures p in owner.permissions
  {
    hide PermissionsForSiteRole, PermissionsForOrganizationRole, PermissionsForRole;
  }

  /**
   Outside its organization a key tied to one reaches exactly the audit trails of single devices,
   when it grants the permission and its owner has a site role with it inside the organization.
   */
  lemma ScopedKeyIsConfined(owner: Actor, key: KeyGrant, p: Permission, r: Resource, siteOrg: string -> string)
    requires Built(owner, siteOrg) && Scoped(key) && !LiesIn(r, key.organizationId.value, siteOrg)
    ensures Authorize(ActorForApiKey(owner, key), p, r).allowed
            <==> && r.Audit? && Truthy(r.deviceId).Some?
                 && (key.id == "" || p in key.permissions) && SiteRoleIn(owner.sites, key.organizationId.value, p)
  {
    var actor := ActorForApiKey(owner, key);
    AllowedIff(actor, p, r);
    assert actor.platformRole == PlatformMember && actor.platformPermissions == [];
    assert !PlatformAllows(actor, p, r) && (HasKeyId(actor) <==> key.id != "");
    IntersectMembers(owner.permissions, key.permissions);
    assert p in actor.permissions <==> p in owner.permissions && p in key.permissions;
    OutsideMembership(owner, key, p, r, siteOrg);
    hide *;
    if SiteRoleIn(owner.sites, key.organizationId.value, p) {
      SiteRoleIsEffective(owner, key.organizationId.value, p, siteOrg);
    }
  }

  /** A viewer at one site of organization "a". */
  function OneSiteViewer(): Actor {
    Actor(PlatformMember, [], [DeviceView, AuditView], [], [SiteMembership("s", "a", SiteViewer, true)],
      TechnicianShell, None)
  }

  /** A key tied to organization "a" opens the trail of a device of organization "b". */
  lemma OtherTrailIsReached(siteOrg: string -> string)
    requires siteOrg("s") == "a"
    ensures var key, trail := KeyGrant("k", Some("a"), [AuditView]), Audit(Some("b"), Some("d"));
            && Built(OneSiteViewer(), siteOrg) && !LiesIn(trail, "a", siteOrg)
            && Authorize(ActorForApiKey(OneSiteViewer(), key), AuditView, trail).allowed
  {
    var key, trail := KeyGrant("k", Some("a"), [AuditView]), Audit(Some("b"), Some("d"));
    var owner := OneSiteViewer();
    assert Built(owner, siteOrg) by { ViewerIsBuilt(siteOrg); }
    assert VIEWER[1] == AuditView;
    assert RoleIn(owner.sites[0], "a", AuditView);
    assert SiteRoleIn(owner.sites, "a", AuditView);
    assert key.permissions[0] == AuditView;
    hide Built, Authorize, ActorForApiKey, SiteRoleIn, PermissionsForSiteRole, OneSiteViewer;
    ScopedKeyIsConfined(owner, key, AuditView, trail, siteOrg);
  }

  lemma ViewerIsBuilt(siteOrg: string -> string)
    requires siteOrg("s") == "a"
    ensures Built(OneSiteViewer(), siteOrg)
  {
    var owner := OneSiteViewer();
    assert owner.permissions == VIEWER;
    forall p ensures p in owner.permissions <==> Effective(p, owner.platformRole, owner.organizations, owner.sites) {
      assert owner.sites[0].active && PermissionsForSiteRole(owner.sites[0].role) == VIEWER;
    }
    forall i | 0 <= i < |MANAGEMENT| ensures MANAGEMENT[i] !in owner.permissions {
    }
  }

  /** A resource wholly inside one organization, its site included; an audit trail only as a whole. */
  predicate WhollyIn(r: Resource, org: string, siteOrg: string -> string) {
    match r
    case Platform => false
    case Organization(o) => o == org
    case Site(o, site) => o == org && siteOrg(site) == org
    case Device(o, site) => o == org && (site.Some? ==> siteOrg(site.value) == org)
    case Service(o, site) => o == org && (site.Some? ==> siteOrg(site.value) == org)
    case EnrollmentToken(o) => o == org
    case RoutePolicy(o) => o == Some(org)
    case Audit(o, device) => o == Some(org) && Truthy(device).None?
    case UserManagement(o) => o == org
  }

  lemma ScopedKeepsOwn(owner: Actor, key: KeyGrant, p: Permission, site: string, siteOrg: string -> string)
    requires Built(owner, siteOrg) && Scoped(key) && !PlatformWide(owner)
    ensures var actor, org := ActorForApiKey(owner, key), key.organizationId.value;
            && (OrgAllows(actor, p, org) <==> OrgAllows(owner, p, org))
            && (siteOrg(site) == org ==> (SiteAllows(actor, p, site) <==> SiteAllows(owner, p, site)))
  {
    hide PermissionsForOrganizationRole, PermissionsForSiteRole, Intersect, UiScopeFor, Effective;
    SameOrganization(owner.organizations, key.organizationId.value, key.organizationId.value);
    SameSite(owner.sites, key.organizationId.value, site, siteOrg);
  }

  lemma ScopedMembershipIff(owner: Actor, key: KeyGrant, p: Permission, r: Resource, siteOrg: string -> string)
    requires Built(owner, siteOrg) && Scoped(key) && !PlatformWide(owner)
    requires WhollyIn(r, key.organizationId.value, siteOrg)
    ensures MembershipAllows(ActorForApiKey(owner, key), p, r) <==> MembershipAllows(owner, p, r)
  {
    hide ActorForApiKey, Built, OrgAllows, SiteAllows, AnySiteAllowing;
    ScopedKeepsOwn(owner, key, p, "", siteOrg);
    if r.Site? {
      ScopedKeepsOwn(owner, key, p, r.siteId, siteOrg);
    } else if (r.Device? || r.Service?) && r.maybeSite.Some? {
      ScopedKeepsOwn(owner, key, p, r.maybeSite.value, siteOrg);
    }
  }

  lemma ScopedActor(owner: Actor, key: KeyGrant, p: Permission, r: Resource, siteOrg: string -> string)
    requires Built(owner, siteOrg) && key.id != "" && Scoped(key) && !PlatformWide(owner)
    ensures var actor := ActorForApiKey(owner, key);
            && HasKeyId(actor) && !HasKeyId(owner) && !PlatformAllows(actor, p, r) && !PlatformAllows(owner, p, r)
            && (p in actor.permissions <==> p in owner.permissions && p in key.permissions)
  {
    hide Effective, UiScopeFor;
    IntersectMembers(owner.permissions, key.permissions);
  }

  /** Inside its organization such a key of an ordinary member allows exactly what the member may and the key grants. */
  lemma ScopedKeyAllowsIff(owner: Actor, key: KeyGrant, p: Permission, r: Resource, siteOrg: string -> string)
    requires Built(owner, siteOrg) && key.id != "" && Scoped(key) && !PlatformWide(owner)
    requires WhollyIn(r, key.organizationId.value, siteOrg)
    ensures Authorize(ActorForApiKey(owner, key), p, r).allowed
            <==> Authorize(owner, p, r).allowed && p in key.permissions
  {
    hide *;
    AllowedIff(ActorForApiKey(owner, key), p, r);
    AllowedIff(owner, p, r);
    ScopedActor(owner, key, p, r, siteOrg);
    ScopedMembershipIff(owner, key, p, r, siteOrg);
    if Authorize(owner, p, r).allowed {
      AllowedIsEffective(owner, p, r, siteOrg);
    }
  }

  /** Nor does a key get the full console where its owner does not. */
  lemma KeyConsoleWithinOwners(owner: Actor, key: KeyGrant, siteOrg: string -> string)
    requires Built(owner, siteOrg) && ActorForApiKey(owner, key).uiScope == AdminShell
    ensures owner.uiScope == AdminShell
  {
    IntersectMembers(owner.permissions, key.permissions);
    hide Effective, Intersect;
  }

  /** Two memberships of one site under different organizations: the case a loaded owner never has. */
  function SplitSiteOwner(): Actor {
    Actor(PlatformMember, [], [DeviceView, AuditView, DeviceUpdate],
          [], [SiteMembership("s", "a", SiteViewer, true), SiteMembership("s", "b", SiteTechnician, true)],
          TechnicianShell, None)
  }

  /** Were a site listed under two organizations, a key could exceed its owner. */
  lemma OneOrganizationPerSiteIsNeeded()
    ensures var key, r := KeyGrant("k", Some("b"), [DeviceUpdate]), Site("b", "s");
            && Authorize(ActorForApiKey(SplitSiteOwner(), key), DeviceUpdate, r).allowed
            && !Authorize(SplitSiteOwner(), DeviceUpdate, r).allowed
  {
    var key, r := KeyGrant("k", Some("b"), [DeviceUpdate]), Site("b", "s");
    var owner := SplitSiteOwner();
    var actor := ActorForApiKey(owner, key);
    AllowedIff(owner, DeviceUpdate, r);
    AllowedIff(actor, DeviceUpdate, r);
    IntersectMembers(owner.permissions, key.permissions);
    assert owner.permissions[2] == DeviceUpdate && key.permissions[0] == DeviceUpdate;
    hide Authorize;
    var second := owner.sites[1];
    assert owner.sites[1..] == [second] && [second][1..] == [];
    assert SitesIn([second], "b") == [second] by { assert SitesIn([], "b") == []; }
    assert actor.sites == [second];
    assert TECHNICIAN[1] == DeviceUpdate;
    assert SiteAllows(actor, DeviceUpdate, "s");
    assert !SiteAllows(owner, DeviceUpdate, "s");
  }
}
