/** Role-based permissions for the dashboard. A user's role is the string kept under
    `role` in the identity provider's public metadata for that user. */
module Permissions {
  import opened Wrappers

  datatype Role = Admin | Editor | Viewer

  datatype Permission =
    | ManageUsers
    | ManageBlog
    | ManageContacts
    | ManageGallery
    | ViewReports
    | EditSettings

  /** The metadata string naming each role. */
  function RoleName(r: Role): (name: string)
    ensures name != ""
  {
    match r
    case Admin => "admin"
    case Editor => "editor"
    case Viewer => "viewer"
  }

  /** The role a metadata string names, if any. */
  function ParseRole(s: string): (r: Option<Role>)
    ensures r.Some? ==> RoleName(r.value) == s
    ensures r.None? ==> s != "admin" && s != "editor" && s != "viewer"
  {
    if s == "admin" then Some(Admin)
    else if s == "editor" then Some(Editor)
    else if s == "viewer" then Some(Viewer)
    else None
  }

  lemma ParseRoleName(r: Role)
    ensures ParseRole(RoleName(r)) == Some(r)
  {
  }

  /** The fixed permission table `rolePermissions[role][permission]`. Administrators hold
      every permission, editors all but user management and settings, and viewers may
      only view reports. */
  function HasRolePermission(role: Role, p: Permission): (granted: bool)
    ensures role == Admin ==> granted
    ensures role == Editor ==> (granted <==> p != ManageUsers && p != EditSettings)
    ensures role == Viewer ==> (granted <==> p == ViewReports)
  {
    match role
    case Admin => true
    case Editor => !(p.ManageUsers? || p.EditSettings?)
    case Viewer => p.ViewReports?
  }

  /** Privilege order: viewer below editor below administrator. */
  function Rank(r: Role): nat {
    match r
    case Viewer => 0
    case Editor => 1
    case Admin => 2
  }

  /** A higher role has every permission of a lower one. */
  lemma PermissionsMonotone(lower: Role, higher: Role, p: Permission)
    requires Rank(lower) <= Rank(higher)
    ensures HasRolePermission(lower, p) ==> HasRolePermission(higher, p)
  {
  }

  /** Every role may view reports; only administrators manage users or edit settings. */
  lemma PermissionTable(role: Role)
    ensures HasRolePermission(role, ViewReports)
    ensures HasRolePermission(role, ManageUsers) <==> role == Admin
    ensures HasRolePermission(role, EditSettings) <==> role == Admin
  {
  }

  /** The part of the identity provider's user record the permission checks read. */
  datatype ClerkUser = ClerkUser(roleMetadata: Option<string>)

  /** `(metadata.role as Role) || "viewer"`: a missing or empty role string means viewer;
      any other string is kept as it is, whether or not it names a role. */
  function RoleString(u: ClerkUser): (role: string)
    ensures role != ""
    ensures u.roleMetadata.Some? && u.roleMetadata.value != "" ==> role == u.roleMetadata.value
    ensures (u.roleMetadata.None? || u.roleMetadata.value == "") ==> role == RoleName(Viewer)
  {
    OptOrElse(u.roleMetadata, "viewer")
  }

  /** The permission table looked up by a role string: an unknown string makes the lookup
      fail, which the caller reports as no permission. */
  function LookUp(role: string, p: Permission): (granted: bool)
    ensures ParseRole(role).None? ==> !granted
    ensures ParseRole(role).Some? ==> granted == HasRolePermission(ParseRole(role).value, p)
  {
    match ParseRole(role)
    case Some(r) => HasRolePermission(r, p)
    case None => false
  }

  predicate SignedIn(session: Outcome<Option<string>>) {
    session.Returned? && session.value.Some? && session.value.value != ""
  }

  /** `hasPermission(permission)` given the results of the session lookup (a user id or none)
      and of the current-user lookup (a user or none). Any failure denies. */
  function HasPermission(session: Outcome<Option<string>>, user: Outcome<Option<ClerkUser>>, p: Permission): (granted: bool)
    ensures !SignedIn(session) ==> !granted
    ensures (user.Threw? || user.value.None?) ==> !granted
    ensures SignedIn(session) && user.Returned? && user.value.Some? ==>
      granted == LookUp(RoleString(user.value.value), p)
  {
    if !SignedIn(session) then false
    else match user
      case Threw => false
      case Returned(None) => false
      case Returned(Some(u)) => LookUp(RoleString(u), p)
  }

  /** `getUserRole()` given the result of the current-user lookup: the role string, or
      `"viewer"` when there is no user, no role, an empty role or the lookup threw. */
  function GetUserRole(user: Outcome<Option<ClerkUser>>): (role: string)
    ensures role != ""
    ensures user.Threw? || user.value.None? ==> role == RoleName(Viewer)
    ensures user.Returned? && user.value.Some? ==> role == RoleString(user.value.value)
  {
    match user
    case Returned(Some(u)) => RoleString(u)
    case _ => "viewer"
  }

  /** For a signed-in user the permission check agrees with the reported role: it grants
      exactly what the table grants that role, and nothing when the role is unknown. */
  lemma HasPermissionAgreesWithRole(session: Outcome<Option<string>>, user: Outcome<Option<ClerkUser>>, p: Permission)
    requires SignedIn(session) && user.Returned? && user.value.Some?
    ensures HasPermission(session, user, p)
      <==> ParseRole(GetUserRole(user)).Some? && HasRolePermission(ParseRole(GetUserRole(user)).value, p)
  {
  }

  /** A signed-in user without a role may view reports and nothing else. */
  lemma NoRoleMeansViewer(session: Outcome<Option<string>>, p: Permission)
    requires SignedIn(session)
    ensures HasPermission(session, Returned(Some(ClerkUser(None))), p) <==> p == ViewReports
    ensures HasPermission(session, Returned(Some(ClerkUser(Some("")))), p) <==> p == ViewReports
  {
  }

  /** A role string outside the three roles grants nothing, not even reports. */
  lemma UnknownRoleGrantsNothing(session: Outcome<Option<string>>, s: string, p: Permission)
    requires s != "" && ParseRole(s).None?
    ensures !HasPermission(session, Returned(Some(ClerkUser(Some(s)))), p)
    ensures GetUserRole(Returned(Some(ClerkUser(Some(s))))) == s
  {
  }
}
