/** The dashboard's user administration page: the user list and its search, the invitation
    form, role changes, banning and deletion, and the role badge. */
module Users {
  import opened Wrappers
  import opened JsText
  import Seqs

  /** A user's `publicMetadata`. */
  datatype Metadata = Metadata(role: Option<string>, banned: Option<bool>)

  /** A user as the users endpoint lists it; `emails` are the `emailAddress` values of
      `emailAddresses`, in order. */
  datatype User = User(
    id: string,
    firstName: Option<string>,
    lastName: Option<string>,
    emails: seq<string>,
    imageUrl: Option<string>,
    metadata: Metadata,
    createdAt: string,
    lastSignInAt: Option<string>)

  /** A pending invitation. */
  datatype Invitation = Invitation(id: string, emailAddress: string, role: Option<string>, createdAt: string, status: string)

  function UserId(u: User): string {
    u.id
  }

  /** The three texts the search looks in: `"first last"`, the first email and the role,
      each lowercased, or `""` where the user has none. */
  function FullName(t: Tables, u: User): string {
    ToLower(t, OptOrElse(u.firstName, "") + " " + OptOrElse(u.lastName, ""))
  }

  function FirstEmail(t: Tables, u: User): string {
    if u.emails == [] then "" else ToLower(t, u.emails[0])
  }

  function RoleText(t: Tables, u: User): string {
    if u.metadata.role.Some? then ToLower(t, u.metadata.role.value) else ""
  }

  /** The search of the users page; the term is lowercased but not trimmed. */
  function UserMatches(t: Tables, term: string): User -> bool {
    (u: User) =>
      Contains(FullName(t, u), ToLower(t, term))
      || Contains(FirstEmail(t, u), ToLower(t, term))
      || Contains(RoleText(t, u), ToLower(t, term))
  }

  /** `filteredUsers`. */
  function FilterUsers(t: Tables, users: seq<User>, term: string): (r: seq<User>)
    ensures |r| <= |users|
    ensures forall i :: 0 <= i < |r| ==> UserMatches(t, term)(r[i])
  {
    Seqs.Filter(users, UserMatches(t, term))
  }

  /** The list keeps, in order, exactly the users whose name, first email or role contains
      the term, and the empty term keeps everyone. */
  lemma FilterUsersSelects(t: Tables, users: seq<User>, term: string)
    ensures Seqs.IsSubsequence(FilterUsers(t, users, term), users)
    ensures forall i :: 0 <= i < |users| && UserMatches(t, term)(users[i]) ==> users[i] in FilterUsers(t, users, term)
    ensures term == "" ==> FilterUsers(t, users, term) == users
  {
    Seqs.FilterIsSubsequence(users, UserMatches(t, term));
    if term == "" {
      LowerEmpty(t);
      forall i | 0 <= i < |users| ensures UserMatches(t, term)(users[i]) {
        ContainsEmpty(FullName(t, users[i]));
      }
      Seqs.FilterKeepsAll(users, UserMatches(t, term));
    }
  }

  function HasId(id: string): User -> bool {
    (u: User) => u.id == id
  }

  function WithRole(role: string): User -> User {
    (u: User) => u.(metadata := u.metadata.(role := Some(role)))
  }

  function WithBanned(banned: bool): User -> User {
    (u: User) => u.(metadata := u.metadata.(banned := Some(banned)))
  }

  /** The list after `handleUpdateRole(id, role)` succeeded. */
  function RoleUpdated(users: seq<User>, id: string, role: string): (r: seq<User>)
    ensures |r| == |users|
  {
    Seqs.UpdateWhere(users, HasId(id), WithRole(role))
  }

  /** The list after a ban (`banned` true) or an unban (`banned` false) succeeded. */
  function BanUpdated(users: seq<User>, id: string, banned: bool): (r: seq<User>)
    ensures |r| == |users|
  {
    Seqs.UpdateWhere(users, HasId(id), WithBanned(banned))
  }

  /** A role change touches only the role of the users with that id; a ban or unban only
      their `banned` flag. Every other field, and every other user, stays as it was. */
  lemma UpdatesTouchOneField(users: seq<User>, id: string, role: string, banned: bool)
    ensures forall i :: 0 <= i < |users| ==>
      RoleUpdated(users, id, role)[i] == if users[i].id == id then users[i].(metadata := Metadata(Some(role), users[i].metadata.banned)) else users[i]
    ensures forall i :: 0 <= i < |users| ==>
      BanUpdated(users, id, banned)[i] == if users[i].id == id then users[i].(metadata := Metadata(users[i].metadata.role, Some(banned))) else users[i]
  {
  }

  /** Banning and then unbanning leaves every user unbanned where the id matches and
      changes nobody's role. */
  lemma UnbanAfterBan(users: seq<User>, id: string)
    ensures var r := BanUpdated(BanUpdated(users, id, true), id, false);
      |r| == |users| && forall i :: 0 <= i < |users| ==>
        r[i].metadata.role == users[i].metadata.role
        && (users[i].id == id ==> r[i].metadata.banned == Some(false))
        && (users[i].id != id ==> r[i] == users[i])
  {
    var b := BanUpdated(users, id, true);
    assert forall i :: 0 <= i < |users| ==> b[i].id == users[i].id;
  }

  /** The badge of a role: the role itself, or `"viewer"` when there is none. */
  function RoleBadgeText(role: Option<string>): (text: string)
    ensures text != ""
    ensures role.Some? && role.value != "" ==> text == role.value
  {
    OptOrElse(role, "viewer")
  }

  /** A user without a role is shown as a viewer. */
  lemma MissingRoleShowsViewer()
    ensures RoleBadgeText(None) == "viewer" && RoleBadgeText(Some("")) == "viewer"
  {
  }

  /** The invitation form's inputs. */
  datatype InviteForm = InviteForm(email: string, role: string, firstName: string, lastName: string)

  const BlankInvite := InviteForm("", "viewer", "", "")

  /** `handleSendInvite` refuses a form whose email or role is empty. */
  predicate CanInvite(f: InviteForm) {
    f.email != "" && f.role != ""
  }

  /** Everything the page holds. An invitation the endpoint answers with is kept as it came:
      `None` when the answer has no `invitation` field. */
  datatype UsersView = UsersView(
    users: seq<User>,
    invitations: seq<Option<Invitation>>,
    loading: bool,
    searchTerm: string,
    selectedUserId: Option<string>,
    invite: InviteForm)

  class UsersPage {
    var view: UsersView

    constructor ()
      ensures view == UsersView([], [], true, "", None, BlankInvite)
    {
      view := UsersView([], [], true, "", None, BlankInvite);
    }

    /** The rows shown for the current search. */
    function Shown(t: Tables): (rows: seq<User>)
      reads this
      ensures Seqs.IsSubsequence(rows, view.users)
    {
      FilterUsersSelects(t, view.users, view.searchTerm);
      FilterUsers(t, view.users, view.searchTerm)
    }

    /** The load effect given the listing (or `Threw`) and the sample invitation it shows. */
    method LoadUsers(listing: Outcome<seq<User>>, sample: Invitation)
      modifies this
      ensures view == old(view).(users := if listing.Returned? then listing.value else old(view.users),
                                 invitations := if listing.Returned? then [Some(sample)] else old(view.invitations),
                                 loading := false)
    {
      var v := view;
      view := v.(users := if listing.Returned? then listing.value else v.users,
                 invitations := if listing.Returned? then [Some(sample)] else v.invitations,
                 loading := false);
    }

    method SetSearchTerm(term: string)
      modifies this
      ensures view == old(view).(searchTerm := term)
    {
      view := view.(searchTerm := term);
    }

    /** Typing into the invitation form. */
    method SetInvite(f: InviteForm)
      modifies this
      ensures view == old(view).(invite := f)
    {
      view := view.(invite := f);
    }

    /** `handleSendInvite` given the endpoint's answer (or `Threw`). An empty email or role
        sends nothing. Otherwise the form's fields are sent; on success the answer goes at
        the end of the invitations and the form is reset with the role back to `"viewer"`;
        on failure nothing changes. */
    method SendInvite(answer: Outcome<Option<Invitation>>) returns (sent: Option<InviteForm>)
      modifies this
      ensures CanInvite(old(view.invite)) <==> sent == Some(old(view.invite))
      ensures !CanInvite(old(view.invite)) ==> sent.None?
      ensures CanInvite(old(view.invite)) && answer.Returned? ==>
        view == old(view).(invitations := old(view.invitations) + [answer.value], invite := BlankInvite)
      ensures !CanInvite(old(view.invite)) || answer.Threw? ==> view == old(view)
    {
      var v := view;
      var ok := CanInvite(v.invite);
      sent := if ok then Some(v.invite) else None;
      view := if ok && answer.Returned? then v.(invitations := v.invitations + [answer.value], invite := BlankInvite) else v;
    }

    /** `handleUpdateRole(id, role)` given whether the server accepted it. */
    method UpdateRole(id: string, role: string, ok: bool)
      modifies this
      ensures view == old(view).(users := if ok then RoleUpdated(old(view.users), id, role) else old(view.users))
    {
      var v := view;
      view := v.(users := if ok then RoleUpdated(v.users, id, role) else v.users);
    }

    /** `handleBanUser(id)` given whether the server accepted it. */
    method BanUser(id: string, ok: bool)
      modifies this
      ensures view == old(view).(users := if ok then BanUpdated(old(view.users), id, true) else old(view.users))
    {
      var v := view;
      view := v.(users := if ok then BanUpdated(v.users, id, true) else v.users);
    }

    /** `handleUnbanUser(id)` given whether the server accepted it. */
    method UnbanUser(id: string, ok: bool)
      modifies this
      ensures view == old(view).(users := if ok then BanUpdated(old(view.users), id, false) else old(view.users))
    {
      var v := view;
      view := v.(users := if ok then BanUpdated(v.users, id, false) else v.users);
    }

    /** Opening the delete dialog for a user. */
    method SelectForDelete(id: string)
      modifies this
      ensures view == old(view).(selectedUserId := Some(id))
    {
      view := view.(selectedUserId := Some(id));
    }

    /** `handleDeleteUser()` given whether the server deleted the user: without a selected
        id, or with the falsy empty id, nothing is requested and nothing happens; on success
        the users with that id leave the list and the selection is cleared; on failure
        nothing changes. */
    method DeleteUser(deleted: bool) returns (requested: Option<string>)
      modifies this
      ensures requested.Some? <==> old(view.selectedUserId).Some? && old(view.selectedUserId).value != ""
      ensures requested.Some? ==> requested == old(view.selectedUserId)
      ensures requested.Some? && deleted ==>
        view == old(view).(users := Seqs.RemoveByKey(old(view.users), UserId, requested.value), selectedUserId := None)
      ensures requested.None? || !deleted ==> view == old(view)
    {
      var v := view;
      requested := if v.selectedUserId.Some? && v.selectedUserId.value != "" then v.selectedUserId else None;
      view := if requested.Some? && deleted
              then v.(users := Seqs.RemoveByKey(v.users, UserId, requested.value), selectedUserId := None)
              else v;
    }
  }
}
