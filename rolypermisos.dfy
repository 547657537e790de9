/**
 * The access-administration page: the searchable, paginated user list with
 * role assignment, and the role manager that creates and deletes roles and
 * ticks permissions on and off.
 */
module AccessAdminPage {
  import opened Wrappers
  import opened Schema
  import opened Store
  import opened JoinTable
  import opened Text
  import opened Seqs
  import Users
  import Roles

  /** Users shown per page. */
  const ItemsPerPage: nat := 5

  /** The search condition: the lower-cased name or email includes the lower-cased search text. */
  function MatchesSearch(filtro: string): Users.UserWithRole -> bool
  {
    (u: Users.UserWithRole) =>
      Contains(ToLower(u.user.nombreCompleto), ToLower(filtro)) || Contains(ToLower(u.user.correo), ToLower(filtro))
  }

  /** `filteredUsers`. */
  function FilteredUsers(users: seq<Users.UserWithRole>, filtro: string): (r: seq<Users.UserWithRole>)
    ensures IsSubsequence(r, users)
    ensures forall u :: u in r <==> u in users && MatchesSearch(filtro)(u)
  {
    FilterIsSubsequence(users, MatchesSearch(filtro));
    Filter(users, MatchesSearch(filtro))
  }

  /** An empty search shows every user. */
  lemma EmptySearchKeepsAll(users: seq<Users.UserWithRole>)
    ensures FilteredUsers(users, "") == users
  {
    forall u | u in users ensures MatchesSearch("")(u) {
      ContainsEmpty(ToLower(u.user.nombreCompleto));
    }
    FilterAll(users, MatchesSearch(""));
  }

  /** `Array.prototype.slice(start, end)`, negative positions counting from the end. */
  function JsSlice<T>(s: seq<T>, start: int, end: int): (r: seq<T>)
    ensures |r| <= |s|
  {
    var from := if start < 0 then Max(|s| + start, 0) else Min(start, |s|);
    var to := if end < 0 then Max(|s| + end, 0) else Min(end, |s|);
    if from >= to then [] else s[from..to]
  }

  function Min(a: int, b: int): int { if a <= b then a else b }
  function Max(a: int, b: int): int { if a >= b then a else b }

  /** `paginatedUsers`: the slice of the filtered users that page `page` shows. */
  function PaginatedUsers(filtered: seq<Users.UserWithRole>, page: int): (r: seq<Users.UserWithRole>)
  {
    var startIndex := (page - 1) * ItemsPerPage;
    JsSlice(filtered, startIndex, startIndex + ItemsPerPage)
  }

  /**
   * From page 1 on, a page is the contiguous run of at most five filtered
   * users starting at position `(page - 1) * 5`, and is full unless it is the last.
   */
  lemma PageIsContiguousSlice(filtered: seq<Users.UserWithRole>, page: int)
    requires page >= 1
    ensures var r := PaginatedUsers(filtered, page);
            var start := (page - 1) * ItemsPerPage;
            && |r| <= ItemsPerPage
            && (forall i :: 0 <= i < |r| ==> start + i < |filtered| && r[i] == filtered[start + i])
            && (start + ItemsPerPage <= |filtered| ==> |r| == ItemsPerPage)
            && (start >= |filtered| ==> r == [])
  {
  }

  /** `totalPages`: `Math.ceil(count / 5)`. */
  function TotalPages(count: nat): (t: nat)
    ensures t == 0 <==> count == 0
    ensures count > 0 ==> (t - 1) * ItemsPerPage < count <= t * ItemsPerPage
  {
    (count + ItemsPerPage - 1) / ItemsPerPage
  }

  /** The total the page shows: 1 when there is nothing to show. */
  function DisplayedTotal(count: nat): (d: nat)
    ensures d >= 1
    ensures count > 0 ==> d == TotalPages(count)
  {
    var t := TotalPages(count);
    if t > 0 then t else 1
  }

  /** Every filtered user is shown on exactly one page, between 1 and `totalPages`. */
  lemma {:induction false} EveryUserOnOnePage(filtered: seq<Users.UserWithRole>, i: nat)
    requires i < |filtered|
    ensures var page := i / ItemsPerPage + 1;
            && 1 <= page <= TotalPages(|filtered|)
            && filtered[i] == PaginatedUsers(filtered, page)[i % ItemsPerPage]
    ensures forall page :: 1 <= page && page != i / ItemsPerPage + 1 ==>
              !(0 <= i - (page - 1) * ItemsPerPage < |PaginatedUsers(filtered, page)|)
  {
    var page := i / ItemsPerPage + 1;
    PageIsContiguousSlice(filtered, page);
    assert (page - 1) * ItemsPerPage + i % ItemsPerPage == i;
    assert |PaginatedUsers(filtered, page)| > i % ItemsPerPage;
  }

  /** The user list's state: the search text and the current page. */
  class UserList {
    var filtro: string
    var currentPage: int

    /** The page number never drops below 1. */
    ghost predicate Valid()
      reads this
    {
      currentPage >= 1
    }

    /** An empty search on page 1. */
    constructor ()
      ensures Valid() && filtro == "" && currentPage == 1
    {
      filtro := "";
      currentPage := 1;
    }

    /** Typing in the search box: new text, back to page 1. */
    method SetFiltro(text: string)
      modifies this
      ensures Valid() && filtro == text && currentPage == 1
    {
      filtro := text;
      currentPage := 1;
    }

    /** "Anterior": disabled on page 1, otherwise one page back, never below 1. */
    method Anterior()
      requires Valid()
      modifies this`currentPage
      ensures Valid()
      ensures currentPage == Max(1, old(currentPage) - 1)
    {
      if currentPage == 1 {
        return;
      }
      currentPage := Max(1, currentPage - 1);
    }

    /**
     * "Siguiente": disabled on the last page or when there are no pages,
     * otherwise one page on, never past `totalPages`.
     */
    method Siguiente(totalPages: nat)
      requires Valid()
      modifies this`currentPage
      ensures Valid()
      ensures old(currentPage) == totalPages || totalPages == 0 ==> currentPage == old(currentPage)
      ensures !(old(currentPage) == totalPages || totalPages == 0) ==>
                currentPage == Min(totalPages, old(currentPage) + 1) && currentPage <= totalPages
    {
      if currentPage == totalPages || totalPages == 0 {
        return;
      }
      currentPage := Min(totalPages, currentPage + 1);
    }
  }

  /** `handleRoleChange`: assign the chosen role to the user. */
  method HandleRoleChange(db: Database, userId: Id, roleId: Id, now: Millis) returns (ok: bool)
    requires db.Valid()
    modifies db`usuarios
    ensures db.Valid()
    ensures ok <==> userId in old(db.usuarios)
    ensures ok ==> db.usuarios == Users.AssignRole(old(db.usuarios), userId, roleId, now).value
    ensures !ok ==> db.usuarios == old(db.usuarios)
  {
    ok := Users.AssignRoleToUser(db, userId, roleId, now);
  }

  /** The permission search condition: the lower-cased name includes the lower-cased search text. */
  function PermissionMatches(filtro: string): PermisoDoc -> bool
  {
    (p: PermisoDoc) => Contains(ToLower(p.permiso.nombre), ToLower(filtro))
  }

  /** `filteredPermissions`. */
  function FilteredPermissions(permissions: seq<PermisoDoc>, filtro: string): (r: seq<PermisoDoc>)
    ensures IsSubsequence(r, permissions)
    ensures forall p :: p in r <==> p in permissions && PermissionMatches(filtro)(p)
  {
    FilterIsSubsequence(permissions, PermissionMatches(filtro));
    Filter(permissions, PermissionMatches(filtro))
  }

  /** `assignedPermissionIds`: the ids of the selected role's permissions, empty while none is loaded. */
  function AssignedPermissionIds(details: Option<Roles.RoleWithPermissions>): (r: set<Id>)
    ensures details.None? ==> r == {}
    ensures details.Some? ==> forall id :: id in r <==> exists d :: d in details.value.permissions && d.id == id
  {
    if details.None? then {} else set d | d in details.value.permissions :: d.id
  }

  /** A permission's box is ticked exactly when the selected role is linked to it and it exists. */
  lemma CheckedIffLinked(roles: map<Id, Rol>, rolPer: map<Id, RolPer>, permisos: map<Id, Permiso>,
                         bound: nat, roleId: Id, permisoId: Id)
    requires Bounded(rolPer, bound) && roleId in roles
    ensures permisoId in AssignedPermissionIds(Roles.GetRoleWithPermissions(roles, rolPer, permisos, bound, roleId))
            <==> permisoId in permisos && Linked(rolPer, roleId, permisoId)
  {
    var details := Roles.GetRoleWithPermissions(roles, rolPer, permisos, bound, roleId);
    if permisoId in permisos && Linked(rolPer, roleId, permisoId) {
      assert PermisoDoc(permisoId, permisos[permisoId]) in details.value.permissions;
    }
  }

  /** The role manager's state: the selected role and the new-role dialog. */
  class RolesManager {
    var selectedRoleId: Option<Id>
    var newRoleName: string
    var isDialogOpen: bool

    /** Nothing selected, an empty name, the dialog closed. */
    constructor ()
      ensures selectedRoleId.None? && newRoleName == "" && !isDialogOpen
    {
      selectedRoleId := None;
      newRoleName := "";
      isDialogOpen := false;
    }

    /** Clicking a role selects it. */
    method SelectRole(roleId: Id)
      modifies this`selectedRoleId
      ensures selectedRoleId == Some(roleId)
    {
      selectedRoleId := Some(roleId);
    }

    /**
     * `handleCreateRole`: a name that is blank after trimming creates
     * nothing; otherwise the role is created with the name as typed, and the
     * name is cleared and the dialog closed.
     */
    method HandleCreateRole(db: Database, now: Millis) returns (created: Option<Id>)
      requires db.Valid()
      modifies this`newRoleName, this`isDialogOpen, db`roles, db`nextId
      ensures db.Valid()
      ensures Trim(old(newRoleName)) == "" ==>
                && created.None? && db.roles == old(db.roles) && db.nextId == old(db.nextId)
                && newRoleName == old(newRoleName) && isDialogOpen == old(isDialogOpen)
      ensures Trim(old(newRoleName)) != "" ==>
                && created == Some(old(db.nextId))
                && db.roles == old(db.roles)[old(db.nextId) := Rol(old(newRoleName), now, now)]
                && newRoleName == "" && !isDialogOpen
    {
      if Trim(newRoleName) == "" {
        return None;
      }
      var id := Roles.CreateRole(db, newRoleName, now);
      newRoleName := "";
      isDialogOpen := false;
      return Some(id);
    }

    /**
     * `handleDeleteRole`: delete the role; once that succeeds, a selection
     * of that role is cleared. A failed delete changes nothing.
     */
    method HandleDeleteRole(db: Database, roleId: Id) returns (ok: bool)
      requires db.Valid()
      modifies this`selectedRoleId, db`rolPer, db`roles
      ensures db.Valid()
      ensures ok <==> roleId in old(db.roles)
      ensures ok ==> db.roles == old(db.roles) - {roleId} && db.rolPer == WithoutLinks(old(db.rolPer), OfRole(roleId))
      ensures ok && old(selectedRoleId) == Some(roleId) ==> selectedRoleId.None?
      ensures !(ok && old(selectedRoleId) == Some(roleId)) ==> selectedRoleId == old(selectedRoleId)
      ensures !ok ==> db.roles == old(db.roles) && db.rolPer == old(db.rolPer)
    {
      ok := Roles.DeleteRole(db, roleId);
      if ok && selectedRoleId == Some(roleId) {
        selectedRoleId := None;
      }
    }

    /**
     * `handlePermissionChange`: with no role selected nothing happens;
     * otherwise ticking assigns and unticking removes the pair.
     */
    method HandlePermissionChange(db: Database, permisoId: Id, isChecked: bool)
      requires db.Valid()
      modifies db`rolPer, db`nextId
      ensures db.Valid()
      ensures selectedRoleId.None? ==> db.rolPer == old(db.rolPer) && db.nextId == old(db.nextId)
      ensures selectedRoleId.Some? && isChecked ==>
                && db.rolPer == Roles.AssignLink(old(db.rolPer), old(db.nextId), selectedRoleId.value, permisoId).1
                && db.nextId == if Linked(old(db.rolPer), selectedRoleId.value, permisoId) then old(db.nextId)
                                else old(db.nextId) + 1
      ensures selectedRoleId.Some? && !isChecked ==>
                db.rolPer == Roles.RemoveLink(old(db.rolPer), old(db.nextId), selectedRoleId.value, permisoId)
                && db.nextId == old(db.nextId)
    {
      if selectedRoleId.None? {
        return;
      }
      if isChecked {
        var _ := Roles.AssignPermissionToRole(db, selectedRoleId.value, permisoId);
      } else {
        Roles.RemovePermissionFromRole(db, selectedRoleId.value, permisoId);
      }
    }
  }
}
