/**
 * The `Roles` handlers: creating a role, reading a role with its
 * permissions, deleting a role together with its links, and linking or
 * unlinking one permission.
 */
module Roles {
  import opened Wrappers
  import opened Schema
  import opened Store
  import opened JoinTable

  /** `createRole`: insert a role with the given name; no uniqueness check, both timestamps `now`. */
  method CreateRole(db: Database, nombre: string, now: Millis) returns (id: Id)
    requires db.Valid()
    modifies db`roles, db`nextId
    ensures db.Valid()
    ensures id == old(db.nextId) && id !in old(db.roles) && db.nextId == id + 1
    ensures db.roles == old(db.roles)[id := Rol(nombre, now, now)]
  {
    id := db.NewId();
    db.roles := db.roles[id := Rol(nombre, now, now)];
  }

  /** A role document with the permission documents its links lead to. */
  datatype RoleWithPermissions = RoleWithPermissions(id: Id, rol: Rol, permissions: seq<PermisoDoc>)

  /**
   * `getRoleWithPermissions`: null for a missing role; otherwise the role
   * and, in link order, the linked permissions that still exist.
   */
  function GetRoleWithPermissions(roles: map<Id, Rol>, rolPer: map<Id, RolPer>, permisos: map<Id, Permiso>,
                                  bound: nat, roleId: Id): (r: Option<RoleWithPermissions>)
    requires Bounded(rolPer, bound)
    ensures r.None? <==> roleId !in roles
    ensures r.Some? ==> r.value.id == roleId && r.value.rol == roles[roleId]
    ensures r.Some? ==> forall d :: d in r.value.permissions <==>
              d.id in permisos && d.permiso == permisos[d.id] && Linked(rolPer, roleId, d.id)
  {
    if roleId !in roles then None
    else
      PermisoIdsOfRoleMembers(rolPer, roleId, bound);
      GetAllMembers(PermisoIdsOfRole(rolPer, roleId, bound), permisos);
      Some(RoleWithPermissions(roleId, roles[roleId], GetAll(PermisoIdsOfRole(rolPer, roleId, bound), permisos)))
  }

  /**
   * One document per link: a role's loaded permissions number exactly its
   * links to existing permissions, a repeated pair giving a repeated document.
   */
  lemma GetRoleWithPermissionsCount(roles: map<Id, Rol>, rolPer: map<Id, RolPer>, permisos: map<Id, Permiso>,
                                    bound: nat, roleId: Id)
    requires Bounded(rolPer, bound) && roleId in roles
    ensures GetRoleWithPermissions(roles, rolPer, permisos, bound, roleId).Some?
    ensures |GetRoleWithPermissions(roles, rolPer, permisos, bound, roleId).value.permissions|
         == |Where(rolPer, OfRoleToExisting(roleId, permisos), bound)|
  {
    GrantedNamesCount(rolPer, permisos, roleId, bound);
  }

  // ---------------------------------------------------------------------
  // Deleting a role

  /**
   * `deleteRole`: delete every link of the role, then the role. Deleting a
   * missing role throws and the transaction commits nothing; the model
   * checks that case first and leaves both tables unchanged.
   */
  method DeleteRole(db: Database, roleId: Id) returns (ok: bool)
    requires db.Valid()
    modifies db`rolPer, db`roles
    ensures db.Valid()
    ensures ok <==> roleId in old(db.roles)
    ensures ok ==> db.roles == old(db.roles) - {roleId} && db.rolPer == WithoutLinks(old(db.rolPer), OfRole(roleId))
    ensures !ok ==> db.roles == old(db.roles) && db.rolPer == old(db.rolPer)
  {
    if roleId !in db.roles {
      return false;
    }
    var permissionLinks := LinksOfRole(db.rolPer, roleId, db.nextId);
    DeleteLinks(db, permissionLinks);
    db.roles := db.roles - {roleId};
    assert db.rolPer == WithoutLinks(old(db.rolPer), OfRole(roleId));
    return true;
  }

  // ---------------------------------------------------------------------
  // Linking and unlinking one permission

  /**
   * The outcome of `assignPermissionToRole`, with `newId` the id an insert
   * would receive: the oldest existing link of the pair and an unchanged
   * table, or a new link.
   */
  function AssignLink(rolPer: map<Id, RolPer>, newId: nat, rolId: Id, permisoId: Id): (r: (Id, map<Id, RolPer>))
    requires Bounded(rolPer, newId)
    ensures Linked(rolPer, rolId, permisoId) ==>
              && r.1 == rolPer && r.0 in rolPer && rolPer[r.0] == RolPer(rolId, permisoId)
              && forall k :: k in rolPer && rolPer[k] == RolPer(rolId, permisoId) ==> r.0 <= k
    ensures !Linked(rolPer, rolId, permisoId) ==>
              r.0 == newId && r.1 == rolPer[newId := RolPer(rolId, permisoId)]
  {
    match First(rolPer, OfPair(rolId, permisoId), newId)
    case Some(id) => (id, rolPer)
    case None => (newId, rolPer[newId := RolPer(rolId, permisoId)])
  }

  /** After an assignment the pair is linked, and no earlier link is lost. */
  lemma AssignLinkLinks(rolPer: map<Id, RolPer>, newId: nat, rolId: Id, permisoId: Id)
    requires Bounded(rolPer, newId)
    ensures var (id, after) := AssignLink(rolPer, newId, rolId, permisoId);
            && Linked(after, rolId, permisoId) && Bounded(after, newId + 1)
            && forall k :: k in rolPer ==> k in after && after[k] == rolPer[k]
  {
    var (id, after) := AssignLink(rolPer, newId, rolId, permisoId);
    assert id in after && after[id] == RolPer(rolId, permisoId);
  }

  /** "No crea duplicados": assignment keeps the join table free of repeated pairs. */
  lemma AssignLinkKeepsNoDuplicates(rolPer: map<Id, RolPer>, newId: nat, rolId: Id, permisoId: Id)
    requires Bounded(rolPer, newId) && NoDuplicateLinks(rolPer)
    ensures NoDuplicateLinks(AssignLink(rolPer, newId, rolId, permisoId).1)
  {
  }

  /** Assigning the same pair twice returns the same id and leaves the table as one assignment does. */
  lemma AssignLinkIdempotent(rolPer: map<Id, RolPer>, newId: nat, rolId: Id, permisoId: Id)
    requires Bounded(rolPer, newId)
    ensures Bounded(AssignLink(rolPer, newId, rolId, permisoId).1, newId + 1)
    ensures var (id, once) := AssignLink(rolPer, newId, rolId, permisoId);
            AssignLink(once, newId + 1, rolId, permisoId) == (id, once)
  {
    var (id, once) := AssignLink(rolPer, newId, rolId, permisoId);
    assert once[id] == RolPer(rolId, permisoId);
    if !Linked(rolPer, rolId, permisoId) {
      assert forall k :: k in once && once[k] == RolPer(rolId, permisoId) ==> k == newId;
    }
  }

  /** `assignPermissionToRole`: return the existing link of the pair, or insert one. */
  method AssignPermissionToRole(db: Database, rolId: Id, permisoId: Id) returns (id: Id)
    requires db.Valid()
    modifies db`rolPer, db`nextId
    ensures db.Valid()
    ensures (id, db.rolPer) == AssignLink(old(db.rolPer), old(db.nextId), rolId, permisoId)
    ensures db.nextId == if Linked(old(db.rolPer), rolId, permisoId) then old(db.nextId) else old(db.nextId) + 1
  {
    var existingLink := First(db.rolPer, OfPair(rolId, permisoId), db.nextId);
    if existingLink.Some? {
      return existingLink.value;
    }
    id := db.NewId();
    db.rolPer := db.rolPer[id := RolPer(rolId, permisoId)];
  }

  /**
   * The join table `removePermissionFromRole` leaves behind: the oldest
   * link of the pair is gone, or nothing changes when there is none.
   */
  function RemoveLink(rolPer: map<Id, RolPer>, bound: nat, rolId: Id, permisoId: Id): (r: map<Id, RolPer>)
    requires Bounded(rolPer, bound)
    ensures !Linked(rolPer, rolId, permisoId) ==> r == rolPer
    ensures Linked(rolPer, rolId, permisoId) ==>
              exists k :: && k in rolPer && rolPer[k] == RolPer(rolId, permisoId) && r == rolPer - {k}
                          && forall j :: j in rolPer && rolPer[j] == RolPer(rolId, permisoId) ==> k <= j
  {
    match First(rolPer, OfPair(rolId, permisoId), bound)
    case Some(id) => rolPer - {id}
    case None => rolPer
  }

  /** With no repeated pairs, removal unlinks the pair and keeps the table free of repeats. */
  lemma RemoveLinkUnlinks(rolPer: map<Id, RolPer>, bound: nat, rolId: Id, permisoId: Id)
    requires Bounded(rolPer, bound) && NoDuplicateLinks(rolPer)
    ensures !Linked(RemoveLink(rolPer, bound, rolId, permisoId), rolId, permisoId)
    ensures NoDuplicateLinks(RemoveLink(rolPer, bound, rolId, permisoId))
  {
  }

  /** Removing a pair that was just assigned to a table without it restores the table. */
  lemma AssignThenRemove(rolPer: map<Id, RolPer>, newId: nat, rolId: Id, permisoId: Id)
    requires Bounded(rolPer, newId) && !Linked(rolPer, rolId, permisoId)
    ensures Bounded(AssignLink(rolPer, newId, rolId, permisoId).1, newId + 1)
    ensures RemoveLink(AssignLink(rolPer, newId, rolId, permisoId).1, newId + 1, rolId, permisoId) == rolPer
  {
    var after := AssignLink(rolPer, newId, rolId, permisoId).1;
    assert forall k :: k in after && after[k] == RolPer(rolId, permisoId) ==> k == newId;
    assert after - {newId} == rolPer;
  }

  /** `removePermissionFromRole`: delete the oldest link of the pair, if any. */
  method RemovePermissionFromRole(db: Database, rolId: Id, permisoId: Id)
    requires db.Valid()
    modifies db`rolPer
    ensures db.Valid()
    ensures db.rolPer == RemoveLink(old(db.rolPer), db.nextId, rolId, permisoId)
  {
    var linkToDelete := First(db.rolPer, OfPair(rolId, permisoId), db.nextId);
    if linkToDelete.Some? {
      db.rolPer := db.rolPer - {linkToDelete.value};
    }
  }
}
