/**
 * The `Permisos` handlers: creating a permission, listing them all, and
 * deleting one together with every link to it.
 */
module Permissions {
  import opened Schema
  import opened Store
  import opened JoinTable

  /** `createPermission`: insert the name and description as given, with no uniqueness check. */
  method CreatePermission(db: Database, nombre: string, descripcion: string) returns (id: Id)
    requires db.Valid()
    modifies db`permisos, db`nextId
    ensures db.Valid()
    ensures id == old(db.nextId) && id !in old(db.permisos) && db.nextId == id + 1
    ensures db.permisos == old(db.permisos)[id := Permiso(nombre, descripcion)]
  {
    id := db.NewId();
    db.permisos := db.permisos[id := Permiso(nombre, descripcion)];
  }

  /** `getPermissions`: every permission record, each with its id. */
  function GetPermissions(permisos: map<Id, Permiso>, bound: nat): (r: seq<PermisoDoc>)
    requires Bounded(permisos, bound)
    ensures forall d :: d in r <==> d.id in permisos && d.permiso == permisos[d.id]
    ensures |r| == |All(permisos, bound)|
  {
    var ids := All(permisos, bound);
    GetAllOfExisting(ids, permisos);
    GetAllMembers(ids, permisos);
    GetAll(ids, permisos)
  }

  /** Getting ids that all exist drops none of them. */
  lemma {:induction false} GetAllOfExisting(ids: seq<Id>, permisos: map<Id, Permiso>)
    requires forall id :: id in ids ==> id in permisos
    ensures |GetAll(ids, permisos)| == |ids|
  {
    if ids != [] {
      GetAllOfExisting(ids[1..], permisos);
    }
  }

  /**
   * `deletePermission`: delete every link to the permission, then the
   * permission. Deleting a missing permission throws and the transaction
   * commits nothing; the model checks that case first.
   */
  method DeletePermission(db: Database, permisoId: Id) returns (ok: bool)
    requires db.Valid()
    modifies db`rolPer, db`permisos
    ensures db.Valid()
    ensures ok <==> permisoId in old(db.permisos)
    ensures ok ==> db.permisos == old(db.permisos) - {permisoId} && db.rolPer == WithoutLinks(old(db.rolPer), ToPermission(permisoId))
    ensures !ok ==> db.permisos == old(db.permisos) && db.rolPer == old(db.rolPer)
  {
    if permisoId !in db.permisos {
      return false;
    }
    var links := LinksToPermission(db.rolPer, permisoId, db.nextId);
    DeleteLinks(db, links);
    db.permisos := db.permisos - {permisoId};
    assert db.rolPer == WithoutLinks(old(db.rolPer), ToPermission(permisoId));
    return true;
  }
}
