/**
 * The server-side point check `hasPermission(clerkId, permissionName)`:
 * the user by `clerkId`, the permission by name, then a link between the
 * user's role id and that permission. The role record itself is never read.
 */
module ServerAuth {
  import opened Wrappers
  import opened Schema
  import opened Store
  import opened JoinTable
  import opened Users

  /** The filter `nombre == …` (index `by_nombre`). */
  function Named(name: string): Permiso -> bool
  {
    (p: Permiso) => p.nombre == name
  }

  /** `id` is the one and only permission called `name`. */
  predicate OnlyPermissionNamed(permisos: map<Id, Permiso>, name: string, id: Id)
  {
    && id in permisos && permisos[id].nombre == name
    && forall o :: o in permisos && permisos[o].nombre == name ==> o == id
  }

  /** Two different permissions are called `name`, so a `.unique()` on it throws. */
  predicate SeveralNamed(permisos: map<Id, Permiso>, name: string)
  {
    exists a, b :: a in permisos && b in permisos && a != b && permisos[a].nombre == name && permisos[b].nombre == name
  }

  /**
   * `hasPermission`: false without a user or without a role, false when no
   * permission has the name, and otherwise whether a link pairs the user's
   * role id with that permission. Each `.unique()` throws on several matches.
   */
  function HasPermission(usuarios: map<Id, Usuario>, rolPer: map<Id, RolPer>, permisos: map<Id, Permiso>,
                         bound: nat, clerkId: string, permissionName: string): (r: Result<bool>)
    requires Bounded(usuarios, bound) && Bounded(rolPer, bound) && Bounded(permisos, bound)
    ensures r.Failure? <==>
              || SeveralWithClerkId(usuarios, clerkId)
              || exists id :: OnlyUserWith(usuarios, clerkId, id) && usuarios[id].rol.Some?
                                && SeveralNamed(permisos, permissionName)
    ensures r == Success(true) <==>
              exists id, pid :: OnlyUserWith(usuarios, clerkId, id) && usuarios[id].rol.Some?
                                && OnlyPermissionNamed(permisos, permissionName, pid)
                                && Linked(rolPer, usuarios[id].rol.value, pid)
  {
    match Unique(usuarios, WithClerkId(clerkId), bound)
    case Ambiguous => Failure(UniqueMatchedSeveral)
    case NoMatch => Success(false)
    case Match(id) =>
      var user := usuarios[id];
      if user.rol.None? then Success(false)
      else
        match Unique(permisos, Named(permissionName), bound)
        case Ambiguous => Failure(UniqueMatchedSeveral)
        case NoMatch => Success(false)
        case Match(pid) =>
          var link := First(rolPer, OfPair(user.rol.value, pid), bound);
          assert OnlyUserWith(usuarios, clerkId, id) && OnlyPermissionNamed(permisos, permissionName, pid);
          assert link.Some? <==> Linked(rolPer, user.rol.value, pid) by {
            if link.Some? {
              assert rolPer[link.value] == RolPer(user.rol.value, pid);
            }
          }
          Success(link.Some?)
  }

  /**
   * Agreement with the resolver: with unique permission names and an
   * existing role, the point check holds exactly when the resolver lists
   * the name.
   */
  lemma {:induction false} AgreesWithResolver(usuarios: map<Id, Usuario>, roles: map<Id, Rol>,
                                              rolPer: map<Id, RolPer>, permisos: map<Id, Permiso>,
                                              bound: nat, id: Id, name: string)
    requires Bounded(usuarios, bound) && Bounded(rolPer, bound) && Bounded(permisos, bound)
    requires UniqueNames(permisos)
    requires id in usuarios && OnlyUserWith(usuarios, usuarios[id].clerkId, id)
    requires usuarios[id].rol.Some? && usuarios[id].rol.value in roles
    ensures var resolved := GetUserRoleAndPermissions(usuarios, roles, rolPer, permisos, bound, usuarios[id].clerkId);
            && resolved.Success? && resolved.value.Some?
            && HasPermission(usuarios, rolPer, permisos, bound, usuarios[id].clerkId, name)
               == Success(name in resolved.value.value.permissions)
  {
    var clerkId := usuarios[id].clerkId;
    var rolId := usuarios[id].rol.value;
    var resolved := GetUserRoleAndPermissions(usuarios, roles, rolPer, permisos, bound, clerkId);
    assert !SeveralWithClerkId(usuarios, clerkId);
    assert resolved.value.Some?;
    assert DescribesRole(usuarios[id], roles, rolPer, permisos, bound, resolved.value.value);
    var check := HasPermission(usuarios, rolPer, permisos, bound, clerkId, name);
    assert !SeveralNamed(permisos, name);
    if RoleGrants(rolPer, permisos, rolId, name) {
      var l :| l in rolPer && rolPer[l].rolId == rolId && rolPer[l].permisoId in permisos
        && permisos[rolPer[l].permisoId].nombre == name;
      var pid := rolPer[l].permisoId;
      assert OnlyPermissionNamed(permisos, name, pid);
      assert Linked(rolPer, rolId, pid);
      assert check == Success(true);
    }
  }

  /**
   * The point check never reads the role record: a user whose role is gone
   * but whose role id still has a link keeps the permission, although the
   * resolver answers "Rol no encontrado" with no permissions.
   */
  lemma DanglingRoleStillGrants(usuarios: map<Id, Usuario>, roles: map<Id, Rol>,
                                rolPer: map<Id, RolPer>, permisos: map<Id, Permiso>,
                                bound: nat, id: Id, pid: Id)
    requires Bounded(usuarios, bound) && Bounded(rolPer, bound) && Bounded(permisos, bound)
    requires id in usuarios && OnlyUserWith(usuarios, usuarios[id].clerkId, id)
    requires usuarios[id].rol.Some? && usuarios[id].rol.value !in roles
    requires pid in permisos && OnlyPermissionNamed(permisos, permisos[pid].nombre, pid)
    requires Linked(rolPer, usuarios[id].rol.value, pid)
    ensures HasPermission(usuarios, rolPer, permisos, bound, usuarios[id].clerkId, permisos[pid].nombre) == Success(true)
    ensures GetUserRoleAndPermissions(usuarios, roles, rolPer, permisos, bound, usuarios[id].clerkId)
         == Success(Some(RoleAndPermissions(RolNoEncontrado, [])))
  {
    DanglingRoleNamedDifferently(usuarios, roles, rolPer, permisos, bound, id);
  }
}
