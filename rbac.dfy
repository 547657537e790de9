/**
 * Properties that tie several access-control handlers together: what the
 * resolver and the point check answer after a role assignment, an unlink,
 * or the cascading delete of a role or a permission.
 */
module RbacProperties {
  import opened Wrappers
  import opened Schema
  import opened Store
  import opened JoinTable
  import opened Users
  import opened Roles
  import opened Permissions
  import opened ServerAuth

  /**
   * After `assignRoleToUser`, a user whose `clerkId` is unique resolves to
   * the new role's name and exactly the permission names that role grants.
   */
  lemma AssignRoleThenResolve(usuarios: map<Id, Usuario>, roles: map<Id, Rol>, rolPer: map<Id, RolPer>,
                              permisos: map<Id, Permiso>, bound: nat, userId: Id, roleId: Id, now: Millis)
    requires Bounded(usuarios, bound) && Bounded(rolPer, bound)
    requires userId in usuarios && OnlyUserWith(usuarios, usuarios[userId].clerkId, userId)
    requires roleId in roles
    ensures var after := AssignRole(usuarios, userId, roleId, now).value;
            var resolved := GetUserRoleAndPermissions(after, roles, rolPer, permisos, bound, usuarios[userId].clerkId);
            && resolved.Success? && resolved.value.Some?
            && resolved.value.value.roleName == roles[roleId].nombre
            && forall name :: name in resolved.value.value.permissions <==> RoleGrants(rolPer, permisos, roleId, name)
  {
    var after := AssignRole(usuarios, userId, roleId, now).value;
    var clerkId := usuarios[userId].clerkId;
    assert OnlyUserWith(after, clerkId, userId);
    assert !SeveralWithClerkId(after, clerkId);
  }

  /**
   * After `deleteRole`, a user still pointing at the deleted role resolves
   * to "Rol no encontrado", and the point check grants that user nothing.
   */
  lemma {:induction false} DeleteRoleThenResolve(usuarios: map<Id, Usuario>, roles: map<Id, Rol>,
                                                 rolPer: map<Id, RolPer>, permisos: map<Id, Permiso>,
                                                 bound: nat, id: Id, name: string)
    requires Bounded(usuarios, bound) && Bounded(rolPer, bound) && Bounded(permisos, bound)
    requires id in usuarios && OnlyUserWith(usuarios, usuarios[id].clerkId, id)
    requires usuarios[id].rol.Some?
    ensures var roleId := usuarios[id].rol.value;
            && GetUserRoleAndPermissions(usuarios, roles - {roleId}, WithoutLinks(rolPer, OfRole(roleId)), permisos, bound,
                                         usuarios[id].clerkId)
               == Success(Some(RoleAndPermissions(RolNoEncontrado, [])))
            && HasPermission(usuarios, WithoutLinks(rolPer, OfRole(roleId)), permisos, bound, usuarios[id].clerkId, name)
               != Success(true)
  {
    var roleId := usuarios[id].rol.value;
    var after := WithoutLinks(rolPer, OfRole(roleId));
    DanglingRoleNamedDifferently(usuarios, roles - {roleId}, after, permisos, bound, id);
  }

  /**
   * With no repeated pairs and unique names, once a permission is unlinked
   * from a user's role, the resolver no longer lists its name for that user.
   */
  lemma RemoveThenResolverOmits(usuarios: map<Id, Usuario>, roles: map<Id, Rol>,
                                rolPer: map<Id, RolPer>, permisos: map<Id, Permiso>,
                                bound: nat, id: Id, permisoId: Id)
    requires Bounded(usuarios, bound) && Bounded(rolPer, bound)
    requires NoDuplicateLinks(rolPer) && UniqueNames(permisos) && permisoId in permisos
    requires id in usuarios && OnlyUserWith(usuarios, usuarios[id].clerkId, id) && usuarios[id].rol.Some?
    ensures var after := RemoveLink(rolPer, bound, usuarios[id].rol.value, permisoId);
            var resolved := GetUserRoleAndPermissions(usuarios, roles, after, permisos, bound, usuarios[id].clerkId);
            && resolved.Success? && resolved.value.Some?
            && permisos[permisoId].nombre !in resolved.value.value.permissions
  {
    var rolId := usuarios[id].rol.value;
    RemoveLinkUnlinks(rolPer, bound, rolId, permisoId);
    assert !SeveralWithClerkId(usuarios, usuarios[id].clerkId);
  }

  /**
   * With unique names, once `deletePermission` has run, the point check
   * grants that permission's name to nobody, and no link references it.
   */
  lemma DeletePermissionRevokes(usuarios: map<Id, Usuario>, rolPer: map<Id, RolPer>, permisos: map<Id, Permiso>,
                                bound: nat, clerkId: string, permisoId: Id)
    requires Bounded(usuarios, bound) && Bounded(rolPer, bound) && Bounded(permisos, bound)
    requires UniqueNames(permisos) && permisoId in permisos
    ensures forall rolId :: !Linked(WithoutLinks(rolPer, ToPermission(permisoId)), rolId, permisoId)
    ensures HasPermission(usuarios, WithoutLinks(rolPer, ToPermission(permisoId)), permisos - {permisoId}, bound,
                          clerkId, permisos[permisoId].nombre) != Success(true)
  {
  }
}
