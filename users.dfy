/**
 * The `Usuarios` handlers: the role-and-permission resolver, the user list
 * enriched with role names, the current-user query, and the three mutations
 * that write users (upsert and delete driven by the identity provider, and
 * role assignment).
 */
module Users {
  import opened Wrappers
  import opened Schema
  import opened Store
  import opened JoinTable
  import opened Text

  /** `roleName` of a user without a role. */
  const SinRolAsignado: string := "Sin rol asignado"
  /** `roleName` of a user whose role id points at no role. */
  const RolNoEncontrado: string := "Rol no encontrado"
  /** The error a `.unique()` query raises when several rows match. */
  const UniqueMatchedSeveral: string := "unique() query returned more than one document"

  /** What the resolver returns for an existing user. */
  datatype RoleAndPermissions = RoleAndPermissions(roleName: string, permissions: seq<string>)

  /** The filter `clerkId == …` (index `by_clerkId`). */
  function WithClerkId(clerkId: string): Usuario -> bool
  {
    (u: Usuario) => u.clerkId == clerkId
  }

  /** The filter `correo == …` (index `by_correo`). */
  function WithCorreo(correo: string): Usuario -> bool
  {
    (u: Usuario) => u.correo == correo
  }

  /** `id` is the one and only user with this `clerkId`. */
  predicate OnlyUserWith(usuarios: map<Id, Usuario>, clerkId: string, id: Id)
  {
    && id in usuarios && usuarios[id].clerkId == clerkId
    && forall o :: o in usuarios && usuarios[o].clerkId == clerkId ==> o == id
  }

  /** Two different users share this `clerkId`, so a `.unique()` on it throws. */
  predicate SeveralWithClerkId(usuarios: map<Id, Usuario>, clerkId: string)
  {
    exists a, b :: a in usuarios && b in usuarios && a != b
      && usuarios[a].clerkId == clerkId && usuarios[b].clerkId == clerkId
  }

  /** No two users share a `clerkId`. */
  predicate UniqueClerkIds(usuarios: map<Id, Usuario>)
  {
    forall a, b :: a in usuarios && b in usuarios && a != b ==> usuarios[a].clerkId != usuarios[b].clerkId
  }

  /** No two users share an email address. */
  predicate UniqueEmails(usuarios: map<Id, Usuario>)
  {
    forall a, b :: a in usuarios && b in usuarios && a != b ==> usuarios[a].correo != usuarios[b].correo
  }

  /**
   * What the resolver promises about a user record: the "no role" and
   * "role not found" sentinels with no permissions, and otherwise the role's
   * name with exactly the names its links lead to, one entry per link whose
   * permission still exists.
   */
  ghost predicate DescribesRole(user: Usuario, roles: map<Id, Rol>, rolPer: map<Id, RolPer>,
                                permisos: map<Id, Permiso>, bound: nat, rp: RoleAndPermissions)
  {
    match user.rol
    case None => rp == RoleAndPermissions(SinRolAsignado, [])
    case Some(rolId) =>
      if rolId !in roles then rp == RoleAndPermissions(RolNoEncontrado, [])
      else
        && rp.roleName == roles[rolId].nombre
        && (forall name :: name in rp.permissions <==> RoleGrants(rolPer, permisos, rolId, name))
        && |rp.permissions| == |Where(rolPer, OfRoleToExisting(rolId, permisos), bound)|
  }

  /**
   * Steps 2 to 6 of the resolver, once the user is found: the role's name
   * and the names of its linked permissions that still exist, in link order.
   * A role without links yields an empty list, as the early return does.
   */
  function ResolveUser(user: Usuario, roles: map<Id, Rol>, rolPer: map<Id, RolPer>,
                       permisos: map<Id, Permiso>, bound: nat): (rp: RoleAndPermissions)
    requires Bounded(rolPer, bound)
    ensures DescribesRole(user, roles, rolPer, permisos, bound, rp)
  {
    match user.rol
    case None => RoleAndPermissions(SinRolAsignado, [])
    case Some(rolId) =>
      if rolId !in roles then RoleAndPermissions(RolNoEncontrado, [])
      else
        GrantedNamesIffGrants(rolPer, permisos, rolId, bound);
        GrantedNamesCount(rolPer, permisos, rolId, bound);
        RoleAndPermissions(roles[rolId].nombre, GrantedNames(rolPer, permisos, rolId, bound))
  }

  /**
   * `getUserRoleAndPermissions`: null when no user has the `clerkId`, an
   * error when several do, and otherwise what `ResolveUser` says about the
   * only one.
   */
  function GetUserRoleAndPermissions(usuarios: map<Id, Usuario>, roles: map<Id, Rol>,
                                     rolPer: map<Id, RolPer>, permisos: map<Id, Permiso>,
                                     bound: nat, clerkId: string): (r: Result<Option<RoleAndPermissions>>)
    requires Bounded(usuarios, bound) && Bounded(rolPer, bound)
    ensures r.Failure? <==> SeveralWithClerkId(usuarios, clerkId)
    ensures r == Success(None) <==> forall id :: id in usuarios ==> usuarios[id].clerkId != clerkId
    ensures r.Success? && r.value.Some? ==>
              exists id :: OnlyUserWith(usuarios, clerkId, id)
                && DescribesRole(usuarios[id], roles, rolPer, permisos, bound, r.value.value)
  {
    match Unique(usuarios, WithClerkId(clerkId), bound)
    case Ambiguous => Failure(UniqueMatchedSeveral)
    case NoMatch => Success(None)
    case Match(id) => Success(Some(ResolveUser(usuarios[id], roles, rolPer, permisos, bound)))
  }

  /**
   * With no duplicate links and unique permission names, the resolver lists
   * each permission name at most once.
   */
  lemma ResolvedPermissionsDistinct(usuarios: map<Id, Usuario>, roles: map<Id, Rol>,
                                    rolPer: map<Id, RolPer>, permisos: map<Id, Permiso>,
                                    bound: nat, clerkId: string)
    requires Bounded(usuarios, bound) && Bounded(rolPer, bound)
    requires NoDuplicateLinks(rolPer) && UniqueNames(permisos)
    ensures var r := GetUserRoleAndPermissions(usuarios, roles, rolPer, permisos, bound, clerkId);
            r.Success? && r.value.Some? ==> Distinct(r.value.value.permissions)
  {
    var r := GetUserRoleAndPermissions(usuarios, roles, rolPer, permisos, bound, clerkId);
    if r.Success? && r.value.Some? {
      var id :| OnlyUserWith(usuarios, clerkId, id);
      var rol := usuarios[id].rol;
      if rol.Some? && rol.value in roles {
        GrantedNamesDistinct(rolPer, permisos, rol.value, bound);
      }
    }
  }

  /** A user of the list, with its role's name added. */
  datatype UserWithRole = UserWithRole(id: Id, user: Usuario, roleName: string)

  /** The `roleName` the user list shows: the role's name, or "Sin rol asignado" when there is no such role. */
  function ListedRoleName(user: Usuario, roles: map<Id, Rol>): string
  {
    if user.rol.Some? && user.rol.value in roles then roles[user.rol.value].nombre else SinRolAsignado
  }

  /** Each of `ids` with its user and that user's role name, in order. */
  function WithRoleNames(ids: seq<Id>, usuarios: map<Id, Usuario>, roles: map<Id, Rol>): (r: seq<UserWithRole>)
    requires forall i :: 0 <= i < |ids| ==> ids[i] in usuarios
    ensures |r| == |ids|
    ensures forall i :: 0 <= i < |ids| ==>
              r[i] == UserWithRole(ids[i], usuarios[ids[i]], ListedRoleName(usuarios[ids[i]], roles))
  {
    if ids == [] then []
    else [UserWithRole(ids[0], usuarios[ids[0]], ListedRoleName(usuarios[ids[0]], roles))]
         + WithRoleNames(ids[1..], usuarios, roles)
  }

  /**
   * `r` lists every user exactly once, oldest first, each with its own
   * record and the role name the list shows for it.
   */
  ghost predicate ListsEveryUser(r: seq<UserWithRole>, usuarios: map<Id, Usuario>, roles: map<Id, Rol>)
  {
    && (forall id :: id in usuarios ==> exists i :: 0 <= i < |r| && r[i].id == id)
    && (forall i :: 0 <= i < |r| ==>
          r[i].id in usuarios && r[i].user == usuarios[r[i].id] && r[i].roleName == ListedRoleName(r[i].user, roles))
    && (forall i, j :: 0 <= i < j < |r| ==> r[i].id < r[j].id)
  }

  /** `getUsers`: every user, oldest first, each with its role's name. */
  function GetUsers(usuarios: map<Id, Usuario>, roles: map<Id, Rol>, bound: nat): (r: seq<UserWithRole>)
    requires Bounded(usuarios, bound)
    ensures ListsEveryUser(r, usuarios, roles)
  {
    var ids := All(usuarios, bound);
    assert forall i :: 0 <= i < |ids| ==> ids[i] in ids;
    WithRoleNamesOfAll(ids, usuarios, roles);
    WithRoleNames(ids, usuarios, roles)
  }

  /** Given the ids of every user in ascending order, the enriched list lists every user once, in that order. */
  lemma WithRoleNamesOfAll(ids: seq<Id>, usuarios: map<Id, Usuario>, roles: map<Id, Rol>)
    requires forall i :: 0 <= i < |ids| ==> ids[i] in usuarios
    requires forall id :: id in usuarios ==> id in ids
    requires forall i, j :: 0 <= i < j < |ids| ==> ids[i] < ids[j]
    ensures ListsEveryUser(WithRoleNames(ids, usuarios, roles), usuarios, roles)
  {
    WithRoleNamesEntries(ids, usuarios, roles);
    WithRoleNamesCovers(ids, usuarios, roles);
    WithRoleNamesAscending(ids, usuarios, roles);
  }

  /** Each entry of the enriched list is a user's own record with the role name the list shows. */
  lemma WithRoleNamesEntries(ids: seq<Id>, usuarios: map<Id, Usuario>, roles: map<Id, Rol>)
    requires forall i :: 0 <= i < |ids| ==> ids[i] in usuarios
    ensures var r := WithRoleNames(ids, usuarios, roles);
            forall i :: 0 <= i < |r| ==>
              r[i].id in usuarios && r[i].user == usuarios[r[i].id] && r[i].roleName == ListedRoleName(r[i].user, roles)
  {
    var r := WithRoleNames(ids, usuarios, roles);
    forall i | 0 <= i < |r|
      ensures r[i].id in usuarios && r[i].user == usuarios[r[i].id] && r[i].roleName == ListedRoleName(r[i].user, roles)
    {
      assert r[i] == UserWithRole(ids[i], usuarios[ids[i]], ListedRoleName(usuarios[ids[i]], roles));
    }
  }

  /** Every user whose id is listed appears in the enriched list. */
  lemma WithRoleNamesCovers(ids: seq<Id>, usuarios: map<Id, Usuario>, roles: map<Id, Rol>)
    requires forall i :: 0 <= i < |ids| ==> ids[i] in usuarios
    requires forall id :: id in usuarios ==> id in ids
    ensures var r := WithRoleNames(ids, usuarios, roles);
            forall id :: id in usuarios ==> exists i :: 0 <= i < |r| && r[i].id == id
  {
    var r := WithRoleNames(ids, usuarios, roles);
    forall id | id in usuarios ensures exists i :: 0 <= i < |r| && r[i].id == id {
      var i :| 0 <= i < |ids| && ids[i] == id;
      assert r[i].id == id;
    }
    assert forall id :: id in usuarios ==> exists i :: 0 <= i < |r| && r[i].id == id;
    assert r == WithRoleNames(ids, usuarios, roles);
  }

  /** The enriched list keeps the ascending order of the ids. */
  lemma WithRoleNamesAscending(ids: seq<Id>, usuarios: map<Id, Usuario>, roles: map<Id, Rol>)
    requires forall i :: 0 <= i < |ids| ==> ids[i] in usuarios
    requires forall i, j :: 0 <= i < j < |ids| ==> ids[i] < ids[j]
    ensures var r := WithRoleNames(ids, usuarios, roles);
            forall i, j :: 0 <= i < j < |r| ==> r[i].id < r[j].id
  {
    var r := WithRoleNames(ids, usuarios, roles);
    forall i, j | 0 <= i < j < |r| ensures r[i].id < r[j].id {
      assert r[i].id == ids[i] && r[j].id == ids[j];
    }
  }

  /**
   * The user list names a user's role when it exists, and says
   * "Sin rol asignado" both for an unset role and for a dangling one.
   */
  lemma GetUsersRoleNames(usuarios: map<Id, Usuario>, roles: map<Id, Rol>, bound: nat)
    requires Bounded(usuarios, bound)
    ensures var r := GetUsers(usuarios, roles, bound);
            forall i :: 0 <= i < |r| && r[i].user.rol.Some? && r[i].user.rol.value in roles ==>
              r[i].roleName == roles[r[i].user.rol.value].nombre
    ensures var r := GetUsers(usuarios, roles, bound);
            forall i :: 0 <= i < |r| && (r[i].user.rol.None? || r[i].user.rol.value !in roles) ==>
              r[i].roleName == SinRolAsignado
  {
  }

  /**
   * The user list and the resolver disagree on a dangling role: the list
   * says "Sin rol asignado" while the resolver says "Rol no encontrado".
   */
  lemma DanglingRoleNamedDifferently(usuarios: map<Id, Usuario>, roles: map<Id, Rol>,
                                     rolPer: map<Id, RolPer>, permisos: map<Id, Permiso>,
                                     bound: nat, id: Id)
    requires Bounded(usuarios, bound) && Bounded(rolPer, bound)
    requires id in usuarios && OnlyUserWith(usuarios, usuarios[id].clerkId, id)
    requires usuarios[id].rol.Some? && usuarios[id].rol.value !in roles
    ensures ListedRoleName(usuarios[id], roles) == SinRolAsignado
    ensures GetUserRoleAndPermissions(usuarios, roles, rolPer, permisos, bound, usuarios[id].clerkId)
         == Success(Some(RoleAndPermissions(RolNoEncontrado, [])))
  {
    var clerkId := usuarios[id].clerkId;
    var u := Unique(usuarios, WithClerkId(clerkId), bound);
    assert WithClerkId(clerkId)(usuarios[id]);
    assert !u.NoMatch?;
    assert !u.Ambiguous?;
  }

  /** `getCurrentUser`: null without an identity, otherwise the only user whose `clerkId` is its subject. */
  function GetCurrentUser(usuarios: map<Id, Usuario>, bound: nat, subject: Option<string>): (r: Result<Option<Id>>)
    requires Bounded(usuarios, bound)
    ensures subject.None? ==> r == Success(None)
    ensures subject.Some? ==> (r.Failure? <==> SeveralWithClerkId(usuarios, subject.value))
    ensures subject.Some? ==> (r == Success(None) <==> forall id :: id in usuarios ==> usuarios[id].clerkId != subject.value)
    ensures r.Success? && r.value.Some? ==> subject.Some? && OnlyUserWith(usuarios, subject.value, r.value.value)
  {
    match subject
    case None => Success(None)
    case Some(clerkId) =>
      match Unique(usuarios, WithClerkId(clerkId), bound)
      case Ambiguous => Failure(UniqueMatchedSeveral)
      case NoMatch => Success(None)
      case Match(id) => Success(Some(id))
  }

  // ---------------------------------------------------------------------
  // Mutations driven by the identity provider's webhooks

  /** The fields of the identity provider's user payload that the upsert reads; absent or null fields are `None`. */
  datatype ClerkUser = ClerkUser(
    id: Option<string>,
    firstName: Option<string>,
    lastName: Option<string>,
    emailAddresses: seq<Option<string>>)

  /** The full name: first and last name joined by a space, then trimmed. */
  function FullName(data: ClerkUser): string
  {
    Trim(OrEmpty(data.firstName) + " " + OrEmpty(data.lastName))
  }

  /** The first email address, or "" when there is none. */
  function PrimaryEmail(data: ClerkUser): string
  {
    if |data.emailAddresses| > 0 && data.emailAddresses[0].Some? then data.emailAddresses[0].value else ""
  }

  /** A present, non-empty `clerkId` (a truthy string). */
  predicate HasClerkId(data: ClerkUser)
  {
    data.id.Some? && data.id.value != ""
  }

  /** How `upsertFromClerk` ended: invalid payload, patched user, inserted user, or a throwing `.unique()`. */
  datatype UpsertOutcome = Rejected | Updated(id: Id) | Created(id: Id) | Failed

  /**
   * The table `upsertFromClerk` leaves behind as written, with `newId` the
   * id an insert would receive: the user is matched by email, not by
   * `clerkId`, and an update leaves the email as it was.
   */
  function Upsert(usuarios: map<Id, Usuario>, newId: nat, data: ClerkUser, now: Millis): (r: (UpsertOutcome, map<Id, Usuario>))
    requires Bounded(usuarios, newId)
    ensures r.0.Rejected? <==> !HasClerkId(data) || PrimaryEmail(data) == ""
    ensures r.0.Failed? <==> HasClerkId(data) && PrimaryEmail(data) != ""
                              && exists a, b :: a in usuarios && b in usuarios && a != b
                                   && usuarios[a].correo == PrimaryEmail(data) && usuarios[b].correo == PrimaryEmail(data)
    ensures r.0.Rejected? || r.0.Failed? ==> r.1 == usuarios
    ensures r.0.Updated? ==>
              && r.0.id in usuarios && usuarios[r.0.id].correo == PrimaryEmail(data)
              && r.1 == usuarios[r.0.id := usuarios[r.0.id].(nombreCompleto := FullName(data), fechaActualizacion := now)]
    ensures r.0.Created? ==>
              && (forall id :: id in usuarios ==> usuarios[id].correo != PrimaryEmail(data))
              && r.0.id == newId
              && r.1 == usuarios[newId := Usuario(FullName(data), PrimaryEmail(data), data.id.value, now, now, None)]
  {
    var correo := PrimaryEmail(data);
    if !HasClerkId(data) || correo == "" then (Rejected, usuarios)
    else
      match Unique(usuarios, WithCorreo(correo), newId)
      case Ambiguous => (Failed, usuarios)
      case Match(id) =>
        (Updated(id), usuarios[id := usuarios[id].(nombreCompleto := FullName(data), fechaActualizacion := now)])
      case NoMatch =>
        (Created(newId), usuarios[newId := Usuario(FullName(data), correo, data.id.value, now, now, None)])
  }

  /** An upsert never gives two users the same email. */
  lemma UpsertKeepsEmailsUnique(usuarios: map<Id, Usuario>, newId: nat, data: ClerkUser, now: Millis)
    requires Bounded(usuarios, newId) && UniqueEmails(usuarios)
    ensures UniqueEmails(Upsert(usuarios, newId, data, now).1)
  {
  }

  /** Delivering the same payload twice leaves the table as one delivery does. */
  lemma {:induction false} UpsertIdempotent(usuarios: map<Id, Usuario>, newId: nat, data: ClerkUser, now: Millis)
    requires Bounded(usuarios, newId)
    ensures Bounded(Upsert(usuarios, newId, data, now).1, newId + 1)
    ensures Upsert(Upsert(usuarios, newId, data, now).1, newId + 1, data, now).1 == Upsert(usuarios, newId, data, now).1
  {
    var (o, once) := Upsert(usuarios, newId, data, now);
    if o.Created? {
      assert forall k :: k in once && k != newId ==> k in usuarios && once[k] == usuarios[k];
      SecondUpsertChangesNothing(once, newId + 1, data, now, newId);
    } else if o.Updated? {
      assert forall k :: k in once && k != o.id ==> k in usuarios && once[k] == usuarios[k];
      SecondUpsertChangesNothing(once, newId + 1, data, now, o.id);
    }
  }

  /**
   * Once the only user with the payload's email carries its name and
   * timestamp, the upsert matched by email changes nothing.
   */
  lemma SecondUpsertChangesNothing(once: map<Id, Usuario>, bound: nat, data: ClerkUser, now: Millis, id: Id)
    requires Bounded(once, bound) && HasClerkId(data) && PrimaryEmail(data) != ""
    requires id in once && once[id].correo == PrimaryEmail(data)
    requires forall k :: k in once && once[k].correo == PrimaryEmail(data) ==> k == id
    requires once[id].nombreCompleto == FullName(data) && once[id].fechaActualizacion == now
    ensures Upsert(once, bound, data, now).1 == once
  {
    var u := once[id];
    assert u.(nombreCompleto := FullName(data), fechaActualizacion := now) == u;
    assert once[id := u] == once;
    UniqueOfOnlyMatch(once, WithCorreo(PrimaryEmail(data)), bound, id);
  }

  /**
   * A user who changes their email at the identity provider: the update
   * event finds nobody with the new email and inserts a second user with
   * the same `clerkId`, after which the resolver throws for that user.
   */
  lemma EmailChangeDuplicatesClerkId(roles: map<Id, Rol>, rolPer: map<Id, RolPer>, permisos: map<Id, Permiso>)
    requires Bounded(rolPer, 2)
    ensures var before := map[0 := Usuario("Ana", "ana@lab.mx", "user_1", 0, 0, None)];
            var data := ClerkUser(Some("user_1"), Some("Ana"), None, [Some("ana@correo.mx")]);
            var after := Upsert(before, 1, data, 5).1;
            && UniqueClerkIds(before)
            && Upsert(before, 1, data, 5).0 == Created(1)
            && SeveralWithClerkId(after, "user_1")
            && GetUserRoleAndPermissions(after, roles, rolPer, permisos, 2, "user_1").Failure?
  {
    var before := map[0 := Usuario("Ana", "ana@lab.mx", "user_1", 0, 0, None)];
    var data := ClerkUser(Some("user_1"), Some("Ana"), None, [Some("ana@correo.mx")]);
    assert PrimaryEmail(data) == "ana@correo.mx";
    assert before[0].correo != "ana@correo.mx";
    var after := Upsert(before, 1, data, 5).1;
    assert after[0].clerkId == "user_1" && after[1].clerkId == "user_1";
  }

  /**
   * The upsert keyed by the identity provider's id: the user with this
   * `clerkId` gets the payload's name and email, and a user is inserted
   * only when no user has it.
   */
  function UpsertByClerkId(usuarios: map<Id, Usuario>, newId: nat, data: ClerkUser, now: Millis)
    : (r: (UpsertOutcome, map<Id, Usuario>))
    requires Bounded(usuarios, newId)
    ensures r.0.Rejected? <==> !HasClerkId(data) || PrimaryEmail(data) == ""
    ensures r.0.Failed? <==> HasClerkId(data) && PrimaryEmail(data) != "" && SeveralWithClerkId(usuarios, data.id.value)
    ensures r.0.Rejected? || r.0.Failed? ==> r.1 == usuarios
    ensures r.0.Updated? ==>
              && OnlyUserWith(usuarios, data.id.value, r.0.id)
              && r.1 == usuarios[r.0.id := usuarios[r.0.id].(nombreCompleto := FullName(data), correo := PrimaryEmail(data),
                                                            fechaActualizacion := now)]
    ensures r.0.Created? ==>
              && (forall id :: id in usuarios ==> usuarios[id].clerkId != data.id.value)
              && r.0.id == newId
              && r.1 == usuarios[newId := Usuario(FullName(data), PrimaryEmail(data), data.id.value, now, now, None)]
  {
    var correo := PrimaryEmail(data);
    if !HasClerkId(data) || correo == "" then (Rejected, usuarios)
    else
      match Unique(usuarios, WithClerkId(data.id.value), newId)
      case Ambiguous => (Failed, usuarios)
      case Match(id) =>
        (Updated(id), usuarios[id := usuarios[id].(nombreCompleto := FullName(data), correo := correo, fechaActualizacion := now)])
      case NoMatch =>
        (Created(newId), usuarios[newId := Usuario(FullName(data), correo, data.id.value, now, now, None)])
  }

  /**
   * Keyed by `clerkId`, an accepted upsert keeps every `clerkId` unique and
   * leaves exactly one user with the payload's `clerkId` and email, so the
   * resolver keeps answering for that user.
   */
  lemma UpsertByClerkIdKeepsOneUser(usuarios: map<Id, Usuario>, newId: nat, data: ClerkUser, now: Millis)
    requires Bounded(usuarios, newId) && UniqueClerkIds(usuarios)
    ensures UniqueClerkIds(UpsertByClerkId(usuarios, newId, data, now).1)
    ensures HasClerkId(data) && PrimaryEmail(data) != "" ==>
              var after := UpsertByClerkId(usuarios, newId, data, now).1;
              exists id :: OnlyUserWith(after, data.id.value, id) && after[id].correo == PrimaryEmail(data)
  {
    var (o, after) := UpsertByClerkId(usuarios, newId, data, now);
    if o.Updated? {
      assert forall k :: k in after ==> k in usuarios && after[k].clerkId == usuarios[k].clerkId;
      assert OnlyUserWith(after, data.id.value, o.id);
    } else if o.Created? {
      assert forall k :: k in after && k != newId ==> k in usuarios && after[k] == usuarios[k];
      assert OnlyUserWith(after, data.id.value, newId);
    }
  }

  /** Keyed by `clerkId`, delivering the same payload twice leaves the table as one delivery does. */
  lemma {:induction false} UpsertByClerkIdIdempotent(usuarios: map<Id, Usuario>, newId: nat, data: ClerkUser, now: Millis)
    requires Bounded(usuarios, newId)
    ensures Bounded(UpsertByClerkId(usuarios, newId, data, now).1, newId + 1)
    ensures UpsertByClerkId(UpsertByClerkId(usuarios, newId, data, now).1, newId + 1, data, now).1
         == UpsertByClerkId(usuarios, newId, data, now).1
  {
    var (o, once) := UpsertByClerkId(usuarios, newId, data, now);
    if o.Created? || o.Updated? {
      var id := o.id;
      assert OnlyUserWith(once, data.id.value, id);
      SecondUpsertByClerkIdChangesNothing(once, newId + 1, data, now, id);
    }
  }

  /**
   * Once the only user with the payload's `clerkId` carries its name, email
   * and timestamp, the upsert keyed by `clerkId` changes nothing.
   */
  lemma SecondUpsertByClerkIdChangesNothing(once: map<Id, Usuario>, bound: nat, data: ClerkUser, now: Millis, id: Id)
    requires Bounded(once, bound) && HasClerkId(data) && PrimaryEmail(data) != ""
    requires OnlyUserWith(once, data.id.value, id)
    requires once[id].nombreCompleto == FullName(data) && once[id].correo == PrimaryEmail(data)
    requires once[id].fechaActualizacion == now
    ensures UpsertByClerkId(once, bound, data, now).1 == once
  {
    var u := once[id];
    assert u.(nombreCompleto := FullName(data), correo := PrimaryEmail(data), fechaActualizacion := now) == u;
    assert once[id := u] == once;
    UniqueOfOnlyMatch(once, WithClerkId(data.id.value), bound, id);
  }

  /** On the same email change, the upsert keyed by `clerkId` keeps one user and the resolver answers. */
  lemma EmailChangeKeepsOneUser(roles: map<Id, Rol>, rolPer: map<Id, RolPer>, permisos: map<Id, Permiso>)
    requires Bounded(rolPer, 2)
    ensures var before := map[0 := Usuario("Ana", "ana@lab.mx", "user_1", 0, 0, None)];
            var data := ClerkUser(Some("user_1"), Some("Ana"), None, [Some("ana@correo.mx")]);
            var after := UpsertByClerkId(before, 1, data, 5).1;
            && UpsertByClerkId(before, 1, data, 5).0 == Updated(0)
            && after.Keys == {0} && after[0].correo == "ana@correo.mx"
            && GetUserRoleAndPermissions(after, roles, rolPer, permisos, 2, "user_1")
               == Success(Some(RoleAndPermissions(SinRolAsignado, [])))
  {
    var before := map[0 := Usuario("Ana", "ana@lab.mx", "user_1", 0, 0, None)];
    var data := ClerkUser(Some("user_1"), Some("Ana"), None, [Some("ana@correo.mx")]);
    assert PrimaryEmail(data) == "ana@correo.mx";
    assert OnlyUserWith(before, "user_1", 0);
    var after := UpsertByClerkId(before, 1, data, 5).1;
    assert OnlyUserWith(after, "user_1", 0);
    assert !SeveralWithClerkId(after, "user_1");
  }

  /**
   * `upsertFromClerk`, keyed as intended: reject a payload without id or
   * email; otherwise patch the user with that `clerkId` (name, email and
   * update time) or insert a new user without a role.
   */
  method UpsertFromClerk(db: Database, data: ClerkUser, now: Millis) returns (outcome: UpsertOutcome)
    requires db.Valid()
    modifies db`usuarios, db`nextId
    ensures db.Valid()
    ensures (outcome, db.usuarios) == UpsertByClerkId(old(db.usuarios), old(db.nextId), data, now)
    ensures db.nextId == if outcome.Created? then old(db.nextId) + 1 else old(db.nextId)
  {
    var correo := PrimaryEmail(data);
    if !HasClerkId(data) || correo == "" {
      return Rejected;
    }
    var existente := Unique(db.usuarios, WithClerkId(data.id.value), db.nextId);
    if existente.Ambiguous? {
      return Failed;
    } else if existente.Match? {
      var id := existente.id;
      db.usuarios := db.usuarios[id := db.usuarios[id].(nombreCompleto := FullName(data), correo := correo,
                                                        fechaActualizacion := now)];
      return Updated(id);
    } else {
      var id := db.NewId();
      db.usuarios := db.usuarios[id := Usuario(FullName(data), correo, data.id.value, now, now, None)];
      return Created(id);
    }
  }

  /**
   * The table `deleteFromClerk` leaves behind, or `None` when its `.unique()`
   * throws: every user with that `clerkId` is gone and the others are kept.
   */
  function DeleteByClerkId(usuarios: map<Id, Usuario>, bound: nat, clerkId: string): (r: Option<map<Id, Usuario>>)
    requires Bounded(usuarios, bound)
    ensures r.None? <==> SeveralWithClerkId(usuarios, clerkId)
    ensures r.Some? ==> forall id :: id in r.value <==> id in usuarios && usuarios[id].clerkId != clerkId
    ensures r.Some? ==> forall id :: id in r.value ==> r.value[id] == usuarios[id]
  {
    match Unique(usuarios, WithClerkId(clerkId), bound)
    case Ambiguous => None
    case NoMatch => Some(usuarios)
    case Match(id) => Some(usuarios - {id})
  }

  /** After a delete, the resolver finds no user with that `clerkId`. */
  lemma DeleteThenResolveFindsNoUser(usuarios: map<Id, Usuario>, roles: map<Id, Rol>, rolPer: map<Id, RolPer>,
                                     permisos: map<Id, Permiso>, bound: nat, clerkId: string)
    requires Bounded(usuarios, bound) && Bounded(rolPer, bound)
    requires DeleteByClerkId(usuarios, bound, clerkId).Some?
    ensures Bounded(DeleteByClerkId(usuarios, bound, clerkId).value, bound)
    ensures GetUserRoleAndPermissions(DeleteByClerkId(usuarios, bound, clerkId).value, roles, rolPer, permisos, bound, clerkId)
         == Success(None)
  {
  }

  /** `deleteFromClerk`: delete the user with that `clerkId`; nothing happens when there is none. */
  method DeleteFromClerk(db: Database, clerkId: string) returns (ok: bool)
    requires db.Valid()
    modifies db`usuarios
    ensures db.Valid()
    ensures ok <==> DeleteByClerkId(old(db.usuarios), db.nextId, clerkId).Some?
    ensures ok ==> db.usuarios == DeleteByClerkId(old(db.usuarios), db.nextId, clerkId).value
    ensures !ok ==> db.usuarios == old(db.usuarios)
  {
    var usuario := Unique(db.usuarios, WithClerkId(clerkId), db.nextId);
    if usuario.Ambiguous? {
      return false;
    }
    if usuario.Match? {
      db.usuarios := db.usuarios - {usuario.id};
    }
    return true;
  }

  // ---------------------------------------------------------------------
  // Role assignment

  /**
   * The table `assignRoleToUser` leaves behind, or `None` when the user does
   * not exist (the patch throws): only that user's `rol` and
   * `fechaActualizacion` change. The role id itself is not checked.
   */
  function AssignRole(usuarios: map<Id, Usuario>, userId: Id, roleId: Id, now: Millis): (r: Option<map<Id, Usuario>>)
    ensures r.None? <==> userId !in usuarios
    ensures r.Some? ==> r.value.Keys == usuarios.Keys
    ensures r.Some? ==> forall id :: id in usuarios && id != userId ==> r.value[id] == usuarios[id]
    ensures r.Some? ==>
              var u, v := usuarios[userId], r.value[userId];
              && v.rol == Some(roleId) && v.fechaActualizacion == now
              && v.nombreCompleto == u.nombreCompleto && v.correo == u.correo
              && v.clerkId == u.clerkId && v.fechaRegistro == u.fechaRegistro
  {
    if userId !in usuarios then None
    else Some(usuarios[userId := usuarios[userId].(rol := Some(roleId), fechaActualizacion := now)])
  }

  /** `assignRoleToUser`: patch the user's role and update time. */
  method AssignRoleToUser(db: Database, userId: Id, roleId: Id, now: Millis) returns (ok: bool)
    requires db.Valid()
    modifies db`usuarios
    ensures db.Valid()
    ensures ok <==> userId in old(db.usuarios)
    ensures ok ==> db.usuarios == AssignRole(old(db.usuarios), userId, roleId, now).value
    ensures !ok ==> db.usuarios == old(db.usuarios)
  {
    if userId !in db.usuarios {
      return false;
    }
    db.usuarios := db.usuarios[userId := db.usuarios[userId].(rol := Some(roleId), fechaActualizacion := now)];
    return true;
  }
}
