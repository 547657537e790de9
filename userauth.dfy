/**
 * The authorization provider: an in-memory `{role, permissions}` pair with
 * a loading flag, kept in step with the signed-in user's server-side role
 * and mirrored into the `userAuth` slot of local storage.
 */
module AuthorizationProvider {
  import opened Wrappers
  import opened Users
  import opened ClientPermissions

  /** The provider's data: the role name, if any, and the permission names. */
  datatype AuthData = AuthData(role: Option<string>, permissions: seq<string>)

  /** `{ role: null, permissions: [] }`. */
  const NoAuth: AuthData := AuthData(None, [])

  /** A JavaScript-truthy optional string: present and non-empty. */
  predicate Truthy(s: Option<string>)
  {
    s.Some? && s.value != ""
  }

  /**
   * `getAuthDataFromStorage`: the stored role and permissions when both are
   * truthy (an empty list is truthy, an empty role is not), and
   * `{null, []}` otherwise, including on the server and on a parse failure.
   */
  function GetAuthDataFromStorage(hasWindow: bool, slot: Slot): (r: AuthData)
    ensures hasWindow && slot.Stored? && Truthy(slot.data.role) && slot.data.permissions.Some? ==>
              r == AuthData(slot.data.role, slot.data.permissions.value)
    ensures !(hasWindow && slot.Stored? && Truthy(slot.data.role) && slot.data.permissions.Some?) ==>
              r == NoAuth
  {
    if !hasWindow then NoAuth
    else
      match slot
      case Empty => NoAuth
      case Corrupt => NoAuth
      case Stored(data) =>
        if Truthy(data.role) && data.permissions.Some? then AuthData(data.role, data.permissions.value)
        else NoAuth
  }

  /** What the provider writes for a resolved user: keys `role` and `permissions`, no `roleName`. */
  function Snapshot(rp: RoleAndPermissions): Slot
  {
    Stored(StoredAuth(Some(rp.roleName), None, Some(rp.permissions)))
  }

  /** A snapshot the provider wrote reads back as the data it held, unless the role name is empty. */
  lemma SnapshotReadsBack(rp: RoleAndPermissions)
    ensures rp.roleName != "" ==>
              GetAuthDataFromStorage(true, Snapshot(rp)) == AuthData(Some(rp.roleName), rp.permissions)
    ensures rp.roleName == "" ==> GetAuthDataFromStorage(true, Snapshot(rp)) == NoAuth
  {
  }

  /**
   * The control-level check answers from a provider snapshot as the
   * resolver's list does, but `getUserRole` reads a key the provider never
   * writes and so always answers null.
   */
  lemma SnapshotSeenByControls(rp: RoleAndPermissions, permissionName: string)
    ensures HasPermission(true, Snapshot(rp), permissionName) <==> permissionName in rp.permissions
    ensures GetUserRole(true, Snapshot(rp)) == None
  {
  }

  /** The browser's local storage, reduced to the `userAuth` slot. */
  class LocalStorage {
    var userAuth: Slot

    constructor (slot: Slot)
      ensures userAuth == slot
    {
      userAuth := slot;
    }
  }

  /** The result of the `getUserRoleAndPermissions` subscription: still loading, null, or a record. */
  datatype QueryState = Pending | Null | Value(rp: RoleAndPermissions)

  /** The provider's state slots. */
  class Provider {
    var authData: AuthData
    var isLoading: bool

    /** The initial state: no role, no permissions, loading. */
    constructor ()
      ensures authData == NoAuth && isLoading
    {
      authData := NoAuth;
      isLoading := true;
    }

    /** The mount effect: adopt the cached data when it carries a role. */
    method SeedFromCache(storage: LocalStorage, hasWindow: bool)
      modifies this`authData
      ensures var cached := GetAuthDataFromStorage(hasWindow, old(storage.userAuth));
              authData == if cached.role.Some? then cached else old(authData)
    {
      var cachedData := GetAuthDataFromStorage(hasWindow, storage.userAuth);
      if cachedData.role.Some? {
        authData := cachedData;
      }
    }

    /**
     * The synchronising effect, run whenever the identity, its loading flag
     * or the query result changes.
     */
    method Sync(storage: LocalStorage, isClerkLoaded: bool, userPresent: bool, query: QueryState)
      modifies this`authData, this`isLoading, storage`userAuth
      ensures !isClerkLoaded ==>
                isLoading && authData == old(authData) && storage.userAuth == old(storage.userAuth)
      ensures isClerkLoaded && !userPresent ==>
                !isLoading && authData == NoAuth && storage.userAuth == Empty
      ensures isClerkLoaded && userPresent && query.Pending? ==>
                isLoading && authData == old(authData) && storage.userAuth == old(storage.userAuth)
      ensures isClerkLoaded && userPresent && query.Value? ==>
                && !isLoading
                && authData == AuthData(Some(query.rp.roleName), query.rp.permissions)
                && storage.userAuth == Snapshot(query.rp)
      ensures isClerkLoaded && userPresent && query.Null? ==>
                !isLoading && authData == NoAuth && storage.userAuth == Empty
    {
      if !isClerkLoaded {
        isLoading := true;
        return;
      }
      if !userPresent {
        storage.userAuth := Empty;
        authData := NoAuth;
        isLoading := false;
        return;
      }
      if query.Pending? {
        isLoading := true;
        return;
      }
      if query.Value? {
        var newData := AuthData(Some(query.rp.roleName), query.rp.permissions);
        authData := newData;
        storage.userAuth := Snapshot(query.rp);
      } else {
        authData := NoAuth;
        storage.userAuth := Empty;
      }
      isLoading := false;
    }
  }

  /**
   * After sign-out the slot is empty, so every control-level check fails
   * and a remount starts from `{null, []}`.
   */
  lemma SignedOutSnapshot(permissionName: string)
    ensures !HasPermission(true, Empty, permissionName)
    ensures GetUserRole(true, Empty) == None
    ensures GetAuthDataFromStorage(true, Empty) == NoAuth
  {
  }
}
