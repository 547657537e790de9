/**
 * The browser-side permission checks: they read the `userAuth` slot of
 * local storage, parse it, and answer control-level questions from it.
 */
module ClientPermissions {
  import opened Wrappers

  /**
   * A parsed `userAuth` value: the fields the readers look at, each absent
   * when the stored object lacks it.
   */
  datatype StoredAuth = StoredAuth(role: Option<string>, roleName: Option<string>, permissions: Option<seq<string>>)

  /**
   * The `userAuth` slot: nothing (or the empty string) stored, a text that
   * does not parse as JSON, or a parsed object.
   */
  datatype Slot = Empty | Corrupt | Stored(data: StoredAuth)

  /**
   * `getUserPermissions`: null on the server (no `window`), with nothing
   * stored, or when the text does not parse; the parsed object otherwise.
   */
  function GetUserPermissions(hasWindow: bool, slot: Slot): (r: Option<StoredAuth>)
    ensures r.Some? <==> hasWindow && slot.Stored?
    ensures r.Some? ==> r.value == slot.data
  {
    if !hasWindow then None
    else
      match slot
      case Empty => None
      case Corrupt => None
      case Stored(data) => Some(data)
  }

  /**
   * `hasPermission`: false without a snapshot or without its `permissions`
   * field, otherwise whether the name is listed.
   */
  function HasPermission(hasWindow: bool, slot: Slot, permissionName: string): (r: bool)
    ensures r <==> hasWindow && slot.Stored? && slot.data.permissions.Some?
                   && permissionName in slot.data.permissions.value
  {
    var data := GetUserPermissions(hasWindow, slot);
    if data.None? || data.value.permissions.None? then false
    else permissionName in data.value.permissions.value
  }

  /** `getUserRole`: the stored `roleName` field, or null. */
  function GetUserRole(hasWindow: bool, slot: Slot): (r: Option<string>)
    ensures r.Some? ==> hasWindow && slot.Stored? && slot.data.roleName == r
    ensures hasWindow && slot.Stored? && slot.data.roleName.Some? ==> r.Some?
  {
    var data := GetUserPermissions(hasWindow, slot);
    if data.None? then None else data.value.roleName
  }
}
