/**
 * The page gate `withPermission`: a three-way choice between a loading
 * placeholder, the access-denied notice and the wrapped page, and the
 * notice's one-shot redirect home.
 */
module PermissionGate {
  import opened Wrappers

  /** What the gate renders. */
  datatype View = Loading | Denied | Allowed

  /**
   * The argument of the `hasPermission` subscription: skipped without a
   * signed-in user, in which case its result stays undefined.
   */
  function AccessQuery(userPresent: bool, answer: Option<bool>): (r: Option<bool>)
    ensures !userPresent ==> r.None?
    ensures userPresent ==> r == answer
  {
    if userPresent then answer else None
  }

  /** The gate's choice, from the identity's loading flag and the check's result (`None` while undefined). */
  function Decide(isUserLoaded: bool, hasAccess: Option<bool>): (v: View)
    ensures v == Loading <==> !isUserLoaded || hasAccess.None?
    ensures v == Denied <==> isUserLoaded && hasAccess == Some(false)
    ensures v == Allowed <==> isUserLoaded && hasAccess == Some(true)
  {
    if !isUserLoaded || hasAccess.None? then Loading
    else if !hasAccess.value then Denied
    else Allowed
  }

  /** Without a signed-in user the check is skipped, so the gate keeps showing the placeholder. */
  lemma NoUserStaysLoading(isUserLoaded: bool, answer: Option<bool>)
    ensures Decide(isUserLoaded, AccessQuery(false, answer)) == Loading
  {
  }

  /** How long the access-denied notice waits before going home, in milliseconds. */
  const RedirectDelay: int := 3000

  /**
   * The access-denied notice's timer: the pending deadline, if any, and the
   * navigations it has made so far.
   */
  class RedirectTimer {
    var deadline: Option<int>
    var navigations: seq<string>

    /** At most one navigation, always home, and none while one is still pending. */
    ghost predicate Valid()
      reads this
    {
      && |navigations| + (if deadline.Some? then 1 else 0) <= 1
      && forall i :: 0 <= i < |navigations| ==> navigations[i] == "/"
    }

    /** Mounting the notice schedules one redirect `RedirectDelay` ms from `now`. */
    constructor (now: int)
      ensures Valid()
      ensures deadline == Some(now + RedirectDelay) && navigations == []
    {
      deadline := Some(now + RedirectDelay);
      navigations := [];
    }

    /** Time passes: once the deadline is reached the timer fires, going home, and is spent. */
    method Tick(now: int)
      requires Valid()
      modifies this
      ensures Valid()
      ensures old(deadline).Some? && now >= old(deadline).value ==>
                deadline == None && navigations == old(navigations) + ["/"]
      ensures !(old(deadline).Some? && now >= old(deadline).value) ==>
                deadline == old(deadline) && navigations == old(navigations)
    {
      if deadline.Some? && now >= deadline.value {
        deadline := None;
        navigations := navigations + ["/"];
      }
    }

    /** Unmounting clears the timer; a later tick does nothing. */
    method Unmount()
      requires Valid()
      modifies this`deadline
      ensures Valid()
      ensures deadline == None && navigations == old(navigations)
    {
      deadline := None;
    }
  }
}
