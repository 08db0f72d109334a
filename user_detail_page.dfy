/**
 * The user detail page: which view it renders, who may change an account's
 * status, which status buttons appear, the confirmation wording and the
 * guard in front of the status request.
 */
module UserDetailPage {
  import opened Wrappers
  import opened Domain
  import AdminService
  import opened UserViews

  /** The spinner while the first load runs, not-found when no user is in focus, the details otherwise. */
  function DetailView(isLoading: bool, currentUser: Option<User>): (view: View)
    ensures view == Page <==> currentUser.Some?
    ensures view == Spinner <==> isLoading && currentUser.None?
    ensures view == NotFound <==> !isLoading && currentUser.None?
  {
    if isLoading && currentUser.None? then Spinner
    else if currentUser.None? then NotFound
    else Page
  }

  /** The status actions appear to a logged-in admin looking at someone else's account. */
  predicate ShowStatusActions(logged: Option<User>, currentUser: User) {
    logged.Some? && logged.value.role == Admin && currentUser.id != logged.value.id
  }

  /** Nobody can change their own account status from this page, administrators included. */
  lemma NoSelfStatusChange(user: User)
    ensures !ShowStatusActions(Some(user), user)
  {
  }

  /** The three statuses an administrator can set, in the order of their buttons. */
  const StatusTargets: seq<string> := [Active, Locked, Close]

  /** The buttons shown: each target status other than the current one, in button order. */
  function StatusButtons(status: string): (buttons: seq<string>)
    ensures forall t :: t in buttons <==> t in StatusTargets && t != status
    ensures |buttons| == if status in StatusTargets then 2 else 3
    ensures forall i, j :: 0 <= i < j < |buttons| ==> buttons[i] != buttons[j]
  {
    (if status != Active then [Active] else [])
    + (if status != Locked then [Locked] else [])
    + (if status != Close then [Close] else [])
  }

  /** The verb of the confirmation question: activate, lock, and close for anything else. */
  function ConfirmVerb(newStatus: string): (verb: string)
    ensures newStatus == Active <==> verb == "activate"
    ensures newStatus == Locked <==> verb == "lock"
    ensures newStatus != Active && newStatus != Locked <==> verb == "close"
  {
    if newStatus == Active then "activate" else if newStatus == Locked then "lock" else "close"
  }

  /** The confirmation question put to the administrator. */
  function ConfirmMessage(newStatus: string): string {
    "Are you sure you want to " + ConfirmVerb(newStatus) + " this user?"
  }

  /** Different target statuses are announced with different questions. */
  lemma ConfirmMessagesDistinct(a: string, b: string)
    requires a in StatusTargets && b in StatusTargets && a != b
    ensures ConfirmMessage(a) != ConfirmMessage(b)
  {
    var prefix := "Are you sure you want to ";
    assert ConfirmMessage(a)[|prefix|] != ConfirmMessage(b)[|prefix|];
  }

  /**
   * `handleStatusUpdate`: nothing without a user in focus or a route id, nothing
   * when the administrator declines the question (`confirmed`, the answer of the
   * dialog); otherwise the status request for the route id.
   */
  function StatusUpdate(currentUser: Option<User>, routeId: Option<string>, newStatus: string, confirmed: bool):
    (request: Option<AdminService.StatusRequest>)
    ensures request.Some? <==> currentUser.Some? && routeId.Some? && routeId.value != "" && confirmed
    ensures request.Some? ==>
      request.value.path == AdminService.StatusPath(routeId.value) && request.value.body.status == newStatus
  {
    if currentUser.None? || routeId.None? || routeId.value == "" then None
    else if !confirmed then None
    else Some(AdminService.StatusUpdate(routeId.value, newStatus))
  }
}
