/**
 * What the user detail and user edit pages share: the view they render for
 * the user in focus, and the teardown that clears the focus when the view goes.
 */
module UserViews {
  import opened Wrappers
  import UserManagementSlice

  /** The spinner, the not-found message, the unauthorized message, or the page itself. */
  datatype View = Spinner | NotFound | Unauthorized | Page

  /**
   * The effect's cleanup (`dispatch(clearCurrentUser())`): the user in focus
   * is dropped, so the next visit starts from the spinner or not-found view
   * rather than a stale user; the rest of the cache is kept.
   */
  method Teardown(state: UserManagementSlice.UserManagementState)
    modifies state`currentUser
    ensures state.currentUser == None
    ensures state.users == old(state.users) && state.pagination == old(state.pagination)
    ensures state.isLoading == old(state.isLoading) && state.error == old(state.error)
    ensures state.filters == old(state.filters)
  {
    state.ClearCurrentUser();
  }
}
