/** How every asynchronous operation turns a failed request into the message its rejected case stores. */
module AsyncThunk {
  import opened Wrappers

  /**
   * `error.response?.data?.message || fallback`: the server's message when it
   * sent a non-empty one, the operation's fixed fallback otherwise.
   */
  function RejectionMessage(serverMessage: Option<string>, fallback: string): (m: string)
    ensures serverMessage.Some? && serverMessage.value != "" ==> m == serverMessage.value
    ensures serverMessage.None? || serverMessage.value == "" ==> m == fallback
    ensures fallback != "" ==> m != ""
  {
    match serverMessage
    case Some(text) => if text != "" then text else fallback
    case None => fallback
  }
}
