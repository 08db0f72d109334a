/**
 * The badge of a user's training assignment: a CSS class and a text for the
 * four assignment statuses, each with a default for any other string.
 */
module StatusBadge {
  /** The four statuses an assignment can have. */
  const KnownStatuses: set<string> := {"pending", "inprogress", "completed", "expired"}

  /** `getStatusClass`: `status-` followed by a known status, and the pending class for anything else. */
  function StatusClass(status: string): (c: string)
    ensures status in KnownStatuses ==> c == "status-" + status
    ensures status !in KnownStatuses ==> c == "status-pending"
  {
    match status
    case "pending" => "status-pending"
    case "inprogress" => "status-inprogress"
    case "completed" => "status-completed"
    case "expired" => "status-expired"
    case _ => "status-pending"
  }

  /** `getStatusText`: a readable text for a known status and "Unknown" for anything else. */
  function StatusText(status: string): (t: string)
    ensures t == "Unknown" <==> status !in KnownStatuses
    ensures t != ""
  {
    match status
    case "pending" => "Pending"
    case "inprogress" => "In Progress"
    case "completed" => "Completed"
    case "expired" => "Expired"
    case _ => "Unknown"
  }

  /** The texts tell the known statuses apart: no two share a text. */
  lemma TextsDistinct(a: string, b: string)
    requires a in KnownStatuses && b in KnownStatuses && a != b
    ensures StatusText(a) != StatusText(b)
  {
  }

  /** The classes tell the known statuses apart too. */
  lemma ClassesDistinct(a: string, b: string)
    requires a in KnownStatuses && b in KnownStatuses && a != b
    ensures StatusClass(a) != StatusClass(b)
  {
    assert StatusClass(a)[7..] == a && StatusClass(b)[7..] == b;
  }

  /** An unknown status is styled like a pending one but labelled "Unknown": class and text disagree. */
  lemma UnknownAsymmetry(status: string)
    requires status !in KnownStatuses
    ensures StatusClass(status) == StatusClass("pending")
    ensures StatusText(status) != StatusText("pending")
  {
  }
}
