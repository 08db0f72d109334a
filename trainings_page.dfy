/**
 * The training list page: the expiry badge of each training (its text and its
 * colour), the department label, the create and edit links, and the
 * full-page spinner.
 */
module TrainingsPage {
  import opened Wrappers
  import opened Domain
  import DateUtils

  /** The page's own day count, `Math.ceil((date - now) / (1000 * 3600 * 24))`: the same as `getDaysRemaining`. */
  function DiffDays(date: Option<int>, now: int): (d: Option<int>)
    ensures d == DateUtils.DaysRemaining(date, now)
  {
    match date
    case None => None
    case Some(t) => Some(DateUtils.CeilDiv(t - now, 1000 * 3600 * 24))
  }

  /** `getStatusText`: the badge text, agreeing with the date helpers' classification. */
  function StatusText(days: Option<int>): (t: string)
    ensures t == "Expired" <==> DateUtils.IsExpired(days)
    ensures t == "Expiring Soon" <==> DateUtils.IsDueSoon(days)
    ensures t == "Active" <==> !DateUtils.IsExpired(days) && !DateUtils.IsDueSoon(days)
  {
    if days.Some? && days.value < 0 then "Expired"
    else if days.Some? && days.value <= 30 then "Expiring Soon"
    else "Active"
  }

  /** `getStatusStyle`: red, yellow and green exactly for the three texts, and red exactly where the colour helper is red. */
  function StatusStyle(days: Option<int>): (s: string)
    ensures s == "bg-red-100 text-red-800" <==> StatusText(days) == "Expired"
    ensures s == "bg-yellow-100 text-yellow-800" <==> StatusText(days) == "Expiring Soon"
    ensures s == "bg-green-100 text-green-800" <==> StatusText(days) == "Active"
    ensures s == "bg-red-100 text-red-800" <==> DateUtils.StatusColor(days) == "text-red-600"
    ensures s == "bg-yellow-100 text-yellow-800" <==>
      DateUtils.StatusColor(days) == "text-orange-600" || DateUtils.StatusColor(days) == "text-yellow-600"
  {
    if days.Some? && days.value < 0 then "bg-red-100 text-red-800"
    else if days.Some? && days.value <= 30 then "bg-yellow-100 text-yellow-800"
    else "bg-green-100 text-green-800"
  }

  /** The boundaries of the badge: thirty days left is still expiring soon, thirty-one is active, zero is not yet expired. */
  lemma StatusTextBoundaries()
    ensures StatusText(Some(30)) == "Expiring Soon" && StatusText(Some(31)) == "Active"
    ensures StatusText(Some(0)) == "Expiring Soon" && StatusText(Some(-1)) == "Expired"
    ensures StatusText(None) == "Active"
  {
  }

  /**
   * A training whose deadline passed less than a day ago still reads
   * "Expiring Soon"; it reads "Expired" only from a full day after.
   */
  lemma ExpiredOnlyAfterFullDay(deadline: int, now: int)
    ensures StatusText(DiffDays(Some(deadline), now)) == "Expired" <==> deadline - now <= -DateUtils.MsPerDay
    ensures -DateUtils.MsPerDay < deadline - now <= 0 ==> StatusText(DiffDays(Some(deadline), now)) == "Expiring Soon"
  {
    DateUtils.ExpiredIffFullDayPassed(deadline, now);
    DateUtils.DueSoonWindow(deadline, now);
  }

  /**
   * `getDepartmentName`: a bare department id is shown as it is, with no
   * lookup; an embedded department shows its non-empty name, or
   * "Unknown Department".
   */
  function DepartmentName(department: DepartmentRef): (name: string)
    ensures department.DepartmentId? ==> name == department.id
    ensures department.Embedded? ==> name != ""
    ensures department.Embedded? && name != "Unknown Department" ==> department.name == Some(name)
    ensures department.Embedded? && department.name.Some? && department.name.value != "" ==>
      name == department.name.value
    ensures department.Embedded? && (department.name.None? || department.name.value == "") ==>
      name == "Unknown Department"
  {
    match department
    case DepartmentId(id) => id
    case Embedded(name) => if name.Some? && name.value != "" then name.value else "Unknown Department"
  }

  /** The create and edit links are shown to a logged-in admin or manager only. */
  predicate CanManageTrainings(user: Option<User>) {
    user.Some? && (user.value.role == Admin || user.value.role == Manager)
  }

  /** The spinner replaces the page only while loading with an empty list; cached trainings stay visible during a reload. */
  function ShowFullPageSpinner(isLoading: bool, trainings: seq<Training>): (spinner: bool)
    ensures spinner ==> isLoading
    ensures trainings != [] ==> !spinner
    ensures isLoading && trainings == [] ==> spinner
  {
    isLoading && |trainings| == 0
  }
}
