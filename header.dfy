/**
 * The navigation bar: nothing without a logged-in user; otherwise the links
 * its role may see, in the order the bar lists them.
 */
module Header {
  import opened Wrappers
  import Domain

  /** The links of the navigation bar. */
  datatype NavLink = Dashboard | MyTrainings | AllTrainings | Compliance | Departments | Users

  /** The path each link points to. */
  function Target(link: NavLink): (path: string)
    ensures |path| > 1 && path[0] == '/'
  {
    match link
    case Dashboard => "/dashboard"
    case MyTrainings => "/my-trainings"
    case AllTrainings => "/trainings"
    case Compliance => "/compliance"
    case Departments => "/departments"
    case Users => "/users"
  }

  /** No two links point to the same path. */
  lemma TargetsDistinct(a: NavLink, b: NavLink)
    requires a != b
    ensures Target(a) != Target(b)
  {
    assert Target(a)[1] != Target(b)[1] || Target(a)[2] != Target(b)[2];
  }

  /**
   * The links shown to a role: the dashboard and own trainings for everyone,
   * all trainings and compliance for administrators and managers, departments
   * and users for administrators only.
   */
  function NavLinks(role: string): (links: seq<NavLink>)
    ensures Dashboard in links && MyTrainings in links
    ensures AllTrainings in links <==> role == Domain.Admin || role == Domain.Manager
    ensures Compliance in links <==> role == Domain.Admin || role == Domain.Manager
    ensures Departments in links <==> role == Domain.Admin
    ensures Users in links <==> role == Domain.Admin
    ensures forall i, j :: 0 <= i < j < |links| ==> links[i] != links[j]
  {
    [Dashboard, MyTrainings]
    + (if role == Domain.Admin || role == Domain.Manager then [AllTrainings, Compliance] else [])
    + (if role == Domain.Admin then [Departments, Users] else [])
  }

  /** Where the profile icon leads; it is shown to every logged-in user. */
  const ProfileTarget: string := "/profile"

  /** Where `handleLogout` navigates once the session is cleared. */
  const LogoutTarget: string := "/login"

  /** The bar itself: nothing at all without a user, otherwise the user's role's links. */
  function Render(user: Option<Domain.User>): (bar: Option<seq<NavLink>>)
    ensures bar.None? <==> user.None?
    ensures bar.Some? ==> bar.value == NavLinks(user.value.role)
  {
    if user.None? then None else Some(NavLinks(user.value.role))
  }

  /** What a staff member sees a manager sees too, and what a manager sees an administrator sees too. */
  lemma LinksMonotone(link: NavLink)
    ensures link in NavLinks(Domain.Staff) ==> link in NavLinks(Domain.Manager)
    ensures link in NavLinks(Domain.Manager) ==> link in NavLinks(Domain.Admin)
  {
  }

  /** Each step up is strict: a manager sees more than staff, an administrator more than a manager. */
  lemma LinksStrictlyGrow()
    ensures AllTrainings in NavLinks(Domain.Manager) && AllTrainings !in NavLinks(Domain.Staff)
    ensures Users in NavLinks(Domain.Admin) && Users !in NavLinks(Domain.Manager)
  {
  }

  /** A role the bar does not know gets exactly the staff links. */
  lemma UnknownRoleSeesStaffLinks(role: string)
    requires role != Domain.Admin && role != Domain.Manager
    ensures NavLinks(role) == NavLinks(Domain.Staff)
  {
  }
}
