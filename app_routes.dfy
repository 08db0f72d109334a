/**
 * The application shell: the route table with its guards and redirects, what
 * a path resolves to for a given user, and when the stored session is loaded.
 *
 * The role gate of `ProtectedRoute` is taken as an assumption (`Admits`): a
 * user must be logged in and, when the route lists roles, have one of them.
 * What the gate renders instead of a refused page is not modelled
 * (`Denied`).
 */
module AppRoutes {
  import opened Wrappers
  import Domain
  import Header
  import TrainingsPage

  /** How a route guards its page. */
  datatype Guard =
    | Open                                 // rendered for everyone
    | GuestOnly                            // a logged-in user is sent to the dashboard
    | Protected(allowedRoles: seq<string>) // behind the role gate; an empty list admits every role

  /**
   * The routes with a page, in the order they are declared, each with its
   * guard; the first route whose path equals the location wins, and a path
   * no route declares has none.
   */
  function GuardOf(path: string): (g: Option<Guard>)
    ensures g.Some? ==> |path| > 1 && path[0] == '/'
  {
    if path == "/login" then Some(GuestOnly)
    else if path == "/register" then Some(GuestOnly)
    else if path == "/dashboard" then Some(Protected([]))
    else if path == "/my-trainings" then Some(Protected([]))
    else if path == "/trainings" then Some(Protected([Domain.Admin, Domain.Manager]))
    else if path == "/compliance" then Some(Protected([Domain.Admin, Domain.Manager]))
    else if path == "/departments" then Some(Protected([Domain.Admin]))
    else if path == "/users" then Some(Protected([Domain.Admin]))
    else if path == "/profile" then Some(Protected([]))
    else if path == "/unauthorized" then Some(Open)
    else None
  }

  /** What a path resolves to. */
  datatype Resolution =
    | Show(path: string)       // the page of the route
    | Redirect(to: string)     // a replacing navigation
    | Denied(path: string)     // the role gate refuses the page
    | PageNotFound             // the catch-all route

  /** The role gate: every role when no roles are listed, membership otherwise. */
  predicate CanAccess(role: string, allowedRoles: seq<string>) {
    |allowedRoles| == 0 || role in allowedRoles
  }

  /** The gate's examples: a manager may open an administrator-or-manager page; staff may not open an administrator page. */
  lemma CanAccessExamples()
    ensures CanAccess(Domain.Manager, [Domain.Admin, Domain.Manager])
    ensures !CanAccess(Domain.Staff, [Domain.Admin])
    ensures forall role :: CanAccess(role, [])
  {
  }

  /** The assumed meaning of `ProtectedRoute`: a logged-in user whose role passes the gate. */
  predicate Admits(user: Option<Domain.User>, allowedRoles: seq<string>) {
    user.Some? && CanAccess(user.value.role, allowedRoles)
  }

  /**
   * What the router shows at `path`: `/` redirects to the dashboard; a routed
   * path is guarded by its route; anything else is the not-found page.
   */
  function Resolve(path: string, user: Option<Domain.User>): (r: Resolution)
    ensures r.PageNotFound? <==> path != "/" && GuardOf(path).None?
    ensures r.Show? ==> r.path == path && GuardOf(path).Some?
    ensures r.Redirect? ==> r.to == "/dashboard"
  {
    if path == "/" then Redirect("/dashboard")
    else match GuardOf(path)
      case None => PageNotFound
      case Some(guard) =>
        match guard
        case Open => Show(path)
        case GuestOnly => if user.Some? then Redirect("/dashboard") else Show(path)
        case Protected(roles) => if Admits(user, roles) then Show(path) else Denied(path)
  }

  /** The administrator-or-manager pages open exactly for a logged-in administrator or manager. */
  lemma ManagementPages(path: string, user: Option<Domain.User>)
    requires path == "/trainings" || path == "/compliance"
    ensures Resolve(path, user) == Show(path) <==>
      user.Some? && (user.value.role == Domain.Admin || user.value.role == Domain.Manager)
    ensures Resolve(path, user) != Show(path) ==> Resolve(path, user) == Denied(path)
  {
  }

  /** The administrator pages open exactly for a logged-in administrator. */
  lemma AdminPages(path: string, user: Option<Domain.User>)
    requires path == "/departments" || path == "/users"
    ensures Resolve(path, user) == Show(path) <==> user.Some? && user.value.role == Domain.Admin
    ensures Resolve(path, user) != Show(path) ==> Resolve(path, user) == Denied(path)
  {
  }

  /** The pages without a role list open for every logged-in user, whatever the role, and for nobody else. */
  lemma AnyRolePages(path: string, user: Option<Domain.User>)
    requires path == "/dashboard" || path == "/my-trainings" || path == "/profile"
    ensures Resolve(path, user) == (if user.Some? then Show(path) else Denied(path))
  {
  }

  /** The login and registration pages send a logged-in user to the dashboard, and show otherwise. */
  lemma GuestPages(path: string, user: Option<Domain.User>)
    requires path == "/login" || path == "/register"
    ensures Resolve(path, user) == Redirect("/dashboard") <==> user.Some?
    ensures user.None? ==> Resolve(path, user) == Show(path)
  {
  }

  /** The root redirects to the dashboard for everyone. */
  lemma RootRedirects(user: Option<Domain.User>)
    ensures Resolve("/", user) == Redirect("/dashboard")
  {
  }

  /** A route path has no slash after its first character. */
  predicate Flat(path: string) {
    forall k :: 0 < k < |path| ==> path[k] != '/'
  }

  /** Every declared route is one level deep. */
  lemma RoutesAreFlat(path: string)
    requires GuardOf(path).Some?
    ensures Flat(path)
  {
  }

  /** A location with a slash past its first character matches no route and lands on the not-found page. */
  lemma NestedPathsUnrouted(path: string, user: Option<Domain.User>)
    requires !Flat(path)
    ensures Resolve(path, user) == PageNotFound
  {
    if GuardOf(path).Some? {
      RoutesAreFlat(path);
    }
  }

  /**
   * The pages' own links to the creation forms, the edit forms and a user's
   * detail page have no route: for a record's (non-empty) id they all land on
   * the not-found page.
   */
  lemma PageLinksUnrouted(user: Option<Domain.User>, id: string)
    requires id != ""
    ensures Resolve("/trainings/create", user) == PageNotFound
    ensures Resolve("/departments/create", user) == PageNotFound
    ensures Resolve("/trainings/" + id, user) == PageNotFound
    ensures Resolve("/trainings/" + id + "/edit", user) == PageNotFound
    ensures Resolve("/departments/" + id + "/edit", user) == PageNotFound
    ensures Resolve("/users/" + id, user) == PageNotFound
    ensures Resolve("/users/" + id + "/edit", user) == PageNotFound
  {
    Unrouted("/trainings/create", 10, user);
    Unrouted("/departments/create", 12, user);
    Unrouted("/trainings/" + id, 10, user);
    Unrouted("/trainings/" + id + "/edit", 10, user);
    Unrouted("/departments/" + id + "/edit", 12, user);
    Unrouted("/users/" + id, 6, user);
    Unrouted("/users/" + id + "/edit", 6, user);
  }

  /** A location with a slash at position `k` lands on the not-found page. */
  lemma Unrouted(path: string, k: nat, user: Option<Domain.User>)
    requires 0 < k < |path| && path[k] == '/'
    ensures Resolve(path, user) == PageNotFound
  {
    NestedPathsUnrouted(path, user);
  }

  /**
   * The bar and the router agree: a logged-in user sees a link exactly when
   * the route it points to shows its page to that user.
   */
  lemma LinksMatchRoutes(user: Domain.User, link: Header.NavLink)
    ensures link in Header.NavLinks(user.role) <==> Resolve(Header.Target(link), Some(user)) == Show(Header.Target(link))
  {
    match link
    case Dashboard => AnyRolePages("/dashboard", Some(user));
    case MyTrainings => AnyRolePages("/my-trainings", Some(user));
    case AllTrainings => ManagementPages("/trainings", Some(user));
    case Compliance => ManagementPages("/compliance", Some(user));
    case Departments => AdminPages("/departments", Some(user));
    case Users => AdminPages("/users", Some(user));
  }

  /** The bar's profile icon opens the profile page for every logged-in user, whatever the role. */
  lemma ProfileLinkOpens(user: Domain.User)
    ensures Resolve(Header.ProfileTarget, Some(user)) == Show(Header.ProfileTarget)
  {
    AnyRolePages(Header.ProfileTarget, Some(user));
  }

  /** After logout no user is loaded: the bar disappears and the navigation to the login page shows it. */
  lemma LogoutShowsLogin()
    ensures Header.Render(None).None?
    ensures Resolve(Header.LogoutTarget, None) == Show(Header.LogoutTarget)
  {
    GuestPages(Header.LogoutTarget, None);
  }

  /** The trainings page's management controls appear exactly for the users the `/trainings` route admits. */
  lemma ManagementMatchesRoute(user: Option<Domain.User>)
    ensures TrainingsPage.CanManageTrainings(user) <==> Resolve("/trainings", user) == Show("/trainings")
  {
  }

  /** The bar is drawn exactly when a user is logged in. */
  predicate ShowsHeader(user: Option<Domain.User>) {
    user.Some?
  }

  /** The shell's header is the bar's own rendering: both require a user. */
  lemma HeaderAgrees(user: Option<Domain.User>)
    ensures ShowsHeader(user) <==> Header.Render(user).Some?
  {
  }

  /** The session is restored from storage exactly when a token is held (a non-empty string) and no user is loaded. */
  function ShouldLoadUser(token: Option<string>, user: Option<Domain.User>): (load: bool)
    ensures load <==> token.Some? && token.value != "" && user.None?
  {
    match token
    case None => false
    case Some(t) => t != "" && user.None?
  }

  /** Once a user is loaded the session is not loaded again, whatever the token. */
  lemma LoadsOnlyWithoutUser(token: Option<string>, user: Domain.User)
    ensures !ShouldLoadUser(token, Some(user))
  {
  }
}
