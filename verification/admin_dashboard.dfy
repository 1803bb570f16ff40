/** The admin area's frame (`src/pages/admin/AdminDashboard.tsx`): the
    admin-only guard, the highlighting of the navigation links and logging
    out; and the route table of `src/App.tsx` that decides which page a path
    shows, which the guard's redirect depends on. */
module AdminDashboard {
  import opened Text
  import opened Domain
  import opened AppStore

  /** The pages the application can show. */
  datatype AdminPage = AdminIndex | AdminProductsPage | AdminReservationsPage
  datatype Page =
    | Admin(page: AdminPage)
    | LoginForm
    | Home
    | ProductDetail(productId: string)
    | Category(gender: string, categoryName: string)
    | NotFound

  const LoginPath: string := "/admin-login"

  /** The route table: the admin routes and the login route first, then the
      customer routes, and the not-found page for every other path. A
      parameter segment must be non-empty, and it is passed on as it stands
      in the path, without percent-decoding. */
  function Route(path: string): (page: Page)
    ensures page == LoginForm <==> path == LoginPath
    ensures page.Admin? <==> path in {"/admin", "/admin/produtos", "/admin/reservas"}
    ensures page == Home <==> path == "/"
  {
    var segs := Split(path, '/');
    if path == "/admin" then Admin(AdminIndex)
    else if path == "/admin/produtos" then Admin(AdminProductsPage)
    else if path == "/admin/reservas" then Admin(AdminReservationsPage)
    else if path == LoginPath then LoginForm
    else if path == "/" then Home
    else if |segs| == 3 && segs[0] == "" && segs[1] == "produto" && segs[2] != "" then
      ProductDetail(segs[2])
    else if |segs| == 4 && segs[0] == "" && segs[1] == "categoria" && segs[2] != "" && segs[3] != "" then
      Category(segs[2], segs[3])
    else NotFound
  }

  /** `/categoria/<gender>/<category>` reaches the category page with those
      two parameters whenever they are non-empty and hold no slash; the
      parameters hold no percent escape, so the router's decoding leaves them
      as they are. */
  lemma {:induction false} CategoryPathRoutes(g: string, c: string)
    requires g != "" && c != "" && '/' !in g && '/' !in c
    requires '%' !in g && '%' !in c
    ensures Route("/categoria/" + g + "/" + c) == Category(g, c)
  {
    var path := "/categoria/" + g + "/" + c;
    var parts := ["", "categoria", g, c];
    assert parts[1..] == ["categoria", g, c] && parts[1..][1..] == [g, c] && [g, c][1..] == [c];
    assert Join([g, c], '/') == g + "/" + c;
    assert Join(parts[1..], '/') == "categoria" + "/" + g + "/" + c;
    assert path == Join(parts, '/');
    SplitJoin(parts, '/');
    assert path != "/admin" && path != "/admin/produtos" && path != "/admin/reservas";
    assert path != LoginPath && path != "/";
  }

  /** What the admin frame does: send a visitor elsewhere, or render. */
  datatype Frame = Redirect(target: string) | Render

  /** The guard as written: a visitor who is not an admin is sent to `/login`. */
  function GuardAsWritten(user: User): (f: Frame)
    ensures f.Redirect? <==> !user.isAdmin
    ensures f.Redirect? ==> f.target == "/login"
  {
    if !user.isAdmin then Redirect("/login") else Render
  }

  /** `/login` is no route of the application: the redirect lands on the
      not-found page instead of the login form. */
  lemma {:induction false} GuardAsWrittenReachesNotFound(user: User)
    requires !user.isAdmin
    ensures Route(GuardAsWritten(user).target) == NotFound
  {
    var path := "/login";
    var segs := Split(path, '/');
    assert path == Join(["", "login"], '/');
    SplitJoin(["", "login"], '/');
    assert |segs| == 2;
  }

  /** The guard redirecting to the route the login page is served at. */
  function Guard(user: User): (f: Frame)
    ensures f.Redirect? <==> !user.isAdmin
    ensures f.Redirect? ==> Route(f.target) == LoginForm
  {
    if !user.isAdmin then Redirect(LoginPath) else Render
  }

  /** `isActive`: the path itself or any path below it. */
  predicate IsActive(pathname: string, path: string) {
    pathname == path || StartsWith(pathname, path + "/")
  }

  /** A path is active exactly when the current path extends it by nothing or
      by a part that starts with a slash; `/admin/produtos-x` does not make
      `/admin/produtos` active. */
  lemma {:induction false} IsActiveIsPrefixAtSlash(pathname: string, path: string)
    ensures IsActive(pathname, path) <==>
              StartsWith(pathname, path) && (|pathname| == |path| || pathname[|path|] == '/')
  {
    if StartsWith(pathname, path + "/") {
      assert pathname[..|path|] == (path + "/")[..|path|] == path;
      assert pathname[|path|] == (path + "/")[|path|];
    }
    if StartsWith(pathname, path) && |pathname| > |path| && pathname[|path|] == '/' {
      assert pathname[..|path| + 1] == pathname[..|path|] + [pathname[|path|]];
    }
    if StartsWith(pathname, path) && |pathname| == |path| {
      assert pathname == pathname[..|path|];
    }
  }

  /** The sidebar's links. */
  datatype NavItem = DashboardLink | ProductsLink | ReservationsLink

  /** The path a link leads to. */
  function NavPath(item: NavItem): string {
    match item
    case DashboardLink => "/admin"
    case ProductsLink => "/admin/produtos"
    case ReservationsLink => "/admin/reservas"
  }

  /** Whether a link is shown highlighted: the dashboard link only on its own
      path (every admin path lies below it), the other two on their path and
      below. */
  predicate Highlighted(pathname: string, item: NavItem) {
    match item
    case DashboardLink => IsActive(pathname, "/admin") && pathname == "/admin"
    case ProductsLink => IsActive(pathname, "/admin/produtos")
    case ReservationsLink => IsActive(pathname, "/admin/reservas")
  }

  /** The dashboard link is highlighted exactly on `/admin`. */
  lemma DashboardHighlightedOnlyAtIndex(pathname: string)
    ensures Highlighted(pathname, DashboardLink) <==> pathname == "/admin"
  {
  }

  /** No path highlights two links. */
  lemma {:induction false} AtMostOneHighlighted(pathname: string, a: NavItem, b: NavItem)
    requires Highlighted(pathname, a) && Highlighted(pathname, b)
    ensures a == b
  {
    IsActiveIsPrefixAtSlash(pathname, "/admin/produtos");
    IsActiveIsPrefixAtSlash(pathname, "/admin/reservas");
    if Highlighted(pathname, ProductsLink) {
      assert pathname[7] == "/admin/produtos"[7];
    }
  }

  /** Every admin page highlights its own link. */
  lemma AdminPagesHighlightTheirLink(item: NavItem)
    ensures Highlighted(NavPath(item), item)
    ensures Route(NavPath(item)).Admin?
  {
  }

  /** `handleLogout`: the session is no longer an admin one, nothing else
      changes, and the admin frame then turns visitors away. */
  function Logout(s: Store): (r: Store)
    ensures !r.user.isAdmin
    ensures r.products == s.products && r.reservations == s.reservations
    ensures Guard(r.user).Redirect?
  {
    Login(s, false)
  }
}
