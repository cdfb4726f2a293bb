/** The router's route table (its paths and `meta` flags) and the
    `beforeEach` navigation guard. */
module Router {

  /** The `meta` flags of a route record; a flag that is not declared is false. */
  datatype RouteMeta = RouteMeta(requiresAuth: bool, hideForAuth: bool)

  /** How a record's path matches a URL path: a fixed path, a fixed prefix
      followed by one non-empty `:id` segment, or `/:catchAll(.*)`. */
  datatype PathPattern = Exact(path: string) | Param(prefix: string) | CatchAll

  datatype RouteRecord = RouteRecord(name: string, pattern: PathPattern, meta: RouteMeta)

  const Plain := RouteMeta(false, false)
  const MembersOnly := RouteMeta(true, false)
  const GuestsOnly := RouteMeta(false, true)

  /** The declared routes, in declaration order. */
  const Routes: seq<RouteRecord> := [
    RouteRecord("Home", Exact("/"), Plain),
    RouteRecord("Products", Exact("/products"), Plain),
    RouteRecord("ProductDetail", Param("/products/"), Plain),
    RouteRecord("Cart", Exact("/cart"), Plain),
    RouteRecord("Checkout", Exact("/checkout"), MembersOnly),
    RouteRecord("Login", Exact("/login"), GuestsOnly),
    RouteRecord("Register", Exact("/register"), GuestsOnly),
    RouteRecord("Profile", Exact("/profile"), MembersOnly),
    RouteRecord("NotFound", CatchAll, Plain)
  ]

  /** `next()` is Proceed; `next(path)` is Redirect(path). */
  datatype Decision = Proceed | Redirect(path: string)

  /** `to.matched.some(record => record.meta.requiresAuth)`. */
  predicate SomeRequiresAuth(matched: seq<RouteMeta>) {
    exists i | 0 <= i < |matched| :: matched[i].requiresAuth
  }

  /** `to.matched.some(record => record.meta.hideForAuth)`. */
  predicate SomeHideForAuth(matched: seq<RouteMeta>) {
    exists i | 0 <= i < |matched| :: matched[i].hideForAuth
  }

  /** The flags admit the visitor: members-only pages need a session, guest
      pages need its absence. */
  predicate Admits(matched: seq<RouteMeta>, isAuthenticated: bool) {
    (SomeRequiresAuth(matched) ==> isAuthenticated) && (SomeHideForAuth(matched) ==> !isAuthenticated)
  }

  /** The beforeEach guard. It proceeds exactly when the flags admit the
      visitor; it sends a visitor without a session away from a members-only
      page to '/login', and any other visitor it turns away to '/'. */
  function Guard(matched: seq<RouteMeta>, isAuthenticated: bool): (d: Decision)
    ensures d == Proceed <==> Admits(matched, isAuthenticated)
    ensures d == Redirect("/login") <==> SomeRequiresAuth(matched) && !isAuthenticated
    ensures d.Redirect? ==> d.path == "/login" || d.path == "/"
  {
    if SomeRequiresAuth(matched) && !isAuthenticated then Redirect("/login")
    else if SomeHideForAuth(matched) && isAuthenticated then Redirect("/")
    else Proceed
  }

  /** A route carrying both flags never proceeds: login when logged out, home when logged in. */
  lemma BothFlagsNeverProceed(matched: seq<RouteMeta>, isAuthenticated: bool)
    requires SomeRequiresAuth(matched) && SomeHideForAuth(matched)
    ensures Guard(matched, isAuthenticated) == if isAuthenticated then Redirect("/") else Redirect("/login")
  {}

  // ---------------------------------------------------------------------
  // Path resolution

  predicate PatternMatches(p: PathPattern, path: string) {
    match p
    case Exact(s) => path == s
    case Param(prefix) => |path| > |prefix| && path[..|prefix|] == prefix && '/' !in path[|prefix|..]
    case CatchAll => true
  }

  /** The first record whose pattern matches `path`, or -1. */
  function FirstMatch(routes: seq<RouteRecord>, path: string): (k: int)
    ensures -1 <= k < |routes|
    ensures k == -1 <==> forall j | 0 <= j < |routes| :: !PatternMatches(routes[j].pattern, path)
    ensures k >= 0 ==> PatternMatches(routes[k].pattern, path)
    ensures k >= 0 ==> forall j | 0 <= j < k :: !PatternMatches(routes[j].pattern, path)
  {
    if routes == [] then -1
    else if PatternMatches(routes[0].pattern, path) then 0
    else
      var k := FirstMatch(routes[1..], path);
      if k == -1 then -1 else k + 1
  }

  /** The record a path resolves to. For this table, first match in
      declaration order agrees with the router's ranking: the static paths
      are distinct, the `:id` route matches only below '/products/', and the
      catch-all matches every path and comes last. */
  function Resolve(path: string): (r: RouteRecord)
    ensures r in Routes && PatternMatches(r.pattern, path)
  {
    var k := FirstMatch(Routes, path);
    if k >= 0 then Routes[k]
    else
      assert PatternMatches(Routes[8].pattern, path);
      Routes[8]
  }

  // ---------------------------------------------------------------------
  // Navigation

  /** Where a navigation ends: on a route, or still being redirected when
      the allowed number of redirects is used up. */
  datatype Outcome = Landed(route: RouteRecord) | Unsettled

  /** A navigation to `path`: the guard runs on the resolved record (the
      table has no nested routes, so `to.matched` holds that one record); a
      redirect starts a new navigation, guarded again, at most `hops` times. */
  function Navigate(path: string, isAuthenticated: bool, hops: nat): (o: Outcome)
    ensures o.Landed? ==> o.route in Routes && Admits([o.route.meta], isAuthenticated)
    decreases hops
  {
    var r := Resolve(path);
    match Guard([r.meta], isAuthenticated)
    case Proceed => Landed(r)
    case Redirect(p) => if hops == 0 then Unsettled else Navigate(p, isAuthenticated, hops - 1)
  }

  /** The two redirect targets are pages the guard lets through in the state
      that caused the redirect: '/login' for a visitor without a session, and
      '/' always. */
  lemma RedirectTargetsProceed(isAuthenticated: bool)
    ensures Resolve("/login").name == "Login" && Guard([Resolve("/login").meta], false) == Proceed
    ensures Resolve("/").name == "Home" && Guard([Resolve("/").meta], isAuthenticated) == Proceed
  {
    assert PatternMatches(Routes[0].pattern, "/");
    assert !PatternMatches(Routes[0].pattern, "/login");
    assert !PatternMatches(Routes[1].pattern, "/login");
    assert !PatternMatches(Routes[2].pattern, "/login");
    assert !PatternMatches(Routes[3].pattern, "/login");
    assert !PatternMatches(Routes[4].pattern, "/login");
    assert PatternMatches(Routes[5].pattern, "/login");
  }

  /** No redirect loop: every navigation settles after at most one redirect,
      on a page whose flags admit the visitor. */
  lemma {:induction false} NavigationSettles(path: string, isAuthenticated: bool)
    ensures Navigate(path, isAuthenticated, 1).Landed?
  {
    RedirectTargetsProceed(isAuthenticated);
    var r := Resolve(path);
    var d := Guard([r.meta], isAuthenticated);
    if d.Redirect? {
      if d.path == "/login" {
        assert !isAuthenticated;
      }
      assert Navigate(d.path, isAuthenticated, 0).Landed?;
    }
  }

  /** Which declared pages carry which flag. */
  lemma {:induction false} TableFlags(r: RouteRecord)
    requires r in Routes
    ensures r.meta.requiresAuth <==> r.name == "Checkout" || r.name == "Profile"
    ensures r.meta.hideForAuth <==> r.name == "Login" || r.name == "Register"
  {
    var i :| 0 <= i < |Routes| && Routes[i] == r;
    assert i in {0, 1, 2, 3, 4, 5, 6, 7, 8};
  }

  /** A visitor without a session never lands on the checkout or profile
      page, and a logged-in one never lands on the login or register page. */
  lemma GatedPagesUnreachable(path: string, isAuthenticated: bool)
    ensures var o := Navigate(path, isAuthenticated, 1);
      && o.Landed?
      && (!isAuthenticated ==> o.route.name != "Checkout" && o.route.name != "Profile")
      && (isAuthenticated ==> o.route.name != "Login" && o.route.name != "Register")
  {
    NavigationSettles(path, isAuthenticated);
    var o := Navigate(path, isAuthenticated, 1);
    TableFlags(o.route);
    assert [o.route.meta][0] == o.route.meta;
  }
}
