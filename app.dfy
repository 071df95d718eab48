/**
 * The application shell: the server probe, the saved-session check, login/register/logout as transitions of
 * `{isAuthenticated, user}` and of the 'token'/'user' storage keys, and the route table as a decision on the
 * path and the authentication flag.
 */
module App {
  import opened Common
  import opened Decimal
  import opened Json
  import opened Storage
  import opened Api

  // ---------------------------------------------------------------- the session as values

  /** What the session handlers decide: the two state variables and the storage contents after them. */
  datatype Session = Session(authenticated: bool, user: Value, items: map<string, string>)

  /**
   * `checkSavedSession`: without a non-empty token and a non-empty stored user nothing is restored and
   * storage is left alone; a stored user that parses is restored as it is; one that does not parse is
   * removed together with the token.
   */
  function Restore(items: map<string, string>): (s: Session)
    ensures !(HasTruthy(items, "token") && HasTruthy(items, "user")) ==> s == Session(false, JNull, items)
    ensures HasTruthy(items, "token") && HasTruthy(items, "user") && Parse(items["user"]).Some? ==>
      s == Session(true, Parse(items["user"]).value, items)
    ensures HasTruthy(items, "token") && HasTruthy(items, "user") && Parse(items["user"]).None? ==>
      s == Session(false, JNull, WithoutSession(items))
  {
    if !(HasTruthy(items, "token") && HasTruthy(items, "user")) then Session(false, JNull, items)
    else
      match Parse(items["user"])
      case Some(userData) => Session(true, userData, items)
      case None => Session(false, JNull, WithoutSession(items))
  }

  /** A member when the value is defined; `JSON.stringify` drops members whose value is `undefined`. */
  function Defined(key: string, v: Option<Value>): (ms: Object)
    ensures v.None? ==> ms == []
    ensures v.Some? ==> ms == [Member(key, v.value)]
  {
    if v.Some? then [Member(key, v.value)] else []
  }

  /** `userData.key` where `userData = response.data || response`: the axios response object has none of the keys. */
  function Field(data: Value, key: string): Option<Value> {
    if Truthy(data) then Property(data, key) else None
  }

  /** `userToSave` in `handleLogin`: the id (`id`, else `ID`), then whichever of the other three are defined. */
  function SavedUser(data: Value): (user: Object)
    ensures |user| <= 4
  {
    Defined("id", Or(Field(data, "id"), Field(data, "ID"))) + Profile(data)
  }

  /** The email, name and creation time members of `userToSave`. */
  function Profile(data: Value): (ms: Object)
    ensures |ms| <= 3
    ensures forall i :: 0 <= i < |ms| ==> ms[i].key != "id" && ms[i].key != "ID"
  {
    Defined("email", Field(data, "email")) + Defined("name", Field(data, "name")) +
    Defined("created_at", Field(data, "created_at"))
  }

  /** `user-${userToSave.id}-${Date.now()}`; an undefined id is written as "undefined". */
  function SessionToken(user: Object, now: int): (t: string)
    ensures StartsWith(t, "user-")
  {
    var id := Get(user, "id");
    "user-" + (if id.Some? then ToJsString(id.value) else "undefined") + "-" + IntToString(now)
  }

  /** `handleLogin` (and `handleRegister`, which only calls it): both keys are written and the user is in. */
  function Login(items: map<string, string>, data: Value, now: int): (s: Session)
    ensures s.authenticated && s.user == JObj(SavedUser(data))
    ensures s.items == items["token" := SessionToken(SavedUser(data), now)]["user" := Stringify(s.user)]
  {
    var user := SavedUser(data);
    Session(true, JObj(user), items["token" := SessionToken(user, now)]["user" := Stringify(JObj(user))])
  }

  /** `handleLogout`: both keys are removed and the user is out. */
  function Logout(items: map<string, string>): (s: Session)
    ensures !s.authenticated && s.user == JNull && s.items == WithoutSession(items)
  {
    Session(false, JNull, WithoutSession(items))
  }

  /**
   * The saved id is the body's `id`, or its `ID` when `id` is falsy, and nothing at all when the body is
   * falsy; the saved object has no other key called "id" or "ID".
   */
  lemma SavedUserId(data: Value)
    ensures Get(SavedUser(data), "id") == if Truthy(data) then Or(Property(data, "id"), Property(data, "ID")) else None
    ensures Get(SavedUser(data), "ID").None?
  {
    var a := Defined("id", Or(Field(data, "id"), Field(data, "ID")));
    GetAppend(a, Profile(data), "id");
    GetAppend(a, Profile(data), "ID");
  }

  /** Looking a key up in two member lists: the later list wins when it has the key. */
  lemma {:induction false} GetAppend(a: Object, b: Object, key: string)
    requires forall i :: 0 <= i < |b| ==> b[i].key != key
    ensures Get(a + b, key) == Get(a, key)
    decreases |b|
  {
    if b == [] {
      assert a + b == a;
    } else {
      var b' := b[..|b| - 1];
      assert (a + b)[..|a + b| - 1] == a + b';
      GetAppend(a, b', key);
    }
  }

  /** What a login writes is what the next saved-session check restores: the same user, still signed in. */
  lemma LoginThenRestore(items: map<string, string>, data: Value, now: int)
    ensures var s := Login(items, data, now); Restore(s.items) == s
  {
    var s := Login(items, data, now);
    ParseStringify(s.user);
    assert Stringify(s.user)[0] == '{';
  }

  /** After a login, requests carry the saved id: the body's `id`, else its `ID`, when that is truthy. */
  lemma LoginThenUserId(items: map<string, string>, data: Value, now: int)
    ensures var id := Get(SavedUser(data), "id");
      GetUserId(Login(items, data, now).items) == if TruthyOpt(id) then id else None
  {
    var s := Login(items, data, now);
    SavedUserId(data);
    GetUserIdOfStored(s.items, SavedUser(data));
  }

  /** After a logout, or after the 401 teardown that removes the same keys, no session is restored. */
  lemma LogoutThenRestore(items: map<string, string>)
    ensures Restore(Logout(items).items) == Session(false, JNull, WithoutSession(items))
    ensures Restore(WithoutSession(items)).authenticated == false
  {
  }

  // ---------------------------------------------------------------- the state

  datatype ServerStatus = Checking | Connected | Disconnected

  class AppState {
    var isAuthenticated: bool
    var user: Value
    var loading: bool
    var serverStatus: ServerStatus
    const store: LocalStorage

    constructor(store: LocalStorage)
      ensures !isAuthenticated && user == JNull && loading && serverStatus == Checking && this.store == store
    {
      isAuthenticated := false;
      user := JNull;
      loading := true;
      serverStatus := Checking;
      this.store := store;
    }

    /** `checkSavedSession`; loading ends on every path. */
    method CheckSavedSession()
      modifies this, store
      ensures Session(isAuthenticated, user, store.items) == Restore(old(store.items))
      ensures !loading && serverStatus == old(serverStatus)
    {
      var token := store.GetItem("token");
      var userStr := store.GetItem("user");
      if token.None? || token.value == "" || userStr.None? || userStr.value == "" {
        isAuthenticated := false;
        user := JNull;
        loading := false;
        return;
      }
      match Parse(userStr.value) {
        case Some(userData) =>
          isAuthenticated := true;
          user := userData;
        case None =>
          store.RemoveItem("token");
          store.RemoveItem("user");
          isAuthenticated := false;
          user := JNull;
      }
      loading := false;
    }

    /**
     * `checkServerConnection` once the probe has settled: a reachable server leads to the saved-session
     * check, an unreachable one ends loading without reading the session.
     */
    method CheckServerConnection(probeOk: bool)
      modifies this, store
      ensures probeOk ==>
        serverStatus == Connected && Session(isAuthenticated, user, store.items) == Restore(old(store.items))
      ensures !probeOk ==>
        serverStatus == Disconnected && store.items == old(store.items) &&
        isAuthenticated == old(isAuthenticated) && user == old(user)
      ensures !loading
    {
      if probeOk {
        serverStatus := Connected;
        CheckSavedSession();
      } else {
        serverStatus := Disconnected;
        loading := false;
      }
    }

    /** `retryConnection` up to the new probe, whose outcome `CheckServerConnection` then handles. */
    method RetryConnection()
      modifies this
      ensures serverStatus == Checking && loading
      ensures isAuthenticated == old(isAuthenticated) && user == old(user)
    {
      serverStatus := Checking;
      loading := true;
    }

    /** `handleLogin`; `data` is the response body and `now` the value of `Date.now()`. */
    method HandleLogin(data: Value, now: int)
      modifies this, store
      ensures Session(isAuthenticated, user, store.items) == Login(old(store.items), data, now)
      ensures loading == old(loading) && serverStatus == old(serverStatus)
    {
      var userToSave := SavedUser(data);
      var token := SessionToken(userToSave, now);
      store.SetItem("token", token);
      store.SetItem("user", Stringify(JObj(userToSave)));
      isAuthenticated := true;
      user := JObj(userToSave);
    }

    /** `handleRegister` does exactly what `handleLogin` does. */
    method HandleRegister(data: Value, now: int)
      modifies this, store
      ensures Session(isAuthenticated, user, store.items) == Login(old(store.items), data, now)
      ensures loading == old(loading) && serverStatus == old(serverStatus)
    {
      HandleLogin(data, now);
    }

    /** `handleLogout` */
    method HandleLogout()
      modifies this, store
      ensures Session(isAuthenticated, user, store.items) == Logout(old(store.items))
      ensures loading == old(loading) && serverStatus == old(serverStatus)
    {
      store.RemoveItem("token");
      store.RemoveItem("user");
      isAuthenticated := false;
      user := JNull;
    }
  }

  // ---------------------------------------------------------------- routes

  datatype Page = LandingPage | LoginPage | RegisterPage | DashboardPage | SchedulePage | TasksPage | StatisticsPage

  /** What a route renders: a page, or a `<Navigate to=...>` redirect. */
  datatype Element = Show(page: Page) | Navigate(to: string)

  /** The pages only a signed-in user may see. */
  predicate Protected(p: Page) {
    p in {DashboardPage, SchedulePage, TasksPage, StatisticsPage}
  }

  /** The path without the slashes it ends with. */
  function StripTrailingSlashes(path: string): (bare: string)
    ensures bare <= path
    ensures bare == [] || bare[|bare| - 1] != '/'
    ensures forall i :: |bare| <= i < |path| ==> path[i] == '/'
  {
    if path != [] && path[|path| - 1] == '/' then StripTrailingSlashes(path[..|path| - 1]) else path
  }

  /** ASCII upper-case letters to lower case; every other character unchanged. */
  function LowerChar(c: char): (l: char)
    ensures 'A' <= c <= 'Z' ==> l as int == c as int + 32
    ensures !('A' <= c <= 'Z') ==> l == c
  {
    if 'A' <= c <= 'Z' then (c as int + 32) as char else c
  }

  function Lower(s: string): (t: string)
    ensures |t| == |s| && forall i :: 0 <= i < |s| ==> t[i] == LowerChar(s[i])
  {
    seq(|s|, i requires 0 <= i < |s| => LowerChar(s[i]))
  }

  /**
   * The form in which React Router compares a location with a route's path: a route also matches its path
   * followed by any number of slashes, and it ignores case, so trailing slashes go and ASCII letters are
   * lowered; a path of slashes only is the root. (A case-insensitive match without the Unicode flag never
   * pairs a non-ASCII character with an ASCII one, and every route path here is ASCII.)
   */
  function RoutePath(path: string): (key: string)
    ensures key == [] || key[|key| - 1] != '/' || key == "/"
  {
    var bare := StripTrailingSlashes(path);
    if path != [] && bare == [] then "/" else Lower(bare)
  }

  /**
   * The route table, matched on `RoutePath(path)`; a path no route matches falls to the catch-all `*` route.
   */
  function Route(path: string, authenticated: bool): (e: Element)
    ensures e.Show? && Protected(e.page) ==> authenticated
    ensures e.Show? && !Protected(e.page) ==> !authenticated
    ensures e.Navigate? && authenticated ==> e.to == "/dashboard"
    ensures e.Navigate? && !authenticated ==> e.to == "/login" || e.to == "/"
  {
    match RoutePath(path)
    case "/" => if authenticated then Navigate("/dashboard") else Show(LandingPage)
    case "/login" => if !authenticated then Show(LoginPage) else Navigate("/dashboard")
    case "/register" => if !authenticated then Show(RegisterPage) else Navigate("/dashboard")
    case "/dashboard" => if authenticated then Show(DashboardPage) else Navigate("/login")
    case "/schedule" => if authenticated then Show(SchedulePage) else Navigate("/login")
    case "/tasks" => if authenticated then Show(TasksPage) else Navigate("/login")
    case "/stats" => if authenticated then Show(StatisticsPage) else Navigate("/login")
    case _ => Navigate(if authenticated then "/dashboard" else "/")
  }

  /** A path already in matching form is compared as it is. */
  lemma RoutePathOfCanonical(path: string)
    requires path != [] && (path == "/" || path[|path| - 1] != '/')
    requires forall i :: 0 <= i < |path| ==> !('A' <= path[i] <= 'Z')
    ensures RoutePath(path) == path
  {
    if path == "/" {
      assert StripTrailingSlashes(path) == StripTrailingSlashes([]);
    }
  }

  /** A slash more at the end of a location does not change the route it takes. */
  lemma RouteIgnoresTrailingSlash(path: string, authenticated: bool)
    requires path != []
    ensures Route(path + "/", authenticated) == Route(path, authenticated)
  {
    assert (path + "/")[..|path|] == path;
  }

  /** Letter case in a location does not change the route it takes. */
  lemma RouteIgnoresCase(path: string, authenticated: bool)
    ensures Route(Lower(path), authenticated) == Route(path, authenticated)
  {
    StripLower(path);
    assert Lower(Lower(StripTrailingSlashes(path))) == Lower(StripTrailingSlashes(path));
  }

  /** Lowering letters and stripping trailing slashes commute. */
  lemma {:induction false} StripLower(path: string)
    ensures StripTrailingSlashes(Lower(path)) == Lower(StripTrailingSlashes(path))
  {
    if path != [] {
      assert Lower(path)[..|path| - 1] == Lower(path[..|path| - 1]);
      StripLower(path[..|path| - 1]);
    }
  }

  /** The three redirect targets: the dashboard, the login page and the root. */
  lemma RouteTargets(authenticated: bool)
    ensures Route("/dashboard", authenticated) == if authenticated then Show(DashboardPage) else Navigate("/login")
    ensures Route("/login", authenticated) == if authenticated then Navigate("/dashboard") else Show(LoginPage)
    ensures Route("/", authenticated) == if authenticated then Navigate("/dashboard") else Show(LandingPage)
  {
    RoutePathOfCanonical("/dashboard");
    RoutePathOfCanonical("/login");
    RoutePathOfCanonical("/");
  }

  /**
   * The guards: a signed-out visitor is sent from a protected page to the login page, a signed-in user from the
   * login or register page to the dashboard, and any unknown path goes to the dashboard or the landing page.
   */
  lemma RouteGuard(path: string, authenticated: bool)
    ensures RoutePath(path) in ["/dashboard", "/schedule", "/tasks", "/stats"] && !authenticated ==>
      Route(path, authenticated) == Navigate("/login")
    ensures RoutePath(path) in ["/login", "/register"] && authenticated ==>
      Route(path, authenticated) == Navigate("/dashboard")
    ensures RoutePath(path) !in ["/", "/login", "/register", "/dashboard", "/schedule", "/tasks", "/stats"] ==>
      Route(path, authenticated) == Navigate(if authenticated then "/dashboard" else "/")
  {
  }

  /**
   * Every redirect lands on a page in one step: a signed-in user ends on the dashboard, anyone else on the
   * login page or the landing page.
   */
  lemma RedirectSettles(path: string, authenticated: bool)
    ensures var e := Route(path, authenticated);
      e.Navigate? ==> Route(e.to, authenticated).Show?
    ensures var e := Route(path, authenticated);
      e.Navigate? && authenticated ==> Route(e.to, authenticated) == Show(DashboardPage)
  {
    RouteTargets(authenticated);
  }

  /** Each page has its path, and a signed-in user reaches every protected page by it. */
  lemma ProtectedPagesReachable()
    ensures Route("/dashboard", true) == Show(DashboardPage) && Route("/schedule", true) == Show(SchedulePage)
    ensures Route("/tasks", true) == Show(TasksPage) && Route("/stats", true) == Show(StatisticsPage)
    ensures Route("/login", false) == Show(LoginPage) && Route("/register", false) == Show(RegisterPage)
    ensures Route("/", false) == Show(LandingPage)
  {
    RouteTargets(true);
    RouteTargets(false);
    RoutePathOfCanonical("/schedule");
    RoutePathOfCanonical("/tasks");
    RoutePathOfCanonical("/stats");
    RoutePathOfCanonical("/register");
  }

  /** Matching forgives a trailing slash: signed out, "/login/" shows the login page and "/dashboard/" redirects. */
  lemma RouteLeniency()
    ensures Route("/login/", false) == Show(LoginPage)
    ensures Route("/dashboard/", false) == Navigate("/login")
  {
    RouteTargets(false);
    RouteIgnoresTrailingSlash("/login", false);
    RouteIgnoresTrailingSlash("/dashboard", false);
    assert "/login" + "/" == "/login/";
    assert "/dashboard" + "/" == "/dashboard/";
  }

  /** Matching forgives letter case: signed in, "/Stats" shows the statistics. */
  lemma RouteCaseExample()
    ensures Route("/Stats", true) == Show(StatisticsPage)
  {
    RouteIgnoresCase("/Stats", true);
    assert Lower("/Stats") == "/stats";
    RoutePathOfCanonical("/stats");
  }

  /** What the app renders as a whole. */
  datatype Screen = LoadingScreen | ServerErrorScreen | Routed(header: bool, element: Element)

  /** The loading screen first, then the server error, then the header (signed in only) over the routes. */
  function AppScreen(loading: bool, status: ServerStatus, authenticated: bool, path: string): (s: Screen)
    ensures loading <==> s == LoadingScreen
    ensures s.Routed? <==> !loading && status != Disconnected
    ensures s.Routed? ==> (s.header <==> authenticated) && s.element == Route(path, authenticated)
  {
    if loading then LoadingScreen
    else if status == Disconnected then ServerErrorScreen
    else Routed(authenticated, Route(path, authenticated))
  }
}
