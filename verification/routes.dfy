/** The client's routing (`App`): the session it keeps (a token and two role
    flags, mirrored in browser storage), the guard that protects pages, the
    ordered route table with its redirects and fallback, and logout. */
module Routes {
  import opened Wrappers

  // ---------------------------------------------------------------------
  // The session

  /** `token`, `isAdmin` and `isStaff` as the application holds them. */
  datatype Session = Session(token: Option<string>, isAdmin: bool, isStaff: bool)

  /** JavaScript truthiness of the token: null and "" count as no token. */
  predicate HasToken(s: Session) {
    s.token.Some? && s.token.value != ""
  }

  /** Browser storage, key to value. */
  type Storage = map<string, string>

  /** The storage keys that belong to a login. */
  const SessionKeys: set<string> :=
    {"token", "is_admin", "is_staff", "staff_id", "user_name", "department"}

  /** The session the application starts with: the stored token unless it is
      missing or empty, and each flag set exactly when its stored value is
      the text "true". */
  function InitialSession(storage: Storage): (s: Session)
    ensures HasToken(s) <==> "token" in storage && storage["token"] != ""
    ensures s.isAdmin <==> "is_admin" in storage && storage["is_admin"] == "true"
    ensures s.isStaff <==> "is_staff" in storage && storage["is_staff"] == "true"
  {
    Session(
      if "token" in storage && storage["token"] != "" then Some(storage["token"]) else None,
      "is_admin" in storage && storage["is_admin"] == "true",
      "is_staff" in storage && storage["is_staff"] == "true")
  }

  /** The signed-out session. */
  const SignedOut: Session := Session(None, false, false)

  /** `handleLogout`: the session is reset and the six login keys are removed
      from storage; every other stored key stays as it was. */
  function Logout(storage: Storage): (r: (Session, Storage))
    ensures !HasToken(r.0) && !r.0.isAdmin && !r.0.isStaff && r.0.token.None?
    ensures forall k :: k in SessionKeys ==> k !in r.1
    ensures forall k :: k in r.1 <==> k in storage && k !in SessionKeys
    ensures forall k :: k in r.1 ==> r.1[k] == storage[k]
  {
    (SignedOut, storage - SessionKeys)
  }

  /** After a logout, reloading the application finds the same signed-out
      session the logout left in memory. */
  lemma LogoutSurvivesReload(storage: Storage)
    ensures InitialSession(Logout(storage).1) == Logout(storage).0
  {
    var after := Logout(storage).1;
    assert "token" in SessionKeys && "is_admin" in SessionKeys && "is_staff" in SessionKeys;
    assert "token" !in after && "is_admin" !in after && "is_staff" !in after;
  }

  // ---------------------------------------------------------------------
  // Paths and the guard

  /** The paths the route table names, and every other path. */
  datatype Path =
    | StaffLoginPath | StaffRegistrationPath | LoginPath
    | RootPath | StaffPath | DepartmentPath | SchedulePath | SettingsPath | SalaryPath | AttendancePath
    | UserDashboardPath | StaffDashboardPath
    | Unrouted(text: string)

  function PathText(p: Path): string {
    match p
    case StaffLoginPath => "/staff-login"
    case StaffRegistrationPath => "/staff-registration"
    case LoginPath => "/login"
    case RootPath => "/"
    case StaffPath => "/staff"
    case DepartmentPath => "/department"
    case SchedulePath => "/schedule"
    case SettingsPath => "/settings"
    case SalaryPath => "/salary"
    case AttendancePath => "/attendance"
    case UserDashboardPath => "/user-dashboard"
    case StaffDashboardPath => "/staff-dashboard"
    case Unrouted(text) => text
  }

  /** Matches a location against the route table: the first route declared
      with that path, or the fallback. */
  function Classify(text: string): (p: Path)
    ensures PathText(p) == text
    ensures p.Unrouted? ==> forall q: Path :: !q.Unrouted? ==> PathText(q) != text
  {
    if text == "/staff-login" then StaffLoginPath
    else if text == "/staff-registration" then StaffRegistrationPath
    else if text == "/login" then LoginPath
    else if text == "/" then RootPath
    else if text == "/staff" then StaffPath
    else if text == "/department" then DepartmentPath
    else if text == "/schedule" then SchedulePath
    else if text == "/settings" then SettingsPath
    else if text == "/salary" then SalaryPath
    else if text == "/attendance" then AttendancePath
    else if text == "/user-dashboard" then UserDashboardPath
    else if text == "/staff-dashboard" then StaffDashboardPath
    else Unrouted(text)
  }

  /** The path the login page sends an administrator to; no route has it. */
  const DashboardRedirect: Path := Unrouted("/dashboard")

  datatype Page =
    | DashboardPage | StaffPage | DepartmentPage | SchedulePage | SettingsPage
    | SalaryPage | AttendancePage | UserDashboardPage | StaffDashboardPage
    | LoginPage | StaffLoginPage | StaffRegistrationPage

  /** What a route does: show a page or send the browser elsewhere. */
  datatype Decision = Render(page: Page) | Redirect(to: Path)

  /** `PrivateRoute`: the token is checked first, then the admin role, then
      the staff role; a page whose checks all pass is shown. */
  function Guard(s: Session, adminOnly: bool, staffOnly: bool, page: Page): (r: Decision)
    ensures !HasToken(s) ==> r == Redirect(StaffLoginPath)
    ensures HasToken(s) && adminOnly && !s.isAdmin ==> r == Redirect(UserDashboardPath)
    ensures HasToken(s) && !(adminOnly && !s.isAdmin) && staffOnly && !s.isStaff ==> r == Redirect(StaffLoginPath)
    ensures r == Render(page) <==>
      HasToken(s) && (adminOnly ==> s.isAdmin) && (staffOnly ==> s.isStaff)
    ensures r.Render? ==> r.page == page
  {
    if !HasToken(s) then Redirect(StaffLoginPath)
    else if adminOnly && !s.isAdmin then Redirect(UserDashboardPath)
    else if staffOnly && !s.isStaff then Redirect(StaffLoginPath)
    else Render(page)
  }

  /** More rights never close a page: if the guard shows a page to a
      session, it shows it to the same session with more roles. */
  lemma GuardMonotone(s: Session, t: Session, adminOnly: bool, staffOnly: bool, page: Page)
    requires s.token == t.token && (s.isAdmin ==> t.isAdmin) && (s.isStaff ==> t.isStaff)
    requires Guard(s, adminOnly, staffOnly, page).Render?
    ensures Guard(t, adminOnly, staffOnly, page) == Render(page)
  {
  }

  // ---------------------------------------------------------------------
  // The route table

  /** Where the fallback sends the browser. */
  function FallbackTarget(s: Session): (to: Path)
    ensures !HasToken(s) ==> to == StaffLoginPath
    ensures HasToken(s) && s.isAdmin ==> to == RootPath
    ensures HasToken(s) && !s.isAdmin && s.isStaff ==> to == StaffDashboardPath
    ensures HasToken(s) && !s.isAdmin && !s.isStaff ==> to == UserDashboardPath
  {
    if HasToken(s) then
      (if s.isAdmin then RootPath else if s.isStaff then StaffDashboardPath else UserDashboardPath)
    else StaffLoginPath
  }

  /** The page each route of the table declares for its path; the fallback
      declares none. */
  function DeclaredPage(p: Path): Option<Page> {
    match p
    case StaffLoginPath => Some(StaffLoginPage)
    case StaffRegistrationPath => Some(StaffRegistrationPage)
    case LoginPath => Some(LoginPage)
    case RootPath => Some(DashboardPage)
    case StaffPath => Some(StaffPage)
    case DepartmentPath => Some(DepartmentPage)
    case SchedulePath => Some(SchedulePage)
    case SettingsPath => Some(SettingsPage)
    case SalaryPath => Some(SalaryPage)
    case AttendancePath => Some(AttendancePage)
    case UserDashboardPath => Some(UserDashboardPage)
    case StaffDashboardPath => Some(StaffDashboardPage)
    case Unrouted(_) => None
  }

  /** The seven routes wrapped in `PrivateRoute adminOnly`. */
  predicate AdminPath(p: Path) {
    p.RootPath? || p.StaffPath? || p.DepartmentPath? || p.SchedulePath?
    || p.SettingsPath? || p.SalaryPath? || p.AttendancePath?
  }

  /** The decision of the route that matches `p`. The root path is declared
      twice; the admin dashboard route comes first and wins, so the later
      root route (a redirect to the staff login) is never used. */
  function Resolve(p: Path, s: Session): (r: Decision)
    ensures p == StaffLoginPath || p == StaffRegistrationPath ==>
      (r == Redirect(StaffDashboardPath) <==> HasToken(s) && s.isStaff)
    ensures p == StaffLoginPath && !(HasToken(s) && s.isStaff) ==> r == Render(StaffLoginPage)
    ensures p == StaffRegistrationPath && !(HasToken(s) && s.isStaff) ==> r == Render(StaffRegistrationPage)
    ensures p == LoginPath && HasToken(s) ==>
      r == Redirect(if s.isAdmin then DashboardRedirect else UserDashboardPath)
    ensures p == LoginPath && !HasToken(s) ==> r == Render(LoginPage)
    ensures p.Unrouted? ==> r == Redirect(FallbackTarget(s))
    ensures AdminPath(p) ==> (r.Render? <==> HasToken(s) && s.isAdmin)
    ensures AdminPath(p) && !HasToken(s) ==> r == Redirect(StaffLoginPath)
    ensures AdminPath(p) && HasToken(s) && !s.isAdmin ==> r == Redirect(UserDashboardPath)
    ensures p == UserDashboardPath ==> (r.Render? <==> HasToken(s))
    ensures p == StaffDashboardPath ==> (r.Render? <==> HasToken(s) && s.isStaff)
    ensures p == UserDashboardPath || p == StaffDashboardPath ==> r.Render? || r == Redirect(StaffLoginPath)
    ensures r.Render? ==> DeclaredPage(p) == Some(r.page)
  {
    match p
    case StaffLoginPath =>
      if HasToken(s) && s.isStaff then Redirect(StaffDashboardPath) else Render(StaffLoginPage)
    case StaffRegistrationPath =>
      if HasToken(s) && s.isStaff then Redirect(StaffDashboardPath) else Render(StaffRegistrationPage)
    case LoginPath =>
      if HasToken(s) then Redirect(if s.isAdmin then DashboardRedirect else UserDashboardPath)
      else Render(LoginPage)
    case RootPath => Guard(s, true, false, DashboardPage)
    case StaffPath => Guard(s, true, false, StaffPage)
    case DepartmentPath => Guard(s, true, false, DepartmentPage)
    case SchedulePath => Guard(s, true, false, SchedulePage)
    case SettingsPath => Guard(s, true, false, SettingsPage)
    case SalaryPath => Guard(s, true, false, SalaryPage)
    case AttendancePath => Guard(s, true, false, AttendancePage)
    case UserDashboardPath => Guard(s, false, false, UserDashboardPage)
    case StaffDashboardPath => Guard(s, false, true, StaffDashboardPage)
    case Unrouted(_) => Redirect(FallbackTarget(s))
  }

  /** Follows redirects, at most `fuel` of them, to the page finally shown. */
  function Follow(p: Path, s: Session, fuel: nat): Option<Page>
    decreases fuel
  {
    match Resolve(p, s)
    case Render(page) => Some(page)
    case Redirect(to) => if fuel == 0 then None else Follow(to, s, fuel - 1)
  }

  /** The pages only an administrator may see. */
  predicate AdminPage(page: Page) {
    page.DashboardPage? || page.StaffPage? || page.DepartmentPage? || page.SchedulePage?
    || page.SettingsPage? || page.SalaryPage? || page.AttendancePage?
  }

  /** The administrator's pages are exactly the pages of the admin routes. */
  lemma AdminPagesAreAdminRoutes(p: Path)
    ensures AdminPath(p) <==> DeclaredPage(p).Some? && AdminPage(DeclaredPage(p).value)
  {
  }

  /** A signed-in administrator opens every admin route at once, without a
      redirect. */
  lemma AdminOpensEveryAdminPage(p: Path, s: Session)
    requires AdminPath(p) && HasToken(s) && s.isAdmin
    ensures Follow(p, s, 0) == DeclaredPage(p)
  {
  }

  /** The fallback's target never redirects again. */
  lemma FallbackTargetRenders(s: Session)
    ensures Resolve(FallbackTarget(s), s).Render?
  {
  }

  /** Every path reaches a page after at most two redirects. */
  lemma EveryPathSettles(p: Path, s: Session)
    ensures Follow(p, s, 2).Some?
  {
    match Resolve(p, s)
    case Render(_) =>
    case Redirect(to) =>
      if to.Unrouted? {
        FallbackTargetRenders(s);
      }
  }

  /** A signed-out visitor lands on the staff login page from every path
      except the two other sign-in pages. */
  lemma SignedOutLandsOnStaffLogin(p: Path, s: Session)
    requires !HasToken(s) && p != LoginPath && p != StaffRegistrationPath
    ensures Follow(p, s, 1) == Some(StaffLoginPage)
  {
  }

  /** No path shows an administrator's page to a session without the admin
      flag, however many redirects are followed. */
  lemma {:induction false} AdminPagesNeedAdmin(p: Path, s: Session, fuel: nat)
    requires Follow(p, s, fuel).Some? && AdminPage(Follow(p, s, fuel).value)
    ensures HasToken(s) && s.isAdmin
    decreases fuel
  {
    match Resolve(p, s)
    case Render(page) =>
    case Redirect(to) =>
      AdminPagesNeedAdmin(to, s, fuel - 1);
  }

  // ---------------------------------------------------------------------
  // Layout

  /** The navigation bar needs a token; the sidebar also needs the admin
      flag. */
  function Chrome(s: Session): (r: (bool, bool))
    ensures r.0 <==> HasToken(s)
    ensures r.1 <==> HasToken(s) && s.isAdmin
    ensures r.1 ==> r.0
  {
    (HasToken(s), HasToken(s) && s.isAdmin)
  }

  /** The navigation bar is shown exactly when the user dashboard opens, and
      the sidebar, whose links lead to the admin pages, exactly when every
      admin route opens its page. */
  lemma ChromeMatchesRoutes(s: Session, p: Path)
    requires AdminPath(p)
    ensures Chrome(s).0 <==> Resolve(UserDashboardPath, s).Render?
    ensures Chrome(s).1 <==> Resolve(p, s).Render?
    ensures Chrome(s).1 <==> Resolve(RootPath, s) == Render(DashboardPage)
  {
  }
}
