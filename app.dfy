/** The request handlers: what each route decides from the session and the form,
    with Flask's responses reduced to outcome values and the session to a map. */
module App {
  import opened Records
  import opened Ledger
  import opened Db

  /** The pages a handler redirects to. */
  datatype Endpoint = LoginPage | IndexPage | BlockedPage | ClientDashboard | ManagerDashboard | AdminDashboard

  /** What a handler gives back: a redirect, a rendered template, an explicit error
      body with its status code, or an exception the handler does not catch. */
  datatype Response =
    | Redirect(to: Endpoint)
    | Page(template: string)
    | HttpError(body: string, status: int)
    | Uncaught(exception: string)

  const Forbidden := HttpError("Доступ запрещен", 403)

  // The session keys the handlers use.
  const UserKey := "user"
  const RoleKey := "role"
  const NameKey := "name"
  const BlockedKey := "blocked_user"

  type SessionData = map<string, string>

  function Lookup(s: SessionData, key: string): Option<string> {
    if key in s then Some(s[key]) else None
  }

  /** In every session the handlers build, a logged-in user also has a role and a name. */
  predicate WellFormed(s: SessionData) {
    UserKey in s ==> RoleKey in s && NameKey in s
  }

  /** Python truthiness of the optional `role` argument: neither None nor empty. */
  predicate RoleRequired(role: Option<string>) {
    role.Some? && role.value != ""
  }

  /** `login_required(role)`: no user in the session sends to the login page; a required
      role that the session does not hold gives 403; otherwise the check passes (None). */
  function LoginRequired(s: SessionData, role: Option<string>): (r: Option<Response>)
    ensures r == None <==> UserKey in s && (RoleRequired(role) ==> RoleKey in s && s[RoleKey] == role.value)
    ensures UserKey !in s ==> r == Some(Redirect(LoginPage))
    ensures UserKey in s && r != None ==> r == Some(Forbidden)
  {
    if UserKey !in s then Some(Redirect(LoginPage))
    else if RoleRequired(role) && Lookup(s, RoleKey) != Some(role.value) then Some(Forbidden)
    else None
  }

  /** The dashboard that belongs to a role. */
  function DashboardOf(role: string): Endpoint {
    if role == ClientRole then ClientDashboard
    else if role == ManagerRole then ManagerDashboard
    else if role == AdminRole then AdminDashboard
    else LoginPage
  }

  /** `index`: a logged-in client, manager or admin goes to that role's dashboard; no
      user, or a role outside the three, goes to login; `session['role']` missing
      beside a user raises KeyError. */
  function Index(s: SessionData): (r: Response)
    ensures r == Redirect(ClientDashboard) <==> UserKey in s && RoleKey in s && s[RoleKey] == ClientRole
    ensures r == Redirect(ManagerDashboard) <==> UserKey in s && RoleKey in s && s[RoleKey] == ManagerRole
    ensures r == Redirect(AdminDashboard) <==> UserKey in s && RoleKey in s && s[RoleKey] == AdminRole
    ensures r.Uncaught? <==> UserKey in s && RoleKey !in s
    ensures r.Redirect? || r.Uncaught?
    ensures UserKey !in s ==> r == Redirect(LoginPage)
    ensures UserKey in s && RoleKey in s ==> r == Redirect(DashboardOf(s[RoleKey]))
  {
    if UserKey in s then
      if RoleKey !in s then Uncaught("KeyError")
      else
        var role := s[RoleKey];
        if role == ClientRole then Redirect(ClientDashboard)
        else if role == ManagerRole then Redirect(ManagerDashboard)
        else if role == AdminRole then Redirect(AdminDashboard)
        else Redirect(LoginPage)
    else Redirect(LoginPage)
  }

  /** A session the handlers built never makes `index` raise. */
  lemma IndexTotalOnWellFormed(s: SessionData)
    requires WellFormed(s)
    ensures Index(s).Redirect?
  {
  }

  /** The dashboard `index` picks admits the session: its `login_required` check passes. */
  lemma IndexAdmitsToDashboard(s: SessionData, role: string)
    requires role == ClientRole || role == ManagerRole || role == AdminRole
    requires Index(s) == Redirect(DashboardOf(role))
    ensures LoginRequired(s, Some(role)) == None
  {
  }

  /** The session after a successful login of `u`. */
  function LoggedIn(s: SessionData, u: User): SessionData {
    s[UserKey := u.username][RoleKey := u.role][NameKey := u.name]
  }

  /** A user who has just logged in is sent by `index` to the dashboard of their role,
      and that dashboard's role check lets them in. */
  lemma LoginLandsOnDashboard(s: SessionData, u: User)
    requires u.role == ClientRole || u.role == ManagerRole || u.role == AdminRole
    ensures WellFormed(LoggedIn(s, u))
    ensures Index(LoggedIn(s, u)) == Redirect(DashboardOf(u.role))
    ensures GuardedPage(LoggedIn(s, u), u.role, "dashboard") == Page("dashboard")
  {
  }

  /** `client_dash`, `manager_dash`, `admin_dash`: the role check, then the page. */
  function GuardedPage(s: SessionData, role: string, template: string): (r: Response)
    ensures r == Page(template) <==> UserKey in s && (role != "" ==> RoleKey in s && s[RoleKey] == role)
  {
    match LoginRequired(s, Some(role))
    case Some(refusal) => refusal
    case None => Page(template)
  }

  class Session {
    var data: SessionData

    constructor ()
      ensures data == map[]
    {
      data := map[];
    }
  }

  /** `login`: a GET or wrong credentials leave the session as it was and show the form;
      a blocked user only gets `blocked_user` remembered and is sent to the appeal page;
      anybody else gets `user`, `role` and `name` from the row and goes to `index`. */
  method Login(session: Session, db: Database, isPost: bool, username: string, password: string)
    returns (resp: Response)
    modifies session
    ensures !isPost || db.GetUser(username, password).None? ==>
      resp == Page("login.html") && session.data == old(session.data)
    ensures isPost && db.GetUser(username, password).Some? && db.GetUser(username, password).value.isBlocked != 0 ==>
      resp == Redirect(BlockedPage) && session.data == old(session.data)[BlockedKey := username]
    ensures isPost && db.GetUser(username, password).Some? && db.GetUser(username, password).value.isBlocked == 0 ==>
      && resp == Redirect(IndexPage)
      && session.data == LoggedIn(old(session.data), db.GetUser(username, password).value)
    ensures WellFormed(old(session.data)) ==> WellFormed(session.data)
  {
    if isPost {
      var user := db.GetUser(username, password);
      if user.Some? {
        if user.value.isBlocked != 0 {
          session.data := session.data[BlockedKey := username];
          return Redirect(BlockedPage);
        }
        session.data := session.data[UserKey := user.value.username];
        session.data := session.data[RoleKey := user.value.role];
        session.data := session.data[NameKey := user.value.name];
        return Redirect(IndexPage);
      }
    }
    resp := Page("login.html");
  }

  /** `register`: creates a client; success sends to login, a taken name shows the form again. */
  method Register(db: Database, isPost: bool, username: string, password: string, name: string, email: string,
                  now: string, draw: CardDraw, expiry: string) returns (resp: Response)
    requires db.Valid() && ValidDraw(draw)
    modifies db
    ensures db.Valid()
    ensures !isPost ==> resp == Page("register.html") && db.State() == old(db.State())
    ensures isPost ==> (resp == Redirect(LoginPage) <==> username !in old(db.users))
    ensures isPost && username in old(db.users) ==> resp == Page("register.html") && db.State() == old(db.State())
    ensures isPost && username !in old(db.users) ==> db.State() == old(db.State()).(
      users := old(db.users)[username := NewUser(username, password, ClientRole, name, email, now)],
      accounts := old(db.accounts)[AccountNumber(|old(db.accounts)|) := NewAccount(username, RegisteredAccountType, draw, expiry)])
  {
    if isPost {
      var ok := db.CreateUser(username, password, ClientRole, name, email, now, draw, expiry);
      if ok {
        return Redirect(LoginPage);
      }
    }
    resp := Page("register.html");
  }

  /** `logout`: empties the session. */
  method Logout(session: Session) returns (resp: Response)
    modifies session
    ensures session.data == map[] && resp == Redirect(LoginPage)
  {
    session.data := map[];
    resp := Redirect(LoginPage);
  }

  /** `blocked`: without a remembered blocked user, back to login; a GET shows the
      appeal form; a POST files one appeal for that user, forgets `blocked_user` and
      goes back to login. */
  method Blocked(session: Session, db: Database, isPost: bool, message: string, now: string)
    returns (resp: Response)
    requires db.Valid()
    modifies session, db
    ensures db.Valid()
    ensures Lookup(old(session.data), BlockedKey) in {None, Some("")} ==>
      resp == Redirect(LoginPage) && session.data == old(session.data) && db.State() == old(db.State())
    ensures Lookup(old(session.data), BlockedKey) !in {None, Some("")} && !isPost ==>
      resp == Page("blocked.html") && session.data == old(session.data) && db.State() == old(db.State())
    ensures Lookup(old(session.data), BlockedKey) !in {None, Some("")} && isPost ==>
      && resp == Redirect(LoginPage)
      && session.data == old(session.data) - {BlockedKey}
      && db.State() == old(db.State()).(
           appeals := old(db.appeals)[old(db.nextAppealId) := Appeal(old(session.data)[BlockedKey], message, OpenStatus, now)],
           nextAppealId := old(db.nextAppealId) + 1)
    ensures WellFormed(old(session.data)) ==> WellFormed(session.data)
  {
    var username := Lookup(session.data, BlockedKey);
    if username == None || username == Some("") {
      return Redirect(LoginPage);
    }
    if isPost {
      db.CreateAppeal(username.value, message, now);
      session.data := session.data - {BlockedKey};
      return Redirect(LoginPage);
    }
    resp := Page("blocked.html");
  }

  /** `transaction`: `deposit` and `transfer` go to the store unchecked (no login or
      ownership test); the flash category follows the transfer's result string; any
      other action changes nothing. Every path returns to the client dashboard. */
  method Transaction(db: Database, action: string, accNum: string, toAcc: string, amount: real, now: string)
    returns (resp: Response, category: Option<string>)
    requires db.Valid()
    modifies db
    ensures db.Valid()
    ensures resp == Redirect(ClientDashboard)
    ensures action == "deposit" ==>
      && category == Some("success")
      && db.State() == old(db.State()).(
           accounts := Credited(old(db.accounts), accNum, amount),
           transactions := old(db.transactions) + [DepositEntry(accNum, amount, now)])
    ensures action == "transfer" && TransferPasses(old(db.accounts), accNum, toAcc, amount) ==>
      && category == Some("success")
      && db.State() == old(db.State()).(
           accounts := AfterTransfer(old(db.accounts), accNum, toAcc, amount),
           transactions := old(db.transactions) + TransferEntries(accNum, toAcc, amount, now))
    ensures action == "transfer" && !TransferPasses(old(db.accounts), accNum, toAcc, amount) ==>
      category == Some("danger") && db.State() == old(db.State())
    ensures action != "deposit" && action != "transfer" ==> category == None && db.State() == old(db.State())
  {
    category := None;
    if action == "deposit" {
      db.Deposit(accNum, amount, now);
      category := Some("success");
    } else if action == "transfer" {
      var res := db.Transfer(accNum, toAcc, amount, now);
      category := Some(if TransferMessage(res) == TransferOkText then "success" else "danger");
    }
    resp := Redirect(ClientDashboard);
  }

  /** `toggle_block`: an unknown name raises (the missing row is subscripted); an admin
      is never blocked or unblocked; anyone else gets `status` written. No session check. */
  method ToggleBlock(db: Database, username: string, status: int) returns (resp: Response)
    requires db.Valid()
    modifies db
    ensures db.Valid()
    ensures username !in old(db.users) ==> resp == Uncaught("TypeError") && db.State() == old(db.State())
    ensures username in old(db.users) ==> resp == Redirect(AdminDashboard)
    ensures username in old(db.users) && old(db.users)[username].role == AdminRole ==> db.State() == old(db.State())
    ensures username in old(db.users) && old(db.users)[username].role != AdminRole ==>
      db.State() == old(db.State()).(users := old(db.users)[username := old(db.users)[username].(isBlocked := status)])
    ensures forall u :: u in old(db.users) && old(db.users)[u].role == AdminRole ==>
      u in db.users && db.users[u] == old(db.users)[u]
  {
    var user := db.GetUserByName(username);
    if user.None? {
      return Uncaught("TypeError");
    }
    if user.value.role != AdminRole {
      db.SetBlockStatus(username, status);
    }
    resp := Redirect(AdminDashboard);
  }

  /** `loan_request`: files a pending loan for the session's user; without one the
      handler raises KeyError. */
  method LoanRequest(session: Session, db: Database, amount: real, term: int, today: string)
    returns (resp: Response)
    requires db.Valid()
    modifies db
    ensures db.Valid()
    ensures UserKey !in session.data ==> resp == Uncaught("KeyError") && db.State() == old(db.State())
    ensures UserKey in session.data ==>
      && resp == Redirect(ClientDashboard)
      && db.State() == old(db.State()).(
           loans := old(db.loans)[old(db.nextLoanId) := Loan(session.data[UserKey], amount, term, PendingStatus, today)],
           nextLoanId := old(db.nextLoanId) + 1)
  {
    if UserKey !in session.data {
      return Uncaught("KeyError");
    }
    db.RequestLoan(session.data[UserKey], amount, term, today);
    resp := Redirect(ClientDashboard);
  }

  /** The `create_account` route: opens another account for the session's user. */
  method OpenAccount(session: Session, db: Database, draw: CardDraw, expiry: string) returns (resp: Response)
    requires db.Valid() && ValidDraw(draw)
    modifies db
    ensures db.Valid()
    ensures UserKey !in session.data ==> resp == Uncaught("KeyError") && db.State() == old(db.State())
    ensures UserKey in session.data ==>
      && resp == Redirect(ClientDashboard)
      && db.State() == old(db.State()).(accounts := old(db.accounts)[AccountNumber(|old(db.accounts)|) :=
           NewAccount(session.data[UserKey], RegisteredAccountType, draw, expiry)])
  {
    if UserKey !in session.data {
      return Uncaught("KeyError");
    }
    var _ := db.CreateAccount(session.data[UserKey], RegisteredAccountType, draw, expiry);
    resp := Redirect(ClientDashboard);
  }

  /** The `process_loan` route: forwards to the store without a session check and
      always returns to the manager dashboard. */
  method ProcessLoanRoute(db: Database, loanId: int, decision: string, now: string) returns (resp: Response)
    requires db.Valid()
    modifies db
    ensures db.Valid()
    ensures resp == Redirect(ManagerDashboard)
    ensures loanId !in old(db.loans) ==> db.State() == old(db.State())
    ensures loanId in old(db.loans) ==> db.loans == old(db.loans)[loanId := old(db.loans)[loanId].(status := decision)]
    ensures decision != ApprovedDecision ==> db.accounts == old(db.accounts) && db.transactions == old(db.transactions)
  {
    var _, _ := db.ProcessLoan(loanId, decision, now);
    resp := Redirect(ManagerDashboard);
  }

  /** The `resolve_appeal` route: closes the appeal and unblocks the named user, with
      no session check; afterwards that user's correct credentials log in normally. */
  method ResolveAppealRoute(db: Database, appealId: int, username: string) returns (resp: Response)
    requires db.Valid()
    modifies db
    ensures db.Valid()
    ensures resp == Redirect(AdminDashboard)
    ensures db.State() == old(db.State()).(
      appeals := if appealId in old(db.appeals) then old(db.appeals)[appealId := old(db.appeals)[appealId].(status := ResolvedStatus)]
                 else old(db.appeals),
      users := if username in old(db.users) then old(db.users)[username := old(db.users)[username].(isBlocked := 0)]
               else old(db.users))
    ensures username in old(db.users) ==> username in db.users && db.users[username].isBlocked == 0
    ensures forall p :: db.GetUser(username, p).Some? <==> old(db.GetUser(username, p)).Some?
    ensures forall p :: db.GetUser(username, p).Some? ==> db.GetUser(username, p).value.isBlocked == 0
  {
    db.ResolveAppeal(appealId, username);
    resp := Redirect(AdminDashboard);
  }
}
