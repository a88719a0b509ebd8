/** The request handlers of the laundry-ordering application over an
    in-memory store: the `users` and `orders` tables, the one browser
    session, and the next ids AUTOINCREMENT will hand out. */
module SmartWash {
  import opened Tables
  import opened Billing

  /** The seeded administrator's fixed name and credentials. */
  const AdminName := "Admin"
  const AdminEmail := "admin@smartwash.com"
  const AdminPassword := "admin123"

  /** The session either is empty or holds what login stored in it. */
  datatype Session = Anonymous | Active(userId: int, role: string, name: string)

  datatype Page = LoginPage | DashboardPage | AdminPage

  /** What a handler answers: a redirect, a page with the data it shows, or
      the failure of a request whose handler raised an exception.
      `failed` stands for the error message flashed on the form. */
  datatype Response =
    | Redirect(target: Page)
    | LoginForm(failed: bool)
    | RegisterForm(failed: bool)
    | DashboardView(orders: seq<Order>, name: string, paymentAllowed: bool)
    | AdminView(rows: seq<AdminRow>)
    | ServerError

  datatype LoginRequest = LoginGet | LoginPost(email: string, password: string)
  datatype RegisterRequest = RegisterGet | RegisterPost(name: string, email: string, password: string)
  /** `quantity` is the integer the form's text denotes, or `None` when
      `int()` rejects the text. */
  datatype DashboardRequest = DashboardGet | DashboardPost(service: string, quantity: Option<int>)
  datatype AdminRequest = AdminGet | AdminPost(orderId: int, status: string)

  /** The dashboard's guard: a user id is stored and the role is exactly "user". */
  predicate IsUserSession(s: Session)
  {
    s.Active? && s.role == "user"
  }

  /** The admin page's guard: a user id is stored and the role is exactly "admin". */
  predicate IsAdminSession(s: Session)
  {
    s.Active? && s.role == "admin"
  }

  /** An order of `quantity` units of `service` can be stored: the quantity
      parsed, and both it and its total fit an SQLite INTEGER, so the INSERT
      can bind them. */
  predicate Storable(service: string, quantity: Option<int>)
  {
    quantity.Some? && FitsInteger(quantity.value) && FitsInteger(TotalPrice(service, quantity.value))
  }

  /** A non-empty session holds the id, role and name of a stored user. */
  ghost predicate SessionOfStoredUser(s: Session, users: seq<User>)
  {
    s.Active? ==> exists u :: u in users && s == Active(u.id, u.role, u.name)
  }

  lemma SessionOfStoredUserGrows(s: Session, users: seq<User>, u: User)
    requires SessionOfStoredUser(s, users)
    ensures SessionOfStoredUser(s, users + [u])
  {
  }

  lemma SessionUserIsStored(s: Session, users: seq<User>)
    requires SessionOfStoredUser(s, users) && s.Active?
    ensures KnownUser(users, s.userId)
  {
  }

  class App {
    var users: seq<User>
    var orders: seq<Order>
    var session: Session
    var nextUserId: int
    var nextOrderId: int

    /** Ids are fresh and increasing, emails unique, every order belongs to
        a stored user, and a non-empty session names a stored user. */
    ghost predicate Valid()
      reads this
    {
      UsersWellFormed(users, nextUserId) &&
      OrdersWellFormed(orders, users, nextOrderId) &&
      SessionOfStoredUser(session, users)
    }

    /** A new database file: both tables created empty; a fresh session. */
    constructor ()
      ensures Valid()
      ensures users == [] && orders == [] && session == Anonymous
      ensures nextUserId == 1 && nextOrderId == 1
    {
      users, orders, session := [], [], Anonymous;
      nextUserId, nextOrderId := 1, 1;
    }

    /** `INSERT INTO users`, refused by the UNIQUE constraint on the email. */
    method InsertUser(name: string, email: string, password: string, role: string) returns (ok: bool)
      requires Valid()
      modifies this`users, this`nextUserId
      ensures Valid()
      ensures ok <==> !EmailTaken(old(users), email)
      ensures ok ==> users == old(users) + [User(old(nextUserId), name, email, password, role)]
                     && nextUserId == old(nextUserId) + 1
      ensures !ok ==> users == old(users) && nextUserId == old(nextUserId)
      ensures AdminCount(users) == AdminCount(old(users)) + (if ok && role == "admin" then 1 else 0)
    {
      ok := !EmailTaken(users, email);
      if ok {
        var u := User(nextUserId, name, email, password, role);
        AdminCountAppend(users, u);
        InsertUserWellFormed(users, nextUserId, u);
        OrdersWellFormedMoreUsers(orders, users, nextOrderId, u);
        SessionOfStoredUserGrows(session, users, u);
        users := users + [u];
        nextUserId := nextUserId + 1;
      }
    }

    /** Start-up seeding: insert the default administrator when no
        administrator row exists. The insert fails (and start-up with it) only
        when some non-administrator already holds the administrator's email. */
    method InitDb() returns (ok: bool)
      requires Valid()
      modifies this`users, this`nextUserId
      ensures Valid()
      ensures ok <==> HasAdmin(users)
      ensures old(HasAdmin(users)) ==> ok && users == old(users) && nextUserId == old(nextUserId)
      ensures !old(HasAdmin(users)) ==>
                (ok <==> !EmailTaken(old(users), AdminEmail)) &&
                users == (if ok then old(users) + [User(old(nextUserId), AdminName, AdminEmail, AdminPassword, "admin")]
                          else old(users)) &&
                nextUserId == (if ok then old(nextUserId) + 1 else old(nextUserId))
      ensures AdminCount(users) == if old(AdminCount(users)) == 0 && ok then 1 else old(AdminCount(users))
    {
      if HasAdmin(users) {
        ok := true;
      } else {
        ok := InsertUser(AdminName, AdminEmail, AdminPassword, "admin");
        if ok {
          assert users[|users| - 1] in users;
        }
      }
    }

    /** `/` and `/login`. */
    method Login(req: LoginRequest) returns (resp: Response)
      requires Valid()
      modifies this`session
      ensures Valid()
      ensures req.LoginGet? ==> session == old(session) && resp == LoginForm(false)
      ensures req.LoginPost? ==>
                (resp.Redirect? <==> exists u :: u in users && u.email == req.email && u.password == req.password)
      ensures req.LoginPost? && FindByCredentials(users, req.email, req.password).Some? ==>
                var u := FindByCredentials(users, req.email, req.password).value;
                session == Active(u.id, u.role, u.name) &&
                resp == Redirect(if u.role == "admin" then AdminPage else DashboardPage)
      ensures req.LoginPost? && FindByCredentials(users, req.email, req.password).None? ==>
                session == old(session) && resp == LoginForm(true)
    {
      match req
      case LoginGet =>
        resp := LoginForm(false);
      case LoginPost(email, password) =>
        var found := FindByCredentials(users, email, password);
        match found
        case Some(u) =>
          session := Active(u.id, u.role, u.name);
          resp := Redirect(if u.role == "admin" then AdminPage else DashboardPage);
        case None =>
          resp := LoginForm(true);
    }

    /** `/register`: a new user always gets the role "user". */
    method Register(req: RegisterRequest) returns (resp: Response)
      requires Valid()
      modifies this`users, this`nextUserId
      ensures Valid()
      ensures req.RegisterGet? ==> users == old(users) && nextUserId == old(nextUserId) && resp == RegisterForm(false)
      ensures req.RegisterPost? && EmailTaken(old(users), req.email) ==>
                users == old(users) && nextUserId == old(nextUserId) && resp == RegisterForm(true)
      ensures req.RegisterPost? && !EmailTaken(old(users), req.email) ==>
                users == old(users) + [User(old(nextUserId), req.name, req.email, req.password, "user")] &&
                nextUserId == old(nextUserId) + 1 && resp == Redirect(LoginPage)
      ensures AdminCount(users) == AdminCount(old(users))
    {
      match req
      case RegisterGet =>
        resp := RegisterForm(false);
      case RegisterPost(name, email, password) =>
        var ok := InsertUser(name, email, password, "user");
        resp := if ok then Redirect(LoginPage) else RegisterForm(true);
    }

    /** `/logout`. */
    method Logout() returns (resp: Response)
      requires Valid()
      modifies this`session
      ensures Valid()
      ensures session == Anonymous && resp == Redirect(LoginPage)
    {
      session := Anonymous;
      resp := Redirect(LoginPage);
    }

    /** `/dashboard`: an order placed by POST, then the user's own orders,
        newest first, and whether any of them is completed. */
    method Dashboard(req: DashboardRequest, now: int) returns (resp: Response)
      requires Valid()
      modifies this`orders, this`nextOrderId
      ensures Valid()
      ensures !IsUserSession(session) ==>
                resp == Redirect(LoginPage) && orders == old(orders) && nextOrderId == old(nextOrderId)
      ensures IsUserSession(session) && req.DashboardGet? ==>
                orders == old(orders) && nextOrderId == old(nextOrderId)
      ensures IsUserSession(session) && req.DashboardPost? && !Storable(req.service, req.quantity) ==>
                resp == ServerError && orders == old(orders) && nextOrderId == old(nextOrderId)
      ensures IsUserSession(session) && req.DashboardPost? && Storable(req.service, req.quantity) ==>
                orders == old(orders) + [Order(old(nextOrderId), session.userId, req.service, req.quantity.value,
                                               TotalPrice(req.service, req.quantity.value), "Pending", now)] &&
                nextOrderId == old(nextOrderId) + 1
      ensures IsUserSession(session) && (req.DashboardGet? || Storable(req.service, req.quantity)) ==>
                resp.DashboardView? && resp.name == session.name &&
                IsNewestFirst(resp.orders) &&
                (forall o :: multiset(resp.orders)[o] == if o.userId == session.userId then multiset(orders)[o] else 0) &&
                (resp.paymentAllowed <==> exists i :: 0 <= i < |resp.orders| && resp.orders[i].status == "Completed")
    {
      if !IsUserSession(session) {
        return Redirect(LoginPage);
      }
      if req.DashboardPost? {
        if !Storable(req.service, req.quantity) {
          return ServerError;
        }
        var o := Order(nextOrderId, session.userId, req.service, req.quantity.value,
                       TotalPrice(req.service, req.quantity.value), "Pending", now);
        SessionUserIsStored(session, users);
        InsertOrderWellFormed(orders, users, nextOrderId, o);
        orders := orders + [o];
        nextOrderId := nextOrderId + 1;
      }
      var listing := UserListing(orders, session.userId);
      resp := DashboardView(listing, session.name, PaymentAllowed(listing));
    }

    /** `/admin`: a status overwrite by POST, then every order with its
        owner's name, newest first. */
    method AdminDashboard(req: AdminRequest) returns (resp: Response)
      requires Valid()
      modifies this`orders
      ensures Valid()
      ensures !IsAdminSession(session) ==> resp == Redirect(LoginPage) && orders == old(orders)
      ensures IsAdminSession(session) && req.AdminGet? ==> orders == old(orders)
      ensures IsAdminSession(session) && req.AdminPost? ==>
                orders == SetStatus(old(orders), req.orderId, req.status)
      ensures IsAdminSession(session) ==>
                resp.AdminView? &&
                IsNewestFirst(OrdersOf(resp.rows)) &&
                multiset(OrdersOf(resp.rows)) == multiset(orders) &&
                (forall r | r in resp.rows :: OwnerName(users, r.order.userId) == Some(r.ownerName))
    {
      if !IsAdminSession(session) {
        return Redirect(LoginPage);
      }
      if req.AdminPost? {
        SetStatusWellFormed(orders, users, nextOrderId, req.orderId, req.status);
        orders := SetStatus(orders, req.orderId, req.status);
      }
      resp := AdminView(AdminListing(orders, users));
    }
  }

  /** A fresh store seeded twice holds exactly one administrator, and the
      second seeding succeeds without inserting anything. */
  method SeedTwice() returns (admins: nat, usersAfterFirst: nat, usersAfterSecond: nat)
    ensures admins == 1 && usersAfterFirst == 1 && usersAfterSecond == 1
  {
    var app := new App();
    var ok := app.InitDb();
    usersAfterFirst := |app.users|;
    ok := app.InitDb();
    usersAfterSecond := |app.users|;
    admins := AdminCount(app.users);
  }

  /** Registering an unused email and then logging in with the same
      credentials opens a session for the new user, as a plain user. */
  method RegisterThenLogin(app: App, name: string, email: string, password: string) returns (resp: Response)
    requires app.Valid()
    requires !EmailTaken(app.users, email)
    modifies app`users, app`nextUserId, app`session
    ensures app.Valid()
    ensures app.users == old(app.users) + [User(old(app.nextUserId), name, email, password, "user")]
    ensures app.session == Active(old(app.nextUserId), "user", name)
    ensures resp == Redirect(DashboardPage)
  {
    var r := app.Register(RegisterPost(name, email, password));
    var u := User(old(app.nextUserId), name, email, password, "user");
    assert u == app.users[|app.users| - 1];
    FindByCredentialsFindsTheUser(app.users, u);
    resp := app.Login(LoginPost(email, password));
  }
}
