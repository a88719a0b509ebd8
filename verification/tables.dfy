/** The two tables of the laundry store (`users`, `orders`) as values, and the
    SQL statements the request handlers run against them, as functions over
    sequences of rows. A sequence is kept in rowid (insertion) order. */
module Tables {

  datatype Option<+T> = None | Some(value: T)

  /** A row of `users`. */
  datatype User = User(id: int, name: string, email: string, password: string, role: string)

  /** A row of `orders`. `createdAt` stands for the creation timestamp; its
      text form is fixed-width, so comparing timestamps compares the text. */
  datatype Order = Order(id: int, userId: int, service: string, quantity: int,
                         totalPrice: int, status: string, createdAt: int)

  /** The range of an SQLite INTEGER (a signed 64-bit value). A Python int
      outside it cannot be bound as a statement parameter. */
  const MinInteger: int := -0x8000_0000_0000_0000
  const MaxInteger: int := 0x7FFF_FFFF_FFFF_FFFF

  predicate FitsInteger(x: int)
  {
    MinInteger <= x <= MaxInteger
  }

  /** A row of the administrator's listing: the order and its owner's name. */
  datatype AdminRow = AdminRow(order: Order, ownerName: string)

  // ---------------------------------------------------------------- users

  /** The UNIQUE constraint on `users.email` would reject `email`. */
  predicate EmailTaken(users: seq<User>, email: string)
  {
    exists u :: u in users && u.email == email
  }

  ghost predicate EmailsUnique(users: seq<User>)
  {
    forall i, j | 0 <= i < j < |users| :: users[i].email != users[j].email
  }

  predicate KnownUser(users: seq<User>, uid: int)
  {
    exists u :: u in users && u.id == uid
  }

  /** `SELECT * FROM users WHERE role='admin'` finds a row. */
  predicate HasAdmin(users: seq<User>)
  {
    exists u :: u in users && u.role == "admin"
  }

  /** The ids AUTOINCREMENT handed out: positive, below the next fresh id,
      increasing in rowid order; emails are unique. */
  ghost predicate UsersWellFormed(users: seq<User>, nextId: int)
  {
    1 <= nextId &&
    (forall i | 0 <= i < |users| :: 1 <= users[i].id < nextId) &&
    (forall i, j | 0 <= i < j < |users| :: users[i].id < users[j].id) &&
    EmailsUnique(users)
  }

  /** Inserting a user with the next id and an unused email keeps the users
      table well formed. */
  lemma InsertUserWellFormed(users: seq<User>, nextId: int, u: User)
    requires UsersWellFormed(users, nextId)
    requires u.id == nextId && !EmailTaken(users, u.email)
    ensures UsersWellFormed(users + [u], nextId + 1)
  {
  }

  /** The number of administrator rows. */
  function AdminCount(users: seq<User>): (n: nat)
    ensures n <= |users|
    ensures n > 0 <==> HasAdmin(users)
  {
    if users == [] then 0
    else
      assert users == [users[0]] + users[1..];
      (if users[0].role == "admin" then 1 else 0) + AdminCount(users[1..])
  }

  lemma {:induction false} AdminCountAppend(users: seq<User>, u: User)
    ensures AdminCount(users + [u]) == AdminCount(users) + (if u.role == "admin" then 1 else 0)
  {
    if users != [] {
      assert (users + [u])[1..] == users[1..] + [u];
      AdminCountAppend(users[1..], u);
    }
  }

  /** `SELECT * FROM users WHERE email=? AND password=?`, first row: both
      fields compared exactly. */
  function FindByCredentials(users: seq<User>, email: string, password: string): (r: Option<User>)
    ensures r.Some? ==> r.value in users && r.value.email == email && r.value.password == password
    ensures r.None? <==> forall u :: u in users ==> !(u.email == email && u.password == password)
  {
    if users == [] then None
    else if users[0].email == email && users[0].password == password then Some(users[0])
    else
      assert users == [users[0]] + users[1..];
      FindByCredentials(users[1..], email, password)
  }

  /** With unique emails, the credentials of a stored user find that user. */
  lemma FindByCredentialsFindsTheUser(users: seq<User>, u: User)
    requires EmailsUnique(users)
    requires u in users
    ensures FindByCredentials(users, u.email, u.password) == Some(u)
  {
  }

  /** The name the inner join `orders JOIN users ON orders.user_id = users.id`
      attaches to an order of user `uid`; None when no user has that id. */
  function OwnerName(users: seq<User>, uid: int): (r: Option<string>)
    ensures r.Some? ==> exists u :: u in users && u.id == uid && u.name == r.value
    ensures r.None? <==> !KnownUser(users, uid)
  {
    if users == [] then None
    else if users[0].id == uid then Some(users[0].name)
    else
      assert users == [users[0]] + users[1..];
      OwnerName(users[1..], uid)
  }

  /** With increasing ids, the joined name is the name of the one user with that id. */
  lemma OwnerNameIsTheOwner(users: seq<User>, nextId: int, u: User)
    requires UsersWellFormed(users, nextId)
    requires u in users
    ensures OwnerName(users, u.id) == Some(u.name)
  {
  }

  // --------------------------------------------------------------- orders

  ghost predicate OrdersWellFormed(orders: seq<Order>, users: seq<User>, nextId: int)
  {
    1 <= nextId &&
    (forall i | 0 <= i < |orders| :: 1 <= orders[i].id < nextId) &&
    (forall i, j | 0 <= i < j < |orders| :: orders[i].id < orders[j].id) &&
    (forall o | o in orders :: KnownUser(users, o.userId))
  }

  /** Adding a user keeps every order's owner stored. */
  lemma OrdersWellFormedMoreUsers(orders: seq<Order>, users: seq<User>, nextId: int, u: User)
    requires OrdersWellFormed(orders, users, nextId)
    ensures OrdersWellFormed(orders, users + [u], nextId)
  {
  }

  /** Inserting an order with the next id and a stored owner keeps the orders
      table well formed. */
  lemma InsertOrderWellFormed(orders: seq<Order>, users: seq<User>, nextId: int, o: Order)
    requires OrdersWellFormed(orders, users, nextId)
    requires o.id == nextId && KnownUser(users, o.userId)
    ensures OrdersWellFormed(orders + [o], users, nextId + 1)
  {
  }

  /** A status update keeps the orders table well formed. */
  lemma SetStatusWellFormed(orders: seq<Order>, users: seq<User>, nextId: int, id: int, status: string)
    requires OrdersWellFormed(orders, users, nextId)
    ensures OrdersWellFormed(SetStatus(orders, id, status), users, nextId)
  {
  }

  /** `ORDER BY created_at DESC`: no order is newer than one listed before it. */
  ghost predicate IsNewestFirst(s: seq<Order>)
  {
    forall i, j | 0 <= i < j < |s| :: s[i].createdAt >= s[j].createdAt
  }

  /** `SELECT * FROM orders WHERE user_id=?`: each row of `uid` as often as
      it is stored, and no other row. */
  function OwnedBy(orders: seq<Order>, uid: int): (r: seq<Order>)
    ensures forall o :: multiset(r)[o] == if o.userId == uid then multiset(orders)[o] else 0
    ensures forall o :: o in r <==> o in orders && o.userId == uid
  {
    if orders == [] then []
    else
      assert orders == [orders[0]] + orders[1..];
      if orders[0].userId == uid then [orders[0]] + OwnedBy(orders[1..], uid)
      else OwnedBy(orders[1..], uid)
  }

  /** Places `o` before the first order that is not newer than it. */
  function InsertByDate(o: Order, s: seq<Order>): (r: seq<Order>)
  {
    if s == [] || o.createdAt >= s[0].createdAt then [o] + s
    else [s[0]] + InsertByDate(o, s[1..])
  }

  lemma {:induction false} InsertByDatePermutes(o: Order, s: seq<Order>)
    ensures multiset(InsertByDate(o, s)) == multiset(s) + multiset{o}
  {
    if s != [] && o.createdAt < s[0].createdAt {
      assert s == [s[0]] + s[1..];
      InsertByDatePermutes(o, s[1..]);
    }
  }

  lemma NewestFirstTail(s: seq<Order>)
    requires s != [] && IsNewestFirst(s)
    ensures IsNewestFirst(s[1..])
  {
  }

  lemma NewestFirstCons(x: Order, s: seq<Order>)
    requires IsNewestFirst(s)
    requires forall y | y in s :: x.createdAt >= y.createdAt
    ensures IsNewestFirst([x] + s)
  {
  }

  lemma {:induction false} InsertByDateSorted(o: Order, s: seq<Order>)
    requires IsNewestFirst(s)
    ensures IsNewestFirst(InsertByDate(o, s))
  {
    if s == [] || o.createdAt >= s[0].createdAt {
      forall y | y in s ensures o.createdAt >= y.createdAt {
        var k :| 0 <= k < |s| && s[k] == y;
      }
      NewestFirstCons(o, s);
    } else {
      var rest := InsertByDate(o, s[1..]);
      NewestFirstTail(s);
      InsertByDateSorted(o, s[1..]);
      InsertByDatePermutes(o, s[1..]);
      forall y | y in rest ensures s[0].createdAt >= y.createdAt {
        assert multiset(rest)[y] > 0;
        if y != o {
          assert y in s[1..];
          var k :| 0 <= k < |s[1..]| && s[1..][k] == y;
          assert s[k + 1] == y;
        }
      }
      NewestFirstCons(s[0], rest);
    }
  }

  /** `ORDER BY created_at DESC`, for one choice of the order among rows of
      equal timestamp (which SQL leaves open). */
  function NewestFirst(s: seq<Order>): (r: seq<Order>)
    ensures IsNewestFirst(r)
    ensures multiset(r) == multiset(s)
  {
    if s == [] then []
    else
      var rest := NewestFirst(s[1..]);
      InsertByDateSorted(s[0], rest);
      InsertByDatePermutes(s[0], rest);
      assert s == [s[0]] + s[1..];
      InsertByDate(s[0], rest)
  }

  /** `SELECT * FROM orders WHERE user_id=? ORDER BY created_at DESC`: the
      orders of `uid`, each as often as stored, no other, newest first. */
  function UserListing(orders: seq<Order>, uid: int): (r: seq<Order>)
    ensures IsNewestFirst(r)
    ensures forall o :: multiset(r)[o] == if o.userId == uid then multiset(orders)[o] else 0
  {
    NewestFirst(OwnedBy(orders, uid))
  }

  /** The orders of a listing, in listing order. */
  function OrdersOf(rows: seq<AdminRow>): (s: seq<Order>)
    ensures |s| == |rows|
    ensures forall k | 0 <= k < |rows| :: s[k] == rows[k].order
  {
    if rows == [] then [] else [rows[0].order] + OrdersOf(rows[1..])
  }

  /** The inner join of `orders` with `users`, order by order: an order whose
      owner exists gets the owner's name; one without is dropped. The
      relative order of the orders is kept. */
  function Joined(orders: seq<Order>, users: seq<User>): (rows: seq<AdminRow>)
    ensures forall r | r in rows :: OwnerName(users, r.order.userId) == Some(r.ownerName)
  {
    if orders == [] then []
    else
      match OwnerName(users, orders[0].userId)
      case Some(name) => [AdminRow(orders[0], name)] + Joined(orders[1..], users)
      case None => Joined(orders[1..], users)
  }

  /** The join lists exactly the orders whose owner exists. */
  lemma {:induction false} JoinedMembers(orders: seq<Order>, users: seq<User>)
    ensures forall o :: o in OrdersOf(Joined(orders, users)) <==> o in orders && KnownUser(users, o.userId)
  {
    if orders != [] {
      JoinedMembers(orders[1..], users);
      assert orders == [orders[0]] + orders[1..];
      var rest := Joined(orders[1..], users);
      if OwnerName(users, orders[0].userId).Some? {
        var rows := Joined(orders, users);
        assert rows[1..] == rest;
        assert OrdersOf(rows) == [orders[0]] + OrdersOf(rest);
      }
    }
  }

  /** When every order's owner exists, the join drops nothing and keeps the order. */
  lemma {:induction false} JoinedKeepsAll(orders: seq<Order>, users: seq<User>)
    requires forall o | o in orders :: KnownUser(users, o.userId)
    ensures OrdersOf(Joined(orders, users)) == orders
  {
    if orders != [] {
      assert orders[0] in orders;
      assert forall o | o in orders[1..] :: o in orders;
      JoinedKeepsAll(orders[1..], users);
      var rows := Joined(orders, users);
      assert rows[1..] == Joined(orders[1..], users);
      assert OrdersOf(rows) == [orders[0]] + OrdersOf(rows[1..]);
    }
  }

  /** The join keeps a newest-first order newest first. */
  lemma {:induction false} JoinedKeepsNewestFirst(orders: seq<Order>, users: seq<User>)
    requires IsNewestFirst(orders)
    ensures IsNewestFirst(OrdersOf(Joined(orders, users)))
  {
    if orders != [] {
      NewestFirstTail(orders);
      JoinedKeepsNewestFirst(orders[1..], users);
      var rest := Joined(orders[1..], users);
      if OwnerName(users, orders[0].userId).Some? {
        var rows := Joined(orders, users);
        assert rows[1..] == rest;
        assert OrdersOf(rows) == [orders[0]] + OrdersOf(rest);
        JoinedMembers(orders[1..], users);
        forall y | y in OrdersOf(rest) ensures orders[0].createdAt >= y.createdAt {
          var k :| 0 <= k < |orders[1..]| && orders[1..][k] == y;
          assert orders[k + 1] == y;
        }
        NewestFirstCons(orders[0], OrdersOf(rest));
      }
    }
  }

  /** When every order's owner is stored, joining the sorted orders drops none. */
  lemma SortedJoinKeepsAll(orders: seq<Order>, users: seq<User>)
    ensures (forall o | o in orders :: KnownUser(users, o.userId)) ==>
              multiset(OrdersOf(Joined(NewestFirst(orders), users))) == multiset(orders)
  {
    var sorted := NewestFirst(orders);
    if forall o | o in orders :: KnownUser(users, o.userId) {
      forall o | o in sorted ensures KnownUser(users, o.userId) {
        assert multiset(sorted)[o] > 0;
        assert o in orders;
      }
      JoinedKeepsAll(sorted, users);
    }
  }

  /** `SELECT orders.*, users.name FROM orders JOIN users ON orders.user_id =
      users.id ORDER BY created_at DESC`: newest first, each order with its
      owner's name, and, when every order's owner is stored, every order once. */
  function AdminListing(orders: seq<Order>, users: seq<User>): (rows: seq<AdminRow>)
    ensures IsNewestFirst(OrdersOf(rows))
    ensures forall r | r in rows :: OwnerName(users, r.order.userId) == Some(r.ownerName)
    ensures (forall o | o in orders :: KnownUser(users, o.userId)) ==>
              multiset(OrdersOf(rows)) == multiset(orders)
  {
    var sorted := NewestFirst(orders);
    JoinedKeepsNewestFirst(sorted, users);
    SortedJoinKeepsAll(orders, users);
    Joined(sorted, users)
  }

  /** `UPDATE orders SET status=? WHERE id=?`. */
  function SetStatus(orders: seq<Order>, id: int, status: string): (r: seq<Order>)
    ensures |r| == |orders|
    ensures forall k | 0 <= k < |orders| && orders[k].id == id :: r[k].status == status
    ensures forall k | 0 <= k < |orders| && orders[k].id != id :: r[k] == orders[k]
    ensures forall k | 0 <= k < |orders| :: r[k].(status := orders[k].status) == orders[k]
  {
    if orders == [] then []
    else
      var first := if orders[0].id == id then orders[0].(status := status) else orders[0];
      [first] + SetStatus(orders[1..], id, status)
  }

  /** An id that matches no order changes nothing. */
  lemma SetStatusUnmatched(orders: seq<Order>, id: int, status: string)
    requires forall o | o in orders :: o.id != id
    ensures SetStatus(orders, id, status) == orders
  {
  }

  /** With increasing ids, at most one row differs after the update. */
  lemma SetStatusTouchesOneRow(orders: seq<Order>, id: int, status: string, i: int, j: int)
    requires forall a, b | 0 <= a < b < |orders| :: orders[a].id < orders[b].id
    requires 0 <= i < |orders| && 0 <= j < |orders|
    requires SetStatus(orders, id, status)[i] != orders[i]
    requires SetStatus(orders, id, status)[j] != orders[j]
    ensures i == j && orders[i].id == id
  {
  }
}
