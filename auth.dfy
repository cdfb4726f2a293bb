/** The auth store: a mock user directory and a nullable session holding the
    logged-in user without the password. Orders are opaque to the store; they
    are a type parameter. Passwords are plain text compared by equality. */
module Auth {
  import opened Wrappers
  import opened Search

  /** A directory entry. */
  datatype User<Order> = User(id: int, email: string, password: string, name: string, orders: seq<Order>)

  /** The session copy of a directory entry: the same fields without the password. */
  datatype SessionUser<Order> = SessionUser(id: int, email: string, name: string, orders: seq<Order>)

  /** The user data register receives. */
  datatype Registration = Registration(email: string, password: string, name: string)

  /** `{ success: true }` or `{ success: false, message }`. */
  datatype AuthResult = Success | Failure(message: string)

  const EmailInUse := "Email already in use"
  const InvalidCredentials := "Invalid email or password"

  /** `{ ...u }` followed by `delete password`. */
  function WithoutPassword<Order>(u: User<Order>): SessionUser<Order> {
    SessionUser(u.id, u.email, u.name, u.orders)
  }

  /** `userDatabase.some(u => u.email === email)`. */
  predicate EmailTaken<Order>(db: seq<User<Order>>, email: string) {
    exists i | 0 <= i < |db| :: db[i].email == email
  }

  /** The entry register creates: the next id, the given fields, no orders. */
  function NewUser<Order>(db: seq<User<Order>>, data: Registration): User<Order> {
    User(|db| + 1, data.email, data.password, data.name, [])
  }

  /** The `find` of login: the first entry whose email and password both match, or -1. */
  function CredentialIndex<Order>(db: seq<User<Order>>, email: string, password: string): (k: int)
    ensures -1 <= k < |db|
    ensures k == -1 <==> forall j | 0 <= j < |db| :: !(db[j].email == email && db[j].password == password)
    ensures k >= 0 ==> db[k].email == email && db[k].password == password
    ensures k >= 0 ==> forall j | 0 <= j < k :: !(db[j].email == email && db[j].password == password)
  {
    if db == [] then -1
    else if db[0].email == email && db[0].password == password then 0
    else
      var k := CredentialIndex(db[1..], email, password);
      if k == -1 then -1 else k + 1
  }

  function UserId<Order>(u: User<Order>): int {
    u.id
  }

  /** The `find` of addOrder: the first entry with the given id, or -1. */
  function UserIndexById<Order>(db: seq<User<Order>>, id: int): int {
    FirstIndex(db, UserId, id)
  }

  predicate EmailsDistinct<Order>(db: seq<User<Order>>) {
    forall i, j | 0 <= i < j < |db| :: db[i].email != db[j].email
  }

  /** Ids are handed out as length + 1, so the i-th entry has id i + 1. */
  predicate IdsSequential<Order>(db: seq<User<Order>>) {
    forall i | 0 <= i < |db| :: db[i].id == i + 1
  }

  /** The session, when there is one, equals its directory entry without the password. */
  ghost predicate SessionMirrors<Order>(db: seq<User<Order>>, session: Option<SessionUser<Order>>) {
    session.Some? ==> 1 <= session.value.id <= |db| && WithoutPassword(db[session.value.id - 1]) == session.value
  }

  /** With sequential ids, the entry with id `id` sits at position id - 1. */
  lemma UserIndexBySequentialId<Order>(db: seq<User<Order>>, id: int)
    requires IdsSequential(db) && 1 <= id <= |db|
    ensures UserIndexById(db, id) == id - 1
  {
    var k := UserIndexById(db, id);
    assert db[id - 1].id == id;
  }

  /** Registering an unused email keeps the directory's emails distinct. */
  lemma RegisterKeepsEmailsDistinct<Order>(db: seq<User<Order>>, data: Registration)
    requires EmailsDistinct(db) && !EmailTaken(db, data.email)
    ensures EmailsDistinct(db + [NewUser(db, data)])
  {
    var db' := db + [NewUser(db, data)];
    forall i, j | 0 <= i < j < |db'| ensures db'[i].email != db'[j].email {
      if j == |db| {
        assert db'[i] == db[i];
      }
    }
  }

  // ---------------------------------------------------------------------
  // addOrder as written: the session shares the entry's orders array

  /** A JavaScript `orders` array: one mutable list, reached through every
      reference to it. */
  class OrderList<Order> {
    var items: seq<Order>

    constructor (items: seq<Order>)
      ensures this.items == items
    {
      this.items := items;
    }
  }

  /** A directory entry as the source holds it, with its orders by reference. */
  datatype UserObject<Order> = UserObject(id: int, email: string, password: string, name: string, orders: OrderList<Order>)

  /** The session object, likewise holding its orders by reference. */
  datatype SessionObject<Order> = SessionObject(id: int, email: string, name: string, orders: OrderList<Order>)

  /** `{ ...u }` followed by `delete password`: a shallow copy, so the copy's
      `orders` is the entry's own array. */
  function SpreadWithoutPassword<Order>(u: UserObject<Order>): SessionObject<Order> {
    SessionObject(u.id, u.email, u.name, u.orders)
  }

  /** addOrder as written, on a session made from `entry` by register or
      login: one push through the entry and one through the session. Both
      land in the one shared array, so it gains the order twice and is never
      the intended `old + [order]`; the session reads the same list. */
  method AddOrderAsWritten<Order>(entry: UserObject<Order>, session: SessionObject<Order>, order: Order)
    requires session == SpreadWithoutPassword(entry)
    modifies entry.orders
    ensures entry.orders.items == old(entry.orders.items) + [order, order]
    ensures entry.orders.items != old(entry.orders.items) + [order]
    ensures session.orders.items == entry.orders.items
  {
    entry.orders.items := entry.orders.items + [order];
    session.orders.items := session.orders.items + [order];
    assert |entry.orders.items| == |old(entry.orders.items)| + 2;
  }

  /** Logging in as the demo user, whose orders start empty, and placing one
      order leaves that order twice in the demo user's list. */
  method DemoUserOrderRecordedTwice<Order>(order: Order) returns (orders: seq<Order>)
    ensures orders == [order, order]
  {
    var list := new OrderList([]);
    var demo := UserObject(1, "user@example.com", "password123", "Demo User", list);
    var session := SpreadWithoutPassword(demo);
    AddOrderAsWritten(demo, session, order);
    orders := demo.orders.items;
  }

  class AuthStore<Order> {
    var user: Option<SessionUser<Order>>
    var userDatabase: seq<User<Order>>

    /** isAuthenticated: there is a session. */
    predicate IsAuthenticated()
      reads this
    {
      user.Some?
    }

    /** Emails are unique, ids are sequential, and the session mirrors its entry. */
    ghost predicate Valid()
      reads this
    {
      EmailsDistinct(userDatabase) && IdsSequential(userDatabase) && SessionMirrors(userDatabase, user)
    }

    /** The store starts logged out with the one demo user. */
    constructor ()
      ensures userDatabase == [User(1, "user@example.com", "password123", "Demo User", [])]
      ensures user == None
      ensures Valid()
    {
      userDatabase := [User(1, "user@example.com", "password123", "Demo User", [])];
      user := None;
    }

    /** register: refuses an email already in the directory and changes
        nothing; otherwise appends a user with the next id and no orders and
        logs that user in, the session holding it without the password. */
    method Register(data: Registration) returns (r: AuthResult)
      modifies this
      ensures EmailTaken(old(userDatabase), data.email) ==>
        r == Failure(EmailInUse) && userDatabase == old(userDatabase) && user == old(user)
      ensures !EmailTaken(old(userDatabase), data.email) ==>
        && r == Success
        && userDatabase == old(userDatabase) + [NewUser(old(userDatabase), data)]
        && user == Some(WithoutPassword(NewUser(old(userDatabase), data)))
        && IsAuthenticated()
      ensures EmailsDistinct(old(userDatabase)) ==> EmailsDistinct(userDatabase)
      ensures old(Valid()) ==> Valid()
    {
      if EmailTaken(userDatabase, data.email) {
        return Failure(EmailInUse);
      }
      var newUser := NewUser(userDatabase, data);
      if EmailsDistinct(userDatabase) {
        RegisterKeepsEmailsDistinct(userDatabase, data);
      }
      userDatabase := userDatabase + [newUser];
      user := Some(WithoutPassword(newUser));
      r := Success;
    }

    /** login: logs in the first entry whose email and password both match,
        without its password; when none matches it reports invalid
        credentials and leaves the session as it was. */
    method Login(email: string, password: string) returns (r: AuthResult)
      modifies this
      ensures userDatabase == old(userDatabase)
      ensures var k := CredentialIndex(old(userDatabase), email, password);
        && (k >= 0 ==> r == Success && user == Some(WithoutPassword(old(userDatabase)[k])))
        && (k == -1 ==> r == Failure(InvalidCredentials) && user == old(user))
      ensures r == Success <==> exists i | 0 <= i < |userDatabase| ::
        userDatabase[i].email == email && userDatabase[i].password == password
      ensures old(Valid()) ==> Valid()
    {
      var k := CredentialIndex(userDatabase, email, password);
      if k >= 0 {
        user := Some(WithoutPassword(userDatabase[k]));
        return Success;
      }
      return Failure(InvalidCredentials);
    }

    /** logout: no session afterwards. */
    method Logout()
      modifies this
      ensures user == None && !IsAuthenticated()
      ensures userDatabase == old(userDatabase)
      ensures old(Valid()) ==> Valid()
    {
      user := None;
    }

    /** addOrder: without a session, nothing happens; otherwise the order is
        appended to the directory entry with the session's id and to the
        session's own list, and no other entry changes. The two lists are
        kept as separate sequences; AddOrderAsWritten models the sharing in
        the source as written. With the store's invariant the entry is the
        one at position id - 1. */
    method AddOrder(order: Order)
      modifies this
      ensures old(user).None? ==> user == old(user) && userDatabase == old(userDatabase)
      ensures old(user).Some? ==>
        var k := UserIndexById(old(userDatabase), old(user).value.id);
        && (k == -1 ==> user == old(user) && userDatabase == old(userDatabase))
        && (k >= 0 ==>
              && userDatabase == old(userDatabase)[k := old(userDatabase)[k].(orders := old(userDatabase)[k].orders + [order])]
              && user == Some(old(user).value.(orders := old(user).value.orders + [order])))
      ensures old(Valid()) && old(user).Some? ==>
        UserIndexById(old(userDatabase), old(user).value.id) == old(user).value.id - 1
      ensures old(Valid()) ==> Valid()
    {
      if user.None? {
        return;
      }
      var k := UserIndexById(userDatabase, user.value.id);
      if k >= 0 {
        if Valid() {
          UserIndexBySequentialId(userDatabase, user.value.id);
        }
        var entry := userDatabase[k];
        userDatabase := userDatabase[k := entry.(orders := entry.orders + [order])];
        user := Some(user.value.(orders := user.value.orders + [order]));
      }
    }
  }
}
