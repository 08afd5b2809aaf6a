/**
 * The user service: bearer-token authentication, registration and login over a users
 * table unique by email, and a favorites table unique by (user, product). Password
 * hashing and token signing are parameters: their algorithms are not modelled.
 */
module UserService {
  import opened Wrappers
  import opened Http
  import opened Catalog
  import opened JsString

  // ---------------------------------------------------------------------------
  // Authentication

  /** The outcome of the authentication middleware. */
  datatype Auth = Authenticated(userId: int) | Rejected(status: nat, message: string)

  const BearerPrefix: string := "Bearer "

  /** The token the middleware reads from an `Authorization` header: the header with its first `Bearer ` removed. */
  function TokenOf(authorization: Option<string>): Option<string> {
    match authorization
    case None => None
    case Some(h) => Some(ReplaceFirst(h, BearerPrefix, ""))
  }

  /**
   * `authMiddleware`: a missing or empty token is rejected before verification; a token
   * `verify` refuses is rejected after it; otherwise the caller is the token's user.
   */
  function Authenticate(authorization: Option<string>, verify: string -> Option<int>): (a: Auth)
    ensures a.Rejected? ==> a.status == 401
    ensures a == Rejected(401, "No token provided") <==> TokenOf(authorization).None? || TokenOf(authorization).value == ""
    ensures a.Authenticated? ==> verify(TokenOf(authorization).value) == Some(a.userId)
    ensures a == Rejected(401, "Invalid token") <==> TokenOf(authorization).Some? && TokenOf(authorization).value != "" && verify(TokenOf(authorization).value).None?
  {
    var token := TokenOf(authorization);
    if token.None? || token.value == "" then Rejected(401, "No token provided")
    else match verify(token.value)
      case None => Rejected(401, "Invalid token")
      case Some(id) => Authenticated(id)
  }

  /** A header built as `Bearer <t>` hands `t` itself to verification, whatever `t` contains. */
  lemma BearerRoundTrip(t: string, verify: string -> Option<int>)
    requires t != ""
    ensures TokenOf(Some(BearerPrefix + t)) == Some(t)
    ensures Authenticate(Some(BearerPrefix + t), verify) ==
              if verify(t).Some? then Authenticated(verify(t).value) else Rejected(401, "Invalid token")
  {
    StripPrefix(BearerPrefix, t);
  }

  /** A header that is exactly the scheme carries no token at all. */
  lemma BareSchemeHasNoToken(verify: string -> Option<int>)
    ensures Authenticate(Some(BearerPrefix), verify) == Rejected(401, "No token provided")
  {
    StripPrefix(BearerPrefix, "");
    assert BearerPrefix + "" == BearerPrefix;
  }

  // ---------------------------------------------------------------------------
  // Tables

  /** The longest text a VARCHAR(255) column holds; longer values make the INSERT fail. */
  const MaxText: nat := 255

  datatype UserRow = UserRow(id: nat, email: string, password: string, name: Option<string>, createdAt: nat)

  datatype FavoriteRow = FavoriteRow(id: nat, userId: int, productId: string, productData: Option<Product>, createdAt: nat)

  /**
   * The database: both tables in insertion order, the next values of their SERIAL ids,
   * and a clock that stamps `created_at` and advances with every insert.
   */
  datatype Db = Db(users: seq<UserRow>, favorites: seq<FavoriteRow>, nextUserId: nat, nextFavoriteId: nat, clock: nat)

  predicate EmailsUnique(us: seq<UserRow>) {
    forall i, j :: 0 <= i < j < |us| ==> us[i].email != us[j].email
  }

  predicate UserIdsBelow(us: seq<UserRow>, next: nat) {
    forall i, j :: 0 <= i < j < |us| ==> us[i].id < us[j].id < next
  }

  /** No two rows share a (user, product) pair. */
  predicate PairsUnique(fs: seq<FavoriteRow>) {
    forall f, g :: f in fs && g in fs && f.userId == g.userId && f.productId == g.productId ==> f == g
  }

  /** Each row was created strictly later than the rows before it. */
  predicate OldestFirst(fs: seq<FavoriteRow>) {
    forall i, j :: 0 <= i < j < |fs| ==> fs[i].createdAt < fs[j].createdAt
  }

  predicate NewestFirst(fs: seq<FavoriteRow>) {
    forall i, j :: 0 <= i < j < |fs| ==> fs[i].createdAt > fs[j].createdAt
  }

  /** Rows are stored in creation order, all created before the clock's current reading. */
  predicate CreatedInOrder(fs: seq<FavoriteRow>, clock: nat) {
    && OldestFirst(fs)
    && (forall f :: f in fs ==> f.createdAt < clock)
  }

  predicate IsUserId(us: seq<UserRow>, id: int) {
    exists i :: 0 <= i < |us| && us[i].id == id
  }

  /** Every favorite belongs to an existing user (the foreign key). */
  predicate FavoritesOwned(db: Db) {
    forall f :: f in db.favorites ==> IsUserId(db.users, f.userId)
  }

  /** The table constraints, plus the ordering facts the SERIAL ids and the clock provide. */
  predicate Valid(db: Db) {
    && EmailsUnique(db.users)
    && UserIdsBelow(db.users, db.nextUserId)
    && (forall i :: 0 <= i < |db.users| ==> db.users[i].id < db.nextUserId)
    && PairsUnique(db.favorites)
    && CreatedInOrder(db.favorites, db.clock)
    && FavoritesOwned(db)
  }

  function UserByEmail(us: seq<UserRow>, email: string): (r: Option<UserRow>)
    ensures r.Some? <==> exists i :: 0 <= i < |us| && us[i].email == email
    ensures r.Some? ==> r.value in us && r.value.email == email
  {
    if us == [] then None
    else if us[0].email == email then Some(us[0])
    else UserByEmail(us[1..], email)
  }

  function UserById(us: seq<UserRow>, id: int): (r: Option<UserRow>)
    ensures r.Some? <==> IsUserId(us, id)
    ensures r.Some? ==> r.value in us && r.value.id == id
  {
    if us == [] then None
    else if us[0].id == id then Some(us[0])
    else
      var r := UserById(us[1..], id);
      assert IsUserId(us, id) <==> IsUserId(us[1..], id) by {
        if IsUserId(us, id) {
          var i :| 0 <= i < |us| && us[i].id == id;
          assert us[1..][i - 1] == us[i];
        }
        if IsUserId(us[1..], id) {
          var i :| 0 <= i < |us[1..]| && us[1..][i].id == id;
          assert us[i + 1] == us[1..][i];
        }
      }
      r
  }

  predicate HasPair(fs: seq<FavoriteRow>, userId: int, productId: string) {
    exists i :: 0 <= i < |fs| && fs[i].userId == userId && fs[i].productId == productId
  }

  // ---------------------------------------------------------------------------
  // Register, login, profile

  /** A user as the service shows it: never with the password. */
  datatype PublicUser = PublicUser(id: nat, email: string, name: Option<string>)

  datatype Session = Session(user: PublicUser, token: string)

  function Public(u: UserRow): PublicUser {
    PublicUser(u.id, u.email, u.name)
  }

  /** A present, non-empty body field (JavaScript truthiness of a string). */
  predicate Given(v: Option<string>) {
    v.Some? && v.value != ""
  }

  predicate FitsVarchar(v: Option<string>) {
    v.None? || |v.value| <= MaxText
  }

  /**
   * `POST /api/auth/register`. Missing credentials are refused with 400; a failing database,
   * or a value too long for its column, with 500; an email already in use with 400.
   * Otherwise the user is inserted with the hash of the password and gets a token.
   */
  function Register(db: Db, email: Option<string>, password: Option<string>, name: Option<string>,
                    hash: string -> string, sign: nat -> string, fault: bool): (r: (Db, Reply<Session>))
    ensures !Given(email) || !Given(password) ==> r == (db, ErrorReply(400, "Email and password required"))
    ensures r.1.IsSuccess() <==>
              && Given(email) && Given(password) && !fault
              && |email.value| <= MaxText && |hash(password.value)| <= MaxText && FitsVarchar(name)
              && UserByEmail(db.users, email.value).None?
    ensures r.1.IsSuccess() ==>
              && r.1.status == 201
              && r.1.value == Session(PublicUser(db.nextUserId, email.value, name), sign(db.nextUserId))
              && r.0.users == db.users + [UserRow(db.nextUserId, email.value, hash(password.value), name, db.clock)]
              && r.0.favorites == db.favorites
    ensures !r.1.IsSuccess() ==> r.0 == db && r.1.ErrorReply?
    ensures Given(email) && Given(password) && !r.1.IsSuccess() ==>
              r.1 == (if UserByEmail(db.users, email.value).Some? && !fault && |email.value| <= MaxText
                         && |hash(password.value)| <= MaxText && FitsVarchar(name)
                      then ErrorReply(400, "Email already exists")
                      else ErrorReply(500, "Registration failed"))
  {
    if !Given(email) || !Given(password) then (db, ErrorReply(400, "Email and password required"))
    else
      var e, h := email.value, hash(password.value);
      if fault || |e| > MaxText || |h| > MaxText || !FitsVarchar(name) then (db, ErrorReply(500, "Registration failed"))
      else if UserByEmail(db.users, e).Some? then (db, ErrorReply(400, "Email already exists"))
      else
        var id := db.nextUserId;
        var db' := db.(users := db.users + [UserRow(id, e, h, name, db.clock)], nextUserId := id + 1, clock := db.clock + 1);
        (db', Payload(201, Session(PublicUser(id, e, name), sign(id))))
  }

  /**
   * `POST /api/auth/login`. An unknown email and a wrong password get the same 401; a
   * missing password makes the hash comparison throw, hence 500.
   */
  function Login(db: Db, email: Option<string>, password: Option<string>,
                 matches: (string, string) -> bool, sign: nat -> string, fault: bool): (r: Reply<Session>)
    ensures r.IsSuccess() <==>
              && !fault && email.Some? && password.Some?
              && UserByEmail(db.users, email.value).Some?
              && matches(password.value, UserByEmail(db.users, email.value).value.password)
    ensures r.IsSuccess() ==>
              var u := UserByEmail(db.users, email.value).value;
              r == Payload(200, Session(Public(u), sign(u.id)))
    ensures !r.IsSuccess() ==>
              r == (if fault || (password.None? && email.Some? && UserByEmail(db.users, email.value).Some?)
                    then ErrorReply(500, "Login failed")
                    else ErrorReply(401, "Invalid credentials"))
  {
    if fault then ErrorReply(500, "Login failed")
    else
      // `WHERE email = NULL` matches no row
      var found := if email.None? then None else UserByEmail(db.users, email.value);
      if found.None? then ErrorReply(401, "Invalid credentials")
      else if password.None? then ErrorReply(500, "Login failed")
      else if !matches(password.value, found.value.password) then ErrorReply(401, "Invalid credentials")
      else Payload(200, Session(Public(found.value), sign(found.value.id)))
  }

  /** The profile `GET /api/users/me` returns. */
  datatype Profile = Profile(id: nat, email: string, name: Option<string>, createdAt: nat)

  /** `GET /api/users/me`: the caller's own row, without the password. */
  function GetMe(db: Db, auth: Auth, fault: bool): (r: Reply<Profile>)
    ensures auth.Rejected? ==> r == ErrorReply(auth.status, auth.message)
    ensures auth.Authenticated? && !fault ==>
              (r.IsSuccess() <==> IsUserId(db.users, auth.userId))
    ensures auth.Authenticated? && !fault && !IsUserId(db.users, auth.userId) ==> r == ErrorReply(404, "User not found")
    ensures r.IsSuccess() ==>
              && r.status == 200 && r.value.id == auth.userId
              && exists u :: u in db.users && u.id == auth.userId && r.value == Profile(u.id, u.email, u.name, u.createdAt)
    ensures auth.Authenticated? && fault ==> r == ErrorReply(500, "Failed to fetch user")
  {
    match auth
    case Rejected(status, message) => ErrorReply(status, message)
    case Authenticated(uid) =>
      if fault then ErrorReply(500, "Failed to fetch user")
      else match UserById(db.users, uid)
        case None => ErrorReply(404, "User not found")
        case Some(u) => Payload(200, Profile(u.id, u.email, u.name, u.createdAt))
  }

  // ---------------------------------------------------------------------------
  // Account lemmas

  /** Registering keeps every table constraint. */
  lemma RegisterKeepsValid(db: Db, email: Option<string>, password: Option<string>, name: Option<string>,
                           hash: string -> string, sign: nat -> string, fault: bool)
    requires Valid(db)
    ensures Valid(Register(db, email, password, name, hash, sign, fault).0)
  {
    var (db', r) := Register(db, email, password, name, hash, sign, fault);
    if r.IsSuccess() {
      var us := db'.users;
      assert forall i :: 0 <= i < |db.users| ==> us[i] == db.users[i];
      forall f | f in db'.favorites ensures IsUserId(us, f.userId) {
        var j :| 0 <= j < |db.users| && db.users[j].id == f.userId;
        assert us[j] == db.users[j];
      }
    }
  }

  /**
   * Registration and login fit together: once registered, the same email and password log in
   * as the new user, provided the password check accepts a password against its own hash.
   */
  lemma RegisterThenLogin(db: Db, email: string, password: string, name: Option<string>,
                          hash: string -> string, matches: (string, string) -> bool, sign: nat -> string)
    requires Valid(db)
    requires matches(password, hash(password))
    requires Register(db, Some(email), Some(password), name, hash, sign, false).1.IsSuccess()
    ensures var (db', reg) := Register(db, Some(email), Some(password), name, hash, sign, false);
            Login(db', Some(email), Some(password), matches, sign, false) == Payload(200, reg.value)
  {
    var (db', reg) := Register(db, Some(email), Some(password), name, hash, sign, false);
    var row := UserRow(db.nextUserId, email, hash(password), name, db.clock);
    assert db'.users == db.users + [row];
    UserByEmailAppend(db.users, row);
  }

  /** Looking up the email of a row appended to a table that lacks it finds that row. */
  lemma {:induction false} UserByEmailAppend(us: seq<UserRow>, row: UserRow)
    requires UserByEmail(us, row.email).None?
    ensures UserByEmail(us + [row], row.email) == Some(row)
  {
    if us != [] {
      assert (us + [row])[1..] == us[1..] + [row];
      UserByEmailAppend(us[1..], row);
    } else {
      assert (us + [row])[0] == row;
    }
  }

  /** A second registration with the same email is refused as a duplicate and changes nothing. */
  lemma DuplicateRegisterRefused(db: Db, email: string, password: string, name: Option<string>,
                                 password2: string, name2: Option<string>, hash: string -> string, sign: nat -> string)
    requires Valid(db)
    requires Register(db, Some(email), Some(password), name, hash, sign, false).1.IsSuccess()
    requires password2 != "" && |hash(password2)| <= MaxText && FitsVarchar(name2)
    ensures var db' := Register(db, Some(email), Some(password), name, hash, sign, false).0;
            Register(db', Some(email), Some(password2), name2, hash, sign, false) == (db', ErrorReply(400, "Email already exists"))
  {
    var db' := Register(db, Some(email), Some(password), name, hash, sign, false).0;
    UserByEmailAppend(db.users, UserRow(db.nextUserId, email, hash(password), name, db.clock));
  }

  /** An unknown email and a wrong password are indistinguishable to the caller. */
  lemma LoginFailuresIndistinguishable(db: Db, unknown: string, known: string, wrong: string,
                                       matches: (string, string) -> bool, sign: nat -> string)
    requires UserByEmail(db.users, unknown).None?
    requires UserByEmail(db.users, known).Some? && !matches(wrong, UserByEmail(db.users, known).value.password)
    ensures Login(db, Some(unknown), Some(wrong), matches, sign, false) == Login(db, Some(known), Some(wrong), matches, sign, false)
    ensures Login(db, Some(unknown), Some(wrong), matches, sign, false) == ErrorReply(401, "Invalid credentials")
  {
  }

  // ---------------------------------------------------------------------------
  // Favorites

  /**
   * `POST /api/favorites`. The row is inserted with the next id and the current time unless
   * the database fails, the product id is missing or too long, the caller's user no longer
   * exists (500), or the caller already has that product (400).
   */
  function AddFavorite(db: Db, auth: Auth, productId: Option<string>, productData: Option<Product>, fault: bool)
    : (r: (Db, Reply<FavoriteRow>))
    ensures auth.Rejected? ==> r == (db, ErrorReply(auth.status, auth.message))
    ensures r.1.IsSuccess() <==>
              && auth.Authenticated? && !fault && productId.Some? && |productId.value| <= MaxText
              && !HasPair(db.favorites, auth.userId, productId.value) && IsUserId(db.users, auth.userId)
    ensures r.1.IsSuccess() ==>
              && r.1.status == 201
              && r.1.value.userId == auth.userId && r.1.value.productId == productId.value
              && r.1.value.productData == productData
              && r.0.favorites == db.favorites + [r.1.value]
              && r.0.users == db.users
    ensures !r.1.IsSuccess() ==> r.0 == db && r.1.ErrorReply?
    // every authenticated failure other than the duplicate pair is the catch-all 500
    ensures auth.Authenticated? && !r.1.IsSuccess()
            && !(!fault && productId.Some? && |productId.value| <= MaxText && HasPair(db.favorites, auth.userId, productId.value)) ==>
              r.1 == ErrorReply(500, "Failed to add favorite")
    ensures auth.Authenticated? && !fault && productId.Some? && |productId.value| <= MaxText
            && HasPair(db.favorites, auth.userId, productId.value) ==>
              r == (db, ErrorReply(400, "Product already in favorites"))
  {
    match auth
    case Rejected(status, message) => (db, ErrorReply(status, message))
    case Authenticated(uid) =>
      if fault || productId.None? || |productId.value| > MaxText then (db, ErrorReply(500, "Failed to add favorite"))
      else if HasPair(db.favorites, uid, productId.value) then (db, ErrorReply(400, "Product already in favorites"))
      else if !IsUserId(db.users, uid) then (db, ErrorReply(500, "Failed to add favorite"))
      else
        var row := FavoriteRow(db.nextFavoriteId, uid, productId.value, productData, db.clock);
        var db' := db.(favorites := db.favorites + [row], nextFavoriteId := db.nextFavoriteId + 1, clock := db.clock + 1);
        (db', Payload(201, row))
  }

  lemma OldestFirstTail(fs: seq<FavoriteRow>)
    requires fs != [] && OldestFirst(fs)
    ensures OldestFirst(fs[1..])
    ensures forall f :: f in fs[1..] ==> fs[0].createdAt < f.createdAt
  {
    forall f | f in fs[1..] ensures fs[0].createdAt < f.createdAt {
      var i :| 0 <= i < |fs[1..]| && fs[1..][i] == f;
      assert fs[i + 1] == f;
    }
  }

  lemma OldestFirstCons(x: FavoriteRow, rest: seq<FavoriteRow>)
    requires OldestFirst(rest)
    requires forall f :: f in rest ==> x.createdAt < f.createdAt
    ensures OldestFirst([x] + rest)
  {
    var r := [x] + rest;
    forall i, j | 0 <= i < j < |r| ensures r[i].createdAt < r[j].createdAt {
      assert r[j] == rest[j - 1];
      if i > 0 {
        assert r[i] == rest[i - 1];
      }
    }
  }

  /** The rows of one user, in storage order. */
  function OfUser(fs: seq<FavoriteRow>, uid: int): (r: seq<FavoriteRow>)
    ensures forall f :: f in r <==> f in fs && f.userId == uid
    ensures OldestFirst(fs) ==> OldestFirst(r)
    decreases |fs|
  {
    if fs == [] then []
    else
      var rest := OfUser(fs[1..], uid);
      assert forall f :: f in fs <==> f == fs[0] || f in fs[1..];
      if fs[0].userId != uid then rest
      else if OldestFirst(fs) then
        OldestFirstTail(fs);
        OldestFirstCons(fs[0], rest);
        [fs[0]] + rest
      else [fs[0]] + rest
  }

  /** The rows other than the user's row for the product, in storage order. */
  function Without(fs: seq<FavoriteRow>, uid: int, productId: string): (r: seq<FavoriteRow>)
    ensures forall f :: f in r <==> f in fs && !(f.userId == uid && f.productId == productId)
    ensures OldestFirst(fs) ==> OldestFirst(r)
    decreases |fs|
  {
    if fs == [] then []
    else
      var rest := Without(fs[1..], uid, productId);
      assert forall f :: f in fs <==> f == fs[0] || f in fs[1..];
      if fs[0].userId == uid && fs[0].productId == productId then rest
      else if OldestFirst(fs) then
        OldestFirstTail(fs);
        OldestFirstCons(fs[0], rest);
        [fs[0]] + rest
      else [fs[0]] + rest
  }

  function Reverse(fs: seq<FavoriteRow>): (r: seq<FavoriteRow>)
    ensures |r| == |fs|
    ensures forall i :: 0 <= i < |fs| ==> r[i] == fs[|fs| - 1 - i]
  {
    seq(|fs|, i requires 0 <= i < |fs| => fs[|fs| - 1 - i])
  }

  lemma ReverseOrder(fs: seq<FavoriteRow>)
    ensures forall f :: f in Reverse(fs) <==> f in fs
    ensures OldestFirst(fs) ==> NewestFirst(Reverse(fs))
  {
    var r := Reverse(fs);
    forall f | f in fs ensures f in r {
      var i :| 0 <= i < |fs| && fs[i] == f;
      assert r[|fs| - 1 - i] == f;
    }
  }

  /**
   * `GET /api/favorites`: the caller's rows, newest first. Ordering by creation time is
   * what the query asks for; in a valid database that is reverse storage order.
   */
  function ListFavorites(db: Db, auth: Auth, fault: bool): (r: Reply<seq<FavoriteRow>>)
    ensures auth.Rejected? ==> r == ErrorReply(auth.status, auth.message)
    ensures r.IsSuccess() <==> auth.Authenticated? && !fault
    ensures auth.Authenticated? && fault ==> r == ErrorReply(500, "Failed to fetch favorites")
    ensures r.IsSuccess() ==> r.status == 200 && forall f :: f in r.value <==> f in db.favorites && f.userId == auth.userId
    ensures r.IsSuccess() && OldestFirst(db.favorites) ==> NewestFirst(r.value)
  {
    match auth
    case Rejected(status, message) => ErrorReply(status, message)
    case Authenticated(uid) =>
      if fault then ErrorReply(500, "Failed to fetch favorites")
      else
        var mine := OfUser(db.favorites, uid);
        ReverseOrder(mine);
        Payload(200, Reverse(mine))
  }

  /**
   * `DELETE /api/favorites/:productId`: drop the caller's row for the product, if any. It
   * succeeds whether or not a row matched.
   */
  function RemoveFavorite(db: Db, auth: Auth, productId: string, fault: bool): (r: (Db, Reply<string>))
    ensures auth.Rejected? ==> r == (db, ErrorReply(auth.status, auth.message))
    ensures r.1.IsSuccess() <==> auth.Authenticated? && !fault
    ensures r.1.IsSuccess() ==>
              && r.1 == Payload(200, "Removed from favorites")
              && r.0.users == db.users
              && !HasPair(r.0.favorites, auth.userId, productId)
              && forall f :: f in r.0.favorites <==> f in db.favorites && !(f.userId == auth.userId && f.productId == productId)
    ensures auth.Authenticated? && fault ==> r == (db, ErrorReply(500, "Failed to remove favorite"))
  {
    match auth
    case Rejected(status, message) => (db, ErrorReply(status, message))
    case Authenticated(uid) =>
      if fault then (db, ErrorReply(500, "Failed to remove favorite"))
      else
        var fs := Without(db.favorites, uid, productId);
        assert !HasPair(fs, uid, productId) by {
          forall i | 0 <= i < |fs| ensures !(fs[i].userId == uid && fs[i].productId == productId) {
            assert fs[i] in fs;
          }
        }
        (db.(favorites := fs), Payload(200, "Removed from favorites"))
  }

  // ---------------------------------------------------------------------------
  // Favorites lemmas

  /** Adding a favorite keeps every table constraint. */
  lemma AddFavoriteKeepsValid(db: Db, auth: Auth, productId: Option<string>, productData: Option<Product>, fault: bool)
    requires Valid(db)
    ensures Valid(AddFavorite(db, auth, productId, productData, fault).0)
  {
    var (db', r) := AddFavorite(db, auth, productId, productData, fault);
    if r.IsSuccess() {
      var row := r.value;
      var fs := db'.favorites;
      assert forall f :: f in fs <==> f in db.favorites || f == row;
      forall g | g in db.favorites ensures !(g.userId == row.userId && g.productId == row.productId) {
        var i :| 0 <= i < |db.favorites| && db.favorites[i] == g;
      }
      forall i, j | 0 <= i < j < |fs| ensures fs[i].createdAt < fs[j].createdAt {
        assert fs[i] == db.favorites[i];
        if j < |db.favorites| {
          assert fs[j] == db.favorites[j];
        } else {
          assert db.favorites[i] in db.favorites;
        }
      }
    }
  }

  /** Removing a favorite keeps every table constraint. */
  lemma RemoveFavoriteKeepsValid(db: Db, auth: Auth, productId: string, fault: bool)
    requires Valid(db)
    ensures Valid(RemoveFavorite(db, auth, productId, fault).0)
  {
    var (db', r) := RemoveFavorite(db, auth, productId, fault);
    if r.IsSuccess() {
      assert db'.favorites == Without(db.favorites, auth.userId, productId);
    }
  }

  /** Adding the same product twice is refused as a duplicate and changes nothing. */
  lemma DuplicateFavoriteRefused(db: Db, uid: int, productId: string, data: Option<Product>, data2: Option<Product>)
    requires AddFavorite(db, Authenticated(uid), Some(productId), data, false).1.IsSuccess()
    ensures var db' := AddFavorite(db, Authenticated(uid), Some(productId), data, false).0;
            AddFavorite(db', Authenticated(uid), Some(productId), data2, false) == (db', ErrorReply(400, "Product already in favorites"))
  {
    var (db', r) := AddFavorite(db, Authenticated(uid), Some(productId), data, false);
    assert db'.favorites[|db.favorites|] == r.value;
  }

  /** The favorite just added heads the caller's list. */
  lemma AddedFavoriteListedFirst(db: Db, uid: int, productId: string, data: Option<Product>)
    requires Valid(db)
    requires AddFavorite(db, Authenticated(uid), Some(productId), data, false).1.IsSuccess()
    ensures var (db', r) := AddFavorite(db, Authenticated(uid), Some(productId), data, false);
            var listed := ListFavorites(db', Authenticated(uid), false).value;
            |listed| > 0 && listed[0] == r.value
  {
    var (db', r) := AddFavorite(db, Authenticated(uid), Some(productId), data, false);
    AddFavoriteKeepsValid(db, Authenticated(uid), Some(productId), data, false);
    var listed := ListFavorites(db', Authenticated(uid), false).value;
    assert r.value in db'.favorites;
    assert r.value in listed;
    var k :| 0 <= k < |listed| && listed[k] == r.value;
    assert listed[0].createdAt >= listed[k].createdAt;
    assert listed[0] in db'.favorites;
    assert forall f :: f in db.favorites ==> f.createdAt < r.value.createdAt;
  }

  /** Removing one user's favorite leaves every other user's rows exactly as they were. */
  lemma {:induction false} WithoutKeepsOthers(fs: seq<FavoriteRow>, uid: int, productId: string, other: int)
    requires other != uid
    ensures OfUser(Without(fs, uid, productId), other) == OfUser(fs, other)
    decreases |fs|
  {
    if fs != [] {
      WithoutKeepsOthers(fs[1..], uid, productId, other);
    }
  }

  /** A delete by one user does not change what any other user lists. */
  lemma RemoveKeepsOtherLists(db: Db, uid: int, productId: string, other: int)
    requires other != uid
    ensures var db' := RemoveFavorite(db, Authenticated(uid), productId, false).0;
            ListFavorites(db', Authenticated(other), false) == ListFavorites(db, Authenticated(other), false)
  {
    WithoutKeepsOthers(db.favorites, uid, productId, other);
  }

  /** After a delete the same product can be added again: the pair is free. */
  lemma RemoveThenAddSucceeds(db: Db, uid: int, productId: string, data: Option<Product>)
    requires IsUserId(db.users, uid) && |productId| <= MaxText
    ensures var db' := RemoveFavorite(db, Authenticated(uid), productId, false).0;
            AddFavorite(db', Authenticated(uid), Some(productId), data, false).1.IsSuccess()
  {
  }
}
