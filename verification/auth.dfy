/** The login gate of src/controllers/authController.js: which checks a login request must
    pass, in which order, and what the issued token carries. Password hashing is abstract:
    `matches(entered, stored)` stands for `bcrypt.compare`. */
module Auth {
  import opened Wrappers
  import opened Calendar
  import opened Records
  import Owners

  const MsgCredentialsRequired := "Username and password required"
  const MsgInvalidCredentials := "Invalid credentials"
  const MsgBlocked := "Your account has been blocked. Please contact admin."
  const MsgExpired := "Your subscription has expired. Please contact admin to renew."

  /** The payload signed into the token by generateToken. */
  datatype Token = Token(id: Id, username: string, role: Role, messId: Option<Id>)

  /** A successful login: the token and the expiry shown with the user. */
  datatype Session = Session(token: Token, subscriptionExpiry: Option<Day>)

  /** `User.findOne({ username })` among the ids below `n`: the lowest id holding that
      username (usernames are unique in the store, so at most one does). */
  function FindByUsername(users: map<Id, User>, username: string, n: nat): (r: Option<Id>)
    ensures r.Some? ==> r.value < n && r.value in users && users[r.value].username == username
    ensures r.Some? ==> forall k :: k in users && k < r.value ==> users[k].username != username
    ensures r.None? ==> forall k :: k in users && k < n ==> users[k].username != username
    decreases n
  {
    if n == 0 then None
    else
      var found := FindByUsername(users, username, n - 1);
      if found.Some? then found
      else if n - 1 in users && users[n - 1].username == username then Some(n - 1)
      else None
  }

  /** The owner-only subscription check: set and before today. */
  predicate Expired(user: User, now: Day) {
    user.role == Owner && user.subscriptionExpiry.Some? && user.subscriptionExpiry.value < now
  }

  /** POST /api/auth/login. */
  function Login(db: Db, username: Option<string>, password: Option<string>,
                 matches: (string, string) -> bool, now: Day): (r: Result<Session>)
    ensures r == Err(BadRequest(MsgCredentialsRequired)) <==>
      username.None? || username.value == "" || password.None? || password.value == ""
    ensures r.Ok? <==>
      && username.Some? && username.value != "" && password.Some? && password.value != ""
      && var found := FindByUsername(db.users, username.value, db.nextId);
      && found.Some?
      && matches(password.value, db.users[found.value].password)
      && db.users[found.value].isActive
      && !Expired(db.users[found.value], now)
    ensures r.Ok? ==>
      && r.value.token.id in db.users
      && Some(r.value.token.id) == FindByUsername(db.users, username.value, db.nextId)
      && var u := db.users[r.value.token.id];
      && r.value.token == Token(r.value.token.id, username.value, u.role, u.messId)
      && r.value.subscriptionExpiry == u.subscriptionExpiry
    ensures r.Err? ==> r.failure in {BadRequest(MsgCredentialsRequired), Unauthorized(MsgInvalidCredentials),
                                     Forbidden(MsgBlocked), Forbidden(MsgExpired)}
  {
    if username.None? || username.value == "" || password.None? || password.value == "" then
      Err(BadRequest(MsgCredentialsRequired))
    else
      var found := FindByUsername(db.users, username.value, db.nextId);
      if found.None? then Err(Unauthorized(MsgInvalidCredentials))
      else
        var user := db.users[found.value];
        if !matches(password.value, user.password) then Err(Unauthorized(MsgInvalidCredentials))
        else if !user.isActive then Err(Forbidden(MsgBlocked))
        else if Expired(user, now) then Err(Forbidden(MsgExpired))
        else Ok(Session(Token(found.value, user.username, user.role, user.messId), user.subscriptionExpiry))
  }

  /** An unknown username and a wrong password get the same answer, so the reply does not
      reveal which usernames exist. */
  lemma UnknownUserLooksLikeWrongPassword(db: Db, db': Db, username: string, password: string,
                                          matches: (string, string) -> bool, now: Day, now': Day)
    requires username != "" && password != ""
    requires FindByUsername(db.users, username, db.nextId).None?
    requires var found := FindByUsername(db'.users, username, db'.nextId);
      found.Some? && !matches(password, db'.users[found.value].password)
    ensures Login(db, Some(username), Some(password), matches, now)
         == Login(db', Some(username), Some(password), matches, now')
         == Err(Unauthorized(MsgInvalidCredentials))
  {
  }

  /** The checks run in order: a wrong password hides a block, and a block hides an expired
      subscription. */
  lemma GateOrder(db: Db, username: string, password: string, matches: (string, string) -> bool, now: Day)
    requires username != "" && password != ""
    requires var found := FindByUsername(db.users, username, db.nextId);
      found.Some? && !db.users[found.value].isActive && Expired(db.users[found.value], now)
    ensures var u := db.users[FindByUsername(db.users, username, db.nextId).value];
      Login(db, Some(username), Some(password), matches, now)
        == if matches(password, u.password) then Err(Forbidden(MsgBlocked)) else Err(Unauthorized(MsgInvalidCredentials))
  {
  }

  /** An admin is never turned away for a past subscription expiry. */
  lemma AdminNeverExpires(db: Db, username: string, password: string, matches: (string, string) -> bool, now: Day)
    requires username != "" && password != ""
    requires var found := FindByUsername(db.users, username, db.nextId);
      && found.Some? && db.users[found.value].role == Admin
      && db.users[found.value].isActive && matches(password, db.users[found.value].password)
    ensures Login(db, Some(username), Some(password), matches, now).Ok?
  {
  }

  /** The toggle and the gate agree: once toggleActive turns an active owner off, their
      correct password gets the "blocked" answer. */
  lemma DeactivatedOwnerIsBlocked(db: Db, id: Id, expiry: Option<Day>, extendDays: Option<int>, now: Day,
                                  password: string, matches: (string, string) -> bool)
    requires KeysFresh(db) && id in db.users && db.users[id].role == Owner && db.users[id].isActive
    requires db.users[id].username != "" && password != ""
    requires forall k :: k in db.users && k != id ==> db.users[k].username != db.users[id].username
    requires matches(password, db.users[id].password)
    ensures
      var db' := Owners.ToggleActive(db, id, expiry, extendDays, now).db;
      Login(db', Some(db.users[id].username), Some(password), matches, now) == Err(Forbidden(MsgBlocked))
  {
    var db' := Owners.ToggleActive(db, id, expiry, extendDays, now).db;
    assert FindByUsername(db'.users, db.users[id].username, db'.nextId) == Some(id);
  }

  /** Reactivating a blocked owner with a positive extension always lets their correct
      password in on the same day, whatever the old expiry was. */
  lemma ReactivatedOwnerCanLogIn(db: Db, id: Id, extendDays: int, now: Day,
                                 password: string, matches: (string, string) -> bool)
    requires KeysFresh(db) && id in db.users && db.users[id].role == Owner && !db.users[id].isActive
    requires extendDays > 0
    requires db.users[id].username != "" && password != ""
    requires forall k :: k in db.users && k != id ==> db.users[k].username != db.users[id].username
    requires matches(password, db.users[id].password)
    ensures
      var db' := Owners.ToggleActive(db, id, None, Some(extendDays), now).db;
      Login(db', Some(db.users[id].username), Some(password), matches, now).Ok?
  {
    var db' := Owners.ToggleActive(db, id, None, Some(extendDays), now).db;
    assert FindByUsername(db'.users, db.users[id].username, db'.nextId) == Some(id);
  }
}
