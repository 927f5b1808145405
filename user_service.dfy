/**
 * Account rules (src/service/UserService.ts): registration, login, profile
 * change, account deletion and the profile read, over the users table.
 *
 * Only the decisions and the transaction discipline are modelled. The user
 * store is not part of this model: its lookups are taken to be equality
 * selections on username, email and hyphen-stripped id, its insert to add one
 * row with a generated id, its update to overwrite the three columns of the
 * row with that id, and its delete to remove that row. Password hashing and
 * checking are opaque functions passed in; a driver exception at the one
 * write of each handler is a boolean parameter.
 */
module UserService {
  import opened Ids
  import opened Seqs
  import opened Rows
  import opened Transactions

  const UnexpectedError := "An unexpected error happened. Please try again."

  // ---------------------------------------------------------------------------
  // Lookups of the user store
  // ---------------------------------------------------------------------------

  function UsersNamed(t: Tables, username: string): (r: seq<UserRow>)
    ensures forall u :: u in r <==> u in t.users && u.username == username
  {
    Filter(t.users, (u: UserRow) => u.username == username)
  }

  function UsersWithEmail(t: Tables, email: string): (r: seq<UserRow>)
    ensures forall u :: u in r <==> u in t.users && u.email == email
  {
    Filter(t.users, (u: UserRow) => u.email == email)
  }

  function UsersWithId(t: Tables, userId: string): (r: seq<UserRow>)
    ensures forall u :: u in r <==> u in t.users && u.id == Normalize(userId)
  {
    Filter(t.users, (u: UserRow) => u.id == Normalize(userId))
  }

  /** No two accounts share a username or an email: what the 409 checks of
      registration and profile change protect. */
  ghost predicate DistinctAccounts(users: seq<UserRow>)
  {
    forall i, j :: 0 <= i < j < |users| ==>
      users[i].username != users[j].username && users[i].email != users[j].email
  }

  /** With distinct accounts a name or an email selects at most one user, so
      the profile change's `length === 1` test and registration's
      `length !== 0` test agree. */
  lemma AtMostOneAccount(t: Tables, username: string, email: string)
    requires DistinctAccounts(t.users)
    ensures |UsersNamed(t, username)| <= 1
    ensures |UsersWithEmail(t, email)| <= 1
  {
    FilterAtMostOne(t.users, (u: UserRow) => u.username == username);
    FilterAtMostOne(t.users, (u: UserRow) => u.email == email);
  }

  /** A user id selects at most one user. */
  lemma AtMostOneUser(t: Tables, userId: string)
    requires WellFormed(t)
    ensures |UsersWithId(t, userId)| <= 1
  {
    FilterAtMostOne(t.users, (u: UserRow) => u.id == Normalize(userId));
  }

  // ---------------------------------------------------------------------------
  // registerUser
  // ---------------------------------------------------------------------------

  /** The tables after a registration: one user row with a generated id. */
  function Registered(t: Tables, username: string, email: string, hashed: string): Tables
  {
    t.(users := t.users + [UserRow(FreshKey(t), username, email, hashed)])
  }

  lemma RegisteredWellFormed(t: Tables, username: string, email: string, hashed: string)
    requires WellFormed(t)
    ensures WellFormed(Registered(t, username, email, hashed))
  {
    var users := Registered(t, username, email, hashed).users;
    FreshKeyUnused(t);
    forall i, j | 0 <= i < j < |users| ensures users[i].id != users[j].id {
      if j == |t.users| {
        assert users[i] in t.users;
      }
    }
  }

  /** Registering a name and an email nobody has keeps accounts distinct. */
  lemma RegisteredKeepsAccountsDistinct(t: Tables, username: string, email: string, hashed: string)
    requires DistinctAccounts(t.users)
    requires UsersNamed(t, username) == [] && UsersWithEmail(t, email) == []
    ensures DistinctAccounts(Registered(t, username, email, hashed).users)
  {
    var users := Registered(t, username, email, hashed).users;
    forall i, j | 0 <= i < j < |users|
      ensures users[i].username != users[j].username && users[i].email != users[j].email
    {
      if j == |t.users| {
        assert users[i] in t.users;
        assert users[i] !in UsersNamed(t, username) && users[i] !in UsersWithEmail(t, email);
      }
    }
  }

  /** registerUser: the username is checked first, then the email, each
      answering 409 and rolling back when taken; then the user is inserted and
      committed (201), or a failed insert rolls back (500). */
  method RegisterUser(db: Database, username: string, password: string, email: string,
                      hash: string -> string, insertFails: bool)
    returns (resp: Response<string>)
    requires db.Valid() && !db.InTransaction()
    modifies db
    ensures db.Valid() && !db.InTransaction()
    ensures UsersNamed(old(db.tables), username) != [] ==>
      resp == Sent(409, Some("User name already taken.")) && db.tables == old(db.tables)
    ensures UsersNamed(old(db.tables), username) == [] && UsersWithEmail(old(db.tables), email) != [] ==>
      resp == Sent(409, Some("Email already taken.")) && db.tables == old(db.tables)
    ensures (UsersNamed(old(db.tables), username) == [] && UsersWithEmail(old(db.tables), email) == [] && insertFails) ==>
      resp == Sent(500, Some(UnexpectedError)) && db.tables == old(db.tables)
    ensures (UsersNamed(old(db.tables), username) == [] && UsersWithEmail(old(db.tables), email) == [] && !insertFails) ==>
      resp == Sent(201, None) && db.tables == Registered(old(db.tables), username, email, hash(password))
  {
    var hashed := hash(password);
    db.Begin();
    if UsersNamed(db.tables, username) != [] {
      db.Rollback();
      return Sent(409, Some("User name already taken."));
    }
    if UsersWithEmail(db.tables, email) != [] {
      db.Rollback();
      return Sent(409, Some("Email already taken."));
    }
    if insertFails {
      db.Rollback();
      return Sent(500, Some(UnexpectedError));
    }
    RegisteredWellFormed(db.tables, username, email, hashed);
    db.Write(Registered(db.tables, username, email, hashed));
    db.Commit();
    resp := Sent(201, None);
  }

  // ---------------------------------------------------------------------------
  // loginUser
  // ---------------------------------------------------------------------------

  /** What the signed token carries about the user. */
  datatype Claims = Claims(id: string, username: string)

  /** loginUser: 404 unless exactly one user has the name, 403 when the
      password does not check against that user's hash, else 200 with the
      user's claims. */
  function LoginUser(t: Tables, username: string, password: string, validate: (string, string) -> bool)
    : (r: Response<Claims>)
    ensures r.Sent? && (r.status == 200 || r.status == 403 || r.status == 404)
    ensures r.status == 404 <==> |UsersNamed(t, username)| != 1
    ensures r.status == 200 ==>
      exists u :: (u in t.users && u.username == username && validate(password, u.hashedPassword)
                   && r.payload == Some(Claims(u.id, username)))
    ensures r.status != 200 ==> r.payload.None?
  {
    var found := UsersNamed(t, username);
    if |found| == 1 then
      if validate(password, found[0].hashedPassword) then
        assert found[0] in found;
        Sent(200, Some(Claims(found[0].id, username)))
      else Sent(403, None)
    else Sent(404, None)
  }

  /** With distinct accounts, login succeeds exactly when some user has the
      name and the password checks against that user's hash. */
  lemma {:induction false} LoginSucceedsIffPasswordMatches(t: Tables, username: string, password: string,
                                                            validate: (string, string) -> bool)
    requires DistinctAccounts(t.users)
    ensures LoginUser(t, username, password, validate).status == 200 <==>
      exists u :: u in t.users && u.username == username && validate(password, u.hashedPassword)
  {
    var found := UsersNamed(t, username);
    AtMostOneAccount(t, username, "");
    if u :| u in t.users && u.username == username && validate(password, u.hashedPassword) {
      assert u in found;
      assert found == [found[0]];
    }
  }

  /** A user who has just registered can log in with the same password, and
      gets the generated id. */
  lemma LoginAfterRegister(t: Tables, username: string, password: string, email: string,
                           hash: string -> string, validate: (string, string) -> bool)
    requires UsersNamed(t, username) == []
    requires validate(password, hash(password))
    ensures LoginUser(Registered(t, username, email, hash(password)), username, password, validate)
      == Sent(200, Some(Claims(FreshKey(t), username)))
  {
    var row := UserRow(FreshKey(t), username, email, hash(password));
    var after := Registered(t, username, email, hash(password));
    FilterAppend(t.users, [row], (u: UserRow) => u.username == username);
    assert UsersNamed(after, username) == [row];
  }

  // ---------------------------------------------------------------------------
  // userInfo
  // ---------------------------------------------------------------------------

  /** The profile a user reads about themself; `id` echoes the caller's id. */
  datatype UserInfoDoc = UserInfoDoc(id: string, username: string, email: string)

  /** userInfo: 200 with the profile when exactly one user has the id, else 404. */
  function UserInfo(t: Tables, userId: string): (r: Response<UserInfoDoc>)
    ensures r.Sent? && (r.status == 200 || r.status == 404)
    ensures r.status == 200 <==> |UsersWithId(t, userId)| == 1
    ensures r.status == 200 ==> r.payload.Some? && r.payload.value.id == userId
    ensures r.status == 200 ==>
      exists u :: (u in t.users && u.id == Normalize(userId)
                   && r.payload.value.username == u.username && r.payload.value.email == u.email)
    ensures r.status == 404 ==> r.payload.None?
  {
    var found := UsersWithId(t, userId);
    if |found| == 1 then
      assert found[0] in found;
      Sent(200, Some(UserInfoDoc(userId, found[0].username, found[0].email)))
    else Sent(404, None)
  }

  /** Every stored user reads their own profile. */
  lemma UserInfoFindsEveryUser(t: Tables, u: UserRow)
    requires WellFormed(t) && u in t.users && '-' !in u.id
    ensures UserInfo(t, u.id) == Sent(200, Some(UserInfoDoc(u.id, u.username, u.email)))
  {
    NormalizeKeepsKeys(u.id);
    var found := UsersWithId(t, u.id);
    AtMostOneUser(t, u.id);
    assert u in found;
    var w := found[0];
    assert w in found;
    var i :| 0 <= i < |t.users| && t.users[i] == u;
    var j :| 0 <= j < |t.users| && t.users[j] == w;
    assert i == j;
  }

  // ---------------------------------------------------------------------------
  // changeUserInformation
  // ---------------------------------------------------------------------------

  /** The body of a profile change; empty strings count as absent. */
  datatype ChangeRequest = ChangeRequest(
    oldPassword: string,
    newPassword: Option<string>,
    email: Option<string>,
    username: Option<string>)

  /** The users table after the update: the row with the id takes each new
      value that is given and keeps its own otherwise. */
  function Changed(t: Tables, userId: string, username: Option<string>, email: Option<string>,
                   hashed: Option<string>): Tables
  {
    var key := Normalize(userId);
    t.(users := seq(|t.users|, i requires 0 <= i < |t.users| =>
      var u := t.users[i];
      if u.id == key then UserRow(u.id, username.GetOr(u.username), email.GetOr(u.email), hashed.GetOr(u.hashedPassword))
      else u))
  }

  /** The update keeps every id, and every row but the caller's. */
  lemma ChangedTouchesOnlyCaller(t: Tables, userId: string, username: Option<string>, email: Option<string>,
                                 hashed: Option<string>)
    ensures var after := Changed(t, userId, username, email, hashed);
      && after.surveys == t.surveys && after.tokens == t.tokens
      && |after.users| == |t.users|
      && (forall i :: 0 <= i < |t.users| ==> after.users[i].id == t.users[i].id)
      && (forall i :: 0 <= i < |t.users| && t.users[i].id != Normalize(userId) ==> after.users[i] == t.users[i])
      && (WellFormed(t) ==> WellFormed(after))
  {
    var after := Changed(t, userId, username, email, hashed);
    if WellFormed(t) {
      forall i, j | 0 <= i < j < |after.users| ensures after.users[i].id != after.users[j].id {
        assert after.users[i].id == t.users[i].id && after.users[j].id == t.users[j].id;
      }
    }
  }

  /** The profile change's checks let through only values nobody holds, so a
      successful change keeps accounts distinct. */
  lemma ChangeKeepsAccountsDistinct(t: Tables, userId: string, username: Option<string>, email: Option<string>,
                                    hashed: Option<string>)
    requires WellFormed(t) && DistinctAccounts(t.users)
    requires username.Some? ==> |UsersNamed(t, username.value)| != 1
    requires email.Some? ==> |UsersWithEmail(t, email.value)| != 1
    ensures DistinctAccounts(Changed(t, userId, username, email, hashed).users)
  {
    var after := Changed(t, userId, username, email, hashed).users;
    var key := Normalize(userId);
    if username.Some? {
      AtMostOneAccount(t, username.value, "");
      assert UsersNamed(t, username.value) == [];
    }
    if email.Some? {
      AtMostOneAccount(t, "", email.value);
      assert UsersWithEmail(t, email.value) == [];
    }
    forall i, j | 0 <= i < j < |after|
      ensures after[i].username != after[j].username && after[i].email != after[j].email
    {
      var a, b := t.users[i], t.users[j];
      assert a in t.users && b in t.users;
      assert a.id != b.id;
      if username.Some? {
        assert a !in UsersNamed(t, username.value) && b !in UsersNamed(t, username.value);
      }
      if email.Some? {
        assert a !in UsersWithEmail(t, email.value) && b !in UsersWithEmail(t, email.value);
      }
    }
  }

  /** changeUserInformation. Absent or empty fields are not changed. In order:
      a new email any user already has (the caller included) answers 409, then
      a new username anyone has answers 409, a missing user 404, a wrong old
      password 403, a failed update 500; each of these rolls back. Otherwise
      the row is updated and committed (204). */
  method ChangeUserInformation(db: Database, userId: string, req: ChangeRequest,
                               hash: string -> string, validate: (string, string) -> bool, updateFails: bool)
    returns (resp: Response<string>)
    requires db.Valid() && !db.InTransaction()
    modifies db
    ensures db.Valid() && !db.InTransaction() && resp.Sent?
    ensures var t, e, n := old(db.tables), Truthy(req.email), Truthy(req.username);
      var emailTaken := e.Some? && |UsersWithEmail(t, e.value)| == 1;
      var nameTaken := n.Some? && |UsersNamed(t, n.value)| == 1;
      var found := UsersWithId(t, userId);
      && (emailTaken ==> resp == Sent(409, Some("The email is taken")))
      && (!emailTaken && nameTaken ==> resp == Sent(409, Some("The username is taken")))
      && (!emailTaken && !nameTaken && |found| != 1 ==> resp == Sent(404, Some("Can not find user with the given ID")))
      && (!emailTaken && !nameTaken && |found| == 1 && !validate(req.oldPassword, found[0].hashedPassword) ==>
            resp == Sent(403, Some("The old password is not correct and therefore can not be verified")))
      && (!emailTaken && !nameTaken && |found| == 1 && validate(req.oldPassword, found[0].hashedPassword) && updateFails ==>
            resp == Sent(500, Some(UnexpectedError)))
      && (resp.status == 204 <==>
            !emailTaken && !nameTaken && |found| == 1 && validate(req.oldPassword, found[0].hashedPassword) && !updateFails)
    ensures resp.status == 204 ==>
      resp.payload.None? &&
      db.tables == Changed(old(db.tables), userId, Truthy(req.username), Truthy(req.email),
                           if Truthy(req.newPassword).Some? then Some(hash(Truthy(req.newPassword).value)) else None)
    ensures resp.status != 204 ==> db.tables == old(db.tables)
  {
    var newPassword := Truthy(req.newPassword);
    var newEmail := Truthy(req.email);
    var newUsername := Truthy(req.username);
    db.Begin();
    var results: seq<seq<UserRow>> := [];
    if newEmail.Some? {
      results := results + [UsersWithEmail(db.tables, newEmail.value)];
    }
    if newUsername.Some? {
      results := results + [UsersNamed(db.tables, newUsername.value)];
    }
    if newEmail.Some? {
      var emailStillFree := results[0];
      results := results[1..];
      if |emailStillFree| == 1 {
        db.Rollback();
        return Sent(409, Some("The email is taken"));
      }
    }
    if newUsername.Some? {
      var nameStillFree := results[0];
      results := results[1..];
      if |nameStillFree| == 1 {
        db.Rollback();
        return Sent(409, Some("The username is taken"));
      }
    }
    var getUserQuery := UsersWithId(db.tables, userId);
    if |getUserQuery| != 1 {
      db.Rollback();
      return Sent(404, Some("Can not find user with the given ID"));
    }
    var user := getUserQuery[0];
    if !validate(req.oldPassword, user.hashedPassword) {
      db.Rollback();
      return Sent(403, Some("The old password is not correct and therefore can not be verified"));
    }
    var newPasswordHash: Option<string> := None;
    if newPassword.Some? {
      newPasswordHash := Some(hash(newPassword.value));
    }
    if updateFails {
      db.Rollback();
      return Sent(500, Some(UnexpectedError));
    }
    ChangedTouchesOnlyCaller(db.tables, userId, newUsername, newEmail, newPasswordHash);
    db.Write(Changed(db.tables, userId, newUsername, newEmail, newPasswordHash));
    db.Commit();
    resp := Sent(204, None);
  }

  // ---------------------------------------------------------------------------
  // deleteUser
  // ---------------------------------------------------------------------------

  /** The tables without the user with the id. */
  function WithoutUser(t: Tables, userId: string): Tables
  {
    t.(users := Filter(t.users, (u: UserRow) => u.id != Normalize(userId)))
  }

  /** Deleting removes the user with the id and keeps every other row. */
  lemma WithoutUserRemovesOnlyThatUser(t: Tables, userId: string)
    ensures var after := WithoutUser(t, userId);
      && UsersWithId(after, userId) == []
      && (forall u :: u in t.users && u.id != Normalize(userId) ==> u in after.users)
      && after.surveys == t.surveys && after.tokens == t.tokens
      && (WellFormed(t) ==> WellFormed(after))
  {
    var after := WithoutUser(t, userId);
    FilterKeepsNone(after.users, (u: UserRow) => u.id == Normalize(userId));
    if WellFormed(t) {
      FilterKeepsUniqueUserIds(t.users, (u: UserRow) => u.id != Normalize(userId));
    }
  }

  /** deleteUser as written: a missing user answers 404 without closing the
      transaction it began, a wrong password rolls back (403), a failed delete
      rolls back (500), and the delete itself answers 200 but is never
      committed: the transaction stays open with the old tables as its
      snapshot, so the next rollback on the connection brings the user back. */
  method DeleteUser(db: Database, userId: string, password: string,
                    validate: (string, string) -> bool, deleteFails: bool)
    returns (resp: Response<string>)
    requires db.Valid() && !db.InTransaction()
    modifies db
    ensures db.Valid()
    ensures var found := UsersWithId(old(db.tables), userId);
      && (|found| != 1 ==>
            resp == Sent(404, Some("User not found")) && db.tables == old(db.tables) && db.saved == Some(old(db.tables)))
      && (|found| == 1 && !validate(password, found[0].hashedPassword) ==>
            resp == Sent(403, Some("The old password is not correct and therefore can not be verified"))
            && db.tables == old(db.tables) && !db.InTransaction())
      && (|found| == 1 && validate(password, found[0].hashedPassword) && deleteFails ==>
            resp == Sent(500, Some(UnexpectedError)) && db.tables == old(db.tables) && !db.InTransaction())
      && (|found| == 1 && validate(password, found[0].hashedPassword) && !deleteFails ==>
            resp == Sent(200, Some("Account was deleted successfully"))
            && db.tables == WithoutUser(old(db.tables), userId) && db.saved == Some(old(db.tables)))
  {
    db.Begin();
    var query := UsersWithId(db.tables, userId);
    if |query| != 1 {
      return Sent(404, Some("User not found"));
    }
    var user := query[0];
    if !validate(password, user.hashedPassword) {
      db.Rollback();
      return Sent(403, Some("The old password is not correct and therefore can not be verified"));
    }
    if deleteFails {
      db.Rollback();
      return Sent(500, Some(UnexpectedError));
    }
    WithoutUserRemovesOnlyThatUser(db.tables, userId);
    db.Write(WithoutUser(db.tables, userId));
    resp := Sent(200, Some("Account was deleted successfully"));
  }

  /** The consequence of the missing commit: a successful deletion followed by
      any rollback on the shared connection (every failing handler issues one)
      leaves the user in place. */
  method DeletionLostOnRollback(db: Database, userId: string, password: string, validate: (string, string) -> bool)
    requires db.Valid() && !db.InTransaction()
    requires |UsersWithId(db.tables, userId)| == 1
    requires validate(password, UsersWithId(db.tables, userId)[0].hashedPassword)
    modifies db
    ensures db.Valid() && !db.InTransaction()
    ensures db.tables == old(db.tables) && |UsersWithId(db.tables, userId)| == 1
  {
    var resp := DeleteUser(db, userId, password, validate, false);
    assert resp.status == 200;
    db.Rollback();
  }

  /** deleteUser with the transaction closed on every path: a missing user
      rolls back too, and a successful delete is committed. */
  method DeleteUserCommitted(db: Database, userId: string, password: string,
                             validate: (string, string) -> bool, deleteFails: bool)
    returns (resp: Response<string>)
    requires db.Valid() && !db.InTransaction()
    modifies db
    ensures db.Valid() && !db.InTransaction() && resp.Sent?
    ensures var found := UsersWithId(old(db.tables), userId);
      && (|found| != 1 ==> resp == Sent(404, Some("User not found")))
      && (|found| == 1 && !validate(password, found[0].hashedPassword) ==>
            resp == Sent(403, Some("The old password is not correct and therefore can not be verified")))
      && (|found| == 1 && validate(password, found[0].hashedPassword) && deleteFails ==>
            resp == Sent(500, Some(UnexpectedError)))
      && (resp.status == 200 <==> |found| == 1 && validate(password, found[0].hashedPassword) && !deleteFails)
    ensures resp.status == 200 ==>
      resp == Sent(200, Some("Account was deleted successfully")) && db.tables == WithoutUser(old(db.tables), userId)
    ensures resp.status != 200 ==> db.tables == old(db.tables)
  {
    db.Begin();
    var query := UsersWithId(db.tables, userId);
    if |query| != 1 {
      db.Rollback();
      return Sent(404, Some("User not found"));
    }
    var user := query[0];
    if !validate(password, user.hashedPassword) {
      db.Rollback();
      return Sent(403, Some("The old password is not correct and therefore can not be verified"));
    }
    if deleteFails {
      db.Rollback();
      return Sent(500, Some(UnexpectedError));
    }
    WithoutUserRemovesOnlyThatUser(db.tables, userId);
    db.Write(WithoutUser(db.tables, userId));
    db.Commit();
    resp := Sent(200, Some("Account was deleted successfully"));
  }

  /** With the commit in place, a later rollback keeps the deletion. */
  method DeletionSurvivesRollback(db: Database, userId: string, password: string, validate: (string, string) -> bool)
    requires db.Valid() && !db.InTransaction()
    requires |UsersWithId(db.tables, userId)| == 1
    requires validate(password, UsersWithId(db.tables, userId)[0].hashedPassword)
    modifies db
    ensures db.Valid() && !db.InTransaction()
    ensures UsersWithId(db.tables, userId) == []
  {
    var resp := DeleteUserCommitted(db, userId, password, validate, false);
    WithoutUserRemovesOnlyThatUser(old(db.tables), userId);
    db.Rollback();
  }
}
