/** The user handlers: registration and profile update. Email format is the
    parameter `isEmail`; password hashing and checking are `hash` and `verify`. */
module UserController {
  import opened Wrappers
  import opened Http
  import opened DateFns
  import opened Db
  import opened UserModel

  /** The keys of a user request body that the handlers look at. */
  datatype UserBody = UserBody(email: Field<string>, name: Field<string>,
                               password: Field<string>, confirmPassword: Field<string>,
                               oldPassword: Field<string>, passwordHash: Field<string>)

  /** The schema's `email()` test: it lets the empty string through. */
  predicate EmailFormat(e: string, isEmail: string -> bool) {
    e == "" || isEmail(e)
  }

  /** The registration schema: a well-formed email, a name and a password of at
      least six characters (JavaScript length), all required. */
  predicate StoreSchemaValid(b: UserBody, isEmail: string -> bool) {
    Filled(b.email) && EmailFormat(b.email.value, isEmail) &&
    Filled(b.name) &&
    Filled(b.password) && JsLength(b.password.value) >= 6
  }

  /** The profile schema, key by key. */
  predicate UpdateSchemaValid(b: UserBody, isEmail: string -> bool) {
    !b.name.Malformed? && !b.email.Malformed? && !b.password.Malformed? &&
    !b.confirmPassword.Malformed? && !b.oldPassword.Malformed? &&
    // email: string().email()
    (b.email.Given? ==> EmailFormat(b.email.value, isEmail)) &&
    // password: min(6), one of [confirmPassword]
    (b.password.Given? ==> JsLength(b.password.value) >= 6 && b.confirmPassword == b.password) &&
    // confirmPassword: one of [password], required once password is truthy
    (b.confirmPassword.Given? ==> b.confirmPassword == b.password) &&
    (Filled(b.password) ==> Filled(b.confirmPassword)) &&
    // oldPassword: min(6), required once password is truthy
    (b.oldPassword.Given? ==> JsLength(b.oldPassword.value) >= 6) &&
    (Filled(b.password) ==> Filled(b.oldPassword))
  }

  /** The row `User.create(body)` stores: the body assigned to a blank instance,
      then the save hook. */
  function NewRow(b: UserBody, now: Time, hash: string -> string): UserRow {
    UserRow(b.email.Or(""), b.name.Or(""), SavedHash(b.password, b.passwordHash.Or(""), hash), now, now)
  }

  /** The row `user.update(body)` stores: each sent key replaces the attribute,
      then the save hook; the creation time stays. */
  function UpdatedRow(row: UserRow, b: UserBody, now: Time, hash: string -> string): UserRow {
    UserRow(b.email.Or(row.email), b.name.Or(row.name),
            SavedHash(b.password, b.passwordHash.Or(row.passwordHash), hash),
            row.createdAt, now)
  }

  /** `store`: registration. */
  function Register(t: Tables, b: UserBody, now: Time, isEmail: string -> bool,
                    hash: string -> string): (r: Reply)
    ensures r.status == Ok || r.status == UnprocessableEntity
    ensures r.status == Ok <==> StoreSchemaValid(b, isEmail) && !EmailTaken(t.users, b.email.value)
    ensures r.status != Ok ==> r.tables == t
    ensures r.status == Ok ==>
              r.tables == t.(users := t.users[t.nextUserId := UserRow(b.email.value, b.name.value,
                                                                       hash(b.password.value), now, now)],
                             nextUserId := t.nextUserId + 1)
  {
    if !StoreSchemaValid(b, isEmail) then Reply(UnprocessableEntity, t)
    else if EmailTaken(t.users, b.email.value) then Reply(UnprocessableEntity, t)
    else Reply(Ok, t.(users := t.users[t.nextUserId := NewRow(b, now, hash)],
                      nextUserId := t.nextUserId + 1))
  }

  /** The handler itself, on the live store. */
  method Store(db: Db.Store, body: UserBody, now: Time, isEmail: string -> bool,
               hash: string -> string)
    returns (status: Status, resource: Option<Resource>)
    modifies db
    ensures Reply(status, db.State()) == Register(old(db.State()), body, now, isEmail, hash)
    ensures resource == if status == Ok then Some(ResourceOf(old(db.nextUserId), db.users[old(db.nextUserId)]))
                        else None
  {
    if !StoreSchemaValid(body, isEmail) {
      return UnprocessableEntity, None;
    }
    var userExists := EmailTaken(db.users, body.email.value);
    if userExists {
      return UnprocessableEntity, None;
    }
    var user := new User.New(db.nextUserId, now);
    user.Assign(body.email, body.name, body.password, body.passwordHash);
    user.BeforeSave(hash);
    db.users := db.users[db.nextUserId := user.Row()];
    db.nextUserId := db.nextUserId + 1;
    return Ok, Some(user.Resource());
  }

  /** The email guard of `update`: the sent email differs from the user's own
      and another user already holds it. */
  predicate EmailConflict(t: Tables, row: UserRow, b: UserBody) {
    b.email.Given? && b.email.value != row.email && EmailTaken(t.users, b.email.value)
  }

  /** `update`: profile change of the authenticated user `userId`. The guards
      run in order: the schema, the user's existence, the email guard, and the
      old password when one is sent. A sent `password_hash` is dropped before the
      body is applied. */
  function Update(t: Tables, userId: Id, b: UserBody, now: Time, isEmail: string -> bool,
                  hash: string -> string, verify: (string, string) -> bool): (r: Reply)
    ensures r.status == NotFound <==> UpdateSchemaValid(b, isEmail) && userId !in t.users
    ensures r.status == UnprocessableEntity <==>
              !UpdateSchemaValid(b, isEmail) ||
              (userId in t.users &&
               (EmailConflict(t, t.users[userId], b) ||
                (Filled(b.oldPassword) && !verify(b.oldPassword.value, t.users[userId].passwordHash))))
    ensures r.status == Ok || r.status == NotFound || r.status == UnprocessableEntity
    ensures r.status != Ok ==> r.tables == t
    ensures r.status == Ok ==>
              r.tables == t.(users := r.tables.users) &&
              r.tables.users.Keys == t.users.Keys &&
              (forall id :: id in t.users && id != userId ==> r.tables.users[id] == t.users[id])
    ensures r.status == Ok ==>
              var before, after := t.users[userId], r.tables.users[userId];
              after.email == b.email.Or(before.email) &&
              after.name == b.name.Or(before.name) &&
              after.passwordHash == (if Filled(b.password) then hash(b.password.value) else before.passwordHash) &&
              after.createdAt == before.createdAt && after.updatedAt == now
  {
    if !UpdateSchemaValid(b, isEmail) then Reply(UnprocessableEntity, t)
    else if userId !in t.users then Reply(NotFound, t)
    else
      var user := t.users[userId];
      if EmailConflict(t, user, b) then Reply(UnprocessableEntity, t)
      else if Filled(b.oldPassword) && !verify(b.oldPassword.value, user.passwordHash) then
        Reply(UnprocessableEntity, t)
      else
        Reply(Ok, t.(users := t.users[userId := UpdatedRow(user, b.(passwordHash := Absent), now, hash)]))
  }

  /** The handler itself, on the live store. */
  method UpdateProfile(db: Db.Store, userId: Id, body: UserBody, now: Time, isEmail: string -> bool,
                       hash: string -> string, verify: (string, string) -> bool)
    returns (status: Status, resource: Option<Resource>)
    modifies db
    ensures Reply(status, db.State()) == Update(old(db.State()), userId, body, now, isEmail, hash, verify)
    ensures resource == if status == Ok then Some(ResourceOf(userId, db.users[userId])) else None
  {
    if !UpdateSchemaValid(body, isEmail) {
      return UnprocessableEntity, None;
    }
    if userId !in db.users {
      return NotFound, None;
    }
    var user := new User.Load(userId, db.users[userId]);
    var email, oldPassword := body.email, body.oldPassword;
    if email.Given? && user.email != email.value {
      var userExists := EmailTaken(db.users, email.value);
      if userExists {
        return UnprocessableEntity, None;
      }
    }
    if Filled(oldPassword) && !user.CheckPassword(verify, oldPassword.value) {
      return UnprocessableEntity, None;
    }
    var fields := body.(passwordHash := Absent);
    user.Assign(fields.email, fields.name, fields.password, fields.passwordHash);
    user.updatedAt := now;
    user.BeforeSave(hash);
    db.users := db.users[userId := user.Row()];
    return Ok, Some(user.Resource());
  }

  /** Registration keeps the store well formed and the emails unique, and
      touches no meetup or subscription. */
  lemma RegisterKeepsInvariants(t: Tables, b: UserBody, now: Time, isEmail: string -> bool,
                                hash: string -> string)
    requires WellFormed(t) && UniqueEmails(t.users) && OneSubscriptionPerTimeslot(t)
    ensures var t' := Register(t, b, now, isEmail, hash).tables;
            WellFormed(t') && UniqueEmails(t'.users) && OneSubscriptionPerTimeslot(t')
  {
  }

  /** A profile update keeps the store well formed and the emails unique. */
  lemma UpdateKeepsInvariants(t: Tables, userId: Id, b: UserBody, now: Time, isEmail: string -> bool,
                              hash: string -> string, verify: (string, string) -> bool)
    requires WellFormed(t) && UniqueEmails(t.users) && OneSubscriptionPerTimeslot(t)
    ensures var t' := Update(t, userId, b, now, isEmail, hash, verify).tables;
            WellFormed(t') && UniqueEmails(t'.users) && OneSubscriptionPerTimeslot(t')
  {
  }

  /** What the profile schema asks of a password change: a sent password has
      JavaScript length at least six and equals the confirmation, and both the
      confirmation and an old password of JavaScript length at least six are
      sent.
      A confirmation sent without a password is refused. */
  lemma PasswordChangeRule(b: UserBody, isEmail: string -> bool)
    ensures UpdateSchemaValid(b, isEmail) && b.password.Given? ==>
              JsLength(b.password.value) >= 6 && b.confirmPassword == b.password &&
              Filled(b.oldPassword) && JsLength(b.oldPassword.value) >= 6
    ensures b.confirmPassword.Given? && b.password == Absent ==> !UpdateSchemaValid(b, isEmail)
  {
  }

  /** A successful update that sets a password was given the right old one. */
  lemma PasswordChangeNeedsOldPassword(t: Tables, userId: Id, b: UserBody, now: Time,
                                       isEmail: string -> bool, hash: string -> string,
                                       verify: (string, string) -> bool)
    requires Update(t, userId, b, now, isEmail, hash, verify).status == Ok
    requires b.password.Given?
    ensures Filled(b.oldPassword) && verify(b.oldPassword.value, t.users[userId].passwordHash)
  {
  }

  /** A `password_hash` key in the body has no effect on the update. */
  lemma UpdateIgnoresSentHash(t: Tables, userId: Id, b: UserBody, h: Field<string>, now: Time,
                              isEmail: string -> bool, hash: string -> string,
                              verify: (string, string) -> bool)
    ensures Update(t, userId, b, now, isEmail, hash, verify) ==
            Update(t, userId, b.(passwordHash := h), now, isEmail, hash, verify)
  {
  }

  // ---------------------------------------------------------------------------
  // The email guard as the source writes it

  /** The email guard as written: it runs only when the sent email is truthy,
      so an empty email is applied without looking for another holder. */
  predicate EmailConflictAsWritten(t: Tables, row: UserRow, b: UserBody) {
    Filled(b.email) && b.email.value != row.email && EmailTaken(t.users, b.email.value)
  }

  /** `update` with the email guard as written. */
  function UpdateAsWritten(t: Tables, userId: Id, b: UserBody, now: Time, isEmail: string -> bool,
                           hash: string -> string, verify: (string, string) -> bool): (r: Reply)
    ensures r.status != Ok ==> r.tables == t
    ensures r.status == Ok ==>
              userId in t.users &&
              r.tables == t.(users := t.users[userId := UpdatedRow(t.users[userId], b.(passwordHash := Absent), now, hash)])
  {
    if !UpdateSchemaValid(b, isEmail) then Reply(UnprocessableEntity, t)
    else if userId !in t.users then Reply(NotFound, t)
    else
      var user := t.users[userId];
      if EmailConflictAsWritten(t, user, b) then Reply(UnprocessableEntity, t)
      else if Filled(b.oldPassword) && !verify(b.oldPassword.value, user.passwordHash) then
        Reply(UnprocessableEntity, t)
      else
        Reply(Ok, t.(users := t.users[userId := UpdatedRow(user, b.(passwordHash := Absent), now, hash)]))
  }

  /** The two agree on every body except one whose email is the empty string. */
  lemma AsWrittenDiffersOnlyOnEmptyEmail(t: Tables, userId: Id, b: UserBody, now: Time,
                                         isEmail: string -> bool, hash: string -> string,
                                         verify: (string, string) -> bool)
    requires b.email != Given("")
    ensures UpdateAsWritten(t, userId, b, now, isEmail, hash, verify) ==
            Update(t, userId, b, now, isEmail, hash, verify)
  {
  }

  /** Two users, each setting an empty email in turn, end up sharing it. */
  lemma AsWrittenDuplicatesEmptyEmail(isEmail: string -> bool, hash: string -> string,
                                      verify: (string, string) -> bool)
    ensures var blank := UserBody(Given(""), Absent, Absent, Absent, Absent, Absent);
            var t0 := Empty({}).(users := map[0 := UserRow("a@x.io", "A", "h", 0, 0),
                                              1 := UserRow("b@x.io", "B", "h", 0, 0)],
                                 nextUserId := 2);
            var t1 := UpdateAsWritten(t0, 0, blank, 1, isEmail, hash, verify).tables;
            var r2 := UpdateAsWritten(t1, 1, blank, 2, isEmail, hash, verify);
            UniqueEmails(t0.users) && r2.status == Ok && !UniqueEmails(r2.tables.users)
  {
    var blank := UserBody(Given(""), Absent, Absent, Absent, Absent, Absent);
    var t0 := Empty({}).(users := map[0 := UserRow("a@x.io", "A", "h", 0, 0),
                                      1 := UserRow("b@x.io", "B", "h", 0, 0)],
                         nextUserId := 2);
    var t1 := UpdateAsWritten(t0, 0, blank, 1, isEmail, hash, verify).tables;
    var r2 := UpdateAsWritten(t1, 1, blank, 2, isEmail, hash, verify);
    assert UserEmail(r2.tables.users, 0) == UserEmail(r2.tables.users, 1) == "";
  }
}
