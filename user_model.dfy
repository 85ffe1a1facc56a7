/** The User model: the attributes of a user, the hook that hashes a new
    password before every save, password checking and the public projection.
    Hashing and verification are bcrypt's; here they are the parameters
    `hash` and `verify`. */
module UserModel {
  import opened Wrappers
  import opened DateFns
  import opened Db

  /** What `resource()` exposes of a user. */
  datatype Resource = Resource(id: Id, email: string, name: string,
                               createdAt: Time, updatedAt: Time)

  /** The public projection of the row `row` stored under key `id`. */
  function ResourceOf(id: Id, row: UserRow): Resource {
    Resource(id, row.email, row.name, row.createdAt, row.updatedAt)
  }

  /** The hash the save hook leaves: a fresh hash of a non-empty plaintext
      password, otherwise the hash already there. */
  function SavedHash(password: Field<string>, current: string, hash: string -> string): string {
    if Filled(password) then hash(password.value) else current
  }

  /** The projection does not depend on the password hash at all. */
  lemma ResourceHidesHash(id: Id, a: UserRow, b: UserRow)
    requires a.(passwordHash := b.passwordHash) == b
    ensures ResourceOf(id, a) == ResourceOf(id, b)
  {
  }

  /** With a hash that its verifier accepts, saving with `p` and then checking
      `p` succeeds. */
  lemma SaveThenCheck(p: string, current: string, hash: string -> string,
                      verify: (string, string) -> bool)
    requires p != ""
    requires forall q :: verify(q, hash(q))
    ensures verify(p, SavedHash(Given(p), current, hash))
  {
  }

  /** A user instance, as loaded or built during one request. `password` is
      a virtual attribute: it is set from the request and read by the save
      hook, and `Row()` does not persist it. */
  class User {
    var id: Id
    var email: string
    var name: string
    var password: Field<string>
    var passwordHash: string
    var createdAt: Time
    var updatedAt: Time

    /** The columns that are written to the users table. */
    function Row(): UserRow
      reads this
    {
      UserRow(email, name, passwordHash, createdAt, updatedAt)
    }

    /** `resource()`. */
    function Resource(): Resource
      reads this
    {
      ResourceOf(id, Row())
    }

    /** `checkPassword(p)`: bcrypt's compare of `p` against the stored hash. */
    function CheckPassword(verify: (string, string) -> bool, p: string): bool
      reads this
    {
      verify(p, passwordHash)
    }

    /** A new instance, as `User.create` builds it before assigning the body:
        every attribute blank, both timestamps `now`. */
    constructor New(id: Id, now: Time)
      ensures this.id == id && Row() == UserRow("", "", "", now, now) && password == Absent
    {
      this.id := id;
      email, name, passwordHash := "", "", "";
      createdAt, updatedAt := now, now;
      password := Absent;
    }

    /** An instance loaded from the row `row` stored under `id`; the virtual
        password starts out unset. */
    constructor Load(id: Id, row: UserRow)
      ensures this.id == id && Row() == row && password == Absent
    {
      this.id := id;
      email, name, passwordHash := row.email, row.name, row.passwordHash;
      createdAt, updatedAt := row.createdAt, row.updatedAt;
      password := Absent;
    }

    /** `set(values)` for the attributes a user body can carry: each key that
        was sent replaces the attribute, the others stay. */
    method Assign(email: Field<string>, name: Field<string>, password: Field<string>,
                  passwordHash: Field<string>)
      modifies this
      ensures this.email == email.Or(old(this.email))
      ensures this.name == name.Or(old(this.name))
      ensures this.password == (if password.Given? then password else old(this.password))
      ensures this.passwordHash == passwordHash.Or(old(this.passwordHash))
      ensures id == old(id) && createdAt == old(createdAt) && updatedAt == old(updatedAt)
    {
      this.email := email.Or(this.email);
      this.name := name.Or(this.name);
      if password.Given? {
        this.password := password;
      }
      this.passwordHash := passwordHash.Or(this.passwordHash);
    }

    /** The `beforeSave` hook. */
    method BeforeSave(hash: string -> string)
      modifies this`passwordHash
      ensures passwordHash == SavedHash(password, old(passwordHash), hash)
    {
      if Filled(password) {
        passwordHash := hash(password.value);
      }
    }
  }
}
