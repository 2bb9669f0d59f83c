/**
 * The users table and `AuthService` (backend/src/services/auth.service.ts):
 * registration guarded by an existence check, and login by email and
 * password. bcrypt and JWT signing are functions given by the caller.
 */
module AuthService {
  import opened Wrappers
  import Tables
  import opened AuthSchemas

  datatype User = User(id: int, user_name: string, last_name: string, email: string, password: string)

  function EmailOf(u: User): string { u.email }

  /** The payload a token is signed over: `{ userId, email }`. */
  datatype Claims = Claims(userId: int, email: string)

  /** What a successful `loginUser` returns. */
  datatype LoginReply = LoginReply(message: string, token: string)

  const UserExists := "User already exists"
  const UserCreated := "User created successfully"
  const UserNotFound := "User not found"
  const InvalidPassword := "Invalid password"
  const LoginSuccessful := "Login successful"

  /** `SELECT * FROM users WHERE email = ?` */
  function UsersWithEmail(users: seq<User>, email: string): (r: seq<User>)
    ensures forall u :: u in r <==> u in users && u.email == email
  {
    Tables.SelectMembers(users, EmailOf, email);
    Tables.Select(users, EmailOf, email)
  }

  predicate IdsBelow(users: seq<User>, nextId: int) {
    forall i :: 0 <= i < |users| ==> 1 <= users[i].id < nextId
  }

  /** The users table with its AUTO_INCREMENT counter. */
  class UsersTable {
    var users: seq<User>
    var nextId: int

    predicate Valid()
      reads this
    {
      nextId >= 1 && IdsBelow(users, nextId)
    }

    constructor (initial: seq<User>, next: int)
      requires next >= 1 && IdsBelow(initial, next)
      ensures users == initial && nextId == next && Valid()
    {
      users := initial;
      nextId := next;
    }

    /** `INSERT INTO users (user_name, last_name, email, password)`: one row under the next id. */
    method Insert(user_name: string, last_name: string, email: string, password: string) returns (id: int)
      requires Valid()
      modifies this
      ensures id == old(nextId)
      ensures users == old(users) + [User(id, user_name, last_name, email, password)]
      ensures nextId == old(nextId) + 1
      ensures Valid()
    {
      id := nextId;
      users := users + [User(id, user_name, last_name, email, password)];
      nextId := nextId + 1;
    }
  }

  /** `checkIfUserExists(email)`: the first user with that email, or null when there is none. */
  function CheckIfUserExists(users: seq<User>, email: string): (r: Option<User>)
    ensures r.None? <==> forall u :: u in users ==> u.email != email
    ensures r.Some? ==> r.value in users && r.value.email == email
  {
    var found := UsersWithEmail(users, email);
    if found == [] then None
    else
      assert found[0] in found;
      Some(found[0])
  }

  /**
   * `registerUser(input)`: with the email already taken it throws
   * "User already exists" and inserts nothing; otherwise it inserts one row
   * holding `hash(password)`, never the password itself.
   */
  method RegisterUser(db: UsersTable, input: RegisterInput, hash: string -> string) returns (r: Result<string, string>)
    requires db.Valid()
    modifies db
    ensures db.Valid()
    ensures old(CheckIfUserExists(db.users, input.email)).Some? ==>
      r == Err(UserExists) && db.users == old(db.users) && db.nextId == old(db.nextId)
    ensures old(CheckIfUserExists(db.users, input.email)).None? ==>
      r == Ok(UserCreated)
      && db.users == old(db.users) + [User(old(db.nextId), input.user_name, input.last_name, input.email, hash(input.password))]
      && db.nextId == old(db.nextId) + 1
  {
    var existing := CheckIfUserExists(db.users, input.email);
    if existing.Some? {
      return Err(UserExists);
    }
    var hashed := hash(input.password);
    var _ := db.Insert(input.user_name, input.last_name, input.email, hashed);
    r := Ok(UserCreated);
  }

  /**
   * `loginUser(input)`: "User not found" without a user of that email,
   * "Invalid password" when bcrypt's comparison fails, and otherwise a token
   * signed over the stored id and email. It only reads the table.
   */
  function LoginUser(users: seq<User>, input: LoginInput, compare: (string, string) -> bool, sign: Claims -> string)
    : (r: Result<LoginReply, string>)
    ensures r == Err(UserNotFound) <==> forall u :: u in users ==> u.email != input.email
    ensures r.Ok? ==> exists u :: u in users && u.email == input.email && compare(input.password, u.password)
                                  && r.value == LoginReply(LoginSuccessful, sign(Claims(u.id, u.email)))
    ensures r.Err? ==> r.error == UserNotFound || r.error == InvalidPassword
    ensures var found := CheckIfUserExists(users, input.email);
      found.Some? && compare(input.password, found.value.password) ==>
        r == Ok(LoginReply(LoginSuccessful, sign(Claims(found.value.id, found.value.email))))
    ensures var found := CheckIfUserExists(users, input.email);
      found.Some? && !compare(input.password, found.value.password) ==> r == Err(InvalidPassword)
  {
    var existing := CheckIfUserExists(users, input.email);
    if existing.None? then Err(UserNotFound)
    else if !compare(input.password, existing.value.password) then Err(InvalidPassword)
    else Ok(LoginReply(LoginSuccessful, sign(Claims(existing.value.id, existing.value.email))))
  }

  /** With an email that was free, the new row is the only one with that email. */
  lemma NewUserIsFound(users: seq<User>, u: User)
    requires CheckIfUserExists(users, u.email).None?
    ensures UsersWithEmail(users + [u], u.email) == [u]
    ensures CheckIfUserExists(users + [u], u.email) == Some(u)
  {
    Tables.SelectNone(users, EmailOf, u.email);
    Tables.SelectAfterAppend(users, EmailOf, u);
  }

  /**
   * Registering and then logging in with the same email and password gives
   * a token over the new id and that email, provided bcrypt's comparison
   * accepts the password against its own hash.
   */
  lemma RegisterThenLogin(users: seq<User>, nextId: int, input: RegisterInput,
                          hash: string -> string, compare: (string, string) -> bool, sign: Claims -> string)
    requires CheckIfUserExists(users, input.email).None?
    requires compare(input.password, hash(input.password))
    ensures LoginUser(users + [User(nextId, input.user_name, input.last_name, input.email, hash(input.password))],
                      LoginInput(input.email, input.password), compare, sign)
            == Ok(LoginReply(LoginSuccessful, sign(Claims(nextId, input.email))))
  {
    NewUserIsFound(users, User(nextId, input.user_name, input.last_name, input.email, hash(input.password)));
  }

  /** Once an email is registered, registering it again is refused. */
  lemma RegisterTwiceRefused(users: seq<User>, u: User)
    ensures CheckIfUserExists(users + [u], u.email).Some?
  {
    assert u in users + [u];
  }
}
