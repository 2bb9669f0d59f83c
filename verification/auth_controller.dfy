/**
 * `AuthController` (backend/src/controllers/auth.controller.ts): `register`
 * validates the body, checks the users table for the email and inserts the
 * new user with a bcrypt hash; `login` validates, looks the email up and
 * compares the password. A call to the database or to bcrypt that throws is
 * the input `fails`.
 */
module AuthController {
  import opened Js
  import opened Http
  import opened Zod
  import opened AuthSchemas
  import opened AuthService

  const AlreadyRegistered := "User already exists, please login"
  const BadCredentials := "Invalid email or password"
  const InternalError := "Internal server error"

  /**
   * The library calls: the email format check, bcrypt's hash and compare,
   * `jwt.sign`, and the text a ZodError carries as its message.
   */
  datatype Env = Env(
    isEmail: string -> bool, hash: string -> string, compare: (string, string) -> bool,
    sign: Claims -> string, describe: seq<Issue> -> string)

  /** The 201 body: the message and the user's names and email, never the password. */
  function CreatedBody(input: RegisterInput): (v: Value)
    ensures v.Obj? && v.fields.Keys == {"message", "user"}
    ensures v.fields["user"].Obj? && v.fields["user"].fields.Keys == {"user_name", "last_name", "email"}
  {
    Obj(map["message" := Str(UserCreated),
            "user" := Obj(map["user_name" := Str(input.user_name), "last_name" := Str(input.last_name),
                              "email" := Str(input.email)])])
  }

  /** The 200 body of a login. */
  function TokenBody(token: string): Value {
    Obj(map["message" := Str(LoginSuccessful), "token" := Str(token)])
  }

  /**
   * `register`: 400 with the validation message for an invalid body, 400
   * "User already exists, please login" for a taken email, 500 when a call
   * throws, and otherwise one inserted row holding the hash and 201.
   */
  method Register(db: UsersTable, body: Row, env: Env, fails: bool) returns (resp: Response)
    requires db.Valid()
    modifies db
    ensures db.Valid()
    ensures ParseRegister(body, env.isEmail).Err? ==>
      resp == MessageReply(400, env.describe(ParseRegister(body, env.isEmail).error))
    ensures ParseRegister(body, env.isEmail).Ok? && fails ==> resp == MessageReply(500, InternalError)
    ensures ParseRegister(body, env.isEmail).Ok? && !fails ==>
      var input := ParseRegister(body, env.isEmail).value;
      if old(UsersWithEmail(db.users, input.email)) != [] then
        resp == MessageReply(400, AlreadyRegistered)
      else
        resp == Response(201, CreatedBody(input))
        && db.users == old(db.users) + [User(old(db.nextId), input.user_name, input.last_name, input.email, env.hash(input.password))]
        && db.nextId == old(db.nextId) + 1
    ensures resp.status != 201 ==> db.users == old(db.users) && db.nextId == old(db.nextId)
  {
    var parsed := ParseRegister(body, env.isEmail);
    if parsed.Err? {
      return MessageReply(400, env.describe(parsed.error));
    }
    if fails {
      return MessageReply(500, InternalError);
    }
    var input := parsed.value;
    var existing := UsersWithEmail(db.users, input.email);
    if |existing| > 0 {
      return MessageReply(400, AlreadyRegistered);
    }
    var hashed := env.hash(input.password);
    var _ := db.Insert(input.user_name, input.last_name, input.email, hashed);
    resp := Response(201, CreatedBody(input));
  }

  /**
   * `login`: 400 for an invalid body, 500 when a call throws, the same 401
   * "Invalid email or password" for an unknown email and for a wrong
   * password, and otherwise 200 with a token over the first matching row.
   */
  function Login(users: seq<User>, body: Row, env: Env, fails: bool): (resp: Response)
    ensures resp.status in {200, 400, 401, 500}
    ensures ParseLogin(body, env.isEmail).Err? ==>
      resp == MessageReply(400, env.describe(ParseLogin(body, env.isEmail).error))
    ensures ParseLogin(body, env.isEmail).Ok? && fails ==> resp == MessageReply(500, InternalError)
    ensures ParseLogin(body, env.isEmail).Ok? && !fails ==>
      var input := ParseLogin(body, env.isEmail).value;
      var found := CheckIfUserExists(users, input.email);
      if found.Some? && env.compare(input.password, found.value.password) then
        resp == Response(200, TokenBody(env.sign(Claims(found.value.id, found.value.email))))
      else
        resp == MessageReply(401, BadCredentials)
    ensures resp.status == 200 ==>
      exists u :: u in users && ParseLogin(body, env.isEmail).Ok? && u.email == ParseLogin(body, env.isEmail).value.email
                  && resp == Response(200, TokenBody(env.sign(Claims(u.id, u.email))))
  {
    match ParseLogin(body, env.isEmail)
    case Err(issues) => MessageReply(400, env.describe(issues))
    case Ok(input) =>
      if fails then MessageReply(500, InternalError)
      else
        var rows := UsersWithEmail(users, input.email);
        if |rows| < 1 then MessageReply(401, BadCredentials)
        else if !env.compare(input.password, rows[0].password) then MessageReply(401, BadCredentials)
        else
          assert rows[0] in rows;
          Response(200, TokenBody(env.sign(Claims(rows[0].id, rows[0].email))))
  }

  /** An unknown email and a wrong password get the identical answer, so neither is revealed. */
  lemma LoginFailuresIdentical(users: seq<User>, body: Row, env: Env)
    requires ParseLogin(body, env.isEmail).Ok?
    ensures var input := ParseLogin(body, env.isEmail).value;
      CheckIfUserExists(users, input.email).None?
      || !env.compare(input.password, CheckIfUserExists(users, input.email).value.password)
      ==> Login(users, body, env, false) == MessageReply(401, BadCredentials)
  {
  }

  /**
   * After a successful registration, logging in with the same body answers
   * 200 with a token over the new id and the email, provided bcrypt's
   * comparison accepts the password against its own hash.
   */
  lemma RegisterThenLoginSucceeds(users: seq<User>, nextId: int, body: Row, env: Env)
    requires ParseRegister(body, env.isEmail).Ok?
    requires UsersWithEmail(users, ParseRegister(body, env.isEmail).value.email) == []
    requires var input := ParseRegister(body, env.isEmail).value; env.compare(input.password, env.hash(input.password))
    ensures var input := ParseRegister(body, env.isEmail).value;
      Login(users + [User(nextId, input.user_name, input.last_name, input.email, env.hash(input.password))], body, env, false)
        == Response(200, TokenBody(env.sign(Claims(nextId, input.email))))
  {
    var input := ParseRegister(body, env.isEmail).value;
    RegisterAcceptedImpliesLoginAccepted(body, env.isEmail);
    NewUserIsFound(users, User(nextId, input.user_name, input.last_name, input.email, env.hash(input.password)));
  }
}
