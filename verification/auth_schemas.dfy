/**
 * `registerSchema` and `loginSchema` (backend/src/schemas/auth.schemas.ts).
 * A body is accepted when the schema reports no issue; an accepted body
 * yields the four (or two) string fields.
 */
module AuthSchemas {
  import opened Wrappers
  import opened Js
  import opened Zod

  const UserNameTooShort := "Username must be at least 3 characters long"
  const LastNameTooShort := "Lastname must be at least 3 characters long"
  const InvalidEmail := "Invalid email address"
  const PasswordTooShort := "Password must be at least 8 characters long"

  datatype RegisterInput = RegisterInput(user_name: string, last_name: string, email: string, password: string)

  datatype LoginInput = LoginInput(email: string, password: string)

  /** The issues `registerSchema` reports, field by field in declaration order. */
  function RegisterIssues(body: Row, isEmail: string -> bool): seq<Issue> {
    StringMin("user_name", Field(body, "user_name"), 3, UserNameTooShort)
    + StringMin("last_name", Field(body, "last_name"), 3, LastNameTooShort)
    + StringEmail("email", Field(body, "email"), isEmail, InvalidEmail)
    + StringMin("password", Field(body, "password"), 8, PasswordTooShort)
  }

  /** The issues `loginSchema` reports. */
  function LoginIssues(body: Row, isEmail: string -> bool): seq<Issue> {
    StringEmail("email", Field(body, "email"), isEmail, InvalidEmail)
    + StringMin("password", Field(body, "password"), 8, PasswordTooShort)
  }

  /**
   * `registerSchema.parse(body)`: accepted exactly when user_name and
   * last_name are strings of at least 3 characters, email is a string in
   * email form and password a string of at least 8; otherwise every issue.
   */
  function ParseRegister(body: Row, isEmail: string -> bool): (r: Result<RegisterInput, seq<Issue>>)
    ensures r.Ok? <==>
      Field(body, "user_name").Str? && |Field(body, "user_name").s| >= 3
      && Field(body, "last_name").Str? && |Field(body, "last_name").s| >= 3
      && Field(body, "email").Str? && isEmail(Field(body, "email").s)
      && Field(body, "password").Str? && |Field(body, "password").s| >= 8
    ensures r.Ok? ==> r.value == RegisterInput(Field(body, "user_name").s, Field(body, "last_name").s,
                                               Field(body, "email").s, Field(body, "password").s)
    ensures r.Err? ==> r.error == RegisterIssues(body, isEmail) && r.error != []
  {
    var issues := RegisterIssues(body, isEmail);
    if issues == [] then
      Ok(RegisterInput(Field(body, "user_name").s, Field(body, "last_name").s, Field(body, "email").s, Field(body, "password").s))
    else Err(issues)
  }

  /** `loginSchema.parse(body)`: accepted exactly when email is in email form and password has at least 8 characters. */
  function ParseLogin(body: Row, isEmail: string -> bool): (r: Result<LoginInput, seq<Issue>>)
    ensures r.Ok? <==>
      Field(body, "email").Str? && isEmail(Field(body, "email").s)
      && Field(body, "password").Str? && |Field(body, "password").s| >= 8
    ensures r.Ok? ==> r.value == LoginInput(Field(body, "email").s, Field(body, "password").s)
    ensures r.Err? ==> r.error == LoginIssues(body, isEmail) && r.error != []
  {
    var issues := LoginIssues(body, isEmail);
    if issues == [] then Ok(LoginInput(Field(body, "email").s, Field(body, "password").s))
    else Err(issues)
  }

  /** A user_name, last_name or password that is too short is rejected with its own message. */
  lemma ShortFieldsRejected(body: Row, isEmail: string -> bool)
    ensures Field(body, "user_name").Str? && |Field(body, "user_name").s| < 3 ==>
      ParseRegister(body, isEmail).Err? && Issue(TooSmall, "user_name", UserNameTooShort) in ParseRegister(body, isEmail).error
    ensures Field(body, "last_name").Str? && |Field(body, "last_name").s| < 3 ==>
      ParseRegister(body, isEmail).Err? && Issue(TooSmall, "last_name", LastNameTooShort) in ParseRegister(body, isEmail).error
    ensures Field(body, "password").Str? && |Field(body, "password").s| < 8 ==>
      ParseRegister(body, isEmail).Err? && Issue(TooSmall, "password", PasswordTooShort) in ParseRegister(body, isEmail).error
      && ParseLogin(body, isEmail).Err? && Issue(TooSmall, "password", PasswordTooShort) in ParseLogin(body, isEmail).error
  {
    var a := StringMin("user_name", Field(body, "user_name"), 3, UserNameTooShort);
    var b := StringMin("last_name", Field(body, "last_name"), 3, LastNameTooShort);
    var c := StringEmail("email", Field(body, "email"), isEmail, InvalidEmail);
    var d := StringMin("password", Field(body, "password"), 8, PasswordTooShort);
    assert RegisterIssues(body, isEmail) == a + b + c + d;
    if Field(body, "password").Str? && |Field(body, "password").s| < 8 {
      assert d[0] in a + b + c + d;
      assert d[0] in c + d;
    }
    if Field(body, "last_name").Str? && |Field(body, "last_name").s| < 3 {
      assert b[0] in a + b + c + d;
    }
    if Field(body, "user_name").Str? && |Field(body, "user_name").s| < 3 {
      assert a[0] in a + b + c + d;
    }
  }

  /** Every email and password register accepts, login accepts too. */
  lemma RegisterAcceptedImpliesLoginAccepted(body: Row, isEmail: string -> bool)
    requires ParseRegister(body, isEmail).Ok?
    ensures ParseLogin(body, isEmail).Ok?
    ensures ParseLogin(body, isEmail).value.email == ParseRegister(body, isEmail).value.email
    ensures ParseLogin(body, isEmail).value.password == ParseRegister(body, isEmail).value.password
  {
  }
}
