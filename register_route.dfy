/**
 * The registration endpoint (POST /api/auth/register): validate the JSON
 * body, refuse an email the users table already holds, then create the
 * account with the authentication provider.  The handler writes nothing to
 * the database itself (a trigger of the provider's database does), so it
 * is a function of the tables it reads.  The provider's answer and a
 * throwing lookup are parameters.
 */
module RegisterRoute {
  import opened Wrappers
  import opened Zod
  import opened Schema
  import UsersRepository
  import AuthForm
  import Actions
  import Text

  const NameRule: seq<Check> := [Min(2, "Name must be at least 2 characters")]
  const EmailRule: seq<Check> := [Email("Invalid email address")]
  const PasswordRule: seq<Check> := [Min(6, "Password must be at least 6 characters")]

  /** The request body: not JSON at all, a JSON value that is no object, or an object's three fields. */
  datatype RequestBody = Malformed | NotAnObject(received: string) | Fields(name: Input, email: Input, password: Input)

  datatype Registration = Registration(name: string, email: string, password: string)

  /** `registerSchema.safeParse(body)` for a body that parsed as JSON. */
  function RouteSchema(body: RequestBody, isEmail: string -> bool): (r: Result<Registration, seq<Issue>>)
    requires !body.Malformed?
    ensures r.Ok? <==>
      && body.Fields?
      && body.name.Str? && Text.Utf16Length(body.name.s) >= 2
      && body.email.Str? && isEmail(body.email.s)
      && body.password.Str? && Text.Utf16Length(body.password.s) >= 6
    ensures r.Ok? ==> r.value == Registration(body.name.s, body.email.s, body.password.s)
    ensures r.Err? ==> r.error != []
    ensures body.NotAnObject? ==> r == Err([Issue("", "Expected object, received " + body.received)])
  {
    match body
    case NotAnObject(received) => Err([Issue("", "Expected object, received " + received)])
    case Fields(name, email, password) =>
      var n := ParseString("name", name, NameRule, isEmail);
      var e := ParseString("email", email, EmailRule, isEmail);
      var p := ParseString("password", password, PasswordRule, isEmail);
      assert NameRule[0] in NameRule && EmailRule[0] in EmailRule && PasswordRule[0] in PasswordRule;
      var issues := IssuesOf(n) + IssuesOf(e) + IssuesOf(p);
      if issues == [] then Ok(Registration(n.value, e.value, p.value)) else Err(issues)
  }

  /** What the provider's `admin.createUser` answered, or that it threw. */
  datatype AuthOutcome = AuthCreated(userId: string) | AuthError(message: string) | AuthThrew

  /** The JSON response: status, message, validation issues and the new account's id. */
  datatype Response = Response(status: nat, message: string, errors: seq<Issue>, userId: Option<string>)

  const InternalError := Response(500, "Internal server error", [], None)

  /** The body is valid, the lookup answered, and no user has the email: the provider is asked. */
  predicate NewEmail(t: Tables, body: RequestBody, isEmail: string -> bool, lookupThrows: bool)
  {
    !body.Malformed? && RouteSchema(body, isEmail).Ok? && !lookupThrows
    && UsersRepository.GetByEmail(t, body.email.s).None?
  }

  /**
   * `POST(request)`: 500 for a body that is not JSON or a step that threw,
   * 400 with the issues for an invalid body, 409 for an email in use, 500
   * with the provider's message when it refuses, 201 with the id otherwise.
   */
  function Post(t: Tables, body: RequestBody, isEmail: string -> bool, lookupThrows: bool, auth: AuthOutcome)
    : (r: Response)
    ensures r.status in {201, 400, 409, 500}
    ensures body.Malformed? ==> r == InternalError
    ensures !body.Malformed? && RouteSchema(body, isEmail).Err? ==>
      r == Response(400, "Validation failed", RouteSchema(body, isEmail).error, None)
    ensures r.status == 400 <==> !body.Malformed? && RouteSchema(body, isEmail).Err?
    ensures !body.Malformed? && RouteSchema(body, isEmail).Ok? && lookupThrows ==> r == InternalError
    ensures r.status == 409 <==>
      !body.Malformed? && RouteSchema(body, isEmail).Ok? && !lookupThrows
      && UsersRepository.GetByEmail(t, body.email.s).Some?
    ensures r.status == 409 ==> r == Response(409, "User with this email already exists", [], None)
    ensures r.status == 201 <==> NewEmail(t, body, isEmail, lookupThrows) && auth.AuthCreated?
    ensures r.status == 201 ==> r == Response(201, "User registered successfully", [], Some(auth.userId))
    ensures NewEmail(t, body, isEmail, lookupThrows) && auth.AuthThrew? ==> r == InternalError
    ensures NewEmail(t, body, isEmail, lookupThrows) && auth.AuthError? ==> r == Response(500, auth.message, [], None)
  {
    if body.Malformed? then InternalError
    else
      var parsed := RouteSchema(body, isEmail);
      if parsed.Err? then Response(400, "Validation failed", parsed.error, None)
      else if lookupThrows then InternalError
      else if UsersRepository.GetByEmail(t, parsed.value.email).Some? then
        Response(409, "User with this email already exists", [], None)
      else
        match auth
        case AuthError(message) => Response(500, message, [], None)
        case AuthThrew => InternalError
        case AuthCreated(userId) => Response(201, "User registered successfully", [], Some(userId))
  }

  /** The provider is consulted only for a new email: with the email taken, its answer does not matter. */
  lemma TakenEmailNeverReachesProvider(t: Tables, body: RequestBody, isEmail: string -> bool, a1: AuthOutcome, a2: AuthOutcome)
    requires !body.Malformed? && RouteSchema(body, isEmail).Ok?
    requires UsersRepository.GetByEmail(t, body.email.s).Some?
    ensures Post(t, body, isEmail, false, a1) == Post(t, body, isEmail, false, a2)
  {
    var r1 := Post(t, body, isEmail, false, a1);
    assert r1.status == 409;
  }

  /** Whatever the registration form accepts, this endpoint's schema accepts too. */
  lemma FormRegistrationPassesRoute(v: AuthForm.FormValues, isEmail: string -> bool)
    requires AuthForm.RegisterIssues(v, isEmail) == []
    ensures RouteSchema(Fields(v.name, v.email, v.password), isEmail).Ok?
  {
  }

  /**
   * The endpoint accepts six-character passwords, which the `createUser`
   * action refuses: the two account-creation paths disagree on the minimum.
   */
  lemma RouteAcceptsWhatActionRefuses(name: string, email: string, isEmail: string -> bool)
    requires Text.Utf16Length(name) >= 2 && isEmail(email)
    ensures RouteSchema(Fields(Str(name), Str(email), Str("secret")), isEmail).Ok?
    ensures Actions.ActionSchema(Str(name), Str(email), Str("secret"), isEmail).Err?
  {
    SecretLength();
  }

  lemma SecretLength()
    ensures Text.Utf16Length("secret") == 6
  {
    assert "secret"[1..][1..][1..][1..][1..][1..] == [];
  }
}
