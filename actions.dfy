/**
 * The `createUser` server action: validate the submitted form, refuse an
 * email already in use, otherwise insert the account.  A repository call
 * that throws (the database unreachable, say) is the parameter `fault`.
 */
module Actions {
  import opened Wrappers
  import opened Zod
  import opened Schema
  import opened Store
  import UsersRepository
  import Text

  const NameRule: seq<Check> := [Min(2, "Name must be at least 2 characters")]
  const EmailRule: seq<Check> := [Email("Invalid email format")]
  const PasswordRule: seq<Check> := [Min(8, "Password must be at least 8 characters")]

  datatype Credentials = Credentials(name: string, email: string, password: string)

  /**
   * The action's schema over the three form fields (a missing field is
   * `Null`); every field is checked and all issues are reported.
   */
  function ActionSchema(name: Input, email: Input, password: Input, isEmail: string -> bool)
    : (r: Result<Credentials, seq<Issue>>)
    ensures r.Ok? <==>
      && name.Str? && Text.Utf16Length(name.s) >= 2
      && email.Str? && isEmail(email.s)
      && password.Str? && Text.Utf16Length(password.s) >= 8
    ensures r.Ok? ==> r.value == Credentials(name.s, email.s, password.s)
    ensures r.Err? ==> r.error != [] && forall iss :: iss in r.error ==> iss.path in {"name", "email", "password"}
  {
    var n := ParseString("name", name, NameRule, isEmail);
    var e := ParseString("email", email, EmailRule, isEmail);
    var p := ParseString("password", password, PasswordRule, isEmail);
    assert NameRule[0] in NameRule && EmailRule[0] in EmailRule && PasswordRule[0] in PasswordRule;
    var issues := IssuesOf(n) + IssuesOf(e) + IssuesOf(p);
    if issues == [] then Ok(Credentials(n.value, e.value, p.value)) else Err(issues)
  }

  /** Where a repository call throws, if one does. */
  datatype Fault = NoFault | LookupThrows | InsertThrows

  /** `{ error: … }` with the issues (grouped by path when formatted), or `{ success: true, user }`. */
  datatype ActionResult = Failure(error: seq<Issue>) | Success(user: User)

  const EmailInUse := [Issue("email", "Email already in use")]
  const CreateFailed := [Issue("_form", "Failed to create user")]

  /**
   * `createUser(formData)`: validation first, then the email lookup, then
   * the insert; only a valid form with an unused email and no fault
   * inserts a user, and it inserts exactly one.
   */
  method CreateUser(db: Database, name: Input, email: Input, password: Input, isEmail: string -> bool,
                    fault: Fault, now: Time) returns (r: ActionResult)
    requires Consistent(db.tables)
    modifies db
    ensures Consistent(db.tables)
    ensures ActionSchema(name, email, password, isEmail).Err? ==>
      r == Failure(ActionSchema(name, email, password, isEmail).error)
    ensures ActionSchema(name, email, password, isEmail).Ok? && fault == LookupThrows ==> r == Failure(CreateFailed)
    ensures (ActionSchema(name, email, password, isEmail).Ok? && fault != LookupThrows
             && UsersRepository.GetByEmail(old(db.tables), email.s).Some?) ==> r == Failure(EmailInUse)
    ensures (ActionSchema(name, email, password, isEmail).Ok? && fault == InsertThrows
             && UsersRepository.GetByEmail(old(db.tables), email.s).None?) ==> r == Failure(CreateFailed)
    ensures r.Failure? ==> db.tables == old(db.tables)
    ensures r.Success? <==>
      ActionSchema(name, email, password, isEmail).Ok? && fault == NoFault
      && UsersRepository.GetByEmail(old(db.tables), email.s).None?
    ensures r.Success? ==>
      && db.tables == old(db.tables).(users := old(db.tables.users) + [r.user])
      && r.user.name == Some(name.s) && r.user.email == email.s && r.user.password == Some(password.s)
      && r.user.image.None? && r.user.emailVerified.None?
      && UsersRepository.GetByEmail(db.tables, email.s) == Some(r.user)
  {
    var parsed := ActionSchema(name, email, password, isEmail);
    if parsed.Err? {
      return Failure(parsed.error);
    }
    var data := parsed.value;
    if fault == LookupThrows {
      return Failure(CreateFailed);
    }
    var existing := UsersRepository.GetByEmail(db.tables, data.email);
    if existing.Some? {
      return Failure(EmailInUse);
    }
    if fault == InsertThrows {
      return Failure(CreateFailed);
    }
    var created := UsersRepository.Create(db, UsersRepository.NewUser(Some(data.name), data.email, Some(data.password), None), now);
    return Success(created.value);
  }
}
