/**
 * The shared login and sign-up form schemas: which inputs they accept, the
 * values they produce and the issues they report.
 */
module FormSchema {
  import opened Wrappers
  import opened Zod
  import Text

  const EmailChecks: seq<Check> := [Min(1, "Email is required"), Email("Must be a valid email")]
  const PasswordChecks: seq<Check> :=
    [Min(8, "Password must be at least 8 characters"), Max(100, "Password must not exceed 100 characters")]
  const NameChecks: seq<Check> := [Min(2, "Name must be at least 2 characters")]

  /** An acceptable email field: non-empty and an email address. */
  predicate EmailOk(x: Input, isEmail: string -> bool)
  {
    x.Str? && x.s != "" && isEmail(x.s)
  }

  /** An acceptable password field: 8 to 100 UTF-16 code units. */
  predicate PasswordOk(x: Input)
  {
    x.Str? && 8 <= Text.Utf16Length(x.s) <= 100
  }

  lemma EmailChecksPass(x: Input, isEmail: string -> bool)
    ensures x.Str? ==> ((forall c :: c in EmailChecks ==> Passes(x.s, c, isEmail)) <==> x.s != "" && isEmail(x.s))
  {
    assert EmailChecks[0] in EmailChecks && EmailChecks[1] in EmailChecks;
  }

  lemma PasswordChecksPass(x: Input, isEmail: string -> bool)
    ensures x.Str? ==> ((forall c :: c in PasswordChecks ==> Passes(x.s, c, isEmail)) <==> 8 <= Text.Utf16Length(x.s) <= 100)
  {
    assert PasswordChecks[0] in PasswordChecks && PasswordChecks[1] in PasswordChecks;
  }

  // ---------------------------------------------------------------------------
  // loginSchema

  datatype LoginValues = LoginValues(email: string, password: string, rememberMe: Option<bool>)

  /**
   * `loginSchema.safeParse`: email and password are checked independently
   * and every issue of both is reported; `rememberMe` passes through as
   * given, so an absent flag stays absent (the optional wrapper returns
   * undefined before the default of false is consulted).
   */
  function LoginSchema(email: Input, password: Input, rememberMe: Option<bool>, isEmail: string -> bool)
    : (r: Result<LoginValues, seq<Issue>>)
    ensures r.Ok? <==> EmailOk(email, isEmail) && PasswordOk(password)
    ensures r.Ok? ==> r.value == LoginValues(email.s, password.s, rememberMe)
    ensures r.Err? ==> r.error != [] && forall iss :: iss in r.error ==> iss.path == "email" || iss.path == "password"
  {
    var e := ParseString("email", email, EmailChecks, isEmail);
    var p := ParseString("password", password, PasswordChecks, isEmail);
    EmailChecksPass(email, isEmail);
    PasswordChecksPass(password, isEmail);
    var issues := IssuesOf(e) + IssuesOf(p);
    if issues == [] then Ok(LoginValues(e.value, p.value, rememberMe)) else Err(issues)
  }

  /** An empty email that is no address gets both of its messages, required first. */
  lemma EmptyEmailReportsBoth(password: Input, rememberMe: Option<bool>, isEmail: string -> bool)
    requires PasswordOk(password) && !isEmail("")
    ensures LoginSchema(Str(""), password, rememberMe, isEmail)
      == Err([Issue("email", "Email is required"), Issue("email", "Must be a valid email")])
  {
    PasswordChecksPass(password, isEmail);
    assert Text.Utf16Length("") == 0;
    assert !Passes("", EmailChecks[0], isEmail) && !Passes("", EmailChecks[1], isEmail);
    assert EmailChecks[1..][1..] == [];
    assert Failures("email", "", EmailChecks[1..], isEmail) == [Issue("email", "Must be a valid email")];
    assert Failures("email", "", EmailChecks, isEmail)
      == [Issue("email", "Email is required"), Issue("email", "Must be a valid email")];
    assert ParseString("email", Str(""), EmailChecks, isEmail)
      == Err([Issue("email", "Email is required"), Issue("email", "Must be a valid email")]);
    var p := ParseString("password", password, PasswordChecks, isEmail);
    assert p.Ok? && IssuesOf(p) == [];
    var e := ParseString("email", Str(""), EmailChecks, isEmail);
    assert IssuesOf(e) + IssuesOf(p) == [Issue("email", "Email is required"), Issue("email", "Must be a valid email")];
  }

  // ---------------------------------------------------------------------------
  // signupSchema

  datatype SignupValues = SignupValues(name: string, email: string, password: string, confirmPassword: string, terms: bool)

  const TermsMessage := "You must accept terms and conditions"
  const MismatchIssue := Issue("confirmPassword", "Passwords do not match")

  /** `z.boolean().refine(v => v === true)` on the terms field; an absent flag is a type issue. */
  function ParseTerms(terms: Option<bool>): (r: Result<bool, seq<Issue>>)
    ensures r.Ok? <==> terms == Some(true)
    ensures terms == Some(false) ==> r == Err([Issue("terms", TermsMessage)])
  {
    match terms
    case None => Err([Issue("terms", "Required")])
    case Some(b) => if b then Ok(true) else Err([Issue("terms", TermsMessage)])
  }

  /**
   * A field whose type is wrong aborts the object, and then the
   * object-level refinement does not run; failing checks only mark it dirty.
   */
  predicate SignupAborted(name: Input, email: Input, password: Input, confirmPassword: Input, terms: Option<bool>)
  {
    !name.Str? || !email.Str? || !password.Str? || !confirmPassword.Str? || terms.None?
  }

  /** A type issue on the confirmation field is never the mismatch issue. */
  lemma TypeIssueIsNotMismatch(x: Input)
    ensures TypeIssue("confirmPassword", x) != MismatchIssue
  {
    assert TypeIssue("confirmPassword", x).message[0] != MismatchIssue.message[0];
  }

  /** The issues of the five fields, in field order. */
  function SignupFieldIssues(name: Input, email: Input, password: Input, confirmPassword: Input, terms: Option<bool>,
                             isEmail: string -> bool): (r: seq<Issue>)
    ensures r == [] <==>
      && name.Str? && Text.Utf16Length(name.s) >= 2
      && EmailOk(email, isEmail) && PasswordOk(password)
      && confirmPassword.Str? && terms == Some(true)
  {
    var n := ParseString("name", name, NameChecks, isEmail);
    var e := ParseString("email", email, EmailChecks, isEmail);
    var p := ParseString("password", password, PasswordChecks, isEmail);
    var c := ParseString("confirmPassword", confirmPassword, [], isEmail);
    var t := ParseTerms(terms);
    EmailChecksPass(email, isEmail);
    PasswordChecksPass(password, isEmail);
    assert name.Str? ==> (n.Ok? <==> Text.Utf16Length(name.s) >= 2) by {
      assert NameChecks[0] in NameChecks;
    }
    IssuesOf(n) + IssuesOf(e) + IssuesOf(p) + IssuesOf(c) + IssuesOf(t)
  }

  /**
   * The field checks never report the password mismatch (only the
   * refinement does), and a declined terms box is always reported.
   */
  lemma FieldIssuesLeaveMismatchToRefinement(name: Input, email: Input, password: Input, confirmPassword: Input,
                                             terms: Option<bool>, isEmail: string -> bool)
    ensures MismatchIssue !in SignupFieldIssues(name, email, password, confirmPassword, terms, isEmail)
    ensures terms == Some(false) ==>
      Issue("terms", TermsMessage) in SignupFieldIssues(name, email, password, confirmPassword, terms, isEmail)
  {
    var n := ParseString("name", name, NameChecks, isEmail);
    var e := ParseString("email", email, EmailChecks, isEmail);
    var p := ParseString("password", password, PasswordChecks, isEmail);
    var c := ParseString("confirmPassword", confirmPassword, [], isEmail);
    var t := ParseTerms(terms);
    TypeIssueIsNotMismatch(confirmPassword);
    assert SignupFieldIssues(name, email, password, confirmPassword, terms, isEmail)
        == IssuesOf(n) + IssuesOf(e) + IssuesOf(p) + IssuesOf(c) + IssuesOf(t);
    assert MismatchIssue !in IssuesOf(n) + IssuesOf(e) + IssuesOf(p);
  }

  /**
   * `signupSchema.safeParse`: the field issues in field order, then, when
   * no field aborted, the password-confirmation refinement, whose issue is
   * filed under `confirmPassword`.
   */
  function SignupSchema(name: Input, email: Input, password: Input, confirmPassword: Input, terms: Option<bool>,
                        isEmail: string -> bool): (r: Result<SignupValues, seq<Issue>>)
    ensures r.Ok? <==>
      && name.Str? && Text.Utf16Length(name.s) >= 2
      && EmailOk(email, isEmail) && PasswordOk(password)
      && confirmPassword.Str? && password.s == confirmPassword.s
      && terms == Some(true)
    ensures r.Ok? ==> r.value == SignupValues(name.s, email.s, password.s, confirmPassword.s, true)
    ensures r.Err? ==> r.error != []
    ensures !SignupAborted(name, email, password, confirmPassword, terms) && password.s != confirmPassword.s ==>
      r.Err? && MismatchIssue in r.error
    ensures SignupAborted(name, email, password, confirmPassword, terms) ==> r.Err? && MismatchIssue !in r.error
    ensures terms == Some(false) ==> r.Err? && Issue("terms", TermsMessage) in r.error
  {
    var fieldIssues := SignupFieldIssues(name, email, password, confirmPassword, terms, isEmail);
    FieldIssuesLeaveMismatchToRefinement(name, email, password, confirmPassword, terms, isEmail);
    var refined :=
      if SignupAborted(name, email, password, confirmPassword, terms) || password.s == confirmPassword.s then []
      else [MismatchIssue];
    var issues := fieldIssues + refined;
    if issues == [] then Ok(SignupValues(name.s, email.s, password.s, confirmPassword.s, true)) else Err(issues)
  }

  /** A sign-up the schema accepts carries credentials the login schema accepts too. */
  lemma SignupCredentialsLogIn(name: Input, email: Input, password: Input, confirmPassword: Input, terms: Option<bool>,
                               rememberMe: Option<bool>, isEmail: string -> bool)
    requires SignupSchema(name, email, password, confirmPassword, terms, isEmail).Ok?
    ensures LoginSchema(email, password, rememberMe, isEmail).Ok?
  {
  }
}
