/**
 * The login / registration form: its two schemas, where it sends the user
 * after signing in, and what one submission does to the form's state
 * (loading flag, field errors, toasts shown, navigation requested).
 * Sign-in, the registration request and `decodeURIComponent` are outside
 * the model; their outcomes are parameters.
 */
module AuthForm {
  import opened Wrappers
  import opened Zod
  import Text

  const PasswordRule: seq<Check> := [Min(6, "Password must be at least 6 characters")]
  const MismatchIssue := Issue("confirmPassword", "Passwords do not match")

  lemma PasswordRulePasses(x: Input, isEmail: string -> bool)
    ensures x.Str? ==> ((forall c :: c in PasswordRule ==> Passes(x.s, c, isEmail)) <==> Text.Utf16Length(x.s) >= 6)
  {
    assert PasswordRule[0] in PasswordRule;
  }

  lemma EmailRulePasses(x: Input, isEmail: string -> bool)
    ensures x.Str? ==> ((forall c :: c in [Email("Invalid email address")] ==> Passes(x.s, c, isEmail)) <==> isEmail(x.s))
  {
    assert Email("Invalid email address") in [Email("Invalid email address")];
  }

  lemma NameRulePasses(x: Input, isEmail: string -> bool)
    ensures x.Str? ==>
      ((forall c :: c in [Min(2, "Name must be at least 2 characters")] ==> Passes(x.s, c, isEmail))
       <==> Text.Utf16Length(x.s) >= 2)
  {
    assert Min(2, "Name must be at least 2 characters") in [Min(2, "Name must be at least 2 characters")];
  }

  /** What the form's fields hold when it is submitted; a login form uses only email and password. */
  datatype FormValues = FormValues(name: Input, email: Input, password: Input, confirmPassword: Input)

  // ---------------------------------------------------------------------------
  // The two schemas

  /** The login schema: an email address and a password of at least 6 code units. */
  function LoginIssues(v: FormValues, isEmail: string -> bool): (r: seq<Issue>)
    ensures r == [] <==> v.email.Str? && isEmail(v.email.s) && v.password.Str? && Text.Utf16Length(v.password.s) >= 6
    ensures forall iss :: iss in r ==> iss.path == "email" || iss.path == "password"
  {
    EmailRulePasses(v.email, isEmail);
    PasswordRulePasses(v.password, isEmail);
    IssuesOf(ParseString("email", v.email, [Email("Invalid email address")], isEmail))
    + IssuesOf(ParseString("password", v.password, PasswordRule, isEmail))
  }

  /** A field of the registration form has the wrong type: the refinement then does not run. */
  predicate RegisterAborted(v: FormValues)
  {
    !v.name.Str? || !v.email.Str? || !v.password.Str? || !v.confirmPassword.Str?
  }

  lemma FieldIssueIsNotMismatch(x: Input, isEmail: string -> bool)
    ensures MismatchIssue !in IssuesOf(ParseString("confirmPassword", x, PasswordRule, isEmail))
  {
    assert PasswordRule[0].message[8] != MismatchIssue.message[8];
    assert TypeIssue("confirmPassword", x).message[0] != MismatchIssue.message[0];
  }

  /** The issues of the four registration fields, in field order. */
  function RegisterFieldIssues(v: FormValues, isEmail: string -> bool): (r: seq<Issue>)
    ensures r == [] <==>
      && v.name.Str? && Text.Utf16Length(v.name.s) >= 2
      && v.email.Str? && isEmail(v.email.s)
      && v.password.Str? && Text.Utf16Length(v.password.s) >= 6
      && v.confirmPassword.Str? && Text.Utf16Length(v.confirmPassword.s) >= 6
    ensures MismatchIssue !in r
  {
    NameRulePasses(v.name, isEmail);
    EmailRulePasses(v.email, isEmail);
    PasswordRulePasses(v.password, isEmail);
    PasswordRulePasses(v.confirmPassword, isEmail);
    FieldIssueIsNotMismatch(v.confirmPassword, isEmail);
    IssuesOf(ParseString("name", v.name, [Min(2, "Name must be at least 2 characters")], isEmail))
    + IssuesOf(ParseString("email", v.email, [Email("Invalid email address")], isEmail))
    + IssuesOf(ParseString("password", v.password, PasswordRule, isEmail))
    + IssuesOf(ParseString("confirmPassword", v.confirmPassword, PasswordRule, isEmail))
  }

  /**
   * The registration schema: the field issues, then, unless a field
   * aborted, the mismatch issue on `confirmPassword` when the two passwords
   * differ.
   */
  function RegisterIssues(v: FormValues, isEmail: string -> bool): (r: seq<Issue>)
    ensures r == [] <==>
      && v.name.Str? && Text.Utf16Length(v.name.s) >= 2
      && v.email.Str? && isEmail(v.email.s)
      && v.password.Str? && Text.Utf16Length(v.password.s) >= 6
      && v.confirmPassword.Str? && v.password.s == v.confirmPassword.s
    ensures !RegisterAborted(v) && v.password.s != v.confirmPassword.s ==> MismatchIssue in r
    ensures RegisterAborted(v) ==> MismatchIssue !in r
  {
    var refined := if RegisterAborted(v) || v.password.s == v.confirmPassword.s then [] else [MismatchIssue];
    RegisterFieldIssues(v, isEmail) + refined
  }

  datatype FormKind = Login | Register

  /** The schema the form's kind selects. */
  function SchemaIssues(kind: FormKind, v: FormValues, isEmail: string -> bool): seq<Issue>
  {
    if kind == Login then LoginIssues(v, isEmail) else RegisterIssues(v, isEmail)
  }

  /** The fields of a freshly rendered form: every field of the kind empty. */
  function DefaultValues(kind: FormKind): (r: map<string, string>)
    ensures forall f :: f in r ==> r[f] == ""
    ensures kind == Login ==> r.Keys == {"email", "password"}
    ensures kind == Register ==> r.Keys == {"name", "email", "password", "confirmPassword"}
  {
    if kind == Login then map["email" := "", "password" := ""]
    else map["name" := "", "email" := "", "password" := "", "confirmPassword" := ""]
  }

  /** The form as first rendered holds only empty strings, and its schema rejects it. */
  lemma DefaultsAreRejected(kind: FormKind, isEmail: string -> bool)
    ensures var d := DefaultValues(kind);
      SchemaIssues(kind, FormValues(
        if "name" in d then Str(d["name"]) else Undefined, Str(d["email"]), Str(d["password"]),
        if "confirmPassword" in d then Str(d["confirmPassword"]) else Undefined), isEmail) != []
  {
    assert Text.Utf16Length("") == 0;
  }

  // ---------------------------------------------------------------------------
  // Where a successful login goes

  /**
   * `searchParams.get('returnUrl') || redirectPath`: the query parameter
   * when it is present and non-empty, the page's default otherwise.
   */
  function ReturnUrl(param: Option<string>, redirectPath: string): (r: string)
    ensures r == redirectPath || (param == Some(r) && r != "")
    ensures param.None? || param == Some("") ==> r == redirectPath
  {
    if param.Some? && param.value != "" then param.value else redirectPath
  }

  /** The toast text for a sign-in error: the credentials code is translated, any other error shown as it is. */
  function LoginErrorMessage(error: string): (m: string)
    ensures error == "CredentialsSignin" ==> m == "Invalid email or password"
    ensures error != "CredentialsSignin" ==> m == error
  {
    if error == "CredentialsSignin" then "Invalid email or password" else error
  }

  // ---------------------------------------------------------------------------
  // One submission

  datatype Toast = Success(text: string) | Failure(text: string)
  datatype Navigation = Push(url: string) | Refresh

  /** What `signIn('credentials', …)` resolved to, or that it threw. */
  datatype SignInResponse = SignInResponse(error: Option<string>, url: Option<string>)
  datatype SignInOutcome = SignInThrew | SignInReturned(response: Option<SignInResponse>)

  /** What the registration request answered (status ok and body message), or that it or its body threw. */
  datatype RegisterOutcome = RegisterThrew | RegisterReplied(ok: bool, message: Option<string>)

  /** A JavaScript truthiness test on an optional string. */
  predicate Truthy(s: Option<string>)
  {
    s.Some? && s.value != ""
  }

  const SomethingWentWrong := "Something went wrong"

  /** The visible effect of one validated submission: toasts added, navigation requested, the loading flag after. */
  datatype Effect = Effect(toasts: seq<Toast>, navigation: seq<Navigation>, loading: bool)

  /**
   * What `onSubmit` does for each outcome.  Login: a `returnUrl` that does
   * not decode throws before sign-in; a sign-in error is shown and clears
   * loading; otherwise a success toast, a push to the response's URL (or
   * the decoded return URL) and a refresh, leaving the form loading.
   * Register: a failed request shows the server's message or a fallback;
   * success shows a toast and pushes the alternate link.  Anything thrown
   * shows the generic error.
   */
  function SubmitEffect(kind: FormKind, returnUrl: string, alternateLink: string, decode: string -> Option<string>,
                        signIn: SignInOutcome, register: RegisterOutcome): (e: Effect)
    ensures |e.toasts| == 1
    ensures e.loading <==> kind == Login && e.toasts[0].Success?
    ensures e.toasts[0].Failure? ==> e.navigation == []
    ensures e.toasts[0].Success? ==> |e.navigation| >= 1 && e.navigation[0].Push?
    ensures e.toasts[0] == Failure(SomethingWentWrong) <==>
      if kind == Login then decode(returnUrl).None? || signIn.SignInThrew?
                            || (signIn.response.Some? && signIn.response.value.error == Some(SomethingWentWrong))
      else register.RegisterThrew? || (!register.ok && register.message == Some(SomethingWentWrong))
  {
    if kind == Login then
      if decode(returnUrl).None? || signIn.SignInThrew? then Effect([Failure(SomethingWentWrong)], [], false)
      else if signIn.response.Some? && Truthy(signIn.response.value.error) then
        Effect([Failure(LoginErrorMessage(signIn.response.value.error.value))], [], false)
      else
        var target := if signIn.response.Some? && Truthy(signIn.response.value.url) then signIn.response.value.url.value
                      else decode(returnUrl).value;
        Effect([Success("Logged in successfully")], [Push(target), Refresh], true)
    else
      match register
      case RegisterThrew => Effect([Failure(SomethingWentWrong)], [], false)
      case RegisterReplied(ok, message) =>
        if !ok then Effect([Failure(if Truthy(message) then message.value else "Failed to create account")], [], false)
        else Effect([Success("Account created successfully! Please login now.")], [Push(alternateLink)], false)
  }

  /** A successful login goes where sign-in said, and otherwise to the decoded return URL, never elsewhere. */
  lemma LoginTarget(returnUrl: string, alternateLink: string, decode: string -> Option<string>,
                    signIn: SignInOutcome, register: RegisterOutcome)
    requires SubmitEffect(Login, returnUrl, alternateLink, decode, signIn, register).toasts[0].Success?
    ensures var e := SubmitEffect(Login, returnUrl, alternateLink, decode, signIn, register);
      e.navigation == [Push(e.navigation[0].url), Refresh]
      && (e.navigation[0].url == decode(returnUrl).value
          || (signIn.SignInReturned? && signIn.response.Some? && signIn.response.value.url == Some(e.navigation[0].url)))
  {
  }

  /** The form component's state. */
  class Form {
    const kind: FormKind
    const redirectPath: string
    const alternateLink: string
    const returnUrlParam: Option<string>
    var isLoading: bool
    var errors: seq<Issue>
    var toasts: seq<Toast>
    var navigation: seq<Navigation>

    constructor(kind: FormKind, redirectPath: string, alternateLink: string, returnUrlParam: Option<string>)
      ensures this.kind == kind && this.redirectPath == redirectPath
      ensures this.alternateLink == alternateLink && this.returnUrlParam == returnUrlParam
      ensures !isLoading && errors == [] && toasts == [] && navigation == []
    {
      this.kind := kind;
      this.redirectPath := redirectPath;
      this.alternateLink := alternateLink;
      this.returnUrlParam := returnUrlParam;
      isLoading := false;
      errors := [];
      toasts := [];
      navigation := [];
    }

    /**
     * The submit button: disabled while loading; otherwise the schema runs
     * first, an invalid form only shows its issues, and a valid one runs
     * `onSubmit`.
     */
    method Submit(values: FormValues, isEmail: string -> bool, decode: string -> Option<string>,
                  signIn: SignInOutcome, register: RegisterOutcome)
      modifies this
      ensures old(isLoading) ==> unchanged(this)
      ensures !old(isLoading) && SchemaIssues(kind, values, isEmail) != [] ==>
        errors == SchemaIssues(kind, values, isEmail)
        && isLoading == old(isLoading) && toasts == old(toasts) && navigation == old(navigation)
      ensures !old(isLoading) && SchemaIssues(kind, values, isEmail) == [] ==>
        var e := SubmitEffect(kind, ReturnUrl(returnUrlParam, redirectPath), alternateLink, decode, signIn, register);
        errors == [] && toasts == old(toasts) + e.toasts && navigation == old(navigation) + e.navigation
        && isLoading == e.loading
    {
      if isLoading {
        return;
      }
      var issues := SchemaIssues(kind, values, isEmail);
      errors := issues;
      if issues != [] {
        return;
      }
      OnSubmit(decode, signIn, register);
    }

    /** `onSubmit`, step by step. */
    method OnSubmit(decode: string -> Option<string>, signIn: SignInOutcome, register: RegisterOutcome)
      modifies this
      ensures var e := SubmitEffect(kind, ReturnUrl(returnUrlParam, redirectPath), alternateLink, decode, signIn, register);
        toasts == old(toasts) + e.toasts && navigation == old(navigation) + e.navigation && isLoading == e.loading
      ensures errors == old(errors)
    {
      isLoading := true;
      var returnUrl := ReturnUrl(returnUrlParam, redirectPath);
      if kind == Login {
        var callbackUrl := decode(returnUrl);
        if callbackUrl.None? || signIn.SignInThrew? {
          toasts := toasts + [Failure(SomethingWentWrong)];
          isLoading := false;
          return;
        }
        var response := signIn.response;
        if response.Some? && Truthy(response.value.error) {
          toasts := toasts + [Failure(LoginErrorMessage(response.value.error.value))];
          isLoading := false;
          return;
        }
        toasts := toasts + [Success("Logged in successfully")];
        if response.Some? && Truthy(response.value.url) {
          navigation := navigation + [Push(response.value.url.value)];
        } else {
          navigation := navigation + [Push(callbackUrl.value)];
        }
        navigation := navigation + [Refresh];
      } else {
        if register.RegisterThrew? {
          toasts := toasts + [Failure(SomethingWentWrong)];
          isLoading := false;
          return;
        }
        if !register.ok {
          toasts := toasts + [Failure(if Truthy(register.message) then register.message.value else "Failed to create account")];
          isLoading := false;
          return;
        }
        toasts := toasts + [Success("Account created successfully! Please login now.")];
        navigation := navigation + [Push(alternateLink)];
        isLoading := false;
      }
    }
  }
}
