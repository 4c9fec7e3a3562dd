/**
 * The part of the zod validation library the account schemas use:
 * `z.string()` with its `min`, `max` and `email` checks, and the issues a
 * failed `safeParse` reports.  Whether a string is an email address is the
 * library's own regular expression; it is the parameter `isEmail` here.
 */
module Zod {
  import opened Wrappers
  import Text

  /** One entry of a ZodError: the field it concerns ("" for the parsed value itself) and its message. */
  datatype Issue = Issue(path: string, message: string)

  /** A value handed to a schema, as far as its type matters to `z.string()`. */
  datatype Input = Undefined | Null | Str(s: string) | Other(received: string)

  /** One refinement of `z.string()`; lengths are JavaScript lengths (UTF-16 code units). */
  datatype Check = Min(n: nat, message: string) | Max(n: nat, message: string) | Email(message: string)

  predicate Passes(s: string, c: Check, isEmail: string -> bool)
  {
    match c
    case Min(n, _) => Text.Utf16Length(s) >= n
    case Max(n, _) => Text.Utf16Length(s) <= n
    case Email(_) => isEmail(s)
  }

  /**
   * The checks of a string schema all run, in declaration order, whatever
   * an earlier one found; each failing check adds one issue.
   */
  function Failures(path: string, s: string, checks: seq<Check>, isEmail: string -> bool): (r: seq<Issue>)
    ensures |r| <= |checks|
    ensures r == [] <==> forall c :: c in checks ==> Passes(s, c, isEmail)
    ensures forall iss :: iss in r <==>
      exists c :: c in checks && !Passes(s, c, isEmail) && iss == Issue(path, c.message)
  {
    if checks == [] then []
    else
      var rest := Failures(path, s, checks[1..], isEmail);
      assert forall c :: c in checks <==> c == checks[0] || c in checks[1..];
      (if Passes(s, checks[0], isEmail) then [] else [Issue(path, checks[0].message)]) + rest
  }

  /** The issue `z.string()` reports for a value that is not a string. */
  function TypeIssue(path: string, x: Input): Issue
  {
    Issue(path, match x
                case Undefined => "Required"
                case Null => "Expected string, received null"
                case Str(_) => "Expected string, received string"
                case Other(t) => "Expected string, received " + t)
  }

  /**
   * `z.string()` followed by `checks`, on one field: a value that is not a
   * string gets the type issue alone (and aborts the field); a string gets
   * one issue per failing check.
   */
  function ParseString(path: string, x: Input, checks: seq<Check>, isEmail: string -> bool)
    : (r: Result<string, seq<Issue>>)
    ensures r.Ok? <==> x.Str? && forall c :: c in checks ==> Passes(x.s, c, isEmail)
    ensures r.Ok? ==> r.value == x.s
    ensures r.Err? ==> r.error != [] && forall iss :: iss in r.error ==> iss.path == path
    ensures !x.Str? ==> r == Err([TypeIssue(path, x)])
  {
    match x
    case Str(s) =>
      var issues := Failures(path, s, checks, isEmail);
      if issues == [] then Ok(s) else Err(issues)
    case _ => Err([TypeIssue(path, x)])
  }

  /** The issues of one field's result, none when it parsed. */
  function IssuesOf<T>(r: Result<T, seq<Issue>>): (issues: seq<Issue>)
    ensures issues == [] <==> r.Ok? || r.error == []
  {
    if r.Err? then r.error else []
  }
}
