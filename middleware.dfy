/**
 * The request middleware: for each page request it either lets the request
 * through or redirects it, choosing a locale from the path, the
 * NEXT_LOCALE cookie or the Accept-Language negotiation (whose result is a
 * parameter), sending signed-in users away from the auth pages and
 * moving unprefixed paths under a locale.
 */
module Middleware {
  import opened Wrappers
  import Text
  import Seqs

  const Locales: seq<string> := ["ru", "en", "es"]
  const DefaultLocale: string := "ru"

  /** A supported locale: what the header negotiation, given these locales and the default, returns. */
  type Locale = s: string | s in Locales witness "ru"

  const PublicPaths: seq<string> := [
    "/", "/en", "/es", "/ru",
    "/auth/login", "/auth/register", "/auth/error",
    "/en/auth/login", "/en/auth/register", "/en/auth/error",
    "/es/auth/login", "/es/auth/register", "/es/auth/error",
    "/ru/auth/login", "/ru/auth/register", "/ru/auth/error",
    "/api", "/_next", "/images", "/favicon"]

  // ---------------------------------------------------------------------------
  // Locale

  /** `getLocale`: a supported NEXT_LOCALE cookie wins; otherwise the negotiated locale. */
  function GetLocale(cookie: Option<string>, negotiated: Locale): (r: string)
    ensures r in Locales
    ensures cookie.Some? && cookie.value in Locales ==> r == cookie.value
    ensures !(cookie.Some? && cookie.value in Locales) ==> r == negotiated
  {
    if cookie.Some? && cookie.value != "" && cookie.value in Locales then cookie.value else negotiated
  }

  /** The path is `/xx` or starts with `/xx/` for a supported `xx`. */
  predicate HasLocale(p: string)
  {
    exists i :: 0 <= i < |Locales| && (Text.StartsWith(p, "/" + Locales[i] + "/") || p == "/" + Locales[i])
  }

  /** `pathname.split('/')[1]` for a path with a locale prefix: that locale. */
  function PathLocale(p: string): (r: string)
    requires HasLocale(p)
    ensures r in Locales
    ensures p == "/" + r || Text.StartsWith(p, "/" + r + "/")
  {
    var i :| 0 <= i < |Locales| && (Text.StartsWith(p, "/" + Locales[i] + "/") || p == "/" + Locales[i]);
    var loc := Locales[i];
    assert '/' !in loc;
    SplitLocale(p, loc);
    Text.Split(p, '/')[1]
  }

  lemma SplitLocale(p: string, loc: string)
    requires '/' !in loc
    requires Text.StartsWith(p, "/" + loc + "/") || p == "/" + loc
    ensures |Text.Split(p, '/')| >= 2 && Text.Split(p, '/')[1] == loc
  {
    var rest := p[|loc| + 1..];
    assert p == ['/'] + loc + rest;
    Text.SecondPiece(loc, rest, '/');
  }

  /** The locale the middleware works with: the path's, else `getLocale`'s. */
  function DetectedLocale(p: string, cookie: Option<string>, negotiated: Locale): (r: string)
    ensures r in Locales
    ensures HasLocale(p) ==> p == "/" + r || Text.StartsWith(p, "/" + r + "/")
    ensures !HasLocale(p) ==> r == GetLocale(cookie, negotiated)
  {
    if HasLocale(p) then PathLocale(p) else GetLocale(cookie, negotiated)
  }

  // ---------------------------------------------------------------------------
  // Path classes

  /** `isPublicPath`. */
  predicate IsPublicPath(p: string)
  {
    || p == "/" || p == "/en" || p == "/es" || p == "/ru"
    || Text.Contains(p, "/auth/login") || Text.Contains(p, "/auth/register") || Text.Contains(p, "/auth/error")
    || Text.Contains(p, "/auth/signin") || Text.Contains(p, "/auth/signup")
    || Text.StartsWith(p, "/api/")
    || exists i :: 0 <= i < |PublicPaths| && Text.StartsWith(p, PublicPaths[i])
  }

  /** `/` is a public path and the last test is a prefix test, so every path starting with `/` is public. */
  lemma EveryRootedPathIsPublic(p: string)
    requires Text.StartsWith(p, "/")
    ensures IsPublicPath(p)
  {
    assert Text.StartsWith(p, PublicPaths[0]);
  }

  /** Static assets and API routes, which the middleware never touches. */
  predicate IsSkipped(p: string)
  {
    || Text.Contains(p, ".")
    || Text.StartsWith(p, "/_next") || Text.StartsWith(p, "/api")
    || Text.StartsWith(p, "/images") || Text.StartsWith(p, "/favicon")
  }

  const BaseAuthPaths: seq<string> := ["/auth/login", "/auth/register", "/auth/signin", "/auth/signup"]

  /** The auth pages a signed-in user is sent away from: the base four, then each locale's four. */
  const AuthPaths: seq<string> :=
    BaseAuthPaths + Localised(Locales[0]) + Localised(Locales[1]) + Localised(Locales[2])

  /** The four auth pages under one locale's prefix. */
  function Localised(locale: string): (r: seq<string>)
    ensures forall p :: p in r ==> exists b :: b in BaseAuthPaths && p == "/" + locale + b
  {
    var r := ["/" + locale + BaseAuthPaths[0], "/" + locale + BaseAuthPaths[1],
              "/" + locale + BaseAuthPaths[2], "/" + locale + BaseAuthPaths[3]];
    assert forall k :: 0 <= k < 4 ==> r[k] == "/" + locale + BaseAuthPaths[k];
    r
  }

  // ---------------------------------------------------------------------------
  // Query parameters

  type Param = (string, string)

  function ParamKeys(ps: seq<Param>): set<string>
  {
    set p | p in ps :: p.0
  }

  /** `url.searchParams.set(k, v)`: the first pair named `k` takes the value and the others go; a new name is appended. */
  function SetParam(ps: seq<Param>, k: string, v: string): (r: seq<Param>)
    ensures ParamKeys(r) == ParamKeys(ps) + {k}
    ensures (k, v) in r
    ensures k !in ParamKeys(ps) ==> r == ps + [(k, v)]
  {
    if k !in ParamKeys(ps) then ps + [(k, v)] else Replace(ps, k, v)
  }

  function Replace(ps: seq<Param>, k: string, v: string): (r: seq<Param>)
    requires k in ParamKeys(ps)
    ensures ParamKeys(r) == ParamKeys(ps)
    ensures (k, v) in r
  {
    if ps[0].0 == k then
      var rest := Seqs.Filter(ps[1..], KeyIsNot(k));
      assert ParamKeys(ps) == {k} + ParamKeys(ps[1..]);
      assert ParamKeys(rest) == ParamKeys(ps[1..]) - {k};
      [(k, v)] + rest
    else
      assert ParamKeys(ps) == {ps[0].0} + ParamKeys(ps[1..]);
      [ps[0]] + Replace(ps[1..], k, v)
  }

  function KeyIsNot(k: string): Param -> bool
  {
    (p: Param) => p.0 != k
  }

  /** No two pairs carry the key `k`. */
  predicate AtMostOnce(ps: seq<Param>, k: string)
  {
    forall i, j :: 0 <= i < |ps| && 0 <= j < |ps| && ps[i].0 == k && ps[j].0 == k ==> i == j
  }

  /** After `set` on a present key, exactly one pair carries the key. */
  lemma {:induction false} ReplaceLeavesOnePair(ps: seq<Param>, k: string, v: string)
    requires k in ParamKeys(ps)
    ensures k in ParamKeys(Replace(ps, k, v)) && AtMostOnce(Replace(ps, k, v), k)
  {
    var r := Replace(ps, k, v);
    if ps[0].0 == k {
      var rest := Seqs.Filter(ps[1..], KeyIsNot(k));
      assert r == [(k, v)] + rest;
      forall i | 0 < i < |r| ensures r[i].0 != k {
        var x := rest[i - 1];
        assert r[i] == x && x in rest;
        assert KeyIsNot(k)(x);
      }
    } else {
      assert ParamKeys(ps) == {ps[0].0} + ParamKeys(ps[1..]);
      var rec := Replace(ps[1..], k, v);
      ReplaceLeavesOnePair(ps[1..], k, v);
      assert r == [ps[0]] + rec;
      assert r[0] == ps[0];
      forall i, j | 0 <= i < |r| && 0 <= j < |r| && r[i].0 == k && r[j].0 == k ensures i == j {
        assert i > 0 && j > 0;
        assert r[i] == rec[i - 1] && r[j] == rec[j - 1];
        assert i - 1 == j - 1;
      }
    }
  }

  /** After `set` on a present key, the pairs with other keys are exactly those of before. */
  lemma {:induction false} ReplaceKeepsOtherPairs(ps: seq<Param>, k: string, v: string)
    requires k in ParamKeys(ps)
    ensures forall p :: p in Replace(ps, k, v) && p.0 != k <==> p in ps && p.0 != k
  {
    var r := Replace(ps, k, v);
    assert ps == [ps[0]] + ps[1..];
    if ps[0].0 == k {
      assert r == [(k, v)] + Seqs.Filter(ps[1..], KeyIsNot(k));
    } else {
      assert ParamKeys(ps) == {ps[0].0} + ParamKeys(ps[1..]);
      ReplaceKeepsOtherPairs(ps[1..], k, v);
      assert r == [ps[0]] + Replace(ps[1..], k, v);
    }
  }

  /** Every parameter of the request copied onto a fresh URL with `set`, in order. */
  function CopyParams(src: seq<Param>): (r: seq<Param>)
    ensures ParamKeys(r) == ParamKeys(src)
  {
    if src == [] then []
    else
      var init := src[..|src| - 1];
      var last := src[|src| - 1];
      assert ParamKeys(src) == ParamKeys(init) + {last.0};
      SetParam(CopyParams(init), last.0, last.1)
  }

  predicate ParamKeysDistinct(ps: seq<Param>)
  {
    forall i, j :: 0 <= i < j < |ps| ==> ps[i].0 != ps[j].0
  }

  /** A query whose names are all different is copied exactly. */
  lemma {:induction false} CopyParamsExact(src: seq<Param>)
    requires ParamKeysDistinct(src)
    ensures CopyParams(src) == src
  {
    if src != [] {
      var init := src[..|src| - 1];
      var last := src[|src| - 1];
      DistinctLast(src);
      CopyParamsExact(init);
      assert init + [last] == src;
    }
  }

  lemma DistinctLast(src: seq<Param>)
    requires src != [] && ParamKeysDistinct(src)
    ensures ParamKeysDistinct(src[..|src| - 1])
    ensures src[|src| - 1].0 !in ParamKeys(src[..|src| - 1])
  {
    var init := src[..|src| - 1];
    forall p | p in init
      ensures p.0 != src[|src| - 1].0
    {
      var i :| 0 <= i < |init| && init[i] == p;
      assert src[i] == p;
    }
  }

  // ---------------------------------------------------------------------------
  // The decision

  datatype Request = Request(pathname: string, search: string, params: seq<Param>, cookieLocale: Option<string>)
  datatype Response = Next | Redirect(path: string, params: seq<Param>)

  /**
   * The authentication gate (lines 164-182): for a signed-out request to a
   * path that is not public, the register pages pass and everything else is
   * sent to the login page with the original URL, encoded, as `returnUrl`.
   * Every path starting with `/` is public, so for those the gate never fires.
   */
  function Gate(req: Request, authenticated: bool, locale: string, encode: string -> string): (r: Option<Response>)
    ensures r.Some? ==> !authenticated && !IsPublicPath(req.pathname)
    ensures Text.StartsWith(req.pathname, "/") ==> r.None?
  {
    assert Text.StartsWith(req.pathname, "/") ==> IsPublicPath(req.pathname) by {
      if Text.StartsWith(req.pathname, "/") { EveryRootedPathIsPublic(req.pathname); }
    }
    if !authenticated && !IsPublicPath(req.pathname) then
      if Text.Contains(req.pathname, "/auth/register") || Text.Contains(req.pathname, "/auth/signup") then Some(Next)
      else Some(Redirect("/" + locale + "/auth/login", [("returnUrl", encode(req.pathname + req.search))]))
    else None
  }

  /** `middleware(request)`. */
  function Decide(req: Request, authenticated: bool, negotiated: Locale, encode: string -> string): (r: Response)
    ensures IsSkipped(req.pathname) ==> r == Next
  {
    var p := req.pathname;
    if IsSkipped(p) then Next
    else
      var locale := DetectedLocale(p, req.cookieLocale, negotiated);
      if p == "/" then Redirect("/" + locale, [])
      else if p == "/ru" || p == "/en" || p == "/es" then Next
      else if authenticated && p in AuthPaths then Redirect("/" + locale, [])
      else if p == "/auth/login" || p == "/auth/signin" then Redirect("/" + DefaultLocale + "/auth/login", [])
      else if p == "/auth/register" || p == "/auth/signup" then
        Redirect("/" + DefaultLocale + "/auth/register", CopyParams(req.params))
      else if p == "/auth/error" then Redirect("/" + DefaultLocale + "/auth/error", [])
      else
        match Gate(req, authenticated, locale, encode)
        case Some(response) => response
        case None =>
          if !HasLocale(p) && !Text.StartsWith(p, "/auth/") then
            Redirect("/" + locale + (if Text.StartsWith(p, "/") then "" else "/") + p, CopyParams(req.params))
          else Next
  }

  // ---------------------------------------------------------------------------
  // What the decision guarantees

  /** The path `/` is sent to its locale's home, the cookie's or the negotiated one, without the query. */
  lemma RootRedirectsToLocale(req: Request, authenticated: bool, negotiated: Locale, encode: string -> string)
    requires req.pathname == "/"
    ensures Decide(req, authenticated, negotiated, encode) == Redirect("/" + GetLocale(req.cookieLocale, negotiated), [])
  {
    Text.ContainsChar("/", '.');
    assert !HasLocale("/");
  }

  /** The locale roots pass through, signed in or not. */
  lemma LocaleRootsPass(req: Request, authenticated: bool, negotiated: Locale, encode: string -> string)
    requires req.pathname in {"/ru", "/en", "/es"}
    ensures Decide(req, authenticated, negotiated, encode) == Next
  {
    Text.ContainsChar(req.pathname, '.');
  }

  /** Every auth page is a base page or a base page under a locale prefix. */
  lemma AuthPathShape(p: string) returns (b: string, locale: Option<string>)
    requires p in AuthPaths
    ensures b in BaseAuthPaths
    ensures locale.None? ==> p == b
    ensures locale.Some? ==> locale.value in Locales && p == "/" + locale.value + b
  {
    if p in BaseAuthPaths {
      return p, None;
    }
    var k: nat :| k < 3 && p in Localised(Locales[k]);
    b :| b in BaseAuthPaths && p == "/" + Locales[k] + b;
    return b, Some(Locales[k]);
  }

  /** The facts about a base auth page the middleware's tests depend on. */
  lemma BaseAuthPathFacts(b: string)
    requires b in BaseAuthPaths
    ensures Text.StartsWith(b, "/auth/") && '.' !in b && |b| >= 11
  {
  }

  /** A path shaped like an auth page (`/a…` continuing `u`, or `/r…` or `/e…`, with no dot) is never skipped. */
  lemma NotSkipped(p: string)
    requires |p| >= 3 && p[0] == '/' && (p[1] == 'r' || p[1] == 'e' || (p[1] == 'a' && p[2] == 'u')) && '.' !in p
    ensures !IsSkipped(p)
  {
    Text.ContainsChar(p, '.');
  }

  /** No auth page is a static asset or an API route. */
  lemma AuthPathsNotSkipped(p: string)
    requires p in AuthPaths
    ensures !IsSkipped(p) && |p| >= 11
  {
    var b, locale := AuthPathShape(p);
    BaseAuthPathFacts(b);
    if locale.Some? {
      assert p[1] == locale.value[0];
    }
    NotSkipped(p);
  }

  /** Each auth page is a base page under `/auth/` or carries a locale prefix. */
  lemma AuthPathsClassified(p: string)
    requires p in AuthPaths
    ensures p in BaseAuthPaths <==> Text.StartsWith(p, "/auth/")
    ensures p !in BaseAuthPaths ==> HasLocale(p)
  {
    var b, locale := AuthPathShape(p);
    BaseAuthPathFacts(b);
    if locale.Some? {
      var loc := locale.value;
      assert p == "/" + loc + "/" + b[1..];
      assert p[1] == loc[0] && p[1] != 'a';
      assert p !in BaseAuthPaths;
      assert loc == Locales[0] || loc == Locales[1] || loc == Locales[2];
      assert Text.StartsWith(p, "/" + loc + "/");
    }
  }

  /** A signed-in user asking for any login or registration page is sent home under the detected locale. */
  lemma SignedInLeavesAuthPages(req: Request, negotiated: Locale, encode: string -> string)
    requires req.pathname in AuthPaths
    ensures Decide(req, true, negotiated, encode)
      == Redirect("/" + DetectedLocale(req.pathname, req.cookieLocale, negotiated), [])
  {
    AuthPathsNotSkipped(req.pathname);
    assert req.pathname !in {"/", "/ru", "/en", "/es"};
  }

  /** Past the asset test and the locale roots, a request not refused by the signed-in test meets the base auth pages. */
  lemma DecideBasePages(req: Request, authenticated: bool, negotiated: Locale, encode: string -> string)
    requires !IsSkipped(req.pathname) && req.pathname !in {"/", "/ru", "/en", "/es"}
    requires !authenticated || req.pathname !in AuthPaths
    ensures req.pathname == "/auth/login" || req.pathname == "/auth/signin" ==>
      Decide(req, authenticated, negotiated, encode) == Redirect("/ru/auth/login", [])
    ensures req.pathname == "/auth/register" || req.pathname == "/auth/signup" ==>
      Decide(req, authenticated, negotiated, encode) == Redirect("/ru/auth/register", CopyParams(req.params))
  {
    DefaultLocalePages();
  }

  /** The base auth pages' targets, spelled out. */
  lemma DefaultLocalePages()
    ensures "/" + DefaultLocale + "/auth/login" == "/ru/auth/login"
    ensures "/" + DefaultLocale + "/auth/register" == "/ru/auth/register"
  {
  }

  /** Signed out, the base login pages go to the Russian login page whatever the locale. */
  lemma BaseLoginGoesToDefaultLocale(req: Request, negotiated: Locale, encode: string -> string)
    requires req.pathname == "/auth/login" || req.pathname == "/auth/signin"
    ensures Decide(req, false, negotiated, encode) == Redirect("/ru/auth/login", [])
  {
    BaseAuthPathFacts(req.pathname);
    NotSkipped(req.pathname);
    DecideBasePages(req, false, negotiated, encode);
  }

  /** Signed out, the base registration pages go to the Russian one with the query copied. */
  lemma BaseRegisterGoesToDefaultLocale(req: Request, negotiated: Locale, encode: string -> string)
    requires req.pathname == "/auth/register" || req.pathname == "/auth/signup"
    ensures Decide(req, false, negotiated, encode) == Redirect("/ru/auth/register", CopyParams(req.params))
  {
    BaseAuthPathFacts(req.pathname);
    NotSkipped(req.pathname);
    DecideBasePages(req, false, negotiated, encode);
  }

  /**
   * Because the login redirect is unreachable, being signed in makes no
   * difference to any path starting with `/` other than the auth pages:
   * the middleware protects no page.
   */
  lemma SignInIrrelevantOutsideAuthPages(req: Request, negotiated: Locale, encode: string -> string)
    requires Text.StartsWith(req.pathname, "/") && req.pathname !in AuthPaths
    ensures Decide(req, false, negotiated, encode) == Decide(req, true, negotiated, encode)
  {
    var locale := DetectedLocale(req.pathname, req.cookieLocale, negotiated);
    assert Gate(req, false, locale, encode).None?;
  }

  /** Past the fixed pages and the gate, a page path is moved under the locale unless it already has one or is under `/auth/`. */
  lemma DecideFallThrough(req: Request, authenticated: bool, negotiated: Locale, encode: string -> string)
    requires !IsSkipped(req.pathname) && (!authenticated || req.pathname !in AuthPaths)
    requires req.pathname !in {"/", "/ru", "/en", "/es", "/auth/login", "/auth/signin", "/auth/register", "/auth/signup", "/auth/error"}
    requires Gate(req, authenticated, DetectedLocale(req.pathname, req.cookieLocale, negotiated), encode).None?
    ensures HasLocale(req.pathname) ==> Decide(req, authenticated, negotiated, encode) == Next
    ensures !HasLocale(req.pathname) && Text.StartsWith(req.pathname, "/") && !Text.StartsWith(req.pathname, "/auth/") ==>
      Decide(req, authenticated, negotiated, encode)
      == Redirect("/" + GetLocale(req.cookieLocale, negotiated) + req.pathname, CopyParams(req.params))
  {
    var prefix := "/" + DetectedLocale(req.pathname, req.cookieLocale, negotiated);
    assert prefix + "" == prefix;
  }

  /** A page path with no locale prefix and outside `/auth/` moves under the locale, query kept. */
  lemma UnprefixedPathMovesUnderLocale(req: Request, authenticated: bool, negotiated: Locale, encode: string -> string)
    requires Text.StartsWith(req.pathname, "/") && req.pathname != "/"
    requires !IsSkipped(req.pathname) && !HasLocale(req.pathname) && !Text.StartsWith(req.pathname, "/auth/")
    ensures Decide(req, authenticated, negotiated, encode)
      == Redirect("/" + GetLocale(req.cookieLocale, negotiated) + req.pathname, CopyParams(req.params))
  {
    var p := req.pathname;
    assert p !in AuthPaths by {
      if p in AuthPaths {
        AuthPathsClassified(p);
      }
    }
    assert p != "/ru" && p != "/en" && p != "/es" by {
      assert Locales[0] == "ru" && Locales[1] == "en" && Locales[2] == "es";
    }
    assert p !in {"/auth/login", "/auth/signin", "/auth/register", "/auth/signup", "/auth/error"} by {
      assert Text.StartsWith("/auth/login", "/auth/") && Text.StartsWith("/auth/signin", "/auth/");
      assert Text.StartsWith("/auth/register", "/auth/") && Text.StartsWith("/auth/signup", "/auth/");
      assert Text.StartsWith("/auth/error", "/auth/");
    }
    var locale := DetectedLocale(p, req.cookieLocale, negotiated);
    assert Gate(req, authenticated, locale, encode).None?;
    DecideFallThrough(req, authenticated, negotiated, encode);
  }

  /** Signed out, a login or registration page under a locale prefix is served as it is. */
  lemma LocalisedAuthPagesServedSignedOut(req: Request, negotiated: Locale, encode: string -> string)
    requires req.pathname in AuthPaths && req.pathname !in BaseAuthPaths
    ensures Decide(req, false, negotiated, encode) == Next
  {
    var p := req.pathname;
    AuthPathsNotSkipped(p);
    AuthPathsClassified(p);
    assert p !in {"/", "/ru", "/en", "/es", "/auth/login", "/auth/signin", "/auth/register", "/auth/signup", "/auth/error"} by {
      assert p[1] != 'a' && |p| > 3;
    }
    var locale := DetectedLocale(p, req.cookieLocale, negotiated);
    assert Gate(req, false, locale, encode).None?;
    DecideFallThrough(req, false, negotiated, encode);
  }
}
