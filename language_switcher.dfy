/**
 * The language switcher: choosing a locale writes the NEXT_LOCALE cookie
 * the middleware reads and navigates to the same page with its first path
 * segment replaced by the new locale.
 */
module LanguageSwitcher {
  import opened Wrappers
  import Text
  import Middleware

  /** The locales the menu offers: only Russian (English and Spanish are disabled in the menu). */
  const MenuLocales: seq<string> := ["ru"]

  /** `pathname.split('/')[1]`, `undefined` when there is no second piece. */
  function CurrentLocale(p: string): Option<string>
  {
    var segments := Text.Split(p, '/');
    if |segments| > 1 then Some(segments[1]) else None
  }

  /** The current locale of a path under a segment is that segment. */
  lemma CurrentLocaleOfSegment(a: string, rest: string)
    requires '/' !in a
    requires rest == [] || rest[0] == '/'
    ensures CurrentLocale("/" + a + rest) == Some(a)
  {
    Text.SecondPiece(a, rest, '/');
  }

  // ---------------------------------------------------------------------------
  // The path rewrite

  /** The length of the run of characters other than '/' at the start of `s`. */
  function RunLength(s: string): (n: nat)
    ensures n <= |s|
    ensures '/' !in s[..n]
    ensures n == |s| || s[n] == '/'
  {
    if s == [] || s[0] == '/' then 0
    else
      var m := RunLength(s[1..]);
      assert s[..m + 1] == [s[0]] + s[1..][..m];
      m + 1
  }

  /** The run before a '/' (or the end) is the whole of it. */
  lemma {:induction false} RunOfSegment(a: string, rest: string)
    requires '/' !in a
    requires rest == [] || rest[0] == '/'
    ensures RunLength(a + rest) == |a|
  {
    if a == [] {
      assert a + rest == rest;
    } else {
      assert (a + rest)[1..] == a[1..] + rest;
      RunOfSegment(a[1..], rest);
    }
  }

  /** Whether the pattern `^\/[^\/]+` matches: a '/' followed by at least one other character. */
  predicate HasLeadingSegment(p: string)
  {
    |p| >= 2 && p[0] == '/' && p[1] != '/'
  }

  /**
   * `pathname.replace(/^\/[^\/]+/, '/' + locale)`: the leading '/' and the
   * longest run of non-'/' characters after it become '/' + locale; a path
   * the pattern does not match is returned as it is.
   */
  function Rewrite(p: string, locale: string): (r: string)
    ensures !HasLeadingSegment(p) ==> r == p
    ensures HasLeadingSegment(p) ==> Text.StartsWith(r, "/" + locale)
  {
    if HasLeadingSegment(p) then "/" + locale + p[1 + RunLength(p[1..])..] else p
  }

  /** The matched segment is the whole first segment, and everything after it is kept. */
  lemma RewriteSegment(a: string, rest: string, locale: string)
    requires a != [] && '/' !in a
    requires rest == [] || rest[0] == '/'
    ensures Rewrite("/" + a + rest, locale) == "/" + locale + rest
  {
    var p := "/" + a + rest;
    assert p[1..] == a + rest;
    RunOfSegment(a, rest);
    assert p[1 + |a|..] == rest;
  }

  /** A path the pattern matches splits into '/', its first segment and the rest. */
  lemma SegmentOf(p: string) returns (a: string, rest: string)
    requires HasLeadingSegment(p)
    ensures p == "/" + a + rest
    ensures a != [] && '/' !in a && (rest == [] || rest[0] == '/')
  {
    var n := RunLength(p[1..]);
    a := p[1..][..n];
    rest := p[1 + n..];
    assert p == "/" + a + rest;
  }

  /** Switching twice is switching once to the second locale; in particular switching is idempotent. */
  lemma RewriteTwice(p: string, first: string, second: string)
    requires first != [] && '/' !in first
    ensures Rewrite(Rewrite(p, first), second) == Rewrite(p, second)
  {
    if HasLeadingSegment(p) {
      var a, rest := SegmentOf(p);
      RewriteSegment(a, rest, first);
      RewriteSegment(a, rest, second);
      RewriteSegment(first, rest, second);
    }
  }

  /**
   * The new path's first segment is the chosen locale: for a supported
   * locale the middleware takes the locale from the path.
   */
  lemma RewriteSetsLocale(p: string, locale: string, cookie: Option<string>, negotiated: Middleware.Locale)
    requires locale in Middleware.Locales
    requires HasLeadingSegment(p)
    ensures CurrentLocale(Rewrite(p, locale)) == Some(locale)
    ensures Middleware.HasLocale(Rewrite(p, locale))
    ensures Middleware.DetectedLocale(Rewrite(p, locale), cookie, negotiated) == locale
  {
    var a, rest := SegmentOf(p);
    RewriteSegment(a, rest, locale);
    assert '/' !in locale;
    CurrentLocaleOfSegment(locale, rest);
    var r := Rewrite(p, locale);
    var i :| 0 <= i < |Middleware.Locales| && Middleware.Locales[i] == locale;
    if rest == [] {
      assert r == "/" + Middleware.Locales[i];
    } else {
      assert Text.StartsWith(r, "/" + Middleware.Locales[i] + "/");
    }
    Middleware.SplitLocale(r, locale);
  }

  // ---------------------------------------------------------------------------
  // The cookie

  /** The cookie written for the middleware: the locale for a year, on every path, SameSite=Lax. */
  function Cookie(locale: string): string
  {
    "NEXT_LOCALE=" + locale + "; path=/; max-age=31536000; SameSite=Lax"
  }

  /** The value of cookie `name` in a `document.cookie` assignment: what follows `name=` in its first `;`-piece. */
  function CookieValue(c: string, name: string): (r: Option<string>)
    ensures r.Some? ==> ';' !in r.value
  {
    var pair := Text.Split(c, ';')[0];
    if Text.StartsWith(pair, name + "=") then Some(pair[|name| + 1..]) else None
  }

  /** The cookie carries exactly the chosen locale under NEXT_LOCALE, which the middleware then honours. */
  lemma CookieCarriesLocale(locale: string, negotiated: Middleware.Locale)
    requires ';' !in locale
    ensures CookieValue(Cookie(locale), "NEXT_LOCALE") == Some(locale)
    ensures locale in Middleware.Locales ==> Middleware.GetLocale(CookieValue(Cookie(locale), "NEXT_LOCALE"), negotiated) == locale
  {
    var head := "NEXT_LOCALE=" + locale;
    var tail := "; path=/; max-age=31536000; SameSite=Lax";
    assert Cookie(locale) == head + tail;
    assert ';' !in "NEXT_LOCALE=";
    assert ';' !in head;
    Text.SplitFirstPiece(head, tail, ';');
    assert head[|"NEXT_LOCALE"| + 1..] == locale;
  }

  // ---------------------------------------------------------------------------
  // The component

  datatype Navigation = Push(url: string) | Refresh

  class Switcher {
    const pathname: string
    var isLoading: bool
    /** The assignments to `document.cookie`, oldest first. */
    var cookies: seq<string>
    /** The router calls, oldest first. */
    var navigation: seq<Navigation>

    constructor(pathname: string)
      ensures this.pathname == pathname
      ensures !isLoading && cookies == [] && navigation == []
    {
      this.pathname := pathname;
      isLoading := false;
      cookies := [];
      navigation := [];
    }

    /**
     * `handleLanguageChange`: nothing for the current locale; otherwise the
     * cookie, then a push to the rewritten path and a refresh.
     */
    method HandleLanguageChange(locale: string)
      modifies this
      ensures CurrentLocale(pathname) == Some(locale) ==> unchanged(this)
      ensures CurrentLocale(pathname) != Some(locale) ==>
        && cookies == old(cookies) + [Cookie(locale)]
        && navigation == old(navigation) + [Push(Rewrite(pathname, locale)), Refresh]
        && !isLoading
    {
      if CurrentLocale(pathname) == Some(locale) {
        return;
      }
      isLoading := true;
      cookies := cookies + [Cookie(locale)];
      var newPathname := Rewrite(pathname, locale);
      navigation := navigation + [Push(newPathname)];
      navigation := navigation + [Refresh];
      isLoading := false;
    }
  }

  /**
   * After a change to a supported locale, the next request lands on that
   * locale: from the path when it has a segment, from the cookie when the
   * path is the bare root.
   */
  lemma ChangeReachesLocale(p: string, locale: string, negotiated: Middleware.Locale)
    requires locale in Middleware.Locales
    requires p != [] && p[0] == '/'
    ensures Middleware.DetectedLocale(Rewrite(p, locale), CookieValue(Cookie(locale), "NEXT_LOCALE"), negotiated) == locale
  {
    CookieCarriesLocale(locale, negotiated);
    if HasLeadingSegment(p) {
      RewriteSetsLocale(p, locale, CookieValue(Cookie(locale), "NEXT_LOCALE"), negotiated);
    }
  }
}
