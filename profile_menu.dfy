/**
 * The profile menu's helpers: the locale read off the current path, the
 * page logging out returns to, and the initials shown when the user has
 * no avatar image.
 */
module ProfileMenu {
  import opened Wrappers
  import Text
  import Middleware

  const Locales: seq<string> := ["ru", "en", "es"]

  /** A JavaScript truthiness test on an optional string. */
  predicate Present(s: Option<string>)
  {
    s.Some? && s.value != ""
  }

  /**
   * `getLocaleFromPath`: the second piece of the path split on '/' when it
   * is a supported locale, and 'ru' otherwise (also with no path at all).
   */
  function LocaleFromPath(pathname: Option<string>): (r: string)
    ensures r in Locales
    ensures r != "ru" ==>
      Present(pathname) && |Text.Split(pathname.value, '/')| > 1 && Text.Split(pathname.value, '/')[1] == r
  {
    if !Present(pathname) then "ru"
    else
      var segments := Text.Split(pathname.value, '/');
      if |segments| > 1 && segments[1] in Locales then segments[1] else "ru"
  }

  /** A path under a locale's prefix yields that locale. */
  lemma LocaleOfPrefixedPath(locale: string, rest: string)
    requires locale in Locales
    requires rest == [] || rest[0] == '/'
    ensures LocaleFromPath(Some("/" + locale + rest)) == locale
  {
    assert '/' !in locale;
    Text.SecondPiece(locale, rest, '/');
  }

  /** The `callbackUrl` of the logout: the login page of the path's locale. */
  function LogoutTarget(pathname: Option<string>): string
  {
    "/" + LocaleFromPath(pathname) + "/auth/login"
  }

  /** The logout lands on a login page in the locale the user was browsing. */
  lemma LogoutKeepsLocale(pathname: Option<string>)
    ensures LocaleFromPath(Some(LogoutTarget(pathname))) == LocaleFromPath(pathname)
  {
    LocaleOfPrefixedPath(LocaleFromPath(pathname), "/auth/login");
  }

  /** After logging out, the middleware serves the logout target as it is, signed out. */
  lemma LogoutTargetIsServed(pathname: Option<string>, search: string, params: seq<Middleware.Param>,
                             cookie: Option<string>, negotiated: Middleware.Locale, encode: string -> string)
    ensures Middleware.Decide(Middleware.Request(LogoutTarget(pathname), search, params, cookie), false, negotiated, encode)
      == Middleware.Next
  {
    var p := LogoutTarget(pathname);
    var loc := LocaleFromPath(pathname);
    var k :| 0 <= k < 3 && Middleware.Locales[k] == loc;
    assert p in Middleware.Localised(Middleware.Locales[k]) by {
      assert p == "/" + Middleware.Locales[k] + Middleware.BaseAuthPaths[0];
    }
    assert p[1] != 'a';
    assert p !in Middleware.BaseAuthPaths;
    Middleware.LocalisedAuthPagesServedSignedOut(Middleware.Request(p, search, params, cookie), negotiated, encode);
  }

  // ---------------------------------------------------------------------------
  // Initials

  /** The first character of each word; an empty word (from doubled spaces) contributes nothing. */
  function FirstLetters(words: seq<string>): (r: string)
    ensures |r| <= |words|
  {
    if words == [] then ""
    else (if words[0] == "" then "" else [words[0][0]]) + FirstLetters(words[1..])
  }

  /**
   * `getUserInitials`: 'U' with neither a name nor an email; with a name,
   * the upper-cased first letters of its space-separated words, at most
   * two; with only an email, its upper-cased first character.
   */
  function Initials(name: Option<string>, email: Option<string>): (r: string)
    ensures |r| <= 2
    ensures !Present(name) && !Present(email) ==> r == "U"
    ensures !Present(name) && Present(email) ==> r == [Text.UpperChar(email.value[0])]
    ensures Present(name) ==>
      var letters := Text.Upper(FirstLetters(Text.Split(name.value, ' ')));
      r <= letters && (|r| == 2 || r == letters)
  {
    if !Present(name) && !Present(email) then "U"
    else if Present(name) then
      var letters := Text.Upper(FirstLetters(Text.Split(name.value, ' ')));
      letters[..if |letters| < 2 then |letters| else 2]
    else Text.Upper([email.value[0]])
  }

  predicate Word(w: string)
  {
    w != "" && ' ' !in w
  }

  /** Joining words with single spaces and splitting on spaces gives the words back. */
  lemma {:induction false} SplitJoinedWords(words: seq<string>)
    requires |words| >= 1 && forall k :: 0 <= k < |words| ==> Word(words[k])
    ensures Text.Split(Text.Join(words, " "), ' ') == words
  {
    if |words| == 1 {
      Text.SplitNoSeparator(words[0], ' ');
    } else {
      SplitJoinedWords(words[1..]);
      Text.SplitAtSeparator(words[0], Text.Join(words[1..], " "), ' ');
    }
  }

  /** A name of several words gives the first letters of its first two words, upper-cased. */
  lemma InitialsOfWords(words: seq<string>, email: Option<string>)
    requires |words| >= 2 && forall k :: 0 <= k < |words| ==> words[k] != "" && ' ' !in words[k]
    ensures Initials(Some(Text.Join(words, " ")), email) == [Text.UpperChar(words[0][0]), Text.UpperChar(words[1][0])]
  {
    var name := Text.Join(words, " ");
    SplitJoinedWords(words);
    assert name != "" by {
      assert name == words[0] + " " + Text.Join(words[1..], " ");
    }
    assert words[0] != "" && words[1] != "";
    InitialsOfSplit(name, email, words);
  }

  lemma InitialsOfSplit(name: string, email: Option<string>, words: seq<string>)
    requires name != "" && Text.Split(name, ' ') == words
    requires |words| >= 2 && words[0] != "" && words[1] != ""
    ensures Initials(Some(name), email) == [Text.UpperChar(words[0][0]), Text.UpperChar(words[1][0])]
  {
    var upper := Text.Upper(FirstLetters(words));
    FirstTwoLetters(words);
    assert Initials(Some(name), email) == upper[..2];
  }

  lemma FirstTwoLetters(words: seq<string>)
    requires |words| >= 2 && words[0] != "" && words[1] != ""
    ensures |FirstLetters(words)| >= 2
    ensures FirstLetters(words)[0] == words[0][0] && FirstLetters(words)[1] == words[1][0]
  {
    assert words[1..][1..] == words[2..];
  }

  /** A one-word name gives its first letter alone. */
  lemma InitialOfOneWord(word: string, email: Option<string>)
    requires Word(word)
    ensures Initials(Some(word), email) == [Text.UpperChar(word[0])]
  {
    Text.SplitNoSeparator(word, ' ');
  }

  /** A name made only of spaces is present but has no letters: the initials are empty, not 'U'. */
  lemma BlankNameHasNoInitials(n: nat, email: Option<string>)
    requires n >= 1
    ensures Initials(Some(seq(n, _ => ' ')), email) == ""
  {
    var name := seq(n, _ => ' ');
    assert forall w :: w in Text.Split(name, ' ') ==> w == "" by {
      BlankPieces(name);
    }
    NoLetters(Text.Split(name, ' '));
  }

  lemma {:induction false} BlankPieces(s: string)
    requires forall i :: 0 <= i < |s| ==> s[i] == ' '
    ensures forall w :: w in Text.Split(s, ' ') ==> w == ""
  {
    if s != [] {
      BlankPieces(s[1..]);
    }
  }

  lemma {:induction false} NoLetters(words: seq<string>)
    requires forall w :: w in words ==> w == ""
    ensures FirstLetters(words) == ""
  {
    if words != [] {
      assert words[0] in words;
      assert forall w :: w in words[1..] ==> w in words;
      NoLetters(words[1..]);
    }
  }
}
