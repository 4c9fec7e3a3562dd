/**
 * The JavaScript string operations the application relies on, and the
 * SQL pattern operators of the store, stated over `string` (a sequence of
 * characters).  Case mapping covers ASCII and the basic Cyrillic letters.
 */
module Text {
  import opened Wrappers
  import Seqs

  // ---------------------------------------------------------------------------
  // Prefixes and substrings

  /** `s.startsWith(prefix)`. */
  predicate StartsWith(s: string, prefix: string)
  {
    prefix <= s
  }

  /** `sub` occurs in `s` starting at position `i`. */
  predicate OccursAt(s: string, sub: string, i: int)
  {
    0 <= i <= |s| - |sub| && s[i..i + |sub|] == sub
  }

  /** `s.includes(sub)`, and SQL `s LIKE '%sub%'`. */
  predicate Contains(s: string, sub: string)
  {
    exists i :: 0 <= i <= |s| && OccursAt(s, sub, i)
  }

  lemma ContainsEmpty(s: string)
    ensures Contains(s, "")
  {
    assert OccursAt(s, "", 0);
  }

  lemma PrefixContained(s: string, prefix: string)
    requires StartsWith(s, prefix)
    ensures Contains(s, prefix)
  {
    assert OccursAt(s, prefix, 0);
  }

  /** A one-character string occurs in `s` exactly when that character does. */
  lemma ContainsChar(s: string, c: char)
    ensures Contains(s, [c]) <==> c in s
  {
    if Contains(s, [c]) {
      var i :| 0 <= i <= |s| && OccursAt(s, [c], i);
      assert s[i] == s[i..i + 1][0];
    }
    if c in s {
      var i :| 0 <= i < |s| && s[i] == c;
      assert OccursAt(s, [c], i);
    }
  }

  /** A string that contains `sub` is at least as long as `sub`. */
  lemma ContainsLength(s: string, sub: string)
    requires Contains(s, sub)
    ensures |sub| <= |s|
  {
  }

  // ---------------------------------------------------------------------------
  // Case mapping

  function LowerChar(c: char): (r: char)
    ensures 'A' <= c <= 'Z' ==> r == (c as int + 32) as char
    ensures !('A' <= c <= 'Z') && !('\U{400}' <= c <= '\U{42F}') ==> r == c
  {
    if 'A' <= c <= 'Z' || '\U{410}' <= c <= '\U{42F}' then (c as int + 32) as char
    else if '\U{400}' <= c <= '\U{40F}' then (c as int + 80) as char
    else c
  }

  function UpperChar(c: char): (r: char)
    ensures 'a' <= c <= 'z' ==> r == (c as int - 32) as char
    ensures !('a' <= c <= 'z') && !('\U{430}' <= c <= '\U{45F}') ==> r == c
  {
    if 'a' <= c <= 'z' || '\U{430}' <= c <= '\U{44F}' then (c as int - 32) as char
    else if '\U{450}' <= c <= '\U{45F}' then (c as int - 80) as char
    else c
  }

  /** `s.toLowerCase()` */
  function Lower(s: string): (r: string)
    ensures |r| == |s|
    ensures forall i :: 0 <= i < |s| ==> r[i] == LowerChar(s[i])
  {
    seq(|s|, i requires 0 <= i < |s| => LowerChar(s[i]))
  }

  /** `s.toUpperCase()` */
  function Upper(s: string): (r: string)
    ensures |r| == |s|
    ensures forall i :: 0 <= i < |s| ==> r[i] == UpperChar(s[i])
  {
    seq(|s|, i requires 0 <= i < |s| => UpperChar(s[i]))
  }

  /** Lower-casing is idempotent, so folding a folded string changes nothing. */
  lemma LowerIdempotent(s: string)
    ensures Lower(Lower(s)) == Lower(s)
  {
  }

  /** Upper-casing a lower-case letter gives back the upper-case letter. */
  lemma UpperLowerChar(c: char)
    requires 'A' <= c <= 'Z' || '\U{400}' <= c <= '\U{42F}'
    ensures UpperChar(LowerChar(c)) == c
  {
  }

  /** SQL `s ILIKE '%sub%'`: containment after case folding. */
  predicate ContainsIgnoringCase(s: string, sub: string)
  {
    Contains(Lower(s), Lower(sub))
  }

  /** An exact occurrence is also a case-insensitive one. */
  lemma ContainsIgnoringCaseWeaker(s: string, sub: string)
    requires Contains(s, sub)
    ensures ContainsIgnoringCase(s, sub)
  {
    var i :| 0 <= i <= |s| && OccursAt(s, sub, i);
    var ls, lsub := Lower(s), Lower(sub);
    assert |ls| == |s| && |lsub| == |sub|;
    forall k | 0 <= k < |sub| ensures ls[i + k] == lsub[k] {
      assert s[i..i + |sub|][k] == sub[k];
    }
    assert ls[i..i + |sub|] == lsub;
    assert OccursAt(Lower(s), Lower(sub), i);
  }

  // ---------------------------------------------------------------------------
  // Whitespace

  /** The characters `String.prototype.trim` removes (WhiteSpace and LineTerminator). */
  predicate IsJsSpace(c: char)
  {
    ('\t' <= c <= '\r') || c == ' ' || c == '\U{A0}' || c == '\U{1680}'
    || ('\U{2000}' <= c <= '\U{200A}') || c == '\U{2028}' || c == '\U{2029}'
    || c == '\U{202F}' || c == '\U{205F}' || c == '\U{3000}' || c == '\U{FEFF}'
  }

  /** `s.trimStart()`: the suffix left after dropping leading whitespace. */
  function TrimStart(s: string): (r: string)
    ensures |r| <= |s| && r == s[|s| - |r|..]
    ensures r == [] || !IsJsSpace(r[0])
    ensures forall i :: 0 <= i < |s| - |r| ==> IsJsSpace(s[i])
  {
    if s != [] && IsJsSpace(s[0]) then TrimStart(s[1..]) else s
  }

  /** `s.trimEnd()`: the prefix left after dropping trailing whitespace. */
  function TrimEnd(s: string): (r: string)
    ensures |r| <= |s| && r == s[..|r|]
    ensures r == [] || !IsJsSpace(r[|r| - 1])
    ensures forall i :: |r| <= i < |s| ==> IsJsSpace(s[i])
  {
    if s != [] && IsJsSpace(s[|s| - 1]) then TrimEnd(s[..|s| - 1]) else s
  }

  /** `s.trim()` */
  function Trim(s: string): (r: string)
  {
    TrimEnd(TrimStart(s))
  }

  /** A trimmed string neither starts nor ends with whitespace. */
  lemma TrimmedHasNoOuterSpace(s: string)
    ensures Trim(s) == [] || (!IsJsSpace(Trim(s)[0]) && !IsJsSpace(Trim(s)[|Trim(s)| - 1]))
  {
    var t := TrimStart(s);
    var r := TrimEnd(t);
    if r != [] {
      assert r[0] == t[0];
    }
  }

  /** Trimming is idempotent. */
  lemma TrimIdempotent(s: string)
    ensures Trim(Trim(s)) == Trim(s)
  {
    var r := Trim(s);
    TrimmedHasNoOuterSpace(s);
    assert TrimStart(r) == r;
    assert TrimEnd(r) == r;
  }

  /** A string that is entirely whitespace trims to the empty string, and only such a string does. */
  lemma TrimEmptyIffAllSpace(s: string)
    ensures Trim(s) == [] <==> forall i :: 0 <= i < |s| ==> IsJsSpace(s[i])
  {
    var t := TrimStart(s);
    if Trim(s) == [] {
      forall i | |s| - |t| <= i < |s| ensures IsJsSpace(s[i]) {
        assert s[i] == t[i - (|s| - |t|)];
      }
    }
    if forall i :: 0 <= i < |s| ==> IsJsSpace(s[i]) {
      assert t == [];
    }
  }

  // ---------------------------------------------------------------------------
  // Splitting on one character

  /** `s.split(sep)` for a one-character separator: at least one piece, none containing `sep`. */
  function Split(s: string, sep: char): (r: seq<string>)
    ensures |r| >= 1
    ensures forall k :: 0 <= k < |r| ==> sep !in r[k]
  {
    if s == [] then [[]]
    else
      var rest := Split(s[1..], sep);
      if s[0] == sep then [[]] + rest else [[s[0]] + rest[0]] + rest[1..]
  }

  /** `parts.join(sep)` */
  function Join(parts: seq<string>, sep: string): string
  {
    if parts == [] then []
    else if |parts| == 1 then parts[0]
    else parts[0] + sep + Join(parts[1..], sep)
  }

  /** Joining the pieces with the separator gives back the string. */
  lemma {:induction false} SplitJoin(s: string, sep: char)
    ensures Join(Split(s, sep), [sep]) == s
  {
    if s != [] {
      var rest := Split(s[1..], sep);
      SplitJoin(s[1..], sep);
      if s[0] == sep {
        assert Split(s, sep) == [[]] + rest;
        assert s == [sep] + s[1..];
      } else {
        var r := Split(s, sep);
        assert r[1..] == rest[1..];
        if |rest| == 1 {
          assert s == [s[0]] + rest[0];
        } else {
          assert Join(rest, [sep]) == rest[0] + [sep] + Join(rest[1..], [sep]);
          assert s == [s[0]] + s[1..];
        }
      }
    }
  }

  /** When `s` starts with a run `a` free of `sep`, ended by `sep` or by the end of `s`, the first piece is `a`. */
  lemma {:induction false} SplitFirstPiece(a: string, rest: string, sep: char)
    requires sep !in a
    requires rest == [] || rest[0] == sep
    ensures Split(a + rest, sep)[0] == a
  {
    if a == [] {
      assert a + rest == rest;
    } else {
      assert (a + rest)[1..] == a[1..] + rest;
      SplitFirstPiece(a[1..], rest, sep);
      assert a == [a[0]] + a[1..];
    }
  }

  /** The piece after a leading separator: `('/' + a + rest).split('/')[1] == a`. */
  lemma SecondPiece(a: string, rest: string, sep: char)
    requires sep !in a
    requires rest == [] || rest[0] == sep
    ensures |Split([sep] + a + rest, sep)| >= 2
    ensures Split([sep] + a + rest, sep)[1] == a
  {
    var s := [sep] + a + rest;
    assert s[1..] == a + rest;
    SplitFirstPiece(a, rest, sep);
  }

  /** A string free of the separator splits into itself alone. */
  lemma {:induction false} SplitNoSeparator(s: string, sep: char)
    requires sep !in s
    ensures Split(s, sep) == [s]
  {
    if s != [] {
      SplitNoSeparator(s[1..], sep);
      assert [s[0]] + s[1..] == s;
    }
  }

  /** Splitting at the first separator: the run before it, then the pieces of what follows. */
  lemma {:induction false} SplitAtSeparator(a: string, b: string, sep: char)
    requires sep !in a
    ensures Split(a + [sep] + b, sep) == [a] + Split(b, sep)
  {
    if a == [] {
      assert a + [sep] + b == [sep] + b;
      assert ([sep] + b)[1..] == b;
    } else {
      assert (a + [sep] + b)[1..] == a[1..] + [sep] + b;
      SplitAtSeparator(a[1..], b, sep);
      assert [a[0]] + a[1..] == a;
    }
  }

  // ---------------------------------------------------------------------------
  // Digits and numbers

  predicate IsDigit(c: char)
  {
    '0' <= c <= '9'
  }

  predicate IsHexDigit(c: char)
  {
    IsDigit(c) || 'a' <= c <= 'f' || 'A' <= c <= 'F'
  }

  function HexValue(c: char): (v: nat)
    requires IsHexDigit(c)
    ensures v < 16
    ensures IsDigit(c) <==> v < 10
  {
    if IsDigit(c) then c as int - '0' as int
    else if 'a' <= c <= 'f' then c as int - 'a' as int + 10
    else c as int - 'A' as int + 10
  }

  /** A digit of base `radix` (10 or 16 in `parseInt`). */
  predicate DigitIn(c: char, radix: nat)
  {
    IsHexDigit(c) && HexValue(c) < radix
  }

  predicate AllDigitsIn(s: string, radix: nat)
  {
    forall i :: 0 <= i < |s| ==> DigitIn(s[i], radix)
  }

  /** The number a digit string denotes in base `radix`, most significant digit first. */
  function ValueIn(s: string, radix: nat): nat
    requires AllDigitsIn(s, radix)
  {
    if s == [] then 0 else ValueIn(s[..|s| - 1], radix) * radix + HexValue(s[|s| - 1])
  }

  function DigitChar(d: nat): (c: char)
    requires d < 10
    ensures IsDigit(c) && HexValue(c) == d
  {
    ('0' as int + d) as char
  }

  /** `String(n)` / `n.toString()` for a natural number. */
  function NatToString(n: nat): (s: string)
    ensures s != [] && AllDigitsIn(s, 10)
    ensures s[0] == '0' ==> n == 0
  {
    if n < 10 then [DigitChar(n)] else NatToString(n / 10) + [DigitChar(n % 10)]
  }

  /** Reading back the decimal rendering of `n` gives `n`. */
  lemma {:induction false} NatToStringRoundTrip(n: nat)
    ensures ValueIn(NatToString(n), 10) == n
  {
    if n >= 10 {
      var s := NatToString(n);
      assert s[..|s| - 1] == NatToString(n / 10);
      NatToStringRoundTrip(n / 10);
    }
  }

  /** `s.replace(/[^\d]/g, '')`: the decimal digits of `s`, in order. */
  function KeepDigits(s: string): (r: string)
    ensures AllDigitsIn(r, 10)
    ensures |r| <= |s|
  {
    Seqs.Filter(s, IsDigit)
  }

  /** Stripping non-digits from a string of digits leaves it unchanged, so the sanitising is idempotent. */
  lemma KeepDigitsIdempotent(s: string)
    ensures KeepDigits(KeepDigits(s)) == KeepDigits(s)
  {
    Seqs.FilterIdempotent(s, IsDigit);
  }

  lemma KeepDigitsOfDigits(s: string)
    requires AllDigitsIn(s, 10)
    ensures KeepDigits(s) == s
  {
    Seqs.FilterKeepsAll(s, IsDigit);
  }

  /** The longest prefix of `s` made of base-`radix` digits. */
  function DigitPrefix(s: string, radix: nat): (r: string)
    ensures r <= s
    ensures AllDigitsIn(r, radix)
    ensures |r| == |s| || !DigitIn(s[|r|], radix)
  {
    if s == [] || !DigitIn(s[0], radix) then [] else [s[0]] + DigitPrefix(s[1..], radix)
  }

  /**
   * JavaScript `parseInt(s)` without a radix argument: leading whitespace is
   * skipped, then an optional sign, then a `0x`/`0X` prefix selects base 16;
   * the longest run of digits is read; `None` stands for NaN.
   */
  function ParseInt(s: string): (r: Option<int>)
  {
    var t := TrimStart(s);
    var negative := t != [] && t[0] == '-';
    var u := if t != [] && (t[0] == '-' || t[0] == '+') then t[1..] else t;
    var hex := |u| >= 2 && u[0] == '0' && (u[1] == 'x' || u[1] == 'X');
    var radix := if hex then 16 else 10;
    var digits := DigitPrefix(if hex then u[2..] else u, radix);
    if digits == [] then None
    else
      var v: int := ValueIn(digits, radix);
      Some(if negative then -v else v)
  }

  lemma DigitPrefixOfDigits(s: string, radix: nat)
    requires AllDigitsIn(s, radix)
    ensures DigitPrefix(s, radix) == s
  {
  }

  /** `parseInt` of a non-empty decimal digit string is its value. */
  lemma ParseIntOfDigits(s: string)
    requires s != [] && AllDigitsIn(s, 10)
    ensures ParseInt(s) == Some(ValueIn(s, 10))
  {
    assert TrimStart(s) == s by {
      assert !IsJsSpace(s[0]);
    }
    assert !(|s| >= 2 && s[1] == 'x') by {
      if |s| >= 2 { assert DigitIn(s[1], 10); }
    }
    assert !(|s| >= 2 && s[1] == 'X') by {
      if |s| >= 2 { assert DigitIn(s[1], 10); }
    }
    DigitPrefixOfDigits(s, 10);
  }

  /** The digit run of `d + rest` is `d` when `rest` does not start with a digit. */
  lemma {:induction false} DigitPrefixStops(d: string, rest: string, radix: nat)
    requires AllDigitsIn(d, radix)
    requires rest == [] || !DigitIn(rest[0], radix)
    ensures DigitPrefix(d + rest, radix) == d
  {
    if d != [] {
      assert (d + rest)[1..] == d[1..] + rest;
      DigitPrefixStops(d[1..], rest, radix);
    } else {
      assert d + rest == rest;
    }
  }

  /** `parseInt` reads the leading decimal digits and ignores whatever follows them. */
  lemma ParseIntOfDigitsThen(d: string, rest: string)
    requires d != [] && AllDigitsIn(d, 10)
    requires rest == [] || !DigitIn(rest[0], 10)
    requires !(|d| == 1 && d[0] == '0' && rest != [] && (rest[0] == 'x' || rest[0] == 'X'))
    ensures ParseInt(d + rest) == Some(ValueIn(d, 10))
  {
    var s := d + rest;
    assert s[0] == d[0];
    assert TrimStart(s) == s by {
      assert !IsJsSpace(s[0]);
    }
    assert !(|s| >= 2 && s[0] == '0' && (s[1] == 'x' || s[1] == 'X')) by {
      if |d| >= 2 { assert s[1] == d[1] && DigitIn(d[1], 10); }
      else if |s| >= 2 { assert s[1] == rest[0]; }
    }
    DigitPrefixStops(d, rest, 10);
  }

  /** `parseInt(String(n)) === n`. */
  lemma ParseIntNatToString(n: nat)
    ensures ParseInt(NatToString(n)) == Some(n)
  {
    ParseIntOfDigits(NatToString(n));
    NatToStringRoundTrip(n);
  }

  /** The character codes of `s`: the sort key of a text column (collation left abstract). */
  function Codes(s: string): (r: seq<int>)
    ensures |r| == |s|
  {
    seq(|s|, i requires 0 <= i < |s| => s[i] as int)
  }

  // ---------------------------------------------------------------------------
  // Length as JavaScript counts it

  /** `s.length`: UTF-16 code units, two for a character outside the Basic Multilingual Plane. */
  function Utf16Length(s: string): (n: nat)
    ensures |s| <= n <= 2 * |s|
  {
    if s == [] then 0 else (if s[0] as int >= 0x1_0000 then 2 else 1) + Utf16Length(s[1..])
  }
}
