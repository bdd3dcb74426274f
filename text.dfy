/**
 * Strings as the page scripts handle them: `trim()`, `toLowerCase()`,
 * `includes()` and `startsWith`-style attribute selectors, and the decimal
 * numerals written by `number.toString()`.
 */
module Text {

  /** The characters `String.prototype.trim` removes: ECMAScript WhiteSpace and LineTerminator. */
  predicate IsSpace(c: char) {
    || c == '\t' || c == '\n' || c == '\U{000B}' || c == '\U{000C}' || c == '\r'
    || c == ' ' || c == '\U{00A0}' || c == '\U{1680}' || ('\U{2000}' <= c <= '\U{200A}')
    || c == '\U{2028}' || c == '\U{2029}' || c == '\U{202F}' || c == '\U{205F}'
    || c == '\U{3000}' || c == '\U{FEFF}'
  }

  /** Drops leading white space. */
  function TrimStart(s: string): (r: string)
    ensures |r| <= |s|
    ensures r == [] || !IsSpace(r[0])
    ensures forall i :: 0 <= i < |s| - |r| ==> IsSpace(s[i])
  {
    if s != [] && IsSpace(s[0]) then TrimStart(s[1..]) else s
  }

  /** Drops trailing white space. */
  function TrimEnd(s: string): (r: string)
    ensures |r| <= |s|
    ensures r == [] || !IsSpace(r[|r| - 1])
    ensures forall i :: |r| <= i < |s| ==> IsSpace(s[i])
  {
    if s != [] && IsSpace(s[|s| - 1]) then TrimEnd(s[..|s| - 1]) else s
  }

  /** `s.trim()`: white space removed on both sides. */
  function Trim(s: string): (r: string)
    ensures |r| <= |s|
    ensures r == [] || (!IsSpace(r[0]) && !IsSpace(r[|r| - 1]))
  {
    var t := TrimStart(s);
    var r := TrimEnd(t);
    TrimEndIsPrefix(t);
    assert r != [] ==> r[0] == t[0];
    r
  }

  /** What `TrimStart` keeps is a suffix of its input. */
  lemma {:induction false} TrimStartIsSuffix(s: string)
    ensures TrimStart(s) == s[|s| - |TrimStart(s)|..]
    decreases |s|
  {
    if s != [] && IsSpace(s[0]) {
      TrimStartIsSuffix(s[1..]);
    }
  }

  /** What `TrimEnd` keeps is a prefix of its input. */
  lemma {:induction false} TrimEndIsPrefix(s: string)
    ensures TrimEnd(s) == s[..|TrimEnd(s)|]
    decreases |s|
  {
    if s != [] && IsSpace(s[|s| - 1]) {
      TrimEndIsPrefix(s[..|s| - 1]);
    }
  }

  /** `Trim` keeps an infix of its input and removes nothing but white space around it. */
  lemma TrimDropsOnlySpace(s: string)
    ensures var k, r := |s| - |TrimStart(s)|, Trim(s);
      && k + |r| <= |s|
      && r == s[k..k + |r|]
      && (forall i :: 0 <= i < k ==> IsSpace(s[i]))
      && (forall i :: k + |r| <= i < |s| ==> IsSpace(s[i]))
  {
    var t := TrimStart(s);
    var k := |s| - |t|;
    TrimStartIsSuffix(s);
    TrimEndIsPrefix(t);
    InfixOfSuffix(s, t, TrimEnd(t), k);
    SpaceShifted(s, t, k, |TrimEnd(t)|);
  }

  /** A prefix of the suffix from `k` is the slice of `s` starting at `k`. */
  lemma InfixOfSuffix(s: string, t: string, r: string, k: nat)
    requires k <= |s| && t == s[k..] && |r| <= |t| && r == t[..|r|]
    ensures k + |r| <= |s| && r == s[k..k + |r|]
  {
  }

  /** White space at the tail of a suffix is white space at the tail of the whole. */
  lemma SpaceShifted(s: string, t: string, k: nat, j: nat)
    requires k <= |s| && t == s[k..]
    requires forall i :: j <= i < |t| ==> IsSpace(t[i])
    ensures forall i :: k + j <= i < |s| ==> IsSpace(s[i])
  {
    forall i | k + j <= i < |s| ensures IsSpace(s[i]) {
      assert s[i] == t[i - k];
    }
  }

  /** Trimming twice is trimming once. */
  lemma TrimIdempotent(s: string)
    ensures Trim(Trim(s)) == Trim(s)
  {
    var r := Trim(s);
    assert TrimStart(r) == r;
    assert TrimEnd(r) == r;
  }

  /** Upper-case letters of Basic Latin and Latin-1 (the ones `toLowerCase` maps here). */
  predicate IsUpper(c: char) {
    ('A' <= c <= 'Z') || ('\U{00C0}' <= c <= '\U{00DE}' && c != '\U{00D7}')
  }

  function LowerChar(c: char): (r: char)
    ensures !IsUpper(r)
    ensures IsUpper(c) ==> r as int == c as int + 32
    ensures !IsUpper(c) ==> r == c
  {
    if IsUpper(c) then (c as int + 32) as char else c
  }

  /** `s.toLowerCase()` for Basic Latin and Latin-1 text: same length, no upper-case letter left. */
  function Lower(s: string): (r: string)
    ensures |r| == |s|
    ensures forall i :: 0 <= i < |r| ==> !IsUpper(r[i])
    ensures forall i :: 0 <= i < |s| && IsUpper(s[i]) ==> r[i] as int == s[i] as int + 32
    ensures forall i :: 0 <= i < |s| && !IsUpper(s[i]) ==> r[i] == s[i]
  {
    seq(|s|, i requires 0 <= i < |s| => LowerChar(s[i]))
  }

  /** Lower-casing text that is already lower case changes nothing. */
  lemma LowerIdempotent(s: string)
    ensures Lower(Lower(s)) == Lower(s)
  {
    var r := Lower(s);
    forall i | 0 <= i < |r| ensures Lower(r)[i] == r[i] {
      assert !IsUpper(r[i]);
    }
  }

  /**
   * `s.length`: the number of UTF-16 code units, two for a character outside
   * the Basic Multilingual Plane and one for any other.
   */
  function Utf16Length(s: string): (n: nat)
    ensures |s| <= n <= 2 * |s|
    ensures (forall i :: 0 <= i < |s| ==> s[i] as int <= 0xFFFF) ==> n == |s|
  {
    if s == [] then 0
    else Utf16Length(s[..|s| - 1]) + (if s[|s| - 1] as int > 0xFFFF then 2 else 1)
  }

  /** The length of a concatenation is the sum of the lengths. */
  lemma {:induction false} Utf16LengthAppend(s: string, t: string)
    ensures Utf16Length(s + t) == Utf16Length(s) + Utf16Length(t)
    decreases |t|
  {
    if t != [] {
      assert (s + t)[..|s + t| - 1] == s + t[..|t| - 1];
      assert (s + t)[|s + t| - 1] == t[|t| - 1];
      Utf16LengthAppend(s, t[..|t| - 1]);
    } else {
      assert s + t == s;
    }
  }

  /** A single character counts two code units outside the Basic Multilingual Plane and one inside it. */
  lemma Utf16LengthOfChar(c: char)
    ensures Utf16Length([c]) == if c as int > 0xFFFF then 2 else 1
  {
    assert [c][..0] == [];
  }

  /** Two characters outside the Basic Multilingual Plane already make four code units. */
  lemma AstralPairIsFourUnits()
    ensures Utf16Length("\U{1D400}\U{1D401}") == 4
  {
    assert "\U{1D400}\U{1D401}"[..1] == "\U{1D400}";
  }

  predicate StartsWith(s: string, prefix: string) {
    |prefix| <= |s| && s[..|prefix|] == prefix
  }

  /** `s.includes(needle)`. */
  predicate Contains(s: string, needle: string)
    decreases |s|
  {
    StartsWith(s, needle) || (s != [] && Contains(s[1..], needle))
  }

  /** `Contains` finds exactly the occurrences at some position of `s`. */
  lemma {:induction false} ContainsAt(s: string, needle: string, k: nat)
    requires k + |needle| <= |s| && s[k..k + |needle|] == needle
    ensures Contains(s, needle)
    decreases k
  {
    if k > 0 {
      assert s[1..][k - 1..k - 1 + |needle|] == s[k..k + |needle|];
      ContainsAt(s[1..], needle, k - 1);
    }
  }

  /** Conversely, whatever `Contains` finds occurs at some position of `s`. */
  lemma {:induction false} ContainsFinds(s: string, needle: string) returns (k: nat)
    requires Contains(s, needle)
    ensures k + |needle| <= |s| && s[k..k + |needle|] == needle
    decreases |s|
  {
    if StartsWith(s, needle) {
      k := 0;
    } else {
      var j := ContainsFinds(s[1..], needle);
      assert s[1..][j..j + |needle|] == s[j + 1..j + 1 + |needle|];
      k := j + 1;
    }
  }

  /** A needle longer than the text never occurs in it. */
  lemma {:induction false} NeedleTooLong(s: string, needle: string)
    requires |s| < |needle|
    ensures !Contains(s, needle)
    decreases |s|
  {
    if s != [] {
      NeedleTooLong(s[1..], needle);
    }
  }

  /**
   * A needle holding an upper-case letter never occurs in text that has none;
   * in particular never in the result of `Lower`.
   */
  lemma {:induction false} UpperNeedleNeverInLower(s: string, needle: string, j: nat)
    requires j < |needle| && IsUpper(needle[j])
    requires forall i :: 0 <= i < |s| ==> !IsUpper(s[i])
    ensures !Contains(s, needle)
    decreases |s|
  {
    if s != [] {
      UpperNeedleNeverInLower(s[1..], needle, j);
    }
  }

  function Digit(d: nat): (c: char)
    requires d < 10
    ensures '0' <= c <= '9' && c as int - '0' as int == d
  {
    ('0' as int + d) as char
  }

  /** `n.toString()` for a non-negative integer: digits only, no leading zero. */
  function Decimal(n: nat): (r: string)
    ensures |r| >= 1
    ensures forall i :: 0 <= i < |r| ==> '0' <= r[i] <= '9'
    ensures r[0] == '0' ==> n == 0
  {
    if n < 10 then [Digit(n)] else Decimal(n / 10) + [Digit(n % 10)]
  }

  /** Reads a string of decimal digits back as a number. */
  function ParseDecimal(s: string): nat
    requires forall i :: 0 <= i < |s| ==> '0' <= s[i] <= '9'
  {
    if s == [] then 0 else ParseDecimal(s[..|s| - 1]) * 10 + (s[|s| - 1] as int - '0' as int)
  }

  /** The numeral written for a rank reads back as that rank. */
  lemma {:induction false} DecimalRoundTrip(n: nat)
    ensures ParseDecimal(Decimal(n)) == n
  {
    if n >= 10 {
      var r := Decimal(n);
      assert r[..|r| - 1] == Decimal(n / 10);
      DecimalRoundTrip(n / 10);
    }
  }

  /** Distinct ranks are written as distinct numerals. */
  lemma DecimalInjective(m: nat, n: nat)
    requires Decimal(m) == Decimal(n)
    ensures m == n
  {
    DecimalRoundTrip(m);
    DecimalRoundTrip(n);
  }
}
