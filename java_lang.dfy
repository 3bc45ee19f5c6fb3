/**
 * The few pieces of the Java platform and of Apache Commons Lang whose exact
 * behaviour the installer relies on: 32-bit int arithmetic, the decimal
 * rendering of an int in string concatenation, Character.isWhitespace and
 * StringUtils.isNotBlank, and String.startsWith, endsWith and indexOf.
 */
module JavaLang {
  import opened Wrappers

  const TwoTo31: int := 0x8000_0000
  const TwoTo32: int := 0x1_0000_0000

  /** Java's `int`. */
  type int32 = x: int | -0x8000_0000 <= x < 0x8000_0000

  /** Two's-complement truncation of a mathematical integer to a Java int. */
  function Wrap32(x: int): (r: int32)
    ensures (r - x) % TwoTo32 == 0
    ensures -TwoTo31 <= x < TwoTo31 ==> r == x
  {
    (x + TwoTo31) % TwoTo32 - TwoTo31
  }

  /** Two integers that agree modulo 2^32 truncate to the same int. */
  lemma Wrap32Congruent(x: int, y: int)
    requires (x - y) % TwoTo32 == 0
    ensures Wrap32(x) == Wrap32(y)
  {
    var q := (x - y) / 0x1_0000_0000;
    var kx := (x + 0x8000_0000) / 0x1_0000_0000;
    var ky := (y + 0x8000_0000) / 0x1_0000_0000;
    assert x - y == q * 0x1_0000_0000;
    assert Wrap32(x) == x - kx * 0x1_0000_0000;
    assert Wrap32(y) == y - ky * 0x1_0000_0000;
    assert Wrap32(x) - Wrap32(y) == (q - kx + ky) * 0x1_0000_0000;
  }

  /** Java's `a + b` on ints: the sum wraps around. */
  function Add32(a: int32, b: int32): (r: int32)
    ensures (r - (a + b)) % TwoTo32 == 0
    ensures -TwoTo31 <= a + b < TwoTo31 ==> r == a + b
  {
    Wrap32(a + b)
  }

  /** `a + b + c` evaluated left to right with wrap-around at each step is
      the wrapped mathematical sum. */
  lemma Add32Sum(a: int32, b: int32, c: int32)
    ensures Add32(Add32(a, b), c) == Wrap32(a + b + c)
  {
    Wrap32Congruent(Add32(a, b) + c, a + b + c);
  }

  // ---------------------------------------------------------------------
  // Decimal rendering of an int (Integer.toString, used by `"" + int`)
  // ---------------------------------------------------------------------

  predicate IsDigit(c: char)
  {
    '0' <= c <= '9'
  }

  predicate AllDigits(s: string)
  {
    forall i :: 0 <= i < |s| ==> IsDigit(s[i])
  }

  function DigitChar(d: int): (c: char)
    requires 0 <= d < 10
    ensures IsDigit(c) && c as int - '0' as int == d
  {
    ('0' as int + d) as char
  }

  /** The decimal digits of `n`, without leading zeros. */
  function NatToDecimal(n: nat): (s: string)
    ensures |s| > 0 && AllDigits(s)
    ensures |s| > 1 ==> s[0] != '0'
    decreases n
  {
    if n < 10 then [DigitChar(n)] else NatToDecimal(n / 10) + [DigitChar(n % 10)]
  }

  /** Integer.toString: a minus sign for negative values, then the digits. */
  function IntToString(n: int): (s: string)
    ensures n >= 0 ==> |s| > 0 && AllDigits(s) && (|s| > 1 ==> s[0] != '0')
    ensures n < 0 ==> |s| > 1 && s[0] == '-' && AllDigits(s[1..]) && (|s| > 2 ==> s[1] != '0')
  {
    if n < 0 then "-" + NatToDecimal(-n) else NatToDecimal(n)
  }

  /** The value of a string of decimal digits. */
  function DigitsValue(s: string): nat
    requires AllDigits(s)
  {
    if s == [] then 0 else DigitsValue(s[..|s| - 1]) * 10 + (s[|s| - 1] as int - '0' as int)
  }

  /** Integer.parseInt for decimal strings with an optional minus sign. */
  function ParseInt(s: string): Option<int>
  {
    if |s| > 1 && s[0] == '-' && AllDigits(s[1..]) then Some(-(DigitsValue(s[1..]) as int))
    else if |s| > 0 && AllDigits(s) then Some(DigitsValue(s))
    else None
  }

  lemma {:induction false} DigitsValueOfNat(n: nat)
    ensures DigitsValue(NatToDecimal(n)) == n
    decreases n
  {
    if n >= 10 {
      DigitsValueOfNat(n / 10);
      var s := NatToDecimal(n);
      assert s[..|s| - 1] == NatToDecimal(n / 10);
    }
  }

  /** The decimal rendering of an int reads back as that int. */
  lemma IntToStringRoundTrip(n: int)
    ensures ParseInt(IntToString(n)) == Some(n)
  {
    if n < 0 {
      DigitsValueOfNat(-n);
      assert IntToString(n)[1..] == NatToDecimal(-n);
    } else {
      DigitsValueOfNat(n);
    }
  }

  // ---------------------------------------------------------------------
  // Strings
  // ---------------------------------------------------------------------

  /** Character.isWhitespace as of Java 9, whose character data follows
      Unicode 8.0: the space, line and paragraph separators (general
      categories Zs, Zl, Zp) other than the non-breaking spaces, and the
      ASCII controls HT, LF, VT, FF, CR and FS, GS, RS, US. From Unicode 6.3
      on, U+180E is not a space separator; Java 8 and earlier still count it
      as whitespace, which this predicate does not. */
  predicate IsWhitespace(c: char)
  {
    || c == ' '
    || ('\t' <= c <= '\r')
    || ('\U{1C}' <= c <= '\U{1F}')
    || c == '\U{1680}'
    || ('\U{2000}' <= c <= '\U{200A}' && c != '\U{2007}')
    || c == '\U{2028}' || c == '\U{2029}'
    || c == '\U{205F}' || c == '\U{3000}'
  }

  /** StringUtils.isNotBlank on a non-null string: some character is not
      whitespace (so the empty string is blank). */
  predicate IsNotBlank(s: string)
  {
    exists i :: 0 <= i < |s| && !IsWhitespace(s[i])
  }

  predicate StartsWith(s: string, prefix: string)
  {
    |prefix| <= |s| && s[..|prefix|] == prefix
  }

  /** String.endsWith: an exact, case-sensitive suffix test. */
  predicate EndsWith(s: string, suffix: string)
  {
    |suffix| <= |s| && s[|s| - |suffix|..] == suffix
  }

  /** String.indexOf for one character, with |s| standing for "not found". */
  function IndexOf(s: string, c: char): (k: nat)
    ensures k <= |s|
    ensures k < |s| ==> s[k] == c
    ensures forall i :: 0 <= i < k ==> s[i] != c
  {
    if s == [] then 0 else if s[0] == c then 0 else 1 + IndexOf(s[1..], c)
  }

  /** The first occurrence of `c` in `a + b` is just past `a` when `a` has
      none and `b` starts with one. */
  lemma IndexOfAfter(a: string, b: string, c: char)
    requires c !in a
    requires b == [] || b[0] == c
    ensures IndexOf(a + b, c) == |a|
  {
    assert forall i :: 0 <= i < |a| ==> (a + b)[i] == a[i] && a[i] in a;
    assert b != [] ==> (a + b)[|a|] == c;
  }
}
