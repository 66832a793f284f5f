/**
 * The parts of the Java standard library the app leans on, stated over Dafny
 * values: nullable references, exceptions, 32- and 64-bit integers, decimal
 * conversion, and the `String` methods the app calls.
 *
 * Characters are Unicode scalar values; case conversion covers ASCII only.
 */
module JavaLang {

  /** A Java reference that may be null. */
  datatype Option<+T> = None | Some(value: T)
  {
    function GetOr(default: T): T
    {
      if Some? then value else default
    }
  }

  /** The outcome of a Java call that may throw: a value, or the name of the exception thrown. */
  datatype Result<+T> = Ok(value: T) | Thrown(exception: string)

  const NPE: string := "NullPointerException"
  const ILLEGAL_ARGUMENT: string := "IllegalArgumentException"

  const INT_MIN: int := -0x8000_0000
  const INT_MAX: int := 0x7FFF_FFFF
  const LONG_MIN: int := -0x8000_0000_0000_0000
  const LONG_MAX: int := 0x7FFF_FFFF_FFFF_FFFF

  /** Java `int`. */
  type Int32 = x: int | -0x8000_0000 <= x <= 0x7FFF_FFFF
  /** Java `long`. */
  type Int64 = x: int | -0x8000_0000_0000_0000 <= x <= 0x7FFF_FFFF_FFFF_FFFF

  /** Two's-complement wrap-around of a Java `int` operation. */
  function Wrap32(x: int): (r: Int32)
    ensures INT_MIN <= x <= INT_MAX ==> r == x
    ensures INT_MAX < x <= INT_MAX + 0x1_0000_0000 ==> r == x - 0x1_0000_0000
    ensures INT_MIN - 0x1_0000_0000 <= x < INT_MIN ==> r == x + 0x1_0000_0000
    ensures (r - x) % 0x1_0000_0000 == 0
  {
    var m := (x - INT_MIN) % 0x1_0000_0000;
    assert m - (x - INT_MIN) == -0x1_0000_0000 * ((x - INT_MIN) / 0x1_0000_0000);
    m + INT_MIN
  }

  /** Two's-complement wrap-around of a Java `long` operation. */
  function Wrap64(x: int): (r: Int64)
    ensures LONG_MIN <= x <= LONG_MAX ==> r == x
    ensures (r - x) % 0x1_0000_0000_0000_0000 == 0
  {
    var m := (x - LONG_MIN) % 0x1_0000_0000_0000_0000;
    assert m - (x - LONG_MIN) == -0x1_0000_0000_0000_0000 * ((x - LONG_MIN) / 0x1_0000_0000_0000_0000);
    m + LONG_MIN
  }

  /** Java integer division, which truncates toward zero (Dafny's `/` is Euclidean). */
  function JavaDiv(a: int, b: int): (q: int)
    requires b != 0
    ensures a >= 0 && b > 0 ==> q == a / b
    ensures (a >= 0) == (b > 0) || a == 0 ==> q >= 0
    ensures (a >= 0) != (b > 0) ==> q <= 0
    ensures (if q * b <= a then a - q * b else q * b - a) < (if b > 0 then b else -b)
    ensures a - q * b == 0 || (a - q * b > 0 <==> a > 0)
  {
    if a >= 0 then
      if b > 0 then DivPositive(a, b); a / b
      else DivNegativeDivisor(a, b); -(a / -b)
    else
      if b > 0 then DivNegativeDividend(a, b); -((-a) / b)
      else DivBothNegative(a, b); (-a) / (-b)
  }

  /** The Euclidean quotient of naturals leaves a remainder below the divisor. */
  lemma DivBounds(x: nat, y: int)
    requires y > 0
    ensures x / y >= 0 && (x / y) * y <= x < (x / y) * y + y
  {
  }

  lemma DivPositive(a: nat, b: int)
    requires b > 0
    ensures var q := a / b; q >= 0 && q * b <= a && a - q * b < b
  {
    DivBounds(a, b);
  }

  lemma DivNegativeDivisor(a: nat, b: int)
    requires b < 0
    ensures var q := -(a / -b); q <= 0 && q * b <= a && a - q * b < -b
  {
    var d := a / -b;
    DivBounds(a, -b);
    assert -d * b == d * -b;
  }

  lemma DivNegativeDividend(a: int, b: int)
    requires a < 0 && b > 0
    ensures var q := -((-a) / b); q <= 0 && q * b >= a && q * b - a < b
  {
    var d := (-a) / b;
    DivBounds(-a, b);
    assert -d * b == -(d * b);
  }

  lemma DivBothNegative(a: int, b: int)
    requires a < 0 && b < 0
    ensures var q := (-a) / (-b); q >= 0 && q * b >= a && q * b - a < -b
  {
    var d := (-a) / (-b);
    DivBounds(-a, -b);
    assert d * b == -(d * -b);
  }

  // ---------------------------------------------------------------- decimal

  predicate IsDigit(c: char)
  {
    '0' <= c <= '9'
  }

  predicate AllDigits(s: string)
  {
    forall i :: 0 <= i < |s| ==> IsDigit(s[i])
  }

  function DigitChar(d: nat): (c: char)
    requires d < 10
    ensures IsDigit(c) && c as int - '0' as int == d
  {
    "0123456789"[d]
  }

  /** Decimal digits of a natural number, most significant first, no leading zeros. */
  function NatToDecimal(n: nat): (s: string)
    ensures 1 <= |s| && AllDigits(s)
    ensures |s| > 1 ==> s[0] != '0'
    decreases n
  {
    if n < 10 then [DigitChar(n)] else NatToDecimal(n / 10) + [DigitChar(n % 10)]
  }

  /** `String.valueOf(int)` / `Integer.toString`: the string concatenation of an integer. */
  function IntToDecimal(n: int): (s: string)
    ensures 1 <= |s|
    ensures n >= 0 <==> s[0] != '-'
  {
    if n < 0 then "-" + NatToDecimal(-n) else NatToDecimal(n)
  }

  /** The value of a string of decimal digits, read most significant first. */
  function DigitsValue(s: string): nat
    requires AllDigits(s)
  {
    if s == [] then 0 else DigitsValue(s[..|s| - 1]) * 10 + (s[|s| - 1] as int - '0' as int)
  }

  lemma {:induction false} DigitsValueOfDecimal(n: nat)
    ensures DigitsValue(NatToDecimal(n)) == n
    decreases n
  {
    if n >= 10 {
      var s := NatToDecimal(n);
      assert s[..|s| - 1] == NatToDecimal(n / 10);
      DigitsValueOfDecimal(n / 10);
    }
  }

  /**
   * `Integer.parseInt`: an optional sign followed by at least one ASCII digit,
   * whose value fits in an `int`; anything else (null included) is a
   * NumberFormatException, modelled as None.
   */
  function ParseInt(s: Option<string>): (r: Option<Int32>)
    ensures s.None? || s.value == [] ==> r.None?
    ensures r.Some? ==> AllDigits(s.value[1..]) && (AllDigits(s.value) || s.value[0] in "+-")
    ensures r.Some? ==> r.value == (if s.value[0] == '-' then -(DigitsValue(s.value[1..]) as int)
                                    else if s.value[0] == '+' then DigitsValue(s.value[1..])
                                    else DigitsValue(s.value))
  {
    if s.None? || s.value == [] then None
    else
      var t := s.value;
      var negative := t[0] == '-';
      var digits := if t[0] == '-' || t[0] == '+' then t[1..] else t;
      if digits == [] || !AllDigits(digits) then None
      else
        var v: int := if negative then -(DigitsValue(digits) as int) else DigitsValue(digits);
        if INT_MIN <= v <= INT_MAX then Some(v) else None
  }

  /**
   * Every optional sign followed by at least one digit whose value fits in
   * an `int` parses, to that value.
   */
  lemma ParseIntComplete(sign: string, digits: string)
    requires sign == "" || sign == "+" || sign == "-"
    requires digits != [] && AllDigits(digits)
    requires INT_MIN <= (if sign == "-" then -(DigitsValue(digits) as int) else DigitsValue(digits)) <= INT_MAX
    ensures ParseInt(Some(sign + digits)) == Some(if sign == "-" then -(DigitsValue(digits) as int) else DigitsValue(digits))
  {
    var t := sign + digits;
    if sign == "" {
      assert t == digits;
      assert IsDigit(t[0]);
    } else {
      assert t[1..] == digits;
    }
  }

  /** Parsing what `Integer.toString` printed gives the number back. */
  lemma ParseIntOfDecimal(n: Int32)
    ensures ParseInt(Some(IntToDecimal(n))) == Some(n)
  {
    if n < 0 {
      var m: nat := -(n as int);
      DigitsValueOfDecimal(m);
      assert IntToDecimal(n)[1..] == NatToDecimal(m);
    } else {
      DigitsValueOfDecimal(n);
    }
  }

  // ---------------------------------------------------------------- strings

  /** The text a Java string concatenation produces for a possibly null string. */
  function JavaStr(s: Option<string>): (r: string)
    ensures s.Some? ==> r == s.value
    ensures s.None? ==> r == "null"
  {
    match s
    case None => "null"
    case Some(v) => v
  }

  /** `String.trim` removes every leading and trailing char whose code is at most U+0020. */
  predicate TrimmedAway(c: char)
  {
    c <= ' '
  }

  function TrimStart(s: string): (r: string)
    ensures |r| <= |s| && r == s[|s| - |r|..]
    ensures r == [] || !TrimmedAway(r[0])
    ensures forall i :: 0 <= i < |s| - |r| ==> TrimmedAway(s[i])
  {
    if s != [] && TrimmedAway(s[0]) then TrimStart(s[1..]) else s
  }

  function TrimEnd(s: string): (r: string)
    ensures |r| <= |s| && r == s[..|r|]
    ensures r == [] || !TrimmedAway(r[|r| - 1])
    ensures forall i :: |r| <= i < |s| ==> TrimmedAway(s[i])
  {
    if s != [] && TrimmedAway(s[|s| - 1]) then TrimEnd(s[..|s| - 1]) else s
  }

  /**
   * `String.trim`: what is left after dropping characters up to U+0020 from
   * both ends, which neither starts nor ends with one.
   */
  function Trim(s: string): (r: string)
    ensures |r| <= |s|
    ensures r == [] || (!TrimmedAway(r[0]) && !TrimmedAway(r[|r| - 1]))
  {
    TrimEnd(TrimStart(s))
  }

  /** The trim is a slice of `s`, and every character cut from either side is one up to U+0020. */
  lemma TrimIsSlice(s: string)
    ensures exists i, j ::
              && 0 <= i <= j <= |s| && Trim(s) == s[i..j]
              && (forall k :: 0 <= k < i ==> TrimmedAway(s[k]))
              && (forall k :: j <= k < |s| ==> TrimmedAway(s[k]))
  {
    var t := TrimStart(s);
    var r := TrimEnd(t);
    TrimmedSlice(s, t, r);
  }

  /**
   * A prefix `r` of a suffix `t` of `s`, where only trimmed characters are
   * cut from `s` before `t` and from `t` after `r`, is a slice of `s` with
   * only trimmed characters on either side.
   */
  lemma TrimmedSlice(s: string, t: string, r: string)
    requires |t| <= |s| && t == s[|s| - |t|..] && |r| <= |t| && r == t[..|r|]
    requires forall k :: |r| <= k < |t| ==> TrimmedAway(t[k])
    ensures r == s[|s| - |t|..|s| - |t| + |r|]
    ensures forall k :: |s| - |t| + |r| <= k < |s| ==> TrimmedAway(s[k])
  {
    var i := |s| - |t|;
    forall k | i + |r| <= k < |s| ensures TrimmedAway(s[k]) {
      assert s[k] == t[k - i];
    }
  }

  /** `s.trim().isEmpty()`: every character of `s` is trimmed away. */
  predicate IsBlank(s: string)
  {
    Trim(s) == []
  }

  lemma BlankIffAllTrimmed(s: string)
    ensures IsBlank(s) <==> forall i :: 0 <= i < |s| ==> TrimmedAway(s[i])
  {
    var t := TrimStart(s);
    assert t == [] || t[0] == s[|s| - |t|];
  }

  /** A string that neither starts nor ends with a trimmed character is its own trim. */
  lemma TrimOfNonBlankEnds(s: string)
    requires s == [] || (!TrimmedAway(s[0]) && !TrimmedAway(s[|s| - 1]))
    ensures Trim(s) == s
  {
    assert TrimStart(s) == s;
  }

  lemma TrimIdempotent(s: string)
    ensures Trim(Trim(s)) == Trim(s)
  {
    TrimOfNonBlankEnds(Trim(s));
  }

  function LowerChar(c: char): (d: char)
    ensures 'A' <= c <= 'Z' ==> d as int == c as int + 32
    ensures !('A' <= c <= 'Z') ==> d == c
  {
    if 'A' <= c <= 'Z' then (c as int + 32) as char else c
  }

  function UpperChar(c: char): (d: char)
    ensures 'a' <= c <= 'z' ==> d as int == c as int - 32
    ensures !('a' <= c <= 'z') ==> d == c
  {
    if 'a' <= c <= 'z' then (c as int - 32) as char else c
  }

  /** `String.toLowerCase` on ASCII letters. */
  function ToLower(s: string): (r: string)
    ensures |r| == |s|
    ensures forall i :: 0 <= i < |s| ==> r[i] == LowerChar(s[i])
  {
    seq(|s|, i requires 0 <= i < |s| => LowerChar(s[i]))
  }

  /** `String.toUpperCase` on ASCII letters. */
  function ToUpper(s: string): (r: string)
    ensures |r| == |s|
    ensures forall i :: 0 <= i < |s| ==> r[i] == UpperChar(s[i])
  {
    seq(|s|, i requires 0 <= i < |s| => UpperChar(s[i]))
  }

  /** `a.equalsIgnoreCase(b)`: false when `b` is null. */
  predicate EqualsIgnoreCase(a: string, b: Option<string>)
  {
    b.Some? && ToLower(a) == ToLower(b.value)
  }

  lemma EqualsIgnoreCaseSymmetric(a: string, b: string)
    ensures EqualsIgnoreCase(a, Some(b)) <==> EqualsIgnoreCase(b, Some(a))
  {
  }

  /** `s.startsWith(p)`. */
  predicate StartsWith(s: string, p: string)
  {
    p <= s
  }

  /** `s.endsWith(p)`. */
  predicate EndsWith(s: string, p: string)
  {
    |p| <= |s| && s[|s| - |p|..] == p
  }

  /** `sub` occurs in `s` starting at index `i`. */
  predicate OccursAt(s: string, sub: string, i: int)
  {
    0 <= i <= |s| - |sub| && s[i..i + |sub|] == sub
  }

  /** `s.contains(sub)`: `sub` occurs at some position of `s`. */
  predicate Contains(s: string, sub: string)
    decreases |s|
  {
    sub <= s || (s != [] && Contains(s[1..], sub))
  }

  lemma {:induction false} ContainsIffOccurs(s: string, sub: string)
    ensures Contains(s, sub) <==> exists i :: OccursAt(s, sub, i)
    decreases |s|
  {
    if s != [] {
      ContainsIffOccurs(s[1..], sub);
      if exists i :: OccursAt(s, sub, i) {
        var i :| OccursAt(s, sub, i);
        if i > 0 {
          assert s[1..][i - 1..i - 1 + |sub|] == s[i..i + |sub|];
          assert OccursAt(s[1..], sub, i - 1);
        } else {
          assert sub <= s;
        }
      }
      if Contains(s[1..], sub) {
        var i :| OccursAt(s[1..], sub, i);
        assert s[i + 1..i + 1 + |sub|] == s[1..][i..i + |sub|];
        assert OccursAt(s, sub, i + 1);
      } else if sub <= s {
        assert OccursAt(s, sub, 0);
      }
    } else {
      if sub == [] {
        assert OccursAt(s, sub, 0);
      }
    }
  }

  /**
   * `Character.isWhitespace`: the Unicode space, line and paragraph separators
   * other than the no-break spaces, plus the ASCII controls TAB, LF, VT, FF, CR
   * and U+001C..U+001F.
   */
  predicate IsWhitespace(c: char)
  {
    c == ' ' || ('\t' <= c <= '\r') || ('\U{1C}' <= c <= '\U{1F}')
    || c == '\U{1680}' || ('\U{2000}' <= c <= '\U{2006}') || ('\U{2008}' <= c <= '\U{200A}')
    || c == '\U{2028}' || c == '\U{2029}' || c == '\U{205F}' || c == '\U{3000}'
  }

  /** Every Java whitespace character is also removed by `String.trim`, except the non-ASCII ones. */
  lemma AsciiWhitespaceIsTrimmed(c: char)
    requires IsWhitespace(c) && c < '\U{80}'
    ensures TrimmedAway(c)
  {
  }
}
