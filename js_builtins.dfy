/**
 * The three JavaScript built-ins the poll logic relies on:
 * `String.prototype.includes`, `parseInt` (no radix given) and `Array.prototype.includes`.
 */
module JsBuiltins {
  import opened PollTypes

  /** `t` occurs in `s` starting at position `i`. */
  predicate OccursAt(s: string, t: string, i: nat)
  {
    i + |t| <= |s| && s[i..i + |t|] == t
  }

  /** `s.includes(t)`: does `t` occur in `s` as a contiguous substring? */
  function StringIncludes(s: string, t: string): (r: bool)
    ensures r <==> exists i: nat :: OccursAt(s, t, i)
    decreases |s|
  {
    if |s| < |t| then false
    else if s[..|t|] == t then
      assert OccursAt(s, t, 0);
      true
    else
      var rest := StringIncludes(s[1..], t);
      assert forall i: nat :: OccursAt(s[1..], t, i) ==> OccursAt(s, t, i + 1) by {
        forall i: nat | OccursAt(s[1..], t, i) ensures OccursAt(s, t, i + 1) {
          assert s[1..][i..i + |t|] == s[i + 1..i + 1 + |t|];
        }
      }
      assert forall i: nat :: 1 <= i && OccursAt(s, t, i) ==> OccursAt(s[1..], t, i - 1) by {
        forall i: nat | 1 <= i && OccursAt(s, t, i) ensures OccursAt(s[1..], t, i - 1) {
          assert s[1..][i - 1..i - 1 + |t|] == s[i..i + |t|];
        }
      }
      rest
  }

  /** `t` cannot occur where its first character does not. */
  lemma FirstCharAbsent(s: string, t: string)
    requires |t| > 0
    requires |t| <= |s| ==> t[0] !in s[..|s| - |t| + 1]
    ensures !StringIncludes(s, t)
  {
    forall i: nat ensures !OccursAt(s, t, i) {
      if i + |t| <= |s| {
        assert s[i..i + |t|][0] == s[i];
        assert s[..|s| - |t| + 1][i] == s[i];
      }
    }
  }

  predicate IsDigit(c: char)
  {
    '0' <= c <= '9'
  }

  /** The longest prefix of `s` made only of decimal digits. */
  function LeadingDigits(s: string): (d: string)
    ensures |d| <= |s| && d == s[..|d|]
    ensures forall i :: 0 <= i < |d| ==> IsDigit(d[i])
    ensures |d| < |s| ==> !IsDigit(s[|d|])
  {
    if s == [] || !IsDigit(s[0]) then [] else [s[0]] + LeadingDigits(s[1..])
  }

  function DigitValue(c: char): nat
    requires IsDigit(c)
  {
    c as int - '0' as int
  }

  /** The number a string of decimal digits denotes. */
  function DecimalValue(d: string): nat
    requires forall i :: 0 <= i < |d| ==> IsDigit(d[i])
  {
    if d == [] then 0 else DecimalValue(d[..|d| - 1]) * 10 + DigitValue(d[|d| - 1])
  }

  predicate IsHexDigit(c: char)
  {
    IsDigit(c) || 'a' <= c <= 'f' || 'A' <= c <= 'F'
  }

  /** The longest prefix of `s` made only of hexadecimal digits. */
  function LeadingHexDigits(s: string): (d: string)
    ensures |d| <= |s| && d == s[..|d|]
    ensures forall i :: 0 <= i < |d| ==> IsHexDigit(d[i])
    ensures |d| < |s| ==> !IsHexDigit(s[|d|])
  {
    if s == [] || !IsHexDigit(s[0]) then [] else [s[0]] + LeadingHexDigits(s[1..])
  }

  function HexDigitValue(c: char): nat
    requires IsHexDigit(c)
  {
    if IsDigit(c) then DigitValue(c)
    else if 'a' <= c <= 'f' then c as int - 'a' as int + 10
    else c as int - 'A' as int + 10
  }

  /** The number a string of hexadecimal digits denotes. */
  function HexValue(h: string): nat
    requires forall i :: 0 <= i < |h| ==> IsHexDigit(h[i])
  {
    if h == [] then 0 else HexValue(h[..|h| - 1]) * 16 + HexDigitValue(h[|h| - 1])
  }

  /** `parseInt` without a radix reads `s` in base 16 when it starts with "0x" or "0X". */
  predicate HexPrefixed(s: string)
  {
    |s| >= 2 && s[0] == '0' && (s[1] == 'x' || s[1] == 'X')
  }

  /**
   * `parseInt(s)`: the value of the leading hexadecimal digits after a "0x"
   * prefix, otherwise of the leading decimal digits, or `NaN` (here
   * `Undefined`) when there are none. A string that does not start with a
   * digit is `NaN`; one that does is a number unless it is "0x" followed by
   * no hexadecimal digit.
   */
  function ParseInt(s: string): (r: Field<nat>)
    ensures r.Defined? ==> |s| > 0 && IsDigit(s[0])
    ensures |s| > 0 && IsDigit(s[0]) && !HexPrefixed(s) ==> r.Defined?
    ensures HexPrefixed(s) ==> (r.Defined? <==> |s| > 2 && IsHexDigit(s[2]))
  {
    if HexPrefixed(s) then
      var h := LeadingHexDigits(s[2..]);
      if h == [] then Undefined else Defined(HexValue(h))
    else
      var d := LeadingDigits(s);
      if d == [] then Undefined else Defined(DecimalValue(d))
  }

  /** The decimal rendering of `n`, as a form field name carries a question index. */
  function DecimalString(n: nat): (d: string)
    ensures |d| > 0
    ensures forall i :: 0 <= i < |d| ==> IsDigit(d[i])
  {
    if n < 10 then [('0' as int + n) as char]
    else DecimalString(n / 10) + [('0' as int + n % 10) as char]
  }

  /**
   * `parseInt` reads back every index written in decimal, whatever follows
   * it, except that "0" followed by "x" or "X" starts a hexadecimal number.
   */
  lemma {:induction false} ParseIntDecimalString(n: nat, suffix: string)
    requires suffix == [] || !IsDigit(suffix[0])
    requires n == 0 && suffix != [] ==> suffix[0] != 'x' && suffix[0] != 'X'
    ensures ParseInt(DecimalString(n) + suffix) == Defined(n)
  {
    var d := DecimalString(n);
    if n > 0 {
      DecimalStringLeadingDigit(n);
    } else {
      assert |d| == 1;
    }
    assert (d + suffix)[0] == d[0];
    LeadingDigitsOfDigitsThen(d, suffix);
    DecimalValueOfDecimalString(n);
  }

  /** A positive number is written without a leading zero. */
  lemma {:induction false} DecimalStringLeadingDigit(n: nat)
    requires n > 0
    ensures DecimalString(n)[0] != '0'
  {
    if n >= 10 {
      DecimalStringLeadingDigit(n / 10);
    }
  }

  /** `parseInt` reads "0x" and "0X" numbers in base 16, and "0x" alone as `NaN`. */
  lemma HexKeys()
    ensures ParseInt("0x1") == Defined(1)
    ensures ParseInt("0X1f") == Defined(31)
    ensures ParseInt("0x") == Undefined
    ensures ParseInt("0xg") == Undefined
  {
    assert LeadingHexDigits("1") == "1";
    assert "1"[..0] == [];
    assert LeadingHexDigits("1f") == "1f";
    assert "1f"[..1] == "1";
    assert LeadingHexDigits("g") == [];
  }

  lemma {:induction false} LeadingDigitsOfDigitsThen(d: string, suffix: string)
    requires forall i :: 0 <= i < |d| ==> IsDigit(d[i])
    requires suffix == [] || !IsDigit(suffix[0])
    ensures LeadingDigits(d + suffix) == d
  {
    if d != [] {
      assert (d + suffix)[1..] == d[1..] + suffix;
      LeadingDigitsOfDigitsThen(d[1..], suffix);
    }
  }

  lemma {:induction false} DecimalValueOfDecimalString(n: nat)
    ensures DecimalValue(DecimalString(n)) == n
  {
    if n >= 10 {
      var d := DecimalString(n);
      assert d[..|d| - 1] == DecimalString(n / 10);
      DecimalValueOfDecimalString(n / 10);
    }
  }

  /** `xs.includes(x)`, scanning from the front. */
  function ArrayIncludes(xs: seq<string>, x: string): (r: bool)
    ensures r <==> x in xs
  {
    if xs == [] then false else xs[0] == x || ArrayIncludes(xs[1..], x)
  }
}
