/**
 * Models of the JavaScript built-ins the core relies on: `String.prototype.split`
 * with a one-character separator, `Number(s)`, `parseInt(s)`, `Array.prototype.indexOf`
 * and bitwise `~`, together with the decimal digit strings that `toISOString` prints.
 */
module JsBuiltins {

  /** A JavaScript number as far as the core uses it: NaN or an integer. */
  datatype Numeric = NaN | Num(value: int)

  /* ---------------------------------------------------------------- digits */

  predicate IsDigit(c: char) {
    '0' <= c <= '9'
  }

  predicate IsDigits(s: string) {
    forall i :: 0 <= i < |s| ==> IsDigit(s[i])
  }

  function DigitValue(c: char): nat
    requires IsDigit(c)
  {
    (c as int) - ('0' as int)
  }

  function DigitChar(k: nat): (c: char)
    requires k < 10
    ensures IsDigit(c) && DigitValue(c) == k
  {
    (('0' as int) + k) as char
  }

  /** The value of a decimal digit string, most significant digit first. */
  function DigitsValue(s: string): nat
    requires IsDigits(s)
    decreases |s|
  {
    if s == [] then 0 else DigitsValue(s[..|s| - 1]) * 10 + DigitValue(s[|s| - 1])
  }

  function Pow10(w: nat): nat {
    if w == 0 then 1 else 10 * Pow10(w - 1)
  }

  /** The last `w` decimal digits of `n`, left-padded with zeros. */
  function PadDigits(n: nat, w: nat): (s: string)
    ensures |s| == w && IsDigits(s)
  {
    if w == 0 then "" else PadDigits(n / 10, w - 1) + [DigitChar(n % 10)]
  }

  /** Zero-padding a number that fits in `w` digits loses nothing. */
  lemma {:induction false} PadDigitsValue(n: nat, w: nat)
    requires n < Pow10(w)
    ensures DigitsValue(PadDigits(n, w)) == n
  {
    if w > 0 {
      var s := PadDigits(n, w);
      assert n / 10 < Pow10(w - 1);
      PadDigitsValue(n / 10, w - 1);
      assert s[..|s| - 1] == PadDigits(n / 10, w - 1);
    }
  }

  /* ----------------------------------------------------------------- split */

  /** `s.split(sep)`: the maximal separator-free pieces between separators. */
  function Split(s: string, sep: char): (parts: seq<string>)
    ensures |parts| >= 1
    ensures forall i :: 0 <= i < |parts| ==> sep !in parts[i]
    decreases |s|
  {
    if s == [] then [""]
    else
      var rest := Split(s[1..], sep);
      if s[0] == sep then [""] + rest
      else [[s[0]] + rest[0]] + rest[1..]
  }

  /** `parts.join(sep)`, the inverse of `Split`. */
  function Join(parts: seq<string>, sep: char): string
    requires |parts| >= 1
  {
    if |parts| == 1 then parts[0] else parts[0] + [sep] + Join(parts[1..], sep)
  }

  /** How many times `c` occurs in `s`. */
  function Occurrences(s: string, c: char): nat {
    if s == [] then 0 else (if s[0] == c then 1 else 0) + Occurrences(s[1..], c)
  }

  /** Splitting loses nothing: joining the pieces rebuilds the string. */
  lemma {:induction false} JoinOfSplit(s: string, sep: char)
    ensures Join(Split(s, sep), sep) == s
  {
    if s != [] {
      JoinOfSplit(s[1..], sep);
      var rest := Split(s[1..], sep);
      if s[0] != sep {
        if |rest| > 1 {
          assert ([[s[0]] + rest[0]] + rest[1..])[1..] == rest[1..];
        }
      }
    }
  }

  /** Joining separator-free pieces and splitting again gives the pieces back. */
  lemma {:induction false} SplitOfJoin(parts: seq<string>, sep: char)
    requires |parts| >= 1
    requires forall i :: 0 <= i < |parts| ==> sep !in parts[i]
    ensures Split(Join(parts, sep), sep) == parts
  {
    if |parts| == 1 {
      SplitOfSeparatorFree(parts[0], sep);
    } else {
      SplitOfJoin(parts[1..], sep);
      SplitPrefix(parts[0], Join(parts[1..], sep), sep);
      assert [parts[0]] + parts[1..] == parts;
    }
  }

  lemma {:induction false} SplitOfSeparatorFree(a: string, sep: char)
    requires sep !in a
    ensures Split(a, sep) == [a]
  {
    if a != [] {
      SplitOfSeparatorFree(a[1..], sep);
      assert [a[0]] + a[1..] == a;
    }
  }

  /** A separator-free prefix followed by a separator becomes the first piece. */
  lemma {:induction false} SplitPrefix(a: string, b: string, sep: char)
    requires sep !in a
    ensures Split(a + [sep] + b, sep) == [a] + Split(b, sep)
  {
    if a == [] {
      assert a + [sep] + b == [sep] + b;
      assert ([sep] + b)[1..] == b;
    } else {
      SplitPrefix(a[1..], b, sep);
      assert (a + [sep] + b)[1..] == a[1..] + [sep] + b;
      assert [a[0]] + a[1..] == a;
    }
  }

  /** `s.split(sep)` has one piece more than `s` has separators. */
  lemma {:induction false} SplitLength(s: string, sep: char)
    ensures |Split(s, sep)| == Occurrences(s, sep) + 1
  {
    if s != [] {
      SplitLength(s[1..], sep);
    }
  }

  /* ---------------------------------------------------------------- Number */

  /**
   * `Number(s)` on the strings the core passes it: the empty string is 0, a
   * decimal digit string with an optional sign is its value, and anything else
   * is NaN (whitespace, fractions, exponents, hexadecimal and "Infinity" are
   * not modelled).
   */
  function ToNumber(s: string): (n: Numeric)
    ensures IsDigits(s) ==> n == Num(DigitsValue(s))
    ensures n.Num? && n.value < 0 ==> |s| > 1 && s[0] == '-'
  {
    if s == [] then Num(0)
    else if |s| > 1 && s[0] == '+' && IsDigits(s[1..]) then Num(DigitsValue(s[1..]))
    else if |s| > 1 && s[0] == '-' && IsDigits(s[1..]) then Num(0 - DigitsValue(s[1..]))
    else if IsDigits(s) then Num(DigitsValue(s))
    else NaN
  }

  /* -------------------------------------------------------------- parseInt */

  /** The length of the longest all-digit prefix of `s`. */
  function DigitPrefixLength(s: string): (k: nat)
    ensures k <= |s| && IsDigits(s[..k])
    ensures k < |s| ==> !IsDigit(s[k])
  {
    if s == [] || !IsDigit(s[0]) then 0
    else
      var k := DigitPrefixLength(s[1..]) + 1;
      assert s[..k] == [s[0]] + s[1..][..k - 1];
      k
  }

  /**
   * `parseInt(s)` with no radix: an optional sign, then the longest run of
   * decimal digits; NaN when that run is empty (leading whitespace and the
   * `0x` prefix are not modelled).
   */
  function ParseInt(s: string): Numeric {
    var signed := |s| > 0 && (s[0] == '-' || s[0] == '+');
    var body := if signed then s[1..] else s;
    var k := DigitPrefixLength(body);
    if k == 0 then NaN
    else if |s| > 0 && s[0] == '-' then Num(0 - DigitsValue(body[..k]))
    else Num(DigitsValue(body[..k]))
  }

  /** parseInt reads a whole unsigned digit string as its value. */
  lemma ParseIntOfDigits(s: string)
    requires s != [] && IsDigits(s)
    ensures ParseInt(s) == Num(DigitsValue(s))
  {
    var k := DigitPrefixLength(s);
    if k < |s| { assert false; }
    assert s[..k] == s;
  }

  /** parseInt stops at the first character that is not a digit. */
  lemma ParseIntIgnoresSuffix(digits: string, rest: string)
    requires digits != [] && IsDigits(digits)
    requires rest != [] && !IsDigit(rest[0])
    ensures ParseInt(digits + rest) == Num(DigitsValue(digits))
  {
    var s := digits + rest;
    var k := DigitPrefixLength(s);
    assert s[|digits|] == rest[0];
    if k < |digits| { assert false; }
    if k > |digits| { assert false; }
    assert s[..k] == digits;
  }

  /** A sign in front of the digits is read as the number's sign. */
  lemma ParseIntOfSigned(digits: string)
    requires digits != [] && IsDigits(digits)
    ensures ParseInt("-" + digits) == Num(0 - DigitsValue(digits))
    ensures ParseInt("+" + digits) == Num(DigitsValue(digits))
  {
    assert ("-" + digits)[1..] == digits;
    assert ("+" + digits)[1..] == digits;
    ParseIntOfDigits(digits);
  }

  /** Text with no digit after its optional sign reads as NaN. */
  lemma ParseIntWithoutDigits(s: string)
    requires var body := if s != [] && (s[0] == '-' || s[0] == '+') then s[1..] else s;
      body == [] || !IsDigit(body[0])
    ensures ParseInt(s) == NaN
  {
  }

  /* ------------------------------------------------------- indexOf and ~ */

  /** `xs.indexOf(x)`: the first position holding `x`, or -1. */
  function IndexOf(xs: seq<string>, x: string): (i: int)
    ensures -1 <= i < |xs|
    ensures i >= 0 ==> xs[i] == x && forall j :: 0 <= j < i ==> xs[j] != x
    ensures i == -1 <==> x !in xs
  {
    if xs == [] then -1
    else if xs[0] == x then 0
    else
      var i := IndexOf(xs[1..], x);
      if i == -1 then -1 else i + 1
  }

  /**
   * Bitwise `~`, which JavaScript applies to the 32-bit two's-complement value
   * of its operand: `-n - 1` in the int32 range, and zero only for -1 among the
   * values indexOf can return.
   */
  function BitwiseNot(n: int): (r: int)
    ensures r == 0 <==> n == -1
  {
    -n - 1
  }

  /** `~xs.indexOf(x)` is truthy (non-zero) exactly when `x` occurs in `xs`. */
  lemma NotIndexOfIsMembership(xs: seq<string>, x: string)
    ensures BitwiseNot(IndexOf(xs, x)) != 0 <==> x in xs
  {
  }
}
