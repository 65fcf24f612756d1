/**
  The parts of Java's value semantics the generator depends on: `int` and `long`
  wrap-around, `String.valueOf(int)` and `Integer.parseInt`, `String.isBlank`,
  `String.hashCode`, `Collectors.joining` and double-quote wrapping.
 */
module JavaText {
  import opened Wrappers

  const MIN_INT: int := -0x8000_0000
  const MAX_INT: int := 0x7fff_ffff
  const MIN_LONG: int := -0x8000_0000_0000_0000
  const MAX_LONG: int := 0x7fff_ffff_ffff_ffff
  const INT_RANGE: int := 0x1_0000_0000
  const LONG_RANGE: int := 0x1_0000_0000_0000_0000

  /** A Java `int`. */
  type Int32 = x: int | MIN_INT <= x <= MAX_INT

  /** A Java `long`. */
  type Int64 = x: int | MIN_LONG <= x <= MAX_LONG

  /** Two's-complement truncation of an exact result to 32 bits, as Java's `int` arithmetic does. */
  function Wrap32(x: int): (r: Int32)
    ensures MIN_INT <= x <= MAX_INT ==> r == x
  {
    (x - MIN_INT) % INT_RANGE + MIN_INT
  }

  /** Two's-complement truncation to 64 bits, as Java's `long` arithmetic does. */
  function Wrap64(x: int): (r: Int64)
    ensures MIN_LONG <= x <= MAX_LONG ==> r == x
  {
    (x - MIN_LONG) % LONG_RANGE + MIN_LONG
  }

  /** The int that an exact value `x` wraps to is the one int congruent to `x` modulo 2^32. */
  lemma WrapUnique(x: int, a: int, q: int)
    requires MIN_INT <= a <= MAX_INT
    requires x == a + q * INT_RANGE
    ensures Wrap32(x) == a
  {
    assert x - MIN_INT == (a - MIN_INT) + q * INT_RANGE;
  }

  lemma WrapDecompose(x: int)
    ensures x == Wrap32(x) + ((x - MIN_INT) / INT_RANGE) * INT_RANGE
  {
  }

  /** Adding to a wrapped value wraps like adding to the exact value: repeated `x++` on an int. */
  lemma WrapShift(x: int, m: int)
    ensures Wrap32(Wrap32(x) + m) == Wrap32(x + m)
  {
    var w := Wrap32(x);
    WrapDecompose(x);
    WrapDecompose(w + m);
    WrapUnique(x + m, Wrap32(w + m), (x - MIN_INT) / INT_RANGE + (w + m - MIN_INT) / INT_RANGE);
  }

  /** `x++` on an int: MAX_VALUE wraps around to MIN_VALUE. */
  function Inc32(x: Int32): Int32 {
    if x == MAX_INT then MIN_INT else x + 1
  }

  /** `k` increments in a row. */
  function Advanced(x: Int32, k: nat): Int32
    decreases k
  {
    if k == 0 then x else Advanced(Inc32(x), k - 1)
  }

  /** One more increment after `k` of them. */
  lemma {:induction false} AdvancedSnoc(x: Int32, k: nat)
    ensures Advanced(x, k + 1) == Inc32(Advanced(x, k))
    decreases k
  {
    if k > 0 {
      AdvancedSnoc(Inc32(x), k - 1);
    }
  }

  /** `k` increments of an int add `k` modulo 2^32. */
  lemma {:induction false} AdvancedIsWrap(x: Int32, k: nat)
    ensures Advanced(x, k) == Wrap32(x + k)
    decreases k
  {
    if k > 0 {
      AdvancedIsWrap(Inc32(x), k - 1);
      if x == MAX_INT {
        WrapUnique(x + 1, MIN_INT, 1);
      }
      assert Inc32(x) == Wrap32(x + 1);
      WrapShift(x + 1, k - 1);
    }
  }

  predicate IsDigit(c: char) {
    '0' <= c <= '9'
  }

  predicate AllDigits(s: string) {
    forall i :: 0 <= i < |s| ==> IsDigit(s[i])
  }

  function DigitChar(d: nat): (c: char)
    requires d < 10
    ensures IsDigit(c)
  {
    ('0' as int + d) as char
  }

  function DigitValue(c: char): (d: nat)
    requires IsDigit(c)
    ensures d < 10
  {
    c as int - '0' as int
  }

  /** Decimal digits of a non-negative number, most significant first, without leading zeros. */
  function NatToDecimal(n: nat): (s: string)
    ensures |s| > 0 && AllDigits(s)
    decreases n
  {
    if n < 10 then [DigitChar(n)] else NatToDecimal(n / 10) + [DigitChar(n % 10)]
  }

  /** The number a string of decimal digits denotes. */
  function DigitsValue(s: string): nat
    requires AllDigits(s)
    decreases |s|
  {
    if |s| == 0 then 0 else DigitsValue(s[..|s| - 1]) * 10 + DigitValue(s[|s| - 1])
  }

  /** `String.valueOf(int)`: a minus sign for negative values, then the decimal digits. */
  function IntToDecimal(x: int): string {
    if x < 0 then "-" + NatToDecimal(-x) else NatToDecimal(x)
  }

  /**
    `Integer.parseInt(s)`: an optional `-` or `+`, then at least one decimal digit,
    denoting a value that fits an int; None where Java throws NumberFormatException.
   */
  function ParseInt32(s: string): Option<Int32> {
    if |s| == 0 then None
    else
      var digits := if s[0] == '-' || s[0] == '+' then s[1..] else s;
      if |digits| == 0 || !AllDigits(digits) then None
      else
        var v: int := if s[0] == '-' then 0 - DigitsValue(digits) as int else DigitsValue(digits);
        if MIN_INT <= v <= MAX_INT then Some(v) else None
  }

  lemma {:induction false} DigitsRoundTrip(n: nat)
    ensures DigitsValue(NatToDecimal(n)) == n
    decreases n
  {
    if n >= 10 {
      var s := NatToDecimal(n / 10) + [DigitChar(n % 10)];
      assert s[..|s| - 1] == NatToDecimal(n / 10);
      DigitsRoundTrip(n / 10);
    }
  }

  /** Parsing what `String.valueOf` rendered gives back the same int. */
  lemma ParseRendered(x: Int32)
    ensures ParseInt32(IntToDecimal(x)) == Some(x)
  {
    if x < 0 {
      var m: nat := -(x as int);
      var d := NatToDecimal(m);
      var s := "-" + d;
      assert IntToDecimal(x) == s && s[0] == '-' && s[1..] == d;
      DigitsRoundTrip(m);
      assert DigitsValue(d) == m;
    } else {
      var d := NatToDecimal(x);
      assert IntToDecimal(x) == d && IsDigit(d[0]);
      DigitsRoundTrip(x);
    }
  }

  /** `Character.isWhitespace`: the ASCII controls 9-13 and 28-31, and the Unicode space, line and paragraph separators other than the non-breaking ones. */
  predicate IsWhitespace(c: char) {
    var u := c as int;
    (0x09 <= u <= 0x0D) || (0x1C <= u <= 0x20) || u == 0x1680 || (0x2000 <= u <= 0x2006)
    || (0x2008 <= u <= 0x200A) || u == 0x2028 || u == 0x2029 || u == 0x205F || u == 0x3000
  }

  /** `String.isBlank`: empty or only whitespace. */
  predicate IsBlank(s: string) {
    forall i :: 0 <= i < |s| ==> IsWhitespace(s[i])
  }

  /** `'"' + s + '"'`: wrapping in double quotes, with nothing inside escaped. */
  function Quote(s: string): string {
    "\"" + s + "\""
  }

  /** `Collectors.joining(sep)`: the parts in order with `sep` between neighbours only. */
  function Join(parts: seq<string>, sep: string): string
    decreases |parts|
  {
    if |parts| == 0 then ""
    else if |parts| == 1 then parts[0]
    else Join(parts[..|parts| - 1], sep) + sep + parts[|parts| - 1]
  }

  lemma JoinSnoc(parts: seq<string>, x: string, sep: string)
    ensures Join(parts + [x], sep) == if |parts| == 0 then x else Join(parts, sep) + sep + x
  {
    assert (parts + [x])[..|parts|] == parts;
  }

  /** `String.hashCode()`: h = 31 * h + c over the characters, in int arithmetic. */
  function JavaHashCode(s: string): Int32
    decreases |s|
  {
    if |s| == 0 then 0 else Wrap32(31 * JavaHashCode(s[..|s| - 1]) + s[|s| - 1] as int)
  }
}
