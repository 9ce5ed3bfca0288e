/** The JavaScript number operations the front end relies on, restricted to the
    values it produces: `%` (truncating, on integers and on reals), `Math.round`,
    `String(n)` for integers and `Number(str)` for the strings the player writes. */
module JsNumber {
  import opened Wrappers
  import opened JsText

  function Abs(x: int): nat { if x < 0 then -x else x }

  /** `a % b` on integers: the sign of a non-zero result is the dividend's. */
  function JsRem(a: int, b: int): (r: int)
    requires b != 0
    ensures Abs(r) < Abs(b)
    ensures r == 0 || (r > 0 <==> a > 0)
    ensures a >= 0 ==> r == a % Abs(b)
  {
    var m := Abs(b);
    if a >= 0 then
      var r := a % m;
      assert 0 <= r < m;
      assert a == 0 ==> r == 0;
      r
    else
      var r := (-a) % m;
      assert 0 <= r < m;
      -r
  }

  /** `Math.trunc` on a real. */
  function Trunc(x: real): (n: int)
    ensures x >= 0.0 ==> n as real <= x < n as real + 1.0
    ensures x < 0.0 ==> n as real - 1.0 < x <= n as real
  {
    if x >= 0.0 then x.Floor else -((-x).Floor)
  }

  /** Within a non-empty range the steps `(c + 1) % n` and `(c - 1 + n) % n`
      wrap around at the ends. */
  lemma WrapStep(c: int, n: int)
    requires 0 <= c < n
    ensures JsRem(c + 1, n) == (if c == n - 1 then 0 else c + 1)
    ensures JsRem(c - 1 + n, n) == (if c == 0 then n - 1 else c - 1)
  {
    SmallRem(c + 1, n);
    SmallRem(c - 1 + n, n);
  }

  /** `a % n` for `0 <= a < 2n`. */
  lemma SmallRem(a: int, n: int)
    requires 0 <= a < 2 * n
    ensures a % n == (if a < n then a else a - n)
  {
    if a >= n {
      assert a == (a - n) + 1 * n;
    }
  }

  /** `Math.PI`. */
  const PI: real := 3.141592653589793

  /** `x % m` on (finite) reals: `x - m * trunc(x / m)`. */
  function JsRealRem(x: real, m: real): (r: real)
    requires m != 0.0
    ensures x >= 0.0 && m > 0.0 ==> 0.0 <= r < m
  {
    var q := Trunc(x / m);
    if x >= 0.0 && m > 0.0 then
      RemBounds(x, m, q as real);
      x - q as real * m
    else
      x - q as real * m
  }

  lemma RemBounds(x: real, m: real, q: real)
    requires m > 0.0 && q <= x / m < q + 1.0
    ensures 0.0 <= x - q * m < m
  {
    var y := x / m;
    assert y * m == x;
    ScaleLe(q, y, m);
    ScaleLt(y, q + 1.0, m);
    calc {
      x;
    ==
      y * m;
    <
      (q + 1.0) * m;
    ==
      q * m + m;
    }
  }

  lemma ScaleLe(a: real, b: real, m: real)
    requires a <= b && m > 0.0
    ensures a * m <= b * m
  {
    assert (b - a) * m >= 0.0;
  }

  lemma ScaleLt(a: real, b: real, m: real)
    requires a < b && m > 0.0
    ensures a * m < b * m
  {
    assert (b - a) * m > 0.0;
  }

  /** Multiplying by a non-zero number and dividing by it again gives the
      number back. */
  lemma MulDivCancel(a: real, m: real)
    requires m != 0.0
    ensures (a * m) / m == a
  {
    var q := (a * m) / m;
    assert q * m == a * m;
    assert (q - a) * m == 0.0;
  }

  /** `Math.round`: the nearest integer, halves rounded up. */
  function Round(x: real): int {
    (x + 0.5).Floor
  }

  /** Rounding a value that lies between two integers stays between them. */
  lemma RoundBetween(a: int, b: int, x: real)
    requires a as real <= x <= b as real
    ensures a <= Round(x) <= b
  {
    assert (a as real + 0.5).Floor == a;
    assert (b as real + 0.5).Floor == b;
    FloorMonotone(a as real + 0.5, x + 0.5);
    FloorMonotone(x + 0.5, b as real + 0.5);
  }

  lemma FloorMonotone(x: real, y: real)
    requires x <= y
    ensures x.Floor <= y.Floor
  {
  }

  // ------------------------------------------------------------ decimal text

  function DigitChar(d: nat): char
    requires d < 10
  {
    ('0' as int + d) as char
  }

  predicate IsDigit(c: char) { '0' <= c <= '9' }

  predicate IsDigits(s: string) {
    |s| > 0 && forall c <- s :: IsDigit(c)
  }

  function NatToString(n: nat): (s: string)
    ensures IsDigits(s)
  {
    if n < 10 then [DigitChar(n)] else NatToString(n / 10) + [DigitChar(n % 10)]
  }

  /** `Number.MAX_SAFE_INTEGER`, 2^53 - 1. */
  const MaxSafeInteger := 9007199254740991

  /** `Number.isSafeInteger(n)`: the integers a double holds exactly, whose
      `String` is their plain decimal text. */
  predicate IsSafeInteger(n: int) {
    -MaxSafeInteger <= n <= MaxSafeInteger
  }

  /** `String(n)` for a safe integer: an optional `-` and the decimal digits. */
  function IntToString(n: int): string {
    if n < 0 then "-" + NatToString(-n) else NatToString(n)
  }

  function DigitsValue(s: string): nat
    requires forall c <- s :: IsDigit(c)
  {
    if s == [] then 0
    else
      var last := s[|s| - 1];
      assert last in s;
      assert IsDigit(last);
      assert last as int >= '0' as int;
      DigitsValue(s[..|s| - 1]) * 10 + (last as int - '0' as int)
  }

  /** `Number(str)` for the empty string, optionally signed decimal integers and
      "NaN"; `None` stands for `NaN`. */
  function NumberOf(str: string): Option<int> {
    var t := Trim(str);
    if t == [] then Some(0)
    else if t == "NaN" then None
    else if IsDigits(t) then Some(DigitsValue(t))
    else if t[0] == '-' && IsDigits(t[1..]) then Some(0 - DigitsValue(t[1..]))
    else if t[0] == '+' && IsDigits(t[1..]) then Some(DigitsValue(t[1..]))
    else None
  }

  /** `String(x)` for a number that is an integer or `NaN`. */
  function NumberToString(x: Option<int>): string {
    match x
    case Some(n) => IntToString(n)
    case None => "NaN"
  }

  lemma {:induction false} NatToStringValue(n: nat)
    ensures DigitsValue(NatToString(n)) == n
  {
    if n >= 10 {
      NatToStringValue(n / 10);
      var s := NatToString(n / 10) + [DigitChar(n % 10)];
      assert s[..|s| - 1] == NatToString(n / 10);
    }
  }

  lemma TrimOfUnpadded(s: string)
    requires s != [] && !IsSpace(s[0]) && !IsSpace(s[|s| - 1])
    ensures Trim(s) == s
  {
  }

  /** Reading back what `String` wrote gives the same number, `NaN` included. */
  lemma {:induction false} NumberRoundTrip(x: Option<int>)
    ensures NumberOf(NumberToString(x)) == x
  {
    match x
    case None =>
      NaNRoundTrip();
    case Some(n) =>
      if n < 0 {
        NegativeRoundTrip(-n);
      } else {
        NatRoundTrip(n);
      }
  }

  lemma NaNRoundTrip()
    ensures NumberOf("NaN") == None
  {
    var s := "NaN";
    assert s[0] == 'N' && s[2] == 'N';
    TrimOfUnpadded(s);
  }

  lemma NatRoundTrip(n: nat)
    ensures NumberOf(NatToString(n)) == Some(n)
  {
    var d := NatToString(n);
    NatToStringValue(n);
    DigitsUnpadded(d);
  }

  lemma NegativeRoundTrip(n: nat)
    requires n > 0
    ensures NumberOf("-" + NatToString(n)) == Some(0 - n)
  {
    var d := NatToString(n);
    var s := "-" + d;
    NatToStringValue(n);
    DigitsUnpadded(d);
    assert s[|s| - 1] == d[|d| - 1];
    TrimOfUnpadded(s);
    assert s[1..] == d;
    assert !IsDigit(s[0]);
  }

  lemma DigitsUnpadded(d: string)
    requires IsDigits(d)
    ensures Trim(d) == d && !IsSpace(d[|d| - 1])
  {
    assert d[0] in d && d[|d| - 1] in d;
    TrimOfUnpadded(d);
  }

  /** An element of a `Uint8Array`, and `reduce((a, b) => a + b, 0)` over one. */
  newtype Byte = x: int | 0 <= x < 256

  function Sum(xs: seq<Byte>): (s: int)
    ensures 0 <= s <= 255 * |xs|
  {
    if xs == [] then 0 else xs[0] as int + Sum(xs[1..])
  }

  lemma {:induction false} SumConst(xs: seq<Byte>, v: Byte)
    requires forall i :: 0 <= i < |xs| ==> xs[i] == v
    ensures Sum(xs) == v as int * |xs|
  {
    if xs != [] {
      SumConst(xs[1..], v);
    }
  }
}
