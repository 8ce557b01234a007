/** The Python and numpy primitives the prior pool relies on, with their exact
    integer semantics: floor division, `range`, `abs`, `str(int)`, `int(str)` and
    `np.random.randint`. */
module Builtins {
  import opened Results

  function Abs(x: int): (r: nat) {
    if x < 0 then -x else x
  }

  /** Python's `a // b`: the quotient rounded toward negative infinity
      (Dafny's own `/` is Euclidean and differs for a negative divisor). */
  function FloorDiv(a: int, b: int): (r: Result<int>)
    ensures r.Err? <==> b == 0
    ensures r.Err? ==> r.error == ZeroDivision
    ensures r.Ok? && b > 0 ==> b * r.value <= a < b * r.value + b
    ensures r.Ok? && b < 0 ==> b * r.value + b < a <= b * r.value
  {
    if b == 0 then Err(ZeroDivision)
    else if b > 0 || a % b == 0 then Ok(a / b)
    else
      assert b * (a / b - 1) == b * (a / b) - b;
      Ok(a / b - 1)
  }

  /** The k-th value `start + k * step` of an arithmetic progression. */
  function Term(start: int, step: int, k: nat): (t: int) {
    start + k * step
  }

  /** Python's `range(start, stop, step)` for a non-zero step, as a list. */
  function RangeFrom(start: int, stop: int, step: int): (r: seq<int>)
    requires step != 0
    ensures forall k: nat | k < |r| :: r[k] == Term(start, step, k)
    ensures step > 0 ==> forall k: nat :: k < |r| <==> Term(start, step, k) < stop
    ensures step < 0 ==> forall k: nat :: k < |r| <==> Term(start, step, k) > stop
    decreases if step > 0 then stop - start else start - stop
  {
    if (step > 0 && start < stop) || (step < 0 && start > stop) then
      var rest := RangeFrom(start + step, stop, step);
      assert forall k: nat {:trigger Term(start, step, k)} :: k >= 1 ==> Term(start, step, k) == Term(start + step, step, k - 1);
      [start] + rest
    else
      assert forall k: nat :: step > 0 ==> Term(start, step, k) >= start;
      assert forall k: nat :: step < 0 ==> Term(start, step, k) <= start;
      []
  }

  /** Python's `range(start, stop, step)`: a step of zero raises ValueError. */
  function Range(start: int, stop: int, step: int): (r: Result<seq<int>>)
    ensures r.Err? <==> step == 0
    ensures r.Err? ==> r.error == ZeroRangeStep
    ensures r.Ok? ==> forall k: nat | k < |r.value| :: r.value[k] == Term(start, step, k)
    ensures r.Ok? && step > 0 ==> forall k: nat :: k < |r.value| <==> Term(start, step, k) < stop
    ensures r.Ok? && step < 0 ==> forall k: nat :: k < |r.value| <==> Term(start, step, k) > stop
  {
    if step == 0 then Err(ZeroRangeStep) else Ok(RangeFrom(start, stop, step))
  }

  /** `np.random.randint(low, high)` driven by a raw generator output `noise`:
      uniform noise maps to a uniform value of the half-open interval. */
  function RandInt(low: int, high: int, noise: nat): (r: Result<int>)
    ensures r.Err? <==> high <= low
    ensures r.Err? ==> r.error == EmptyRandRange
    ensures r.Ok? ==> low <= r.value < high
  {
    if high <= low then Err(EmptyRandRange) else Ok(low + noise % (high - low))
  }

  /** Every value of the interval is drawn by some noise, so replacing the
      generator by explicit noise does not shrink the set of reachable samples. */
  lemma RandIntCoversRange(low: int, high: int, v: int)
    requires low <= v < high
    ensures RandInt(low, high, v - low) == Ok(v)
  {
    assert (v - low) % (high - low) == v - low;
  }

  // ---------------------------------------------------------------------------
  // str(int) and int(str)

  predicate IsDigit(c: char) {
    '0' <= c <= '9'
  }

  predicate AllDigits(s: string) {
    forall i | 0 <= i < |s| :: IsDigit(s[i])
  }

  /** The character of decimal digit `d`. */
  function DigitChar(d: nat): (c: char)
    requires d < 10
    ensures IsDigit(c) && (c as int) - ('0' as int) == d
  {
    ('0' as int + d) as char
  }

  /** Decimal digits of a natural number, most significant first, no leading zero. */
  function NatToString(n: nat): (s: string)
    ensures |s| > 0 && AllDigits(s)
    ensures n < 10 <==> |s| == 1
    decreases n
  {
    if n < 10 then [DigitChar(n)] else NatToString(n / 10) + [DigitChar(n % 10)]
  }

  /** Python's `str(n)` for an integer. */
  function IntToString(n: int): (s: string)
    ensures |s| > 0
    ensures n < 0 <==> s[0] == '-'
    ensures n >= 0 ==> AllDigits(s)
  {
    if n < 0 then "-" + NatToString(-n) else NatToString(n)
  }

  /** Value of a non-empty string of decimal digits (leading zeros allowed). */
  function DigitsValue(s: string): (v: nat)
    requires AllDigits(s)
    decreases |s|
  {
    if |s| == 0 then 0
    else DigitsValue(s[..|s| - 1]) * 10 + ((s[|s| - 1] as int) - ('0' as int))
  }

  /** Python's `int(s)` on an optionally signed decimal literal; any other string
      raises ValueError, which is `None` here. */
  function ParseInt(s: string): (r: Option<int>)
    ensures r.Some? <==> (|s| > 0 && AllDigits(s)) || (|s| > 1 && (s[0] == '-' || s[0] == '+') && AllDigits(s[1..]))
  {
    if |s| > 1 && s[0] == '-' && AllDigits(s[1..]) then Some(0 - DigitsValue(s[1..]))
    else if |s| > 1 && s[0] == '+' && AllDigits(s[1..]) then Some(DigitsValue(s[1..]))
    else if |s| > 0 && AllDigits(s) then Some(DigitsValue(s))
    else None
  }

  /** Reading back the digits of `n` gives `n`. */
  lemma {:induction false} DigitsRoundTrip(n: nat)
    ensures DigitsValue(NatToString(n)) == n
    decreases n
  {
    var s := NatToString(n);
    if n >= 10 {
      DigitsRoundTrip(n / 10);
      assert s[..|s| - 1] == NatToString(n / 10);
    }
  }

  /** `int` reads a plain run of digits as its value. */
  lemma ParseDigits(t: string)
    requires |t| > 0 && AllDigits(t)
    ensures ParseInt(t) == Some(DigitsValue(t))
  {
    assert IsDigit(t[0]);
  }

  /** `int` reads a minus sign followed by digits as the negated value. */
  lemma ParseNegative(t: string)
    requires |t| > 0 && AllDigits(t)
    ensures ParseInt("-" + t) == Some(0 - DigitsValue(t))
  {
    var s := "-" + t;
    assert s[1..] == t;
  }

  /** `int(str(n)) == n`: the pool's string keys give back the targets. */
  lemma IntStringRoundTrip(n: int)
    ensures ParseInt(IntToString(n)) == Some(n)
  {
    if n < 0 {
      DigitsRoundTrip(-n);
      ParseNegative(NatToString(-n));
    } else {
      DigitsRoundTrip(n);
      ParseDigits(NatToString(n));
    }
  }

  /** Distinct targets get distinct keys. */
  lemma IntToStringInjective(a: int, b: int)
    ensures IntToString(a) == IntToString(b) <==> a == b
  {
    IntStringRoundTrip(a);
    IntStringRoundTrip(b);
  }
}
