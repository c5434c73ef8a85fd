/** Numeric vocabulary shared by the feature pipeline and the mood engine.

    The source calls `Math.cos`, `Math.sin`, `Math.log10`, `Math.pow(10, _)`
    and `Math.sqrt`.
    They are not modelled: a `Transcendentals` value carries them as opaque
    functions, and each operation states, as a precondition, the one or two
    facts about them that its contract needs. */
module Numeric {

  datatype Transcendentals = Transcendentals(
    cos: real -> real,
    sin: real -> real,
    log10: real -> real,
    pow10: real -> real,
    pi: real,
    sqrt: real -> real)

  /** `log10(1) = 0` and `log10` is monotone on the positive reals. */
  ghost predicate Log10Axioms(t: Transcendentals) {
    && t.log10(1.0) == 0.0
    && forall x: real, y: real :: 0.0 < x <= y ==> t.log10(x) <= t.log10(y)
  }

  /** `10^x` is monotone. */
  ghost predicate Pow10Monotone(t: Transcendentals) {
    forall x: real, y: real :: x <= y ==> t.pow10(x) <= t.pow10(y)
  }

  /** Cosine takes values in [-1, 1]. */
  ghost predicate CosBounded(t: Transcendentals) {
    forall x: real :: -1.0 <= t.cos(x) <= 1.0
  }

  /** The square root of a non-negative number is non-negative, and that of
      zero is zero. */
  ghost predicate SqrtAxioms(t: Transcendentals) {
    && t.sqrt(0.0) == 0.0
    && forall x: real :: 0.0 <= x ==> 0.0 <= t.sqrt(x)
  }

  ghost predicate AllZero(s: seq<real>) {
    forall k :: 0 <= k < |s| ==> s[k] == 0.0
  }

  function Min(a: int, b: int): int { if a <= b then a else b }

  function MaxReal(a: real, b: real): (r: real)
    ensures r >= a && r >= b && (r == a || r == b)
  {
    if a >= b then a else b
  }

  function Abs(x: real): (r: real)
    ensures r >= 0.0 && (r == x || r == -x)
  {
    if x < 0.0 then -x else x
  }

  /** JavaScript's `Math.round` on a finite value: halves round up. */
  function JsRound(x: real): (r: int)
    ensures x - 0.5 < r as real <= x + 0.5
  {
    (x + 0.5).Floor
  }

  lemma MultiplyMonotone(a: nat, b: nat, c: nat)
    requires a <= b
    ensures a * c <= b * c
  {
  }

  lemma MulNonNegative(a: real, b: real)
    requires a >= 0.0 && b >= 0.0
    ensures a * b >= 0.0
  {
  }

  lemma MulPositive(a: real, b: real)
    requires a > 0.0 && b > 0.0
    ensures a * b > 0.0
  {
  }

  lemma DivideMonotone(a: real, b: real, n: real)
    requires a <= b && n > 0.0
    ensures a / n <= b / n
  {
  }

  /** x·(1 − t) + y·t lies between x and y for t in [0, 1]. */
  lemma ConvexCombination(x: real, y: real, t: real)
    requires 0.0 <= t <= 1.0
    ensures var r := x * (1.0 - t) + y * t;
            (x <= r <= y) || (y <= r <= x)
  {
    var r := x * (1.0 - t) + y * t;
    assert r == x + (y - x) * t;
    if x <= y {
      MulNonNegative(y - x, t);
      assert (y - x) * (1.0 - t) >= 0.0;
    } else {
      MulNonNegative(x - y, t);
      assert (x - y) * (1.0 - t) >= 0.0;
    }
  }

  function Square(x: real): real {
    x * x
  }

  /** A square is never negative, and is zero only at zero. */
  lemma SquareSign(x: real)
    ensures Square(x) >= 0.0
    ensures x != 0.0 ==> Square(x) > 0.0
    ensures x == 0.0 ==> Square(x) == 0.0
  {
    if x > 0.0 {
      calc {
        Square(x);
        == x * x;
        > { MulPositive(x, x); } 0.0;
      }
    } else if x < 0.0 {
      calc {
        Square(x);
        == (-x) * (-x);
        > { MulPositive(-x, -x); } 0.0;
      }
    } else {
      calc {
        Square(x);
        == 0.0 * 0.0;
        == 0.0;
      }
    }
  }

  lemma FloorMonotone(x: real, y: real)
    requires x <= y
    ensures x.Floor <= y.Floor
  {
    assert x.Floor as real <= x;
    assert y < y.Floor as real + 1.0;
  }

  /** 2^e. */
  function Pow2(e: nat): (r: nat)
    ensures r >= 1
  {
    if e == 0 then 1 else 2 * Pow2(e - 1)
  }

  ghost predicate IsPow2(n: nat) {
    exists e: nat :: Pow2(e) == n
  }

  lemma {:induction false} Pow2Monotone(a: nat, b: nat)
    requires a <= b
    ensures Pow2(a) <= Pow2(b)
    decreases b
  {
    if a < b {
      Pow2Monotone(a, b - 1);
    }
  }

  /** 2^(a+c) = 2^a · 2^c. */
  lemma {:induction false} Pow2Add(a: nat, c: nat)
    ensures Pow2(a + c) == Pow2(a) * Pow2(c)
    decreases c
  {
    if c > 0 {
      Pow2Add(a, c - 1);
      assert Pow2(a + c) == 2 * Pow2(a + c - 1);
    }
  }

  /** Sum of a sequence of reals, left to right. */
  function Sum(s: seq<real>): real
    decreases |s|
  {
    if |s| == 0 then 0.0 else Sum(s[..|s| - 1]) + s[|s| - 1]
  }

  lemma {:induction false} SumNonNegative(s: seq<real>)
    requires forall i :: 0 <= i < |s| ==> s[i] >= 0.0
    ensures Sum(s) >= 0.0
    decreases |s|
  {
    if |s| > 0 {
      SumNonNegative(s[..|s| - 1]);
    }
  }

  /** A sum of values below `c` is at most `|s|·c`. */
  lemma {:induction false} SumBounded(s: seq<real>, c: real)
    requires forall i :: 0 <= i < |s| ==> s[i] <= c
    ensures Sum(s) <= |s| as real * c
    decreases |s|
  {
    if |s| > 0 {
      SumBounded(s[..|s| - 1], c);
    }
  }
}
