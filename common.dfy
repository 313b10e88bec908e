/** Shared vocabulary: an Option type and the C conversions that truncate toward zero. */
module Common {

  datatype Option<+T> = None | Some(value: T)

  /** The C cast `(int)x` of a real value: truncation toward zero. */
  function Trunc(x: real): (r: int)
    ensures x >= 0.0 ==> 0 <= r && r as real <= x < r as real + 1.0
    ensures x < 0.0 ==> r <= 0 && r as real - 1.0 < x <= r as real
  {
    if x >= 0.0 then x.Floor else -((-x).Floor)
  }

  function Abs(x: int): (r: nat)
    ensures r == x || r == -x
  {
    if x < 0 then -x else x
  }

  function AbsReal(x: real): (r: real)
    ensures r >= 0.0 && (r == x || r == -x)
  {
    if x < 0.0 then -x else x
  }

  /** C99 integer division `a / b` for a positive divisor: the magnitude of the quotient is
      the floor of the magnitudes' quotient, and its sign follows the dividend (truncation
      toward zero, unlike Dafny's Euclidean `/` on a negative dividend). */
  function CDiv(a: int, b: int): (q: int)
    requires b > 0
    ensures Abs(q) == Abs(a) / b
    ensures a >= 0 ==> q >= 0
    ensures a < 0 ==> q <= 0
  {
    if a >= 0 then a / b else -((-a) / b)
  }

  /** Truncating division is odd in its dividend. */
  lemma CDivOdd(a: int, b: int)
    requires b > 0
    ensures CDiv(-a, b) == -CDiv(a, b)
  {
  }

  /** Small facts about multiplication and division by a positive number, stated one step at
      a time so the solver never has to search nonlinear arithmetic on its own. */
  lemma {:induction false} MulLe(x: int, y: int, d: int)
    requires x <= y && d >= 0
    ensures x * d <= y * d
  {
    assert y * d - x * d == (y - x) * d;
  }

  lemma {:induction false} MulSucc(q: int, d: int)
    ensures (q + 1) * d == q * d + d
  {
  }

  lemma {:induction false} DivBounds(a: int, d: int)
    requires d > 0
    ensures (a / d) * d <= a < (a / d) * d + d
  {
    assert a == d * (a / d) + a % d;
  }

  lemma {:induction false} DivUnique(a: int, d: int, q: int)
    requires d > 0 && q * d <= a < q * d + d
    ensures a / d == q
  {
    var q0 := a / d;
    DivBounds(a, d);
    MulSucc(q0, d);
    MulSucc(q, d);
    if q0 < q {
      MulLe(q0 + 1, q, d);
    } else if q0 > q {
      MulLe(q + 1, q0, d);
    }
  }

  lemma {:induction false} DivMonotone(a: int, b: int, d: int)
    requires a <= b && d > 0
    ensures a / d <= b / d
  {
    var qa := a / d;
    var qb := b / d;
    DivBounds(a, d);
    DivBounds(b, d);
    MulSucc(qb, d);
    if qa > qb {
      MulLe(qb + 1, qa, d);
    }
  }

  lemma {:induction false} DivAtMost(a: int, d: int)
    requires a >= 0 && d > 0
    ensures 0 <= a / d <= a
  {
    DivBounds(a, d);
    MulLe(1, d, a / d);
  }

  lemma {:induction false} ModSmall(a: int, m: int)
    requires 0 <= a < m
    ensures a % m == a
  {
  }
}
