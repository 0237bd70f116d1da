/**
 * C integer semantics that Dafny's unbounded, Euclidean integers do not have:
 * unsigned 32-bit wrap-around and division/remainder truncated toward zero.
 */
module CInt {
  const U32: int := 0x1_0000_0000

  /** Reduction of an arbitrary integer to `uint32_t`, as a C cast or C unsigned arithmetic does it. */
  function Wrap32(x: int): (r: int)
    ensures 0 <= r < U32
    ensures 0 <= x < U32 ==> r == x
    ensures (x - r) % U32 == 0
  {
    x % U32
  }

  /** C's `/` on signed operands: the quotient is truncated toward zero. */
  function CDiv(a: int, b: int): (q: int)
    requires b != 0
    ensures (a >= 0) == (b > 0) ==> q >= 0
    ensures (a >= 0) != (b > 0) ==> q <= 0
    ensures a >= 0 && b > 0 ==> q == a / b
  {
    if a >= 0 then (if b > 0 then a / b else -(a / -b))
    else (if b > 0 then -((-a) / b) else (-a) / (-b))
  }

  /** C's `%` on signed operands: the remainder takes the sign of the dividend. */
  function CRem(a: int, b: int): (r: int)
    requires b != 0
    ensures a == b * CDiv(a, b) + r
    ensures -(Abs(b) as int) < r < Abs(b)
    ensures a >= 0 ==> r >= 0
    ensures a <= 0 ==> r <= 0
  {
    CDivSpec(a, b);
    if a >= 0 then Abs(a) % Abs(b) else -(Abs(a) % Abs(b))
  }

  function Abs(a: int): (r: nat)
    ensures r == a || r == -a
  {
    if a < 0 then -a else a
  }

  /** Truncated division: `|a| == |b| * |CDiv(a, b)| + (|a| mod |b|)`, the C99 definition. */
  lemma CDivSpec(a: int, b: int)
    requires b != 0
    ensures Abs(CDiv(a, b)) == Abs(a) / Abs(b)
    ensures a - b * CDiv(a, b) == (if a >= 0 then Abs(a) % Abs(b) else -(Abs(a) % Abs(b)))
  {
    var qa := Abs(a) / Abs(b);
    var ra := Abs(a) % Abs(b);
    assert Abs(a) == Abs(b) * qa + ra;
    if a >= 0 && b > 0 {
    } else if a >= 0 {
      assert CDiv(a, b) == -qa;
      assert b * CDiv(a, b) == Abs(b) * qa;
    } else if b > 0 {
      assert CDiv(a, b) == -qa;
      assert b * CDiv(a, b) == -(Abs(b) * qa);
    } else {
      assert CDiv(a, b) == qa;
      assert b * CDiv(a, b) == -(Abs(b) * qa);
    }
  }

  /** A quotient stays below `n` when the dividend stays below `n` divisors. */
  lemma DivBelow(a: nat, b: nat, n: nat)
    requires b > 0 && a < b * n
    ensures 0 <= a / b < n
  {
  }

  function Min(a: nat, b: nat): nat
  {
    if a < b then a else b
  }

  lemma MulMono(a: nat, b: nat, c: nat)
    requires a <= b
    ensures a * c <= b * c
  {
  }

  lemma DivAtMost(a: nat, b: nat, n: nat)
    requires b > 0 && a <= b * n
    ensures a / b <= n
  {
  }

  /** The Euclidean quotient brackets the dividend. */
  lemma QuotientBounds(a: nat, t: nat)
    requires t > 0
    ensures (a / t) * t <= a < (a / t + 1) * t
  {
  }

  /** A multiple of `n` leaves no remainder. */
  lemma MultipleMod(q: int, n: int)
    requires n > 0
    ensures (n * q) % n == 0
  {
    var k := q - (n * q) / n;
    assert (n * q) % n == n * k;
  }
}
