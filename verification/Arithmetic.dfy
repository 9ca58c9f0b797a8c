/** Integer ceilings and floors, and Python's `round`, with the order properties the planner needs. */
module Arithmetic {

  function Max(a: int, b: int): int { if a < b then b else a }

  function Min(a: int, b: int): int { if b < a then b else a }

  function MaxReal(a: real, b: real): real { if a < b then b else a }

  function MinReal(a: real, b: real): real { if b < a then b else a }

  /** Ceiling division, written as the source writes it: negate, floor, negate. */
  function CeilDiv(a: nat, b: nat): (c: nat)
    requires b > 0
    ensures a <= c * b < a + b
  {
    -(-(a as int) / b)
  }

  /** A token count fits a floored quotient exactly when its bytes fit the dividend. */
  lemma FloorDivGalois(t: int, a: int, b: int)
    requires b > 0
    ensures t <= a / b <==> t * b <= a
  {
    if t <= a / b {
      assert t * b <= (a / b) * b;
    } else {
      assert t * b >= (a / b + 1) * b;
    }
  }

  lemma FloorDivMonotone(a: int, a': int, b: int)
    requires b > 0 && a <= a'
    ensures a / b <= a' / b
  {
    FloorDivGalois(a / b, a', b);
  }

  lemma FloorDivAntitone(a: nat, b: nat, b': nat)
    requires 0 < b <= b'
    ensures a / b' <= a / b
  {
    var t := a / b';
    FloorDivGalois(t, a, b');
    MulMonotone(t, t, b, b');
    FloorDivGalois(t, a, b);
  }

  /** The ceiling is the least multiple count that covers. */
  lemma CeilDivGalois(a: nat, b: nat, t: nat)
    requires b > 0
    ensures CeilDiv(a, b) <= t <==> a <= t * b
  {
    var c := CeilDiv(a, b);
    if c <= t {
      assert c * b <= t * b;
    } else {
      assert t * b <= (c - 1) * b == c * b - b;
    }
  }

  lemma CeilDivAntitone(a: nat, b: nat, b': nat)
    requires 0 < b <= b'
    ensures CeilDiv(a, b') <= CeilDiv(a, b)
  {
    var c := CeilDiv(a, b);
    assert a <= c * b <= c * b';
    CeilDivGalois(a, b', c);
  }

  lemma MulMonotone(a: nat, a': nat, b: nat, b': nat)
    requires a <= a' && b <= b'
    ensures a * b <= a' * b'
  {
    assert a * b <= a' * b <= a' * b';
  }

  lemma Distribute(a: int, b: int, c: int)
    ensures (a + b) * c == a * c + b * c && c * (a + b) == c * a + c * b
  {}

  /** Python's `round` on reals: nearest integer, ties to even. */
  function Round(x: real): (r: int)
    ensures x - 0.5 <= r as real <= x + 0.5
  {
    var f := x.Floor;
    var d := x - f as real;
    if d < 0.5 || (d == 0.5 && f % 2 == 0) then f else f + 1
  }

  lemma RoundMonotone(x: real, y: real)
    requires x <= y
    ensures Round(x) <= Round(y)
  {}

  lemma RoundBelow(x: real, n: int)
    requires x <= n as real
    ensures Round(x) <= n
  {}

  /** `math.ceil` on reals. */
  function Ceil(x: real): (c: int)
    ensures c as real - 1.0 < x <= c as real
  {
    -((-x).Floor)
  }

  lemma CeilMonotone(x: real, y: real)
    requires x <= y
    ensures Ceil(x) <= Ceil(y)
  {}
}
