/** Facts about Euclidean division that the surcharge arithmetic rests on. */
module Arithmetic {

  /** A quotient and a remainder in range are the quotient and the remainder. */
  lemma DivUnique(q: int, b: int, r: int)
    requires 0 <= r < b
    ensures (q * b + r) / b == q && (q * b + r) % b == r
  {
    var x := q * b + r;
    var d := q - x / b;
    assert x == b * (x / b) + x % b;
    assert d * b == x % b - r by { assert d * b == q * b - (x / b) * b; }
    if d > 0 {
      MulMono(1, d, b);
    } else if d < 0 {
      MulMono(d, -1, b);
    }
  }

  lemma MulMono(x: int, y: int, k: int)
    requires x <= y && 0 <= k
    ensures x * k <= y * k
  {
  }

  lemma MulDistributes(q: int, a: int, b: int)
    ensures q * (a + b) == q * a + q * b
  {
  }

  /** How many whole periods it takes to cover x, as the source rounds up. */
  function CeilDiv(x: int, b: int): (q: int)
    requires 0 < b
  {
    (x - 1) / b + 1
  }

  /** CeilDiv is the least multiplier that reaches x. */
  lemma CeilDivLeast(x: int, b: int, q: int)
    requires 0 < b
    ensures CeilDiv(x, b) <= q <==> x <= q * b
  {
    var y := x - 1;
    var d := y / b;
    assert y == b * d + y % b;
    assert (d + 1) * b == d * b + b;
    if d + 1 <= q {
      MulMono(d + 1, q, b);
    } else {
      MulMono(q, d, b);
    }
  }

  /** A positive amount split as whole periods plus a last, non-empty part. */
  lemma CeilDivSplit(x: int, b: int) returns (r: int)
    requires 0 < b
    ensures 1 <= r <= b && x == (CeilDiv(x, b) - 1) * b + r
  {
    r := (x - 1) % b + 1;
    assert x - 1 == b * ((x - 1) / b) + (x - 1) % b;
  }

  lemma CeilDivStep(x: int, b: int)
    requires 0 < b
    ensures CeilDiv(x, b) == CeilDiv(x - b, b) + 1
    ensures 0 < x <= b ==> CeilDiv(x, b) == 1
    ensures CeilDiv(0, b) == 0
  {
    var q, r := (x - b - 1) / b, (x - b - 1) % b;
    assert x - 1 == (q + 1) * b + r;
    DivUnique(q + 1, b, r);
    if 0 < x <= b {
      DivUnique(0, b, x - 1);
    }
    DivUnique(-1, b, b - 1);
  }
}
