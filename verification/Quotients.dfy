/** Integer quotients rounded up, as GMP's `mpz_cdiv_q` computes them. */
module Quotients {

  function CeilDiv(a: int, b: int): int
    requires b != 0
  {
    -(if b > 0 then (-a) / b else a / (-b))
  }

  /** q is a / b rounded up. */
  predicate RoundsUp(a: int, b: int, q: int) {
    (b > 0 ==> b * (q - 1) < a <= b * q) && (b < 0 ==> b * q <= a < b * (q - 1))
  }

  lemma CeilDivRounds(a: int, b: int)
    requires b != 0
    ensures RoundsUp(a, b, CeilDiv(a, b))
  {
  }

  /** The quotient rounded up is the product only in the obvious cases. */
  lemma QuotientIsProduct(a: int, b: int)
    requires b != 0
    ensures CeilDiv(a, b) == a * b <==> a == 0 || b == 1 || b == -1
  {
    CeilDivRounds(a, b);
    if a == 0 || b == 1 || b == -1 {
      SmallFactor(a, b, CeilDiv(a, b));
    } else {
      LargeFactor(a, b);
    }
  }

  lemma SmallFactor(a: int, b: int, q: int)
    requires b != 0 && RoundsUp(a, b, q) && (a == 0 || b == 1 || b == -1)
    ensures q == a * b
  {
  }

  lemma LargeFactor(a: int, b: int)
    requires a != 0 && b != 0 && b != 1 && b != -1
    ensures !RoundsUp(a, b, a * b)
  {
    var n, c := if a > 0 then a else -a, if b > 0 then b else -b;
    SquareGrows(n, c);
    var m, q := b * b, a * b;
    assert c * c == m;
    assert b * q == a * m;
    assert a * m == if a > 0 then n * m else -(n * m);
    assert b * (q - 1) == b * q - b;
  }

  lemma SquareGrows(n: int, c: int)
    requires n >= 1 && c >= 2
    ensures n * (c * c) - n >= c + 1
  {
    assert c * c >= 2 * c;
    assert (n - 1) * (c * c - 1) >= 0;
  }
}
