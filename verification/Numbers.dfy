/** Laws of the arithmetic of side-condition code: sums and products of integers, and
    rationals as fractions of integers. */
module Numbers {
  import opened Quotients
  import opened SideCode

  /** The value of an operation on two numbers, where it has one. */
  function Of(op: ArithOp, v: Value, w: Value): Value
    requires ArithValue(op, v, w).Val?
  {
    ArithValue(op, v, w).v
  }

  function Minus(v: Value): Value
    requires NegateValue(v).Val?
  {
    NegateValue(v).v
  }

  // ----- integers -----

  /** Sums count on from the first number, and back. */
  lemma SumLaws(a: int, n: int)
    ensures Of(Add, Int(a), Int(0)) == Int(a)
    ensures Of(Add, Int(a), Int(n + 1)) == Int(Of(Add, Int(a), Int(n)).n + 1)
  {
  }

  /** A product is a repeated sum. */
  lemma ProductLaws(a: int, n: int)
    ensures Of(Mul, Int(a), Int(0)) == Int(0)
    ensures Of(Mul, Int(a), Int(n + 1)) == Of(Add, Of(Mul, Int(a), Int(n)), Int(a))
  {
  }

  /** A number and its negation cancel, and exactly one of them is negative unless both are
      zero. */
  lemma NegationLaws(v: Value)
    requires v.Int? || v.Rat?
    ensures Of(Add, v, Minus(v)) == if v.Int? then Int(0) else Rat(0.0)
    ensures SignValue(IsZero, v) == SignValue(IsZero, Minus(v))
    ensures SignValue(IsZero, v).v <==> v == Minus(v)
    ensures !SignValue(IsZero, v).v ==> (SignValue(IsNeg, v).v <==> !SignValue(IsNeg, Minus(v)).v)
    ensures SignValue(IsZero, v).v ==> !SignValue(IsNeg, v).v
  {
  }

  // ----- rationals -----

  /** The rational n / d. */
  function Fraction(n: int, d: Positive): Value {
    Rat(n as real / d as real)
  }

  /** Sum, product and negation of fractions are computed from those of integers, as are signs. */
  lemma FractionLaws(a: int, b: Positive, c: int, d: Positive)
    ensures b * d > 0
    ensures Of(Add, Fraction(a, b), Fraction(c, d)) ==
            Fraction(Of(Add, Of(Mul, Int(a), Int(d)), Of(Mul, Int(c), Int(b))).n, b * d)
    ensures Of(Mul, Fraction(a, b), Fraction(c, d)) == Fraction(Of(Mul, Int(a), Int(c)).n, b * d)
    ensures Minus(Fraction(a, b)) == Fraction(Minus(Int(a)).n, b)
    ensures SignValue(IsNeg, Fraction(a, b)) == SignValue(IsNeg, Int(a))
    ensures SignValue(IsZero, Fraction(a, b)) == SignValue(IsZero, Int(a))
  {
    PositiveProduct(b, d);
    SumOfFractions(a as real, b as real, c as real, d as real);
  }

  lemma PositiveProduct(b: int, d: int)
    requires b > 0 && d > 0
    ensures b * d > 0
  {
  }

  lemma SumOfFractions(a: real, b: real, c: real, d: real)
    requires b > 0.0 && d > 0.0
    ensures b * d > 0.0
    ensures a / b + c / d == (a * d + c * b) / (b * d)
    ensures (a / b) * (c / d) == (a * c) / (b * d)
  {
    var x, y := a / b, c / d;
    assert x * b == a && y * d == c;
    assert (x + y) * (b * d) == a * d + c * b;
    assert (x * y) * (b * d) == a * c;
  }

  /** Division of rationals undoes multiplication, and has no value for the divisor zero. */
  lemma DivisionLaws(v: Value, w: Value)
    requires v.Rat? && w.Rat?
    ensures ArithValue(Div, v, w).Val? <==> w.q != 0.0
    ensures w.q != 0.0 ==> Of(Mul, Of(Div, v, w), w) == v
  {
  }

  /** Quotients of integers are rounded up. */
  lemma QuotientLaws(a: int, b: int)
    ensures ArithValue(Div, Int(a), Int(b)).Val? <==> b != 0
    ensures b != 0 ==> Of(Div, Int(a), Int(b)).Int? && RoundsUp(a, b, Of(Div, Int(a), Int(b)).n)
  {
    if b != 0 { CeilDivRounds(a, b); }
  }
}
