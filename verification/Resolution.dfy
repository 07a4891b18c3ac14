/** Propositional soundness of the resolution rules whose deferred conclusions the
    clause simplifier evaluates. */
module Resolution {
  import opened Marks
  import opened Options
  import opened Clauses

  type Assignment = iset<Sym>

  predicate True(l: Lit, a: Assignment) {
    if l.Pos? then l.v in a else l.v !in a
  }

  /** Disjunctive reading of a plain clause. */
  predicate Satisfies(a: Assignment, c: Clause)
    requires Plain(c)
  {
    c.Clc? && (True(c.l, a) || Satisfies(a, c.rest))
  }

  /** Resolution proofs.  `Resolve` is rule R (the first premise is rid of the positive
      literal) or, with `flipped`, rule Q; `Simplified` replaces a deferred conclusion by
      the clause the side condition computes from it. */
  datatype Proof =
    | Leaf(c: Clause)
    | Resolve(pivot: Sym, flipped: bool, p1: Proof, p2: Proof)
    | Simplified(p: Proof)
  {
    ghost predicate Checks()
      decreases this, 0
    {
      match this
      case Leaf(c) => Plain(c)
      case Resolve(_, _, p1, p2) => p1.Checks() && p2.Checks()
      case Simplified(p) => p.Checks() && Simplify(p.Conclusion(), iset{}).Some?
    }

    ghost function Conclusion(): Clause
      requires Checks()
      decreases this, 1
    {
      match this
      case Leaf(c) => c
      case Resolve(v, flipped, p1, p2) =>
        if flipped then Concat(Clr(Neg(v), p1.Conclusion()), Clr(Pos(v), p2.Conclusion()))
        else Concat(Clr(Pos(v), p1.Conclusion()), Clr(Neg(v), p2.Conclusion()))
      case Simplified(p) => Simplify(p.Conclusion(), iset{}).value
    }

    ghost predicate LeavesHold(a: Assignment)
      requires Checks()
    {
      match this
      case Leaf(c) => Satisfies(a, c)
      case Resolve(_, _, p1, p2) => p1.LeavesHold(a) && p2.LeavesHold(a)
      case Simplified(p) => p.LeavesHold(a)
    }
  }

  lemma SatisfiesByLiteral(a: Assignment, c: Clause)
    requires Plain(c)
    ensures Satisfies(a, c) <==> exists l :: l in Lits(c) && True(l, a)
  {
  }

  lemma {:induction false} ConclusionHolds(p: Proof, a: Assignment)
    requires p.Checks() && p.LeavesHold(a)
    ensures exists l :: l in Lits(p.Conclusion()) && True(l, a)
  {
    match p
    case Leaf(c) => SatisfiesByLiteral(a, c);
    case Resolve(v, flipped, p1, p2) =>
      ConclusionHolds(p1, a);
      ConclusionHolds(p2, a);
      var l1 :| l1 in Lits(p1.Conclusion()) && True(l1, a);
      var l2 :| l2 in Lits(p2.Conclusion()) && True(l2, a);
      assert l1 in Lits(p.Conclusion()) || l2 in Lits(p.Conclusion());
    case Simplified(q) =>
      ConclusionHolds(q, a);
      var l :| l in Lits(q.Conclusion()) && True(l, a);
      assert l in Lits(p.Conclusion());
  }

  /** Every model of the leaves is a model of the clause computed from the conclusion. */
  lemma ResolutionSound(p: Proof, a: Assignment)
    requires p.Checks() && p.LeavesHold(a)
    requires Simplify(p.Conclusion(), iset{}).Some?
    ensures Satisfies(a, Simplify(p.Conclusion(), iset{}).value)
  {
    var q := Simplified(p);
    ConclusionHolds(q, a);
    SatisfiesByLiteral(a, q.Conclusion());
  }

  /** A proof whose conclusion simplifies to the empty clause refutes its leaves. */
  lemma Refutation(p: Proof)
    requires p.Checks() && Simplify(p.Conclusion(), iset{}) == Some(Cln)
    ensures forall a: Assignment :: !p.LeavesHold(a)
  {
    forall a: Assignment | p.LeavesHold(a)
      ensures false
    {
      ResolutionSound(p, a);
    }
  }
}
