/** The k-induction obligations built by the compiled side conditions.

    The initial condition I, the transition relation T and the property P are predicates
    on positions; the obligations are propositional combinations of their instances.
    They are read over sequences of states: `(I k)` is about the k-th state of a sequence
    and `(T j k)` about its j-th and k-th states. */
module KInduction {
  import opened Options

  datatype Formula =
    | Init(k: nat)
    | Trans(j: nat, k: nat)
    | Prop(k: nat)
    | And(f: Formula, g: Formula)
    | Or(f: Formula, g: Formula)
    | Not(f: Formula)

  // ----- construction of the obligations -----

  /** (I 0) and (T 0 1) and ... and (T (k-1) k); fails for a negative bound. */
  function UnrollFrom(k: int): (r: Option<Formula>)
    ensures r.Some? <==> k >= 0
    decreases k
  {
    if k < 0 then None
    else if k == 0 then Some(Init(0))
    else Some(And(UnrollFrom(k - 1).value, Trans(k - 1, k)))
  }

  /** Some position up to k violates the property on a run from the initial states. */
  function BaseUpTo(k: int): (r: Option<Formula>)
    ensures r.Some? <==> k >= 0
    decreases k
  {
    if k < 0 then None
    else if k == 0 then Some(And(UnrollFrom(0).value, Not(Prop(0))))
    else Some(Or(BaseUpTo(k - 1).value, And(UnrollFrom(k).value, Not(Prop(k)))))
  }

  function Base(k: int): (r: Option<Formula>)
    ensures r.Some? <==> k >= 1
  {
    BaseUpTo(k - 1)
  }

  /** k steps from an arbitrary state, the property holding before each of them. */
  function UnrollWith(k: int): (r: Option<Formula>)
    ensures r.Some? <==> k >= 0
    decreases k
  {
    if k < 0 then None
    else if k == 0 then Some(Prop(0))
    else
      var j := k - 1;
      if j == 0 then Some(And(Prop(0), Trans(0, 1)))
      else Some(And(UnrollWith(j).value, And(Prop(j), Trans(j, k))))
  }

  function Step(k: int): (r: Option<Formula>)
    ensures r.Some? <==> k >= 0
  {
    var u := UnrollWith(k);
    if u.None? then None else Some(And(u.value, Not(Prop(k))))
  }

  // ----- reading the obligations -----

  datatype System<!S> = System(init: S -> bool, trans: (S, S) -> bool, prop: S -> bool)

  type Path<S> = nat -> S

  ghost predicate Holds<S>(f: Formula, m: System<S>, s: Path<S>) {
    match f
    case Init(k) => m.init(s(k))
    case Trans(j, k) => m.trans(s(j), s(k))
    case Prop(k) => m.prop(s(k))
    case And(f, g) => Holds(f, m, s) && Holds(g, m, s)
    case Or(f, g) => Holds(f, m, s) || Holds(g, m, s)
    case Not(f) => !Holds(f, m, s)
  }

  ghost predicate Unsatisfiable<S(!new)>(f: Formula, m: System<S>) {
    forall s: Path<S> :: !Holds(f, m, s)
  }

  ghost predicate Next<S>(m: System<S>, s: Path<S>, i: nat) {
    m.trans(s(i), s(i + 1))
  }

  ghost predicate GoodNext<S>(m: System<S>, s: Path<S>, i: nat) {
    m.prop(s(i)) && Next(m, s, i)
  }

  /** The first n+1 states of s are a run from the initial states. */
  ghost predicate Run<S>(m: System<S>, s: Path<S>, n: nat) {
    m.init(s(0)) && forall i: nat :: i < n ==> Next(m, s, i)
  }

  /** A run of n steps ends in a state without the property. */
  ghost predicate Violation<S>(m: System<S>, s: Path<S>, n: nat) {
    Run(m, s, n) && !m.prop(s(n))
  }

  /** The property holds after every finite run, whether or not the run can be continued. */
  ghost predicate Invariant<S(!new)>(m: System<S>) {
    forall s: Path<S>, n: nat :: !Violation(m, s, n)
  }

  // ----- exact meaning of the obligations -----

  lemma {:induction false} UnrollFromMeaning<S>(k: nat, m: System<S>, s: Path<S>)
    ensures Holds(UnrollFrom(k).value, m, s) <==> Run(m, s, k)
  {
    if k > 0 {
      UnrollFromMeaning(k - 1, m, s);
      assert Holds(Trans(k - 1, k), m, s) <==> Next(m, s, k - 1);
    }
  }

  lemma {:induction false} BaseUpToMeaning<S>(k: nat, m: System<S>, s: Path<S>)
    ensures Holds(BaseUpTo(k).value, m, s) <==> exists i: nat :: i <= k && Violation(m, s, i)
  {
    UnrollFromMeaning(k, m, s);
    assert Holds(Not(Prop(k)), m, s) <==> !m.prop(s(k));
    assert Holds(And(UnrollFrom(k).value, Not(Prop(k))), m, s) <==> Violation(m, s, k);
    if k > 0 {
      BaseUpToMeaning(k - 1, m, s);
    }
  }

  lemma {:induction false} UnrollWithMeaning<S>(k: nat, m: System<S>, s: Path<S>)
    requires k >= 1
    ensures Holds(UnrollWith(k).value, m, s) <==> forall i: nat :: i < k ==> GoodNext(m, s, i)
  {
    var j := k - 1;
    assert Holds(And(Prop(j), Trans(j, k)), m, s) <==> GoodNext(m, s, j);
    if j > 0 {
      UnrollWithMeaning(j, m, s);
    }
  }

  /** The step obligation says that k good steps lead to a state without the property; for
      k = 0 nothing satisfies it. */
  lemma StepMeaning<S>(k: nat, m: System<S>, s: Path<S>)
    ensures k >= 1 ==>
      (Holds(Step(k).value, m, s) <==> (forall i: nat :: i < k ==> GoodNext(m, s, i)) && !m.prop(s(k)))
    ensures k == 0 ==> !Holds(Step(k).value, m, s)
  {
    var u := UnrollWith(k).value;
    assert Holds(Not(Prop(k)), m, s) <==> !m.prop(s(k));
    assert Holds(And(u, Not(Prop(k))), m, s) <==> Holds(u, m, s) && !m.prop(s(k));
    if k >= 1 {
      UnrollWithMeaning(k, m, s);
    }
  }

  // ----- soundness -----

  ghost function Shifted<S>(s: Path<S>, n: nat): Path<S> {
    (i: nat) => s(n + i)
  }

  lemma ShiftedGoodNext<S>(m: System<S>, s: Path<S>, n: nat, i: nat)
    ensures GoodNext(m, Shifted(s, n), i) == GoodNext(m, s, n + i)
  {
    assert n + (i + 1) == n + i + 1;
  }

  /** A violation after good steps from position n on satisfies the step obligation. */
  lemma StepFinds<S>(k: nat, m: System<S>, s: Path<S>, n: nat)
    requires k >= 1
    requires forall i: nat :: n <= i < n + k ==> GoodNext(m, s, i)
    requires !m.prop(s(n + k))
    ensures Holds(Step(k).value, m, Shifted(s, n))
  {
    forall i: nat | i < k
      ensures GoodNext(m, Shifted(s, n), i)
    {
      ShiftedGoodNext(m, s, n, i);
    }
    StepMeaning(k, m, Shifted(s, n));
  }

  /** The rule of k-induction: unsatisfiable obligations make the property invariant.  The
      base obligation exists for positive bounds only. */
  lemma KInductionSound<S(!new)>(k: int, m: System<S>)
    requires Base(k).Some? && Step(k).Some?
    requires Unsatisfiable(Base(k).value, m) && Unsatisfiable(Step(k).value, m)
    ensures Invariant(m)
  {
    forall s: Path<S>, n: nat
      ensures !Violation(m, s, n)
    {
      if Run(m, s, n) {
        PropertyReached(k, m, s, n);
      }
    }
  }

  lemma {:induction false} PropertyReached<S(!new)>(k: nat, m: System<S>, s: Path<S>, n: nat)
    requires k >= 1 && Run(m, s, n)
    requires Unsatisfiable(Base(k).value, m) && Unsatisfiable(Step(k).value, m)
    ensures forall i: nat :: i <= n ==> m.prop(s(i))
    decreases n
  {
    if n > 0 {
      PropertyReached(k, m, s, n - 1);
    }
    if !m.prop(s(n)) {
      if n < k {
        BaseUpToMeaning(k - 1, m, s);
        assert Violation(m, s, n);
      } else {
        StepFinds(k, m, s, n - k);
      }
    }
  }

  // ----- strength in k -----

  /** A violation after k+1 good steps is a violation after k good steps, one state on. */
  lemma StepMonotone<S(!new)>(k: nat, m: System<S>)
    requires k >= 1 && Unsatisfiable(Step(k).value, m)
    ensures Unsatisfiable(Step(k + 1).value, m)
  {
    var f := Step(k + 1).value;
    forall s: Path<S>
      ensures !Holds(f, m, s)
    {
      if Holds(f, m, s) {
        StepMeaning(k + 1, m, s);
        StepFinds(k, m, s, 1);
      }
    }
  }

  /** The base obligations together say no more and no less than that the property is
      invariant. */
  lemma BaseComplete<S(!new)>(m: System<S>)
    ensures Invariant(m) <==> forall k: nat :: k >= 1 ==> Unsatisfiable(Base(k).value, m)
  {
    forall s: Path<S>, k: nat
      ensures Holds(BaseUpTo(k).value, m, s) <==> exists i: nat :: i <= k && Violation(m, s, i)
    {
      BaseUpToMeaning(k, m, s);
    }
    if forall k: nat :: k >= 1 ==> Unsatisfiable(Base(k).value, m) {
      forall s: Path<S>, n: nat
        ensures !Violation(m, s, n)
      {
        assert Unsatisfiable(Base(n + 1).value, m);
        assert !Holds(BaseUpTo(n).value, m, s);
      }
    }
  }
}
