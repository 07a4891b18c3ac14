/** The side conditions that build the obligations of k-induction, as programs of the
    side-condition language, and what they evaluate to. */
module Obligations {
  import opened Marks
  import opened Options
  import opened Slots
  import opened SideCode
  import opened KInduction

  // ----- the programs -----

  const FORMULA := Data("formula")

  function Before(): Code {
    Arith(Add, Var("k"), IntLit(-1))
  }

  /** Fails for negative k; tells zero from positive k. */
  function ByCases(zero: Code, positive: Code): Code {
    IfSign(IsNeg, Var("k"), FailOf(FORMULA), IfSign(IsZero, Var("k"), zero, Let("j", Before(), positive)))
  }

  function UnrollFromProgram(): Program {
    Program(["T", "I", "k"],
            ByCases(Apply("I", [IntLit(0)]),
                    Apply("and", [Call("unroll_from", [Var("T"), Var("I"), Var("j")]),
                                  Apply("T", [Var("j"), Var("k")])])))
  }

  /** The unrolling up to a position, and that the property does not hold there. */
  function ViolatedAt(k: Code): Code {
    Apply("and", [Call("unroll_from", [Var("T"), Var("I"), k]), Apply("not", [Apply("P", [k])])])
  }

  function BaseUpToProgram(): Program {
    Program(["I", "T", "P", "k"],
            ByCases(ViolatedAt(IntLit(0)),
                    Apply("or", [Call("base_k", [Var("I"), Var("T"), Var("P"), Var("j")]), ViolatedAt(Var("k"))])))
  }

  function BaseProgram(): Program {
    Program(["I", "T", "P", "k"], Call("base_k", [Var("I"), Var("T"), Var("P"), Before()]))
  }

  function UnrollWithProgram(): Program {
    Program(["T", "P", "k"],
            ByCases(Apply("P", [IntLit(0)]),
                    IfSign(IsZero, Var("j"),
                           Apply("and", [Apply("P", [IntLit(0)]), Apply("T", [IntLit(0), IntLit(1)])]),
                           Apply("and", [Call("unroll_with", [Var("T"), Var("P"), Var("j")]),
                                         Apply("and", [Apply("P", [Var("j")]), Apply("T", [Var("j"), Var("k")])])]))))
  }

  function StepProgram(): Program {
    Program(["T", "P", "k"],
            Apply("and", [Call("unroll_with", [Var("T"), Var("P"), Var("k")]), Apply("not", [Apply("P", [Var("k")])])]))
  }

  // ----- what they build -----

  /** The initial condition, the transition relation and the property of a system. */
  datatype Preds = Preds(i: Value, t: Value, p: Value)

  function Term(q: Preds, f: Formula): Value {
    match f
    case Init(k) => App(q.i, [Int(k)])
    case Trans(j, k) => App(q.t, [Int(j), Int(k)])
    case Prop(k) => App(q.p, [Int(k)])
    case And(f, g) => App(Symbol("and"), [Term(q, f), Term(q, g)])
    case Or(f, g) => App(Symbol("or"), [Term(q, f), Term(q, g)])
    case Not(f) => App(Symbol("not"), [Term(q, f)])
  }

  /** A formula that is built, or a failure. */
  function Built(q: Preds, f: Option<Formula>, marks: MarkSet): Result<Value> {
    Result(if f.None? then Failed(Explicit) else Val(Term(q, f.value)), marks)
  }

  /** The programs are declared, and their constants are not defined. */
  predicate Declared(w: World) {
    && "and" !in w.defs && "or" !in w.defs && "not" !in w.defs
    && Has(w, "unroll_from", UnrollFromProgram()) && Has(w, "base_k", BaseUpToProgram())
    && Has(w, "base", BaseProgram()) && Has(w, "unroll_with", UnrollWithProgram()) && Has(w, "step", StepProgram())
  }

  predicate Has(w: World, name: Sym, p: Program) {
    name in w.progs && w.progs[name] == p
  }

  /** Values that have been followed. */
  predicate Followed(w: World, v: Value) {
    v.Symbol? ==> v.s !in w.defs
  }

  predicate Ready(w: World, q: Preds) {
    Declared(w) && Followed(w, q.i) && Followed(w, q.t) && Followed(w, q.p)
  }

  // ----- evaluating pieces of code -----

  /** e has the value v and leaves the marks. */
  ghost predicate Gives(fuel: nat, w: World, env: Env, e: Code, v: Value) {
    forall marks: MarkSet :: Eval(fuel, w, env, e, marks) == Result(Val(v), marks)
  }

  lemma GivesVar(fuel: nat, w: World, env: Env, x: Sym)
    requires x in env && Followed(w, env[x])
    ensures Gives(fuel, w, env, Var(x), env[x])
  {
  }

  lemma GivesLit(fuel: nat, w: World, env: Env, n: int)
    ensures Gives(fuel, w, env, IntLit(n), Int(n))
  {
  }

  lemma {:induction false} ArgsGive(fuel: nat, w: World, env: Env, es: seq<Code>, done: seq<Value>, vs: seq<Value>,
                                    marks: MarkSet)
    requires |es| == |vs| && forall i :: 0 <= i < |es| ==> Gives(fuel, w, env, es[i], vs[i])
    ensures EvalArgs(fuel, w, env, es, done, marks) == Result(Val(done + vs), marks)
    decreases es
  {
    if es == [] {
      assert done + vs == done;
    } else {
      assert Gives(fuel, w, env, es[0], vs[0]);
      ArgsGive(fuel, w, env, es[1..], done + [vs[0]], vs[1..], marks);
      assert done + [vs[0]] + vs[1..] == done + vs;
    }
  }

  /** An application of the head h, a variable or a constant. */
  lemma GivesApp(fuel: nat, w: World, env: Env, head: Sym, h: Value, es: seq<Code>, vs: seq<Value>)
    requires |es| == |vs| > 0 && forall i :: 0 <= i < |es| ==> Gives(fuel, w, env, es[i], vs[i])
    requires Followed(w, h) && h == if head in env then env[head] else Symbol(head)
    ensures Gives(fuel, w, env, Apply(head, es), App(h, vs))
  {
    forall marks: MarkSet
      ensures Eval(fuel, w, env, Apply(head, es), marks) == Result(Val(App(h, vs)), marks)
    {
      ArgsGive(fuel, w, env, es, [], vs, marks);
      assert [] + vs == vs;
    }
  }

  /** A call with the outcome r, on arguments that have values. */
  lemma CallGives(fuel: nat, w: World, env: Env, prog: Sym, es: seq<Code>, vs: seq<Value>, marks: MarkSet)
    requires |es| == |vs| && forall i :: 0 <= i < |es| ==> Gives(fuel, w, env, es[i], vs[i])
    ensures Eval(fuel, w, env, Call(prog, es), marks) == EvalCall(fuel, w, prog, vs, marks)
  {
    ArgsGive(fuel, w, env, es, [], vs, marks);
    assert [] + vs == vs;
  }

  lemma GivesCall(fuel: nat, w: World, env: Env, prog: Sym, es: seq<Code>, vs: seq<Value>, v: Value)
    requires |es| == |vs| && forall i :: 0 <= i < |es| ==> Gives(fuel, w, env, es[i], vs[i])
    requires forall marks: MarkSet :: EvalCall(fuel, w, prog, vs, marks) == Result(Val(v), marks)
    ensures Gives(fuel, w, env, Call(prog, es), v)
  {
    forall marks: MarkSet
      ensures Eval(fuel, w, env, Call(prog, es), marks) == Result(Val(v), marks)
    {
      CallGives(fuel, w, env, prog, es, vs, marks);
    }
  }

  lemma GivesBefore(fuel: nat, w: World, env: Env, k: int)
    requires "k" in env && env["k"] == Int(k)
    ensures Gives(fuel, w, env, Before(), Int(k - 1))
  {
    forall marks: MarkSet
      ensures Eval(fuel, w, env, Before(), marks) == Result(Val(Int(k - 1)), marks)
    {
      assert Eval(fuel, w, env, Var("k"), marks) == Result(Val(Int(k)), marks);
      assert Eval(fuel, w, env, IntLit(-1), marks) == Result(Val(Int(-1)), marks);
    }
  }

  lemma CasesOf(fuel: nat, w: World, env: Env, zero: Code, positive: Code, k: int, marks: MarkSet)
    requires "k" in env && env["k"] == Int(k)
    ensures Eval(fuel, w, env, ByCases(zero, positive), marks) ==
            if k < 0 then Result(Failed(Explicit), marks)
            else if k == 0 then Eval(fuel, w, env, zero, marks)
            else Eval(fuel, w, env["j" := Int(k - 1)], positive, marks)
  {
    GivesVar(fuel, w, env, "k");
    GivesBefore(fuel, w, env, k);
    var let := Let("j", Before(), positive);
    assert Eval(fuel, w, env, Var("k"), marks) == Result(Val(Int(k)), marks);
    assert Eval(fuel, w, env, let, marks) == Eval(fuel, w, env["j" := Int(k - 1)], positive, marks);
    assert Eval(fuel, w, env, IfSign(IsZero, Var("k"), zero, let), marks) ==
           if k == 0 then Eval(fuel, w, env, zero, marks) else Eval(fuel, w, env, let, marks);
  }

  /** Two arguments or one, for applications of constants. */
  lemma GivesTwo(fuel: nat, w: World, env: Env, head: Sym, h: Value, e: Code, v: Value, e': Code, v': Value)
    requires Gives(fuel, w, env, e, v) && Gives(fuel, w, env, e', v')
    requires Followed(w, h) && h == if head in env then env[head] else Symbol(head)
    ensures Gives(fuel, w, env, Apply(head, [e, e']), App(h, [v, v']))
  {
    GivesApp(fuel, w, env, head, h, [e, e'], [v, v']);
  }

  lemma GivesOne(fuel: nat, w: World, env: Env, head: Sym, h: Value, e: Code, v: Value)
    requires Gives(fuel, w, env, e, v)
    requires Followed(w, h) && h == if head in env then env[head] else Symbol(head)
    ensures Gives(fuel, w, env, Apply(head, [e]), App(h, [v]))
  {
    GivesApp(fuel, w, env, head, h, [e], [v]);
  }

  // ----- environments -----

  lemma Bound3<T>(x: Sym, y: Sym, z: Sym, a: T, b: T, c: T)
    ensures Bind(map[], [x, y, z], [a, b, c], 3) == map[x := a][y := b][z := c]
  {
    var none: map<Sym, T> := map[];
    var xs, vs := [x, y, z], [a, b, c];
    assert Bind(none, xs, vs, 0) == none;
    assert Bind(none, xs, vs, 1) == none[x := a];
    assert Bind(none, xs, vs, 2) == none[x := a][y := b];
  }

  lemma Bound4<T>(x: Sym, y: Sym, z: Sym, u: Sym, a: T, b: T, c: T, d: T)
    ensures Bind(map[], [x, y, z, u], [a, b, c, d], 4) == map[x := a][y := b][z := c][u := d]
  {
    var none: map<Sym, T> := map[];
    var xs, vs := [x, y, z, u], [a, b, c, d];
    assert Bind(none, xs, vs, 0) == none;
    assert Bind(none, xs, vs, 1) == none[x := a];
    assert Bind(none, xs, vs, 2) == none[x := a][y := b];
    assert Bind(none, xs, vs, 3) == none[x := a][y := b][z := c];
  }

  // ----- the programs build the obligations -----

  /** `unroll_from` builds the unrolling, or fails for negative bounds. */
  lemma {:induction false} UnrollFromBuilt(fuel: nat, w: World, q: Preds, k: int, marks: MarkSet)
    requires Ready(w, q) && fuel > 0 && fuel > k
    ensures EvalCall(fuel, w, "unroll_from", [q.t, q.i, Int(k)], marks) == Built(q, UnrollFrom(k), marks)
    decreases fuel, 0
  {
    Bound3("T", "I", "k", q.t, q.i, Int(k));
    UnrollFromBody(fuel - 1, w, map["T" := q.t]["I" := q.i]["k" := Int(k)], q, k, marks);
  }

  lemma {:induction false} UnrollFromBody(fuel: nat, w: World, env: Env, q: Preds, k: int, marks: MarkSet)
    requires Ready(w, q) && fuel >= k && env == map["T" := q.t]["I" := q.i]["k" := Int(k)]
    ensures Eval(fuel, w, env, UnrollFromProgram().body, marks) == Built(q, UnrollFrom(k), marks)
    decreases fuel, 4
  {
    CasesOf(fuel, w, env, Apply("I", [IntLit(0)]), UnrollFromProgram().body.els.els.body, k, marks);
    if k == 0 {
      GivesLit(fuel, w, env, 0);
      GivesOne(fuel, w, env, "I", q.i, IntLit(0), Int(0));
    } else if k > 0 {
      UnrollMore(fuel, w, env["j" := Int(k - 1)], q, k);
    }
  }

  lemma {:induction false} UnrollMore(fuel: nat, w: World, env: Env, q: Preds, k: nat)
    requires Ready(w, q) && k > 0 && fuel >= k && "and" !in env
    requires "T" in env && env["T"] == q.t && "I" in env && env["I"] == q.i
    requires "j" in env && env["j"] == Int(k - 1) && "k" in env && env["k"] == Int(k)
    ensures Gives(fuel, w, env, Apply("and", [Call("unroll_from", [Var("T"), Var("I"), Var("j")]),
                                              Apply("T", [Var("j"), Var("k")])]), Term(q, UnrollFrom(k).value))
    decreases fuel, 2
  {
    GivesVar(fuel, w, env, "j");
    UnrollCalled(fuel, w, env, q, Var("j"), k - 1);
    TransGiven(fuel, w, env, q, k);
    GivesTwo(fuel, w, env, "and", Symbol("and"), Call("unroll_from", [Var("T"), Var("I"), Var("j")]),
             Term(q, UnrollFrom(k - 1).value), Apply("T", [Var("j"), Var("k")]), Term(q, Trans(k - 1, k)));
  }

  lemma {:induction false} UnrollCalled(fuel: nat, w: World, env: Env, q: Preds, e: Code, k: nat)
    requires Ready(w, q) && fuel > k && Gives(fuel, w, env, e, Int(k))
    requires "T" in env && env["T"] == q.t && "I" in env && env["I"] == q.i
    ensures Gives(fuel, w, env, Call("unroll_from", [Var("T"), Var("I"), e]), Term(q, UnrollFrom(k).value))
    decreases fuel, 1
  {
    GivesVar(fuel, w, env, "T");
    GivesVar(fuel, w, env, "I");
    forall marks: MarkSet
      ensures EvalCall(fuel, w, "unroll_from", [q.t, q.i, Int(k)], marks) ==
              Result(Val(Term(q, UnrollFrom(k).value)), marks)
    {
      UnrollFromBuilt(fuel, w, q, k, marks);
    }
    GivesCall(fuel, w, env, "unroll_from", [Var("T"), Var("I"), e], [q.t, q.i, Int(k)], Term(q, UnrollFrom(k).value));
  }

  lemma TransGiven(fuel: nat, w: World, env: Env, q: Preds, k: nat)
    requires Ready(w, q) && k > 0 && "T" in env && env["T"] == q.t
    requires "j" in env && env["j"] == Int(k - 1) && "k" in env && env["k"] == Int(k)
    ensures Gives(fuel, w, env, Apply("T", [Var("j"), Var("k")]), Term(q, Trans(k - 1, k)))
  {
    GivesVar(fuel, w, env, "j");
    GivesVar(fuel, w, env, "k");
    GivesTwo(fuel, w, env, "T", q.t, Var("j"), Int(k - 1), Var("k"), Int(k));
  }

  lemma ViolationGiven(fuel: nat, w: World, env: Env, q: Preds, e: Code, k: nat)
    requires Ready(w, q) && fuel > k && Gives(fuel, w, env, e, Int(k)) && "and" !in env && "not" !in env
    requires "T" in env && env["T"] == q.t && "I" in env && env["I"] == q.i && "P" in env && env["P"] == q.p
    ensures Gives(fuel, w, env, ViolatedAt(e), Term(q, And(UnrollFrom(k).value, Not(Prop(k)))))
  {
    UnrollCalled(fuel, w, env, q, e, k);
    GivesOne(fuel, w, env, "P", q.p, e, Int(k));
    GivesOne(fuel, w, env, "not", Symbol("not"), Apply("P", [e]), Term(q, Prop(k)));
    GivesTwo(fuel, w, env, "and", Symbol("and"), Call("unroll_from", [Var("T"), Var("I"), e]),
             Term(q, UnrollFrom(k).value), Apply("not", [Apply("P", [e])]), Term(q, Not(Prop(k))));
  }

  /** `base_k` builds the base formula up to k. */
  lemma {:induction false} BaseUpToBuilt(fuel: nat, w: World, q: Preds, k: int, marks: MarkSet)
    requires Ready(w, q) && fuel > 1 && fuel > k + 1
    ensures EvalCall(fuel, w, "base_k", [q.i, q.t, q.p, Int(k)], marks) == Built(q, BaseUpTo(k), marks)
    decreases fuel, 0
  {
    Bound4("I", "T", "P", "k", q.i, q.t, q.p, Int(k));
    var env: Env := map["I" := q.i]["T" := q.t]["P" := q.p]["k" := Int(k)];
    var n := fuel - 1;
    var call := Call("base_k", [Var("I"), Var("T"), Var("P"), Var("j")]);
    CasesOf(n, w, env, ViolatedAt(IntLit(0)), Apply("or", [call, ViolatedAt(Var("k"))]), k, marks);
    if k == 0 {
      GivesLit(n, w, env, 0);
      ViolationGiven(n, w, env, q, IntLit(0), 0);
    } else if k > 0 {
      BaseMore(n, w, env["j" := Int(k - 1)], q, k);
    }
  }

  lemma {:induction false} BaseMore(fuel: nat, w: World, env: Env, q: Preds, k: nat)
    requires Ready(w, q) && k > 0 && fuel > k && "or" !in env && "and" !in env && "not" !in env
    requires "T" in env && env["T"] == q.t && "I" in env && env["I"] == q.i && "P" in env && env["P"] == q.p
    requires "j" in env && env["j"] == Int(k - 1) && "k" in env && env["k"] == Int(k)
    ensures Gives(fuel, w, env, Apply("or", [Call("base_k", [Var("I"), Var("T"), Var("P"), Var("j")]),
                                             ViolatedAt(Var("k"))]), Term(q, BaseUpTo(k).value))
    decreases fuel, 2
  {
    GivesVar(fuel, w, env, "j");
    GivesVar(fuel, w, env, "k");
    BaseCalled(fuel, w, env, q, Var("j"), k - 1);
    ViolationGiven(fuel, w, env, q, Var("k"), k);
    GivesTwo(fuel, w, env, "or", Symbol("or"), Call("base_k", [Var("I"), Var("T"), Var("P"), Var("j")]),
             Term(q, BaseUpTo(k - 1).value), ViolatedAt(Var("k")), Term(q, And(UnrollFrom(k).value, Not(Prop(k)))));
  }

  lemma {:induction false} BaseCalled(fuel: nat, w: World, env: Env, q: Preds, e: Code, k: nat)
    requires Ready(w, q) && fuel > k + 1 && Gives(fuel, w, env, e, Int(k))
    requires "T" in env && env["T"] == q.t && "I" in env && env["I"] == q.i && "P" in env && env["P"] == q.p
    ensures Gives(fuel, w, env, Call("base_k", [Var("I"), Var("T"), Var("P"), e]), Term(q, BaseUpTo(k).value))
    decreases fuel, 1
  {
    GivesVar(fuel, w, env, "T");
    GivesVar(fuel, w, env, "I");
    GivesVar(fuel, w, env, "P");
    forall marks: MarkSet
      ensures EvalCall(fuel, w, "base_k", [q.i, q.t, q.p, Int(k)], marks) ==
              Result(Val(Term(q, BaseUpTo(k).value)), marks)
    {
      BaseUpToBuilt(fuel, w, q, k, marks);
    }
    GivesCall(fuel, w, env, "base_k", [Var("I"), Var("T"), Var("P"), e], [q.i, q.t, q.p, Int(k)],
              Term(q, BaseUpTo(k).value));
  }

  /** `base` builds the base obligation. */
  lemma BaseBuilt(fuel: nat, w: World, q: Preds, k: int, marks: MarkSet)
    requires Ready(w, q) && fuel > 2 && fuel > k + 1
    ensures EvalCall(fuel, w, "base", [q.i, q.t, q.p, Int(k)], marks) == Built(q, Base(k), marks)
  {
    Bound4("I", "T", "P", "k", q.i, q.t, q.p, Int(k));
    var env: Env := map["I" := q.i]["T" := q.t]["P" := q.p]["k" := Int(k)];
    var n := fuel - 1;
    GivesVar(n, w, env, "T");
    GivesVar(n, w, env, "I");
    GivesVar(n, w, env, "P");
    GivesBefore(n, w, env, k);
    CallGives(n, w, env, "base_k", [Var("I"), Var("T"), Var("P"), Before()], [q.i, q.t, q.p, Int(k - 1)], marks);
    BaseUpToBuilt(n, w, q, k - 1, marks);
  }

  /** `unroll_with` builds the good steps. */
  lemma {:induction false} UnrollWithBuilt(fuel: nat, w: World, q: Preds, k: int, marks: MarkSet)
    requires Ready(w, q) && fuel > 0 && fuel > k
    ensures EvalCall(fuel, w, "unroll_with", [q.t, q.p, Int(k)], marks) == Built(q, UnrollWith(k), marks)
    decreases fuel, 0
  {
    Bound3("T", "P", "k", q.t, q.p, Int(k));
    UnrollWithBody(fuel - 1, w, map["T" := q.t]["P" := q.p]["k" := Int(k)], q, k, marks);
  }

  lemma {:induction false} UnrollWithBody(fuel: nat, w: World, env: Env, q: Preds, k: int, marks: MarkSet)
    requires Ready(w, q) && fuel >= k && env == map["T" := q.t]["P" := q.p]["k" := Int(k)]
    ensures Eval(fuel, w, env, UnrollWithProgram().body, marks) == Built(q, UnrollWith(k), marks)
    decreases fuel, 4
  {
    CasesOf(fuel, w, env, Apply("P", [IntLit(0)]), UnrollWithProgram().body.els.els.body, k, marks);
    if k == 0 {
      GivesLit(fuel, w, env, 0);
      GivesOne(fuel, w, env, "P", q.p, IntLit(0), Int(0));
    } else if k > 0 {
      StepsGiven(fuel, w, env["j" := Int(k - 1)], q, k);
    }
  }

  lemma {:induction false} StepsGiven(fuel: nat, w: World, env: Env, q: Preds, k: nat)
    requires Ready(w, q) && k > 0 && fuel >= k && "and" !in env
    requires "T" in env && env["T"] == q.t && "P" in env && env["P"] == q.p
    requires "j" in env && env["j"] == Int(k - 1) && "k" in env && env["k"] == Int(k)
    ensures Gives(fuel, w, env, UnrollWithProgram().body.els.els.body, Term(q, UnrollWith(k).value))
    decreases fuel, 3
  {
    GivesVar(fuel, w, env, "j");
    if k == 1 {
      FirstStepGiven(fuel, w, env, q);
    } else {
      LaterStepGiven(fuel, w, env, q, k);
    }
  }

  lemma FirstStepGiven(fuel: nat, w: World, env: Env, q: Preds)
    requires Ready(w, q) && "and" !in env && "T" in env && env["T"] == q.t && "P" in env && env["P"] == q.p
    ensures Gives(fuel, w, env, Apply("and", [Apply("P", [IntLit(0)]), Apply("T", [IntLit(0), IntLit(1)])]),
                  Term(q, And(Prop(0), Trans(0, 1))))
  {
    GivesLit(fuel, w, env, 0);
    GivesLit(fuel, w, env, 1);
    GivesOne(fuel, w, env, "P", q.p, IntLit(0), Int(0));
    GivesTwo(fuel, w, env, "T", q.t, IntLit(0), Int(0), IntLit(1), Int(1));
    GivesTwo(fuel, w, env, "and", Symbol("and"), Apply("P", [IntLit(0)]), Term(q, Prop(0)),
             Apply("T", [IntLit(0), IntLit(1)]), Term(q, Trans(0, 1)));
  }

  lemma {:induction false} LaterStepGiven(fuel: nat, w: World, env: Env, q: Preds, k: nat)
    requires Ready(w, q) && k > 1 && fuel >= k && "and" !in env
    requires "T" in env && env["T"] == q.t && "P" in env && env["P"] == q.p
    requires "j" in env && env["j"] == Int(k - 1) && "k" in env && env["k"] == Int(k)
    ensures Gives(fuel, w, env, UnrollWithProgram().body.els.els.body.els, Term(q, UnrollWith(k).value))
    decreases fuel, 2
  {
    GivesVar(fuel, w, env, "j");
    WithCalled(fuel, w, env, q, Var("j"), k - 1);
    GivesOne(fuel, w, env, "P", q.p, Var("j"), Int(k - 1));
    TransGiven(fuel, w, env, q, k);
    var good := Apply("and", [Apply("P", [Var("j")]), Apply("T", [Var("j"), Var("k")])]);
    GivesTwo(fuel, w, env, "and", Symbol("and"), Apply("P", [Var("j")]), Term(q, Prop(k - 1)),
             Apply("T", [Var("j"), Var("k")]), Term(q, Trans(k - 1, k)));
    GivesTwo(fuel, w, env, "and", Symbol("and"), Call("unroll_with", [Var("T"), Var("P"), Var("j")]),
             Term(q, UnrollWith(k - 1).value), good, Term(q, And(Prop(k - 1), Trans(k - 1, k))));
  }

  lemma {:induction false} WithCalled(fuel: nat, w: World, env: Env, q: Preds, e: Code, k: nat)
    requires Ready(w, q) && fuel > k && Gives(fuel, w, env, e, Int(k))
    requires "T" in env && env["T"] == q.t && "P" in env && env["P"] == q.p
    ensures Gives(fuel, w, env, Call("unroll_with", [Var("T"), Var("P"), e]), Term(q, UnrollWith(k).value))
    decreases fuel, 1
  {
    GivesVar(fuel, w, env, "T");
    GivesVar(fuel, w, env, "P");
    forall marks: MarkSet
      ensures EvalCall(fuel, w, "unroll_with", [q.t, q.p, Int(k)], marks) ==
              Result(Val(Term(q, UnrollWith(k).value)), marks)
    {
      UnrollWithBuilt(fuel, w, q, k, marks);
    }
    GivesCall(fuel, w, env, "unroll_with", [Var("T"), Var("P"), e], [q.t, q.p, Int(k)], Term(q, UnrollWith(k).value));
  }

  /** `step` builds the step obligation. */
  lemma StepBuilt(fuel: nat, w: World, q: Preds, k: int, marks: MarkSet)
    requires Ready(w, q) && fuel > 1 && fuel > k + 1
    ensures EvalCall(fuel, w, "step", [q.t, q.p, Int(k)], marks) == Built(q, Step(k), marks)
  {
    Bound3("T", "P", "k", q.t, q.p, Int(k));
    var env: Env := map["T" := q.t]["P" := q.p]["k" := Int(k)];
    var n := fuel - 1;
    var call, not := Call("unroll_with", [Var("T"), Var("P"), Var("k")]), Apply("not", [Apply("P", [Var("k")])]);
    GivesVar(n, w, env, "k");
    if k >= 0 {
      WithCalled(n, w, env, q, Var("k"), k);
      GivesOne(n, w, env, "P", q.p, Var("k"), Int(k));
      GivesOne(n, w, env, "not", Symbol("not"), Apply("P", [Var("k")]), Term(q, Prop(k)));
      GivesTwo(n, w, env, "and", Symbol("and"), call, Term(q, UnrollWith(k).value), not, Term(q, Not(Prop(k))));
    } else {
      GivesVar(n, w, env, "T");
      GivesVar(n, w, env, "P");
      CallGives(n, w, env, "unroll_with", call.args, [q.t, q.p, Int(k)], marks);
      UnrollWithBuilt(n, w, q, k, marks);
      assert EvalArgs(n, w, env, [call, not], [], marks) == Result(Failed(Explicit), marks);
    }
  }
}
