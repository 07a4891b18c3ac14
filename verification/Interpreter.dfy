/** The interpreter of side-condition code as the checker runs it: a variable is bound by
    overwriting the `val` slot of its symbol and unbound by writing the old contents back.
    A program called by another one therefore runs in a store that still holds its caller's
    bindings.  For programs that mention no variables but their own this is invisible: the
    result is that of evaluation with environments, and every slot is left as found. */
module Interpreter {
  import opened Marks
  import opened Options
  import opened Collections
  import opened Slots
  import opened Quotients
  import opened SideCode

  // ----- scoping -----

  /** Variables of e are bound in e or in scope; other symbols are constants. */
  predicate Scoped(e: Code, scope: set<Sym>, binders: set<Sym>) {
    match e
    case IntLit(_) => true
    case RatLit(_, _) => true
    case Var(s) => s in binders ==> s in scope
    case Apply(head, args) =>
      (head in binders ==> head in scope) && forall i :: 0 <= i < |args| ==> Scoped(args[i], scope, binders)
    case Call(_, args) => forall i :: 0 <= i < |args| ==> Scoped(args[i], scope, binders)
    case Do(first, second) => Scoped(first, scope, binders) && Scoped(second, scope, binders)
    case Let(x, bound, body) => x in binders && Scoped(bound, scope, binders) && Scoped(body, scope + {x}, binders)
    case Arith(_, left, right) => Scoped(left, scope, binders) && Scoped(right, scope, binders)
    case Negate(arg) => Scoped(arg, scope, binders)
    case IfSign(_, arg, thn, els) =>
      Scoped(arg, scope, binders) && Scoped(thn, scope, binders) && Scoped(els, scope, binders)
    case FailOf(_) => true
    case MarkVar(_, arg) => Scoped(arg, scope, binders)
    case IfMarked(_, arg, thn, els) =>
      Scoped(arg, scope, binders) && Scoped(thn, scope, binders) && Scoped(els, scope, binders)
    case Compare(left, right, thn, els) =>
      && Scoped(left, scope, binders) && Scoped(right, scope, binders)
      && Scoped(thn, scope, binders) && Scoped(els, scope, binders)
    case Match(scrut, cases) =>
      Scoped(scrut, scope, binders) && forall i :: 0 <= i < |cases| ==> ScopedCase(cases[i], scope, binders)
  }

  predicate ScopedCase(c: Case, scope: set<Sym>, binders: set<Sym>) {
    match c
    case Default(body) => Scoped(body, scope, binders)
    case Arm(ctor, vars, body) =>
      && ctor !in binders && Distinct(vars) && Elements(vars) <= binders
      && Scoped(body, scope + Elements(vars), binders)
  }

  /** Every program has distinct parameters and mentions no other free variables. */
  predicate ScopedTable(progs: Table, binders: set<Sym>) {
    forall p <- progs ::
      && Distinct(progs[p].params) && Elements(progs[p].params) <= binders
      && Scoped(progs[p].body, Elements(progs[p].params), binders)
  }

  // ----- stores and environments -----

  /** No variable of any code occurs in v. */
  predicate Clean(v: Value, binders: set<Sym>) {
    match v
    case Symbol(s) => s !in binders
    case App(head, args) => Clean(head, binders) && forall i :: 0 <= i < |args| ==> Clean(args[i], binders)
    case _ => true
  }

  /** The definitions among the slots: those of symbols that code cannot bind. */
  function Defs(slots: Env, binders: set<Sym>): Env {
    map s | s in slots && s !in binders :: slots[s]
  }

  /** The slots hold the bindings of env, possibly among stale bindings of other scopes. */
  predicate Agree(slots: Env, env: Env, binders: set<Sym>) {
    && env.Keys <= binders
    && (forall x <- env :: x in slots && slots[x] == env[x] && Clean(env[x], binders))
    && (forall s <- slots :: s !in binders ==> Clean(slots[s], binders))
  }

  lemma {:induction false} FollowDefs(slots: Env, v: Value, binders: set<Sym>)
    requires Clean(v, binders)
    requires forall s <- slots :: s !in binders ==> Clean(slots[s], binders)
    ensures Follow(slots, v) == Follow(Defs(slots, binders), v)
    ensures Clean(Follow(slots, v), binders)
    decreases slots.Keys
  {
    if v.Symbol? && v.s in slots {
      var rest := slots - {v.s};
      assert rest.Keys == slots.Keys - {v.s};
      assert Defs(rest, binders) == Defs(slots, binders) - {v.s};
      FollowDefs(rest, slots[v.s], binders);
    }
  }

  /** Reading a variable's slot is looking it up in the environment. */
  lemma SlotIsLookup(slots: Env, env: Env, binders: set<Sym>, s: Sym)
    requires Agree(slots, env, binders) && (s in binders ==> s in env)
    ensures Follow(slots, Symbol(s)) == Lookup(Defs(slots, binders), env, s)
    ensures Clean(Follow(slots, Symbol(s)), binders)
  {
    if s in env {
      var rest := slots - {s};
      assert Defs(rest, binders) == Defs(slots, binders);
      FollowDefs(rest, env[s], binders);
    } else {
      FollowDefs(slots, Symbol(s), binders);
    }
  }

  /** ... exactly for variables that are bound: others may hold anything. */
  lemma LookupNeedsScope(env: Env, binders: set<Sym>, s: Sym)
    requires env.Keys <= binders && forall x <- env :: Clean(env[x], binders)
    ensures (s in binders ==> s in env) <==>
            forall slots :: Agree(slots, env, binders) ==>
              Follow(slots, Symbol(s)) == Lookup(Defs(slots, binders), env, s)
  {
    if s in binders ==> s in env {
      forall slots | Agree(slots, env, binders)
        ensures Follow(slots, Symbol(s)) == Lookup(Defs(slots, binders), env, s)
      {
        SlotIsLookup(slots, env, binders, s);
      }
    } else {
      var stale := env[s := Int(0)];
      assert Agree(stale, env, binders);
      assert Follow(stale, Symbol(s)) == Int(0);
    }
  }

  lemma BindAgrees(slots: Env, env: Env, binders: set<Sym>, xs: seq<Sym>, vs: seq<Value>, n: nat)
    requires Agree(slots, env, binders) && Distinct(xs) && Elements(xs) <= binders
    requires n == |xs| <= |vs| && forall i :: 0 <= i < |vs| ==> Clean(vs[i], binders)
    ensures Agree(Bind(slots, xs, vs, n), Bind(env, xs, vs, n), binders)
    ensures Bind(env, xs, vs, n).Keys == env.Keys + Elements(xs)
    ensures Defs(Bind(slots, xs, vs, n), binders) == Defs(slots, binders)
  {
    var slots', env' := Bind(slots, xs, vs, n), Bind(env, xs, vs, n);
    assert xs[..n] == xs;
    forall s: Sym
      ensures s in slots' <==> s in slots || s in xs
      ensures s in env' <==> s in env || s in xs
      ensures s !in xs ==> Get(slots', s) == Get(slots, s) && Get(env', s) == Get(env, s)
      ensures s in xs ==> exists i :: 0 <= i < n && Get(slots', s) == Some(vs[i]) == Get(env', s)
    {
      BindGet(slots, xs, vs, n, s);
      BindGet(env, xs, vs, n, s);
      if s in xs {
        var i :| 0 <= i < n && xs[i] == s;
      }
    }
  }

  // ----- the interpreter -----

  class Interpreter {
    const progs: Table
    const before: (Sym, Sym) -> bool
    ghost const binders: set<Sym>
    var slots: Env
    var marks: MarkSet

    constructor (progs: Table, before: (Sym, Sym) -> bool, ghost binders: set<Sym>, slots: Env, marks: MarkSet)
      ensures this.progs == progs && this.before == before && this.binders == binders
      ensures this.slots == slots && this.marks == marks
    {
      this.progs, this.before, this.binders, this.slots, this.marks := progs, before, binders, slots, marks;
    }

    ghost predicate Ready(env: Env)
      reads this
    {
      ScopedTable(progs, binders) && Agree(slots, env, binders)
    }

    ghost function Context(): World
      reads this
    {
      World(progs, Defs(slots, binders), before, true)
    }

    /** Binds xs to vs, returning what their slots held. */
    method BindSlots(xs: seq<Sym>, vs: seq<Value>) returns (olds: seq<Option<Value>>)
      requires |xs| <= |vs|
      modifies this`slots
      ensures slots == Bind(old(slots), xs, vs, |xs|)
      ensures olds == Saved(old(slots), xs, vs, |xs|)
    {
      olds := [];
      for j := 0 to |xs|
        invariant slots == Bind(old(slots), xs, vs, j)
        invariant olds == Saved(old(slots), xs, vs, j)
      {
        olds := olds + [Get(slots, xs[j])];
        slots := slots[xs[j] := vs[j]];
      }
    }

    method RestoreSlots(xs: seq<Sym>, olds: seq<Option<Value>>)
      requires |xs| == |olds|
      modifies this`slots
      ensures slots == Restore(old(slots), xs, olds, |xs|)
    {
      for j := 0 to |xs|
        invariant slots == Restore(old(slots), xs, olds, j)
      {
        slots := Put(slots, xs[j], olds[j]);
      }
    }

    /** Runs code.  Whatever the outcome, the slots are as found, and value and marks are
        those of evaluation in the environment that the slots hold. */
    method Run(fuel: nat, e: Code, ghost env: Env) returns (r: Outcome<Value>)
      requires Ready(env) && Scoped(e, env.Keys, binders)
      modifies this
      ensures slots == old(slots)
      ensures Result(r, marks) == Eval(fuel, Context(), env, e, old(marks))
      ensures r.Val? ==> Clean(r.v, binders)
      decreases fuel, 2, e, 1
    {
      match e
      case IntLit(n) => r := Val(Int(n));
      case RatLit(num, den) => r := Val(Rat(num as real / den as real));
      case Var(s) =>
        SlotIsLookup(slots, env, binders, s);
        r := Val(Follow(slots, Symbol(s)));
      case Apply(_, _) => r := RunApply(fuel, e, env);
      case Call(prog, args) =>
        var rs := RunArgs(fuel, args, env);
        if !rs.Val? { return Stop(rs); }
        r := RunProgram(fuel, prog, rs.v, env);
      case Do(first, second) =>
        r := Run(fuel, first, env);
        if r.Val? {
          r := Run(fuel, second, env);
        }
      case Let(_, _, _) => r := RunLet(fuel, e, env);
      case Arith(_, _, _) => r := RunArith(fuel, e, env);
      case Negate(arg) =>
        r := Run(fuel, arg, env);
        if !r.Val? { return; }
        r := RunNegate(r.v);
      case IfSign(_, _, _, _) => r := RunIfSign(fuel, e, env);
      case FailOf(_) => r := Failed(Explicit);
      case MarkVar(i, arg) =>
        r := Run(fuel, arg, env);
        if !r.Val? { return; }
        if !r.v.Symbol? { return Failed(NotASymbol); }
        marks := Flip(marks, r.v.s, i);
      case IfMarked(_, _, _, _) => r := RunIfMarked(fuel, e, env);
      case Compare(_, _, _, _) => r := RunCompare(fuel, e, env);
      case Match(scrut, cases) =>
        r := Run(fuel, scrut, env);
        if !r.Val? { return; }
        FollowDefs(slots, if r.v.App? then r.v.head else r.v, binders);
        r := RunCases(fuel, cases, Head(slots, r.v), Arguments(r.v), env);
    }

    method RunApply(fuel: nat, e: Code, ghost env: Env) returns (r: Outcome<Value>)
      requires e.Apply? && Ready(env) && Scoped(e, env.Keys, binders)
      modifies this
      ensures slots == old(slots)
      ensures Result(r, marks) == Eval(fuel, Context(), env, e, old(marks))
      ensures r.Val? ==> Clean(r.v, binders)
      decreases fuel, 2, e, 0
    {
      SlotIsLookup(slots, env, binders, e.head);
      var hd := Follow(slots, Symbol(e.head));
      var rs := RunArgs(fuel, e.args, env);
      if !rs.Val? { return Stop(rs); }
      r := Val(BuildApp(hd, rs.v));
    }

    method RunArith(fuel: nat, e: Code, ghost env: Env) returns (r: Outcome<Value>)
      requires e.Arith? && Ready(env) && Scoped(e, env.Keys, binders)
      modifies this
      ensures slots == old(slots)
      ensures Result(r, marks) == Eval(fuel, Context(), env, e, old(marks))
      ensures r.Val? ==> Clean(r.v, binders)
      decreases fuel, 2, e, 0
    {
      r := Run(fuel, e.left, env);
      if !r.Val? { return; }
      var r' := Run(fuel, e.right, env);
      if !r'.Val? { return r'; }
      r := Calculate(e.op, r.v, r'.v);
    }

    /** Arithmetic on two numbers of one class. */
    static method Calculate(op: ArithOp, v: Value, w: Value) returns (r: Outcome<Value>)
      ensures r == ArithValue(op, v, w)
    {
      if v.Int? && w.Int? {
        r := OfIntegers(op, v, w);
      } else if v.Rat? && w.Rat? {
        r := OfRationals(op, v, w);
      } else {
        r := Failed(MixedClasses);
      }
    }

    static method OfIntegers(op: ArithOp, v: Value, w: Value) returns (r: Outcome<Value>)
      requires v.Int? && w.Int?
      ensures r == ArithValue(op, v, w)
    {
      match op
      case Add => r := Val(Int(v.n + w.n));
      case Mul => r := Val(Int(v.n * w.n));
      case Div => r := if w.n == 0 then Undefined(DivisionByZero) else Val(Int(CeilDiv(v.n, w.n)));
    }

    static method OfRationals(op: ArithOp, v: Value, w: Value) returns (r: Outcome<Value>)
      requires v.Rat? && w.Rat?
      ensures r == ArithValue(op, v, w)
    {
      match op
      case Add => r := Val(Rat(v.q + w.q));
      case Mul => r := Product(v, w);
      case Div => r := if w.q == 0.0 then Undefined(DivisionByZero) else Val(Rat(v.q / w.q));
    }

    static method Product(v: Value, w: Value) returns (r: Outcome<Value>)
      requires v.Rat? && w.Rat?
      ensures r == ArithValue(Mul, v, w)
    {
      r := Val(Rat(v.q * w.q));
    }

    static method RunNegate(v: Value) returns (r: Outcome<Value>)
      ensures r == NegateValue(v)
    {
      match v
      case Int(n) => r := Val(Int(-n));
      case Rat(q) => r := Val(Rat(-q));
      case _ => r := Failed(NotANumber);
    }

    method RunLet(fuel: nat, e: Code, ghost env: Env) returns (r: Outcome<Value>)
      requires e.Let? && Ready(env) && Scoped(e, env.Keys, binders)
      modifies this
      ensures slots == old(slots)
      ensures Result(r, marks) == Eval(fuel, Context(), env, e, old(marks))
      ensures r.Val? ==> Clean(r.v, binders)
      decreases fuel, 2, e, 0
    {
      var x := e.x;
      r := Run(fuel, e.bound, env);
      if !r.Val? { return; }
      var v, prev := r.v, Get(slots, x);
      PutBack(slots, x, v);
      slots := slots[x := v];
      assert Defs(slots, binders) == Defs(old(slots), binders);
      assert env[x := v].Keys == env.Keys + {x};
      r := Run(fuel, e.body, env[x := v]);
      slots := Put(slots, x, prev);
    }

    method RunIfSign(fuel: nat, e: Code, ghost env: Env) returns (r: Outcome<Value>)
      requires e.IfSign? && Ready(env) && Scoped(e, env.Keys, binders)
      modifies this
      ensures slots == old(slots)
      ensures Result(r, marks) == Eval(fuel, Context(), env, e, old(marks))
      ensures r.Val? ==> Clean(r.v, binders)
      decreases fuel, 2, e, 0
    {
      r := Run(fuel, e.arg, env);
      if !r.Val? { return; }
      var b;
      if r.v.Int? {
        b := if e.test.IsNeg? then r.v.n < 0 else r.v.n == 0;
      } else if r.v.Rat? {
        b := if e.test.IsNeg? then r.v.q < 0.0 else r.v.q == 0.0;
      } else {
        return Failed(NotANumber);
      }
      if b {
        r := Run(fuel, e.thn, env);
      } else {
        r := Run(fuel, e.els, env);
      }
    }

    method RunIfMarked(fuel: nat, e: Code, ghost env: Env) returns (r: Outcome<Value>)
      requires e.IfMarked? && Ready(env) && Scoped(e, env.Keys, binders)
      modifies this
      ensures slots == old(slots)
      ensures Result(r, marks) == Eval(fuel, Context(), env, e, old(marks))
      ensures r.Val? ==> Clean(r.v, binders)
      decreases fuel, 2, e, 0
    {
      r := Run(fuel, e.arg, env);
      if !r.Val? { return; }
      if !r.v.Symbol? { return Failed(NotASymbol); }
      if (r.v.s, e.i) in marks {
        r := Run(fuel, e.thn, env);
      } else {
        r := Run(fuel, e.els, env);
      }
    }

    method RunCompare(fuel: nat, e: Code, ghost env: Env) returns (r: Outcome<Value>)
      requires e.Compare? && Ready(env) && Scoped(e, env.Keys, binders)
      modifies this
      ensures slots == old(slots)
      ensures Result(r, marks) == Eval(fuel, Context(), env, e, old(marks))
      ensures r.Val? ==> Clean(r.v, binders)
      decreases fuel, 2, e, 0
    {
      r := Run(fuel, e.left, env);
      if !r.Val? { return; }
      if !r.v.Symbol? { return Failed(NotASymbol); }
      var s := r.v.s;
      r := Run(fuel, e.right, env);
      if !r.Val? { return; }
      if !r.v.Symbol? { return Failed(NotASymbol); }
      if before(s, r.v.s) {
        r := Run(fuel, e.thn, env);
      } else {
        r := Run(fuel, e.els, env);
      }
    }

    method RunArgs(fuel: nat, args: seq<Code>, ghost env: Env) returns (r: Outcome<seq<Value>>)
      requires Ready(env) && forall i :: 0 <= i < |args| ==> Scoped(args[i], env.Keys, binders)
      modifies this
      ensures slots == old(slots)
      ensures Result(r, marks) == EvalArgs(fuel, Context(), env, args, [], old(marks))
      ensures r.Val? ==> forall i :: 0 <= i < |r.v| ==> Clean(r.v[i], binders)
      decreases fuel, 2, args
    {
      var vals: seq<Value> := [];
      for i := 0 to |args|
        invariant slots == old(slots) && |vals| == i
        invariant forall j :: 0 <= j < i ==> Clean(vals[j], binders)
        invariant EvalArgs(fuel, Context(), env, args, [], old(marks)) ==
                  EvalArgs(fuel, Context(), env, args[i..], vals, marks)
      {
        assert args[i..][0] == args[i] && args[i..][1..] == args[i + 1..];
        var o := Run(fuel, args[i], env);
        if !o.Val? { return Stop(o); }
        vals := vals + [o.v];
      }
      r := Val(vals);
    }

    method RunProgram(fuel: nat, prog: Sym, vals: seq<Value>, ghost env: Env) returns (r: Outcome<Value>)
      requires Ready(env) && forall i :: 0 <= i < |vals| ==> Clean(vals[i], binders)
      modifies this
      ensures slots == old(slots)
      ensures Result(r, marks) == EvalCall(fuel, Context(), prog, vals, old(marks))
      ensures r.Val? ==> Clean(r.v, binders)
      decreases fuel, 0
    {
      if prog !in progs { return Undefined(UnknownProgram); }
      var p := progs[prog];
      if |vals| < |p.params| { return Undefined(CallArity); }
      if fuel == 0 { return OutOfFuel; }
      ghost var n := |p.params|;
      ghost var none: Env := map[];
      BindAgrees(slots, none, binders, p.params, vals, n);
      assert none.Keys + Elements(p.params) == Elements(p.params);
      RestoreUndoes(slots, p.params, vals, n);
      var olds := BindSlots(p.params, vals);
      r := Run(fuel - 1, p.body, Bind(none, p.params, vals, n));
      RestoreSlots(p.params, olds);
    }

    method RunCases(fuel: nat, cases: seq<Case>, head: Value, args: seq<Value>, ghost env: Env)
      returns (r: Outcome<Value>)
      requires Ready(env) && forall i :: 0 <= i < |cases| ==> ScopedCase(cases[i], env.Keys, binders)
      requires forall i :: 0 <= i < |args| ==> Clean(args[i], binders)
      modifies this
      ensures slots == old(slots)
      ensures Result(r, marks) == EvalCases(fuel, Context(), env, cases, head, args, old(marks))
      ensures r.Val? ==> Clean(r.v, binders)
      decreases fuel, 2, cases
    {
      for i := 0 to |cases|
        invariant slots == old(slots) && marks == old(marks)
        invariant EvalCases(fuel, Context(), env, cases, head, args, marks) ==
                  EvalCases(fuel, Context(), env, cases[i..], head, args, marks)
      {
        assert cases[i..][0] == cases[i] && cases[i..][1..] == cases[i + 1..];
        assert cases[i].body < cases[i];
        match cases[i]
        case Default(body) =>
          r := Run(fuel, body, env);
          return;
        case Arm(ctor, vars, body) =>
          if head == Symbol(ctor) {
            if |vars| != |args| { return Undefined(PatternArity); }
            BindAgrees(slots, env, binders, vars, args, |vars|);
            RestoreUndoes(slots, vars, args, |vars|);
            var olds := BindSlots(vars, args);
            r := Run(fuel, body, Bind(env, vars, args, |vars|));
            RestoreSlots(vars, olds);
            return;
          }
      }
      r := Failed(NoCase);
    }
  }
}
