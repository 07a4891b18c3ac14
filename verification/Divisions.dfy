/** Division in compiled code.  The compiler writes a product for a quotient of integers, so
    compiled code computes what the checker computes exactly if that makes no difference:
    where nothing is divided, where types say that only rationals are, and for single
    quotients such as those by one. */
module Divisions {
  import opened Marks
  import opened Options
  import opened Slots
  import opened Quotients
  import opened SideCode
  import opened Typing
  import opened Identifiers
  import opened Compiler
  import opened Conditions
  import opened CompilerProof

  // ----- one division -----

  /** What the checker computes with the programs of a batch. */
  function Checked(b: Batch): World {
    b.W().(divides := true)
  }

  /** A division whose operands are compiled right: that of rationals is right, and that of
      integers gives their product, which is right exactly if it is the quotient. */
  lemma DivisionCompiled(b: Batch, fuel: nat, env: Env, taken: set<Sym>, vars: set<Name>, count: nat,
                         e: Code, ret: Name, st: Store)
    requires b.Ready(env, taken, vars) && Represents(b, st.locals, env) && Target(ret, In(b, env), taken, count)
    requires e.Arith? && e.op.Div? && Compilable(e, env.Keys, taken, b)
    requires Eval(fuel, Checked(b), env, e, st.marks).out.Val? && OperandsRight(b, fuel, env, e, st.marks)
    ensures var r := Eval(fuel, Checked(b), env, e, st.marks);
            var left := Eval(fuel, b.W(), env, e.left, st.marks);
            var v, d := left.out.v, Eval(fuel, b.W(), env, e.right, left.marks).out.v;
            var run := Exec(fuel, b.W(), st, WriteCode(e, ret, vars, count).code);
            && (v.Rat? ==> Yields(run, st, In(b, env), count, {ret}, ret, r.out.v, r.marks))
            && (v.Int? ==>
                  && d.Int? && Yields(run, st, In(b, env), count, {ret}, ret, Int(v.n * d.n), r.marks)
                  && (Yields(run, st, In(b, env), count, {ret}, ret, r.out.v, r.marks) <==>
                      v.n == 0 || d.n == 1 || d.n == -1))
            && (v.Int? || v.Rat?)
  {
    var r := DivisionEval(b, fuel, env, e, st.marks);
    ArithCorrect(b, fuel, env, taken, vars, count, e, ret, st);
    var run := Exec(fuel, b.W(), st, WriteCode(e, ret, vars, count).code);
    var r' := Eval(fuel, Checked(b), env, e, st.marks);
    YieldsOne(run, st, In(b, env), count, ret, r.out.v, r.marks, r'.out.v, r'.marks);
  }

  /** The operands have the same values with quotients and with products. */
  predicate OperandsRight(b: Batch, fuel: nat, env: Env, e: Code, marks: MarkSet)
    requires e.Arith?
  {
    var left := Eval(fuel, b.W(), env, e.left, marks);
    && Eval(fuel, Checked(b), env, e.left, marks) == left
    && Eval(fuel, Checked(b), env, e.right, left.marks) == Eval(fuel, b.W(), env, e.right, left.marks)
  }

  lemma DivisionEval(b: Batch, fuel: nat, env: Env, e: Code, marks: MarkSet) returns (r: Result<Value>)
    requires e.Arith? && e.op.Div? && OperandsRight(b, fuel, env, e, marks)
    requires Eval(fuel, Checked(b), env, e, marks).out.Val?
    ensures r == Eval(fuel, b.W(), env, e, marks) && r.out.Val?
    ensures var r' := Eval(fuel, Checked(b), env, e, marks);
            var left := Eval(fuel, b.W(), env, e.left, marks);
            var v, d := left.out.v, Eval(fuel, b.W(), env, e.right, left.marks).out.v;
            && r.marks == r'.marks && (v.Int? || v.Rat?) && (v.Rat? ==> r == r')
            && (v.Int? ==> d.Int? && r.out.v == Int(v.n * d.n) && (r == r' <==> v.n == 0 || d.n == 1 || d.n == -1))
  {
    r := Eval(fuel, b.W(), env, e, marks);
    var left := Eval(fuel, b.W(), env, e.left, marks);
    var v, d := left.out.v, Eval(fuel, b.W(), env, e.right, left.marks).out.v;
    if v.Int? {
      QuotientIsProduct(v.n, d.n);
    }
  }

  // ----- code that divides rationals only -----

  /** Types extended by a variable, if its type is known. */
  function Extend(types: Types, x: Sym, t: Option<Ty>): Types {
    if t.None? then types else types[x := t.value]
  }

  /** Nothing in e is divided, except, in typed code, what has the type of rationals. */
  predicate Divides(typed: bool, types: Types, progTys: Types, e: Code)
    decreases e
  {
    match e
    case IntLit(_) => true
    case RatLit(_, _) => true
    case Var(_) => true
    case Apply(_, args) => forall i :: 0 <= i < |args| ==> Divides(typed, types, progTys, args[i])
    case Call(_, args) => forall i :: 0 <= i < |args| ==> Divides(typed, types, progTys, args[i])
    case Do(first, second) => Divides(typed, types, progTys, first) && Divides(typed, types, progTys, second)
    case Let(x, bound, body) =>
      && Divides(typed, types, progTys, bound)
      && Divides(typed, Extend(types, x, TypeOf(types, progTys, bound)), progTys, body)
    case Arith(op, left, right) =>
      && Divides(typed, types, progTys, left) && Divides(typed, types, progTys, right)
      && (op.Div? ==> typed && TypeOf(types, progTys, left) == Some(Mpq))
    case Negate(arg) => Divides(typed, types, progTys, arg)
    case IfSign(_, arg, thn, els) =>
      && Divides(typed, types, progTys, arg)
      && Divides(typed, types, progTys, thn) && Divides(typed, types, progTys, els)
    case FailOf(_) => true
    case MarkVar(_, arg) => Divides(typed, types, progTys, arg)
    case IfMarked(_, arg, thn, els) =>
      && Divides(typed, types, progTys, arg)
      && Divides(typed, types, progTys, thn) && Divides(typed, types, progTys, els)
    case Compare(left, right, thn, els) =>
      && Divides(typed, types, progTys, left) && Divides(typed, types, progTys, right)
      && Divides(typed, types, progTys, thn) && Divides(typed, types, progTys, els)
    case Match(scrut, cases) =>
      && Divides(typed, types, progTys, scrut)
      && forall i :: 0 <= i < |cases| ==> DividesCase(typed, types, progTys, cases[i])
  }

  predicate DividesCase(typed: bool, types: Types, progTys: Types, c: Case)
    decreases c
  {
    match c
    case Default(body) => Divides(typed, types, progTys, body)
    case Arm(_, _, body) =>
      Divides(typed, ArmTypes(types, c), progTys, body)
  }

  /** A setting in which no program divides integers; in the typed case, typed and with
      literals as the only numbers. */
  ghost predicate Rational(typed: bool, st: Setting) {
    && (typed ==> st.Typed() && NumbersAreLiterals(st.sig))
    && forall p <- st.w.progs :: DividesProgram(typed, st, p)
  }

  predicate DividesProgram(typed: bool, st: Setting, prog: Sym)
    requires prog in st.w.progs
  {
    var p := st.w.progs[prog];
    var doms := if prog in st.progTys then Domains(st.progTys[prog], |p.params|) else None;
    Divides(typed, if doms.None? then st.sig else Bind(st.sig, p.params, doms.value, |p.params|), st.progTys, p.body)
  }

  /** As st.w, with products for quotients of integers. */
  function Products(st: Setting): World {
    st.w.(divides := false)
  }

  ghost predicate Same(st: Setting, fuel: nat, env: Env, e: Code, marks: MarkSet) {
    Eval(fuel, st.w, env, e, marks) == Eval(fuel, Products(st), env, e, marks)
  }

  /** Code that divides no integers has the same outcome and the same marks with quotients
      and with products. */
  lemma {:induction false} SameQuotients(typed: bool, st: Setting, fuel: nat, env: Env, types: Types, e: Code,
                                         marks: MarkSet)
    requires Rational(typed, st) && Divides(typed, types, st.progTys, e) && (typed ==> st.Accepts(env, types, e))
    ensures Same(st, fuel, env, e, marks)
    decreases fuel, 2, e, 1
  {
    match e
    case IntLit(_) =>
    case RatLit(_, _) =>
    case Var(_) =>
    case Apply(_, _) => SameApply(typed, st, fuel, env, types, e, marks);
    case Call(_, _) => SameApply(typed, st, fuel, env, types, e, marks);
    case Do(_, _) => SameDo(typed, st, fuel, env, types, e, marks);
    case Let(_, _, _) => SameLet(typed, st, fuel, env, types, e, marks);
    case Arith(_, _, _) => SameArith(typed, st, fuel, env, types, e, marks);
    case Negate(arg) => SameQuotients(typed, st, fuel, env, types, arg, marks);
    case IfSign(_, _, _, _) => SameBranches(typed, st, fuel, env, types, e, marks);
    case FailOf(_) =>
    case MarkVar(_, arg) => SameQuotients(typed, st, fuel, env, types, arg, marks);
    case IfMarked(_, _, _, _) => SameBranches(typed, st, fuel, env, types, e, marks);
    case Compare(_, _, _, _) => SameCompare(typed, st, fuel, env, types, e, marks);
    case Match(_, _) => SameMatch(typed, st, fuel, env, types, e, marks);
  }

  lemma {:induction false} SameDo(typed: bool, st: Setting, fuel: nat, env: Env, types: Types, e: Code, marks: MarkSet)
    requires Rational(typed, st) && Divides(typed, types, st.progTys, e) && (typed ==> st.Accepts(env, types, e))
    requires e.Do?
    ensures Same(st, fuel, env, e, marks)
    decreases fuel, 2, e, 0
  {
    SameQuotients(typed, st, fuel, env, types, e.first, marks);
    SameQuotients(typed, st, fuel, env, types, e.second, Eval(fuel, st.w, env, e.first, marks).marks);
  }

  lemma {:induction false} SameArith(typed: bool, st: Setting, fuel: nat, env: Env, types: Types, e: Code,
                                     marks: MarkSet)
    requires Rational(typed, st) && Divides(typed, types, st.progTys, e) && (typed ==> st.Accepts(env, types, e))
    requires e.Arith?
    ensures Same(st, fuel, env, e, marks)
    decreases fuel, 2, e, 0
  {
    SameQuotients(typed, st, fuel, env, types, e.left, marks);
    var r := Eval(fuel, st.w, env, e.left, marks);
    if r.out.Val? {
      SameQuotients(typed, st, fuel, env, types, e.right, r.marks);
      if e.op.Div? {
        Preservation(st, fuel, env, types, e.left, marks);
        CanonicalNumber(st.sig, r.out.v);
      }
    }
  }

  lemma {:induction false} SameLet(typed: bool, st: Setting, fuel: nat, env: Env, types: Types, e: Code, marks: MarkSet)
    requires Rational(typed, st) && Divides(typed, types, st.progTys, e) && (typed ==> st.Accepts(env, types, e))
    requires e.Let?
    ensures Same(st, fuel, env, e, marks)
    decreases fuel, 2, e, 0
  {
    SameQuotients(typed, st, fuel, env, types, e.bound, marks);
    var r := Eval(fuel, st.w, env, e.bound, marks);
    if r.out.Val? {
      var types' := Extend(types, e.x, TypeOf(types, st.progTys, e.bound));
      if typed {
        Preservation(st, fuel, env, types, e.bound, marks);
        assert env[e.x := r.out.v].Keys == env.Keys + {e.x};
      }
      SameQuotients(typed, st, fuel, env[e.x := r.out.v], types', e.body, r.marks);
    }
  }

  lemma {:induction false} SameBranches(typed: bool, st: Setting, fuel: nat, env: Env, types: Types, e: Code,
                                        marks: MarkSet)
    requires Rational(typed, st) && Divides(typed, types, st.progTys, e) && (typed ==> st.Accepts(env, types, e))
    requires e.IfSign? || e.IfMarked?
    ensures Same(st, fuel, env, e, marks)
    decreases fuel, 2, e, 0
  {
    SameQuotients(typed, st, fuel, env, types, e.arg, marks);
    var r := Eval(fuel, st.w, env, e.arg, marks);
    SameQuotients(typed, st, fuel, env, types, e.thn, r.marks);
    SameQuotients(typed, st, fuel, env, types, e.els, r.marks);
  }

  lemma {:induction false} SameCompare(typed: bool, st: Setting, fuel: nat, env: Env, types: Types, e: Code,
                                       marks: MarkSet)
    requires Rational(typed, st) && Divides(typed, types, st.progTys, e) && (typed ==> st.Accepts(env, types, e))
    requires e.Compare?
    ensures Same(st, fuel, env, e, marks)
    decreases fuel, 2, e, 0
  {
    SameQuotients(typed, st, fuel, env, types, e.left, marks);
    var r := Eval(fuel, st.w, env, e.left, marks);
    SameQuotients(typed, st, fuel, env, types, e.right, r.marks);
    var r' := Eval(fuel, st.w, env, e.right, r.marks);
    SameQuotients(typed, st, fuel, env, types, e.thn, r'.marks);
    SameQuotients(typed, st, fuel, env, types, e.els, r'.marks);
  }

  lemma {:induction false} SameApply(typed: bool, st: Setting, fuel: nat, env: Env, types: Types, e: Code,
                                     marks: MarkSet)
    requires Rational(typed, st) && Divides(typed, types, st.progTys, e) && (typed ==> st.Accepts(env, types, e))
    requires e.Apply? || e.Call?
    ensures Same(st, fuel, env, e, marks)
    decreases fuel, 2, e, 0
  {
    SameArgs(typed, st, fuel, env, types, e.args, [], [], marks);
    var r := EvalArgs(fuel, st.w, env, e.args, [], marks);
    if e.Call? && r.out.Val? {
      if typed {
        PreservationArgs(st, fuel, env, types, e.args, [], [], marks);
        AppliedIsSpine(st.sig, st.progTys[e.prog], TypesOf(types, st.progTys, e.args, []).value, r.out.v);
      }
      SameCall(typed, st, fuel, e.prog, r.out.v, r.marks);
    }
  }

  lemma {:induction false} SameArgs(typed: bool, st: Setting, fuel: nat, env: Env, types: Types, args: seq<Code>,
                                    done: seq<Value>, doneTys: seq<Ty>, marks: MarkSet)
    requires Rational(typed, st) && forall i :: 0 <= i < |args| ==> Divides(typed, types, st.progTys, args[i])
    requires typed ==> st.Fits(env, types) && forall i :: 0 <= i < |args| ==> st.Proper(args[i], env.Keys)
    requires typed ==> TypesOf(types, st.progTys, args, doneTys).Some?
    ensures EvalArgs(fuel, st.w, env, args, done, marks) == EvalArgs(fuel, Products(st), env, args, done, marks)
    decreases fuel, 2, args, 1
  {
    if args != [] {
      SameQuotients(typed, st, fuel, env, types, args[0], marks);
      var r := Eval(fuel, st.w, env, args[0], marks);
      if r.out.Val? {
        var t := TypeOf(types, st.progTys, args[0]);
        SameArgs(typed, st, fuel, env, types, args[1..], done + [r.out.v],
                 if t.Some? then doneTys + [t.value] else doneTys, r.marks);
      }
    }
  }

  /** A call, whose arguments have the types of the parameters in the typed case. */
  lemma {:induction false} SameCall(typed: bool, st: Setting, fuel: nat, prog: Sym, vals: seq<Value>, marks: MarkSet)
    requires Rational(typed, st)
    requires typed ==> && prog in st.progTys && |vals| == Arity(st.progTys[prog])
                       && Domains(st.progTys[prog], |vals|).Some?
                       && HaveTypes(st.sig, vals, Domains(st.progTys[prog], |vals|).value)
    ensures EvalCall(fuel, st.w, prog, vals, marks) == EvalCall(fuel, Products(st), prog, vals, marks)
    decreases fuel, 0
  {
    if prog in st.w.progs && |st.w.progs[prog].params| <= |vals| && fuel > 0 {
      var p := st.w.progs[prog];
      assert DividesProgram(typed, st, prog);
      var doms := if prog in st.progTys then Domains(st.progTys[prog], |p.params|) else None;
      var types := if doms.None? then st.sig else Bind(st.sig, p.params, doms.value, |p.params|);
      if typed {
        CallFits(st, prog, vals, types);
      }
      SameQuotients(typed, st, fuel - 1, Bind(map[], p.params, vals, |p.params|), types, p.body, marks);
    }
  }

  lemma CallFits(st: Setting, prog: Sym, vals: seq<Value>, types: Types)
    requires st.Typed() && prog in st.progTys
    requires |vals| == Arity(st.progTys[prog]) && Domains(st.progTys[prog], |vals|).Some?
    requires HaveTypes(st.sig, vals, Domains(st.progTys[prog], |vals|).value)
    requires var p := st.w.progs[prog];
             |p.params| == |vals| && types == Bind(st.sig, p.params, Domains(st.progTys[prog], |vals|).value, |vals|)
    ensures var p := st.w.progs[prog]; st.Accepts(Bind(map[], p.params, vals, |vals|), types, p.body)
  {
    var env, types' := CallBound(st, prog, vals);
  }

  lemma {:induction false} SameMatch(typed: bool, st: Setting, fuel: nat, env: Env, types: Types, e: Code,
                                     marks: MarkSet)
    requires Rational(typed, st) && Divides(typed, types, st.progTys, e) && (typed ==> st.Accepts(env, types, e))
    requires e.Match?
    ensures Same(st, fuel, env, e, marks)
    decreases fuel, 2, e, 0
  {
    SameQuotients(typed, st, fuel, env, types, e.scrut, marks);
    var r := Eval(fuel, st.w, env, e.scrut, marks);
    if r.out.Val? {
      if typed {
        Preservation(st, fuel, env, types, e.scrut, marks);
        MatchedHead(st, r.out.v, TypeOf(types, st.progTys, e.scrut).value);
      }
      SameCases(typed, st, fuel, env, types, e.cases, None, Head(st.w.defs, r.out.v), Arguments(r.out.v), r.marks);
    }
  }

  lemma {:induction false} SameCases(typed: bool, st: Setting, fuel: nat, env: Env, types: Types, cases: seq<Case>,
                                     known: Option<Ty>, head: Value, args: seq<Value>, marks: MarkSet)
    requires Rational(typed, st) && forall i :: 0 <= i < |cases| ==> DividesCase(typed, types, st.progTys, cases[i])
    requires typed ==> st.Fits(env, types) && forall i :: 0 <= i < |cases| ==> st.ProperCase(cases[i], env.Keys)
    requires typed ==> TypeOfCases(types, st.progTys, cases, known).Some? && st.FullHead(head, args)
    ensures EvalCases(fuel, st.w, env, cases, head, args, marks) ==
            EvalCases(fuel, Products(st), env, cases, head, args, marks)
    decreases fuel, 2, cases, 1
  {
    if cases != [] {
      var c := cases[0];
      assert c.body < c;
      if c.Default? {
        SameQuotients(typed, st, fuel, env, types, c.body, marks);
      } else if head != Symbol(c.ctor) {
        SameCases(typed, st, fuel, env, types, cases[1..], TypeOfCase(types, st.progTys, c), head, args, marks);
      } else if |c.vars| == |args| {
        SameArm(typed, st, fuel, env, types, c, args, marks);
      }
    }
  }

  lemma {:induction false} SameArm(typed: bool, st: Setting, fuel: nat, env: Env, types: Types, c: Case,
                                   args: seq<Value>, marks: MarkSet)
    requires Rational(typed, st) && c.Arm? && DividesCase(typed, types, st.progTys, c) && |c.vars| == |args|
    requires typed ==> st.Fits(env, types) && st.ProperCase(c, env.Keys) && TypeOfCase(types, st.progTys, c).Some?
    requires typed ==> st.FullHead(Symbol(c.ctor), args)
    ensures Same(st, fuel, Bind(env, c.vars, args, |args|), c.body, marks)
    decreases fuel, 2, c, 0
  {
    if typed {
      ArmFits(st, env, types, c, args);
    }
    assert c.body < c;
    SameQuotients(typed, st, fuel, Bind(env, c.vars, args, |args|), ArmTypes(types, c), c.body, marks);
  }

  // ----- compiled programs and the checker -----

  /** A setting for the programs of a batch, as the checker runs them. */
  ghost predicate Settled(typed: bool, st: Setting, b: Batch) {
    b.Valid() && st.w == Checked(b) && Rational(typed, st)
  }

  /** The values are those that the program may be called with. */
  ghost predicate Callable(typed: bool, st: Setting, b: Batch, prog: Sym, vals: seq<Value>) {
    && prog in b.progs && |vals| == |b.progs[prog].params| && AllFlat(vals)
    && (typed ==>
          && prog in st.progTys && Domains(st.progTys[prog], |vals|).Some?
          && HaveTypes(st.sig, vals, Domains(st.progTys[prog], |vals|).value))
  }

  /** Where no program divides integers, the compiled function returns the value that the
      checker computes, and leaves the same marks. */
  lemma CompiledIsChecked(typed: bool, st: Setting, b: Batch, fuel: nat, prog: Sym, vals: seq<Value>, marks: MarkSet)
    requires Settled(typed, st, b) && Callable(typed, st, b, prog, vals)
    requires EvalCall(fuel, Checked(b), prog, vals, marks).out.Val?
    ensures var r := EvalCall(fuel, Checked(b), prog, vals, marks);
            ExecCall(fuel, b.W(), prog, vals, marks) == Some(Return(Some(r.out.v), r.marks))
  {
    if typed {
      assert TypedProgram(st.sig, st.progTys, st.w.progs[prog], st.progTys[prog]);
    }
    SameCall(typed, st, fuel, prog, vals, marks);
    FunctionCorrect(b, fuel, prog, vals, marks);
  }

  /** The programs of a batch have no division at all. */
  predicate Undivided(b: Batch) {
    forall p <- b.progs :: Divides(false, map[], map[], b.progs[p].body)
  }

  /** Programs without division need no types. */
  lemma UndividedIsChecked(b: Batch, fuel: nat, prog: Sym, vals: seq<Value>, marks: MarkSet)
    requires b.Valid() && Undivided(b) && prog in b.progs && |vals| == |b.progs[prog].params| && AllFlat(vals)
    requires EvalCall(fuel, Checked(b), prog, vals, marks).out.Val?
    ensures var r := EvalCall(fuel, Checked(b), prog, vals, marks);
            ExecCall(fuel, b.W(), prog, vals, marks) == Some(Return(Some(r.out.v), r.marks))
  {
    var st := Setting(map[], map[], Checked(b), b.binders);
    forall p | p in st.w.progs
      ensures DividesProgram(false, st, p)
    {
      assert Divides(false, map[], map[], b.progs[p].body);
    }
    CompiledIsChecked(false, st, b, fuel, prog, vals, marks);
  }
}
