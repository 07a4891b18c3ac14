/** Correctness of the compiler: whenever evaluation returns a value, running the emitted
    statements returns the same value and leaves the same marks.  Integer quotients are
    compiled to products, so evaluation here takes them as products; `Divisions` says when
    that makes no difference. */
module CompilerProof {
  import opened Marks
  import opened Options
  import opened Collections
  import opened Slots
  import opened SideCode
  import opened Identifiers
  import opened Compiler
  import opened Blocks
  import opened Remembered
  import opened Conditions

  // ----- names and stores -----

  /** Names that variables in scope have, and names that variables may have. */
  datatype Scope = Scope(vars: set<Name>, bound: set<Name>)

  function In(b: Batch, env: Env): Scope {
    Scope(Names(env.Keys), Names(b.binders))
  }

  /** Names in use: variables in scope, names that no variable has, and the temporaries handed
      out. */
  predicate Live(q: Name, scope: Scope, count: nat) {
    if q.Source? then q in scope.vars || q !in scope.bound else q.n < count
  }

  /** Names an expression's value may have: a variable, or a temporary new since lo. */
  predicate NewName(q: Name, scope: Scope, lo: nat, hi: nat) {
    if q.Source? then q in scope.vars else lo <= q.n < hi
  }

  /** Names that may be assigned: a taken name that is not in scope, or no future temporary. */
  predicate Target(q: Name, scope: Scope, taken: set<Sym>, count: nat) {
    if q.Source? then q in Names(taken) && q !in scope.vars else q.n < count
  }

  ghost predicate Represents(b: Batch, locals: Locals, env: Env) {
    && Distinguished(b.binders) && env.Keys <= b.binders && Unhidden(b, locals)
    && forall x <- env :: Called(x) in locals && locals[Called(x)] == env[x]
  }

  /** No global is hidden, unless a variable has its name. */
  ghost predicate Unhidden(b: Batch, locals: Locals) {
    forall c: string :: Global(c) !in Names(b.binders) ==> Global(c) !in locals
  }

  /** Live names, but for those in except, are as before. */
  ghost predicate Kept(l: Locals, l': Locals, scope: Scope, count: nat, except: set<Name>) {
    forall q: Name :: Live(q, scope, count) && q !in except ==> Find(l', q) == Find(l, q)
  }

  /** The run r from st ends with value v in q and with the given marks. */
  ghost predicate Yields(r: Option<Store>, st: Store, scope: Scope, count: nat, except: set<Name>,
                         q: Name, v: Value, marks: MarkSet)
  {
    && r.Some? && r.value.marks == marks && Find(r.value.locals, q) == Some(v) && Flat(v)
    && Kept(st.locals, r.value.locals, scope, count, except)
  }

  /** A run yields one value and one set of marks. */
  lemma YieldsOne(r: Option<Store>, st: Store, scope: Scope, count: nat, ret: Name,
                  v: Value, marks: MarkSet, v': Value, marks': MarkSet)
    requires Yields(r, st, scope, count, {ret}, ret, v, marks)
    ensures Yields(r, st, scope, count, {ret}, ret, v', marks') <==> v == v' && marks == marks'
  {
  }

  lemma {:induction false} ExecCat(fuel: nat, w: World, st: Store, s1: seq<Stmt>, s2: seq<Stmt>)
    ensures Exec(fuel, w, st, s1 + s2) ==
            var r := Exec(fuel, w, st, s1);
            if r.None? then None else Exec(fuel, w, r.value, s2)
    decreases s1
  {
    if s1 == [] {
      assert s1 + s2 == s2;
    } else {
      assert (s1 + s2)[0] == s1[0] && (s1 + s2)[1..] == s1[1..] + s2;
      var r := ExecStmt(fuel, w, st, s1[0]);
      if r.Some? { ExecCat(fuel, w, r.value, s1[1..], s2); }
    }
  }

  lemma ExecOne(fuel: nat, w: World, st: Store, s: Stmt)
    ensures Exec(fuel, w, st, [s]) == ExecStmt(fuel, w, st, s)
  {
  }

  // ----- names the writer remembers -----

  lemma CodeVars(e: Code, scope: set<Sym>, taken: set<Sym>, b: Batch, ret: Name, vars: set<Name>, count: nat)
    requires Compilable(e, scope, taken, b) && OnlyBinders(vars, b.binders)
    ensures OnlyBinders(WriteCode(e, ret, vars, count).vars, b.binders)
  {
    CodeRemembers(e, ret, vars, count);
    CompilableRemembers(e, scope, taken, b);
  }

  lemma ExprVars(e: Code, scope: set<Sym>, taken: set<Sym>, b: Batch, vars: set<Name>, count: nat)
    requires Compilable(e, scope, taken, b) && OnlyBinders(vars, b.binders)
    ensures OnlyBinders(WriteExpr(e, vars, count).vars, b.binders)
  {
    ExprRemembers(e, vars, count);
    CompilableRemembers(e, scope, taken, b);
  }

  /** Two branches written one after the other. */
  lemma BranchVars(thn: Code, els: Code, scope: set<Sym>, taken: set<Sym>, b: Batch, ret: Name, vars: set<Name>,
                   count: nat)
    returns (f: Out)
    requires Compilable(thn, scope, taken, b) && Compilable(els, scope, taken, b) && OnlyBinders(vars, b.binders)
    ensures var t := WriteCode(thn, ret, vars, count);
            && OnlyBinders(t.vars, b.binders) && f == WriteCode(els, ret, t.vars, t.count)
            && OnlyBinders(f.vars, b.binders)
  {
    CodeVars(thn, scope, taken, b, ret, vars, count);
    var t := WriteCode(thn, ret, vars, count);
    CodeVars(els, scope, taken, b, ret, t.vars, t.count);
    f := WriteCode(els, ret, t.vars, t.count);
  }

  lemma ArgsVars(cases: seq<Case>, met: bool, scope: set<Sym>, b: Batch, vars: set<Name>, count: nat)
    requires OnlyBinders(vars, b.binders) && ArmsFirst(cases) && (!met ==> FirstKnown(cases, scope))
    ensures OnlyBinders(WriteArgs(cases, met, vars, count).vars, b.binders)
  {
    ArgsRemember(cases, met, vars, count);
    NoneFirst(cases, met, scope);
  }

  // ----- correctness -----

  /** Code that can be run: the locals hold its environment, and it has a value. */
  ghost predicate Runs(b: Batch, fuel: nat, env: Env, taken: set<Sym>, vars: set<Name>, count: nat,
                       e: Code, ret: Name, st: Store)
  {
    && b.Ready(env, taken, vars) && Compilable(e, env.Keys, taken, b)
    && Represents(b, st.locals, env) && Target(ret, In(b, env), taken, count)
    && Eval(fuel, b.W(), env, e, st.marks).out.Val?
  }

  /** The statements written for e end with its value in ret, keep every other name in use,
      and leave the marks that evaluation leaves. */
  ghost predicate Computes(b: Batch, fuel: nat, env: Env, vars: set<Name>, count: nat, e: Code, ret: Name, st: Store) {
    var r := Eval(fuel, b.W(), env, e, st.marks);
    var o := WriteCode(e, ret, vars, count);
    && r.out.Val?
    && Yields(Exec(fuel, b.W(), st, o.code), st, In(b, env), count, {ret}, ret, r.out.v, r.marks)
  }

  /** As Computes, for a block of its own. */
  ghost predicate BlockComputes(b: Batch, fuel: nat, env: Env, vars: set<Name>, count: nat, e: Code, ret: Name,
                                st: Store) {
    var r := Eval(fuel, b.W(), env, e, st.marks);
    var o := WriteCode(e, ret, vars, count);
    && r.out.Val?
    && Yields(ExecBlock(fuel, b.W(), st, o.code), st, In(b, env), count, {ret}, ret, r.out.v, r.marks)
  }

  lemma {:induction false} CodeCorrect(b: Batch, fuel: nat, env: Env, taken: set<Sym>, vars: set<Name>, count: nat,
                                       e: Code, ret: Name, st: Store)
    requires Runs(b, fuel, env, taken, vars, count, e, ret, st)
    ensures Computes(b, fuel, env, vars, count, e, ret, st)
    decreases fuel, 2, e, 1
  {
    match e
    case IntLit(_) => LiteralCorrect(b, fuel, env, taken, vars, count, e, ret, st);
    case RatLit(_, _) => LiteralCorrect(b, fuel, env, taken, vars, count, e, ret, st);
    case Var(_) => VarCorrect(b, fuel, env, taken, vars, count, e, ret, st);
    case Apply(_, _) => ApplyCorrect(b, fuel, env, taken, vars, count, e, ret, st);
    case Call(_, _) => CallCorrect(b, fuel, env, taken, vars, count, e, ret, st);
    case Do(_, _) => DoCorrect(b, fuel, env, taken, vars, count, e, ret, st);
    case Let(_, _, _) => LetCorrect(b, fuel, env, taken, vars, count, e, ret, st);
    case Arith(_, _, _) => ArithCorrect(b, fuel, env, taken, vars, count, e, ret, st);
    case Negate(_) => NegateCorrect(b, fuel, env, taken, vars, count, e, ret, st);
    case IfSign(_, _, _, _) => IfSignCorrect(b, fuel, env, taken, vars, count, e, ret, st);
    case FailOf(_) =>
    case MarkVar(_, _) => MarkVarCorrect(b, fuel, env, taken, vars, count, e, ret, st);
    case IfMarked(_, _, _, _) => IfMarkedCorrect(b, fuel, env, taken, vars, count, e, ret, st);
    case Compare(_, _, _, _) => CompareCorrect(b, fuel, env, taken, vars, count, e, ret, st);
    case Match(_, _) => MatchCorrect(b, fuel, env, taken, vars, count, e, ret, st);
  }

  lemma LiteralCorrect(b: Batch, fuel: nat, env: Env, taken: set<Sym>, vars: set<Name>, count: nat,
                       e: Code, ret: Name, st: Store)
    requires (e.IntLit? || e.RatLit?) && Runs(b, fuel, env, taken, vars, count, e, ret, st)
    ensures Computes(b, fuel, env, vars, count, e, ret, st)
  {
    ExecOne(fuel, b.W(), st, WriteCode(e, ret, vars, count).code[0]);
  }

  lemma VarCorrect(b: Batch, fuel: nat, env: Env, taken: set<Sym>, vars: set<Name>, count: nat,
                   e: Code, ret: Name, st: Store)
    requires e.Var? && Runs(b, fuel, env, taken, vars, count, e, ret, st)
    ensures Computes(b, fuel, env, vars, count, e, ret, st)
  {
    var s := WriteVar(e.s, ret, vars);
    ExecOne(fuel, b.W(), st, s);
    if e.s in env {
      assert s == Copy(ret, Called(e.s));
    } else {
      Constantly(b, e.s, vars);
      assert s == Constant(ret, e.s);
    }
    var v := Eval(fuel, b.W(), env, e, st.marks).out.v;
    assert Kept(st.locals, st.locals, In(b, env), count, {});
    var st1 := StoreResult(st, st, In(b, env), count, ret, v, st.marks);
  }

  /** A constant that can be read is not taken for a variable. */
  lemma Constantly(b: Batch, c: Sym, vars: set<Name>)
    requires Readable(c, b) && OnlyBinders(vars, b.binders)
    ensures Key(c) == Source(c) && Key(c) !in vars
  {
  }

  lemma {:induction false} ExprCorrect(b: Batch, fuel: nat, env: Env, taken: set<Sym>, vars: set<Name>, count: nat,
                                       e: Code, st: Store)
    returns (st': Store)
    requires b.Ready(env, taken, vars) && Compilable(e, env.Keys, taken, b) && Represents(b, st.locals, env)
    requires Eval(fuel, b.W(), env, e, st.marks).out.Val?
    ensures var o := WriteExpr(e, vars, count);
            var r := Eval(fuel, b.W(), env, e, st.marks);
            && Exec(fuel, b.W(), st, o.code) == Some(st')
            && Yields(Some(st'), st, In(b, env), count, {}, o.names[0], r.out.v, r.marks)
            && NewName(o.names[0], In(b, env), count, o.count)
            && b.Ready(env, taken, o.vars) && Represents(b, st'.locals, env)
    decreases fuel, 2, e, 2
  {
    ExprVars(e, env.Keys, taken, b, vars, count);
    if e.Var? && Key(e.s) in vars {
      st' := st;
    } else {
      var t := Temp(count);
      var st1 := st.(locals := st.locals - {t});
      CodeCorrect(b, fuel, env, taken, vars, count + 1, e, t, st1);
      var code := WriteCode(e, t, vars, count + 1).code;
      st' := Exec(fuel, b.W(), st1, code).value;
      DeclareExec(b.W(), fuel, st, t, code, st');
      TempKept(b, st.locals, st'.locals, env, count);
    }
  }

  lemma DeclareExec(w: World, fuel: nat, st: Store, x: Name, code: seq<Stmt>, st': Store)
    requires Exec(fuel, w, st.(locals := st.locals - {x}), code) == Some(st')
    ensures Exec(fuel, w, st, [Declare(x)] + code) == Some(st')
  {
    ExecCat(fuel, w, st, [Declare(x)], code);
    ExecOne(fuel, w, st, Declare(x));
  }

  lemma TempKept(b: Batch, l: Locals, l': Locals, env: Env, count: nat)
    requires Kept(l - {Temp(count)}, l', In(b, env), count + 1, {Temp(count)}) && Represents(b, l, env)
    ensures Kept(l, l', In(b, env), count, {}) && Represents(b, l', env)
  {
    forall q: Name | Live(q, In(b, env), count)
      ensures Find(l', q) == Find(l, q)
    {
      assert Live(q, In(b, env), count + 1);
      assert Find(l - {Temp(count)}, q) == Find(l, q);
    }
    KeptRepresents(b, l, l', env, count);
  }

  lemma KeptRepresents(b: Batch, l: Locals, l': Locals, env: Env, count: nat)
    requires Kept(l, l', In(b, env), count, {}) && Represents(b, l, env)
    ensures Represents(b, l', env)
  {
    forall x | x in env
      ensures Called(x) in l' && l'[Called(x)] == env[x]
    {
      assert Live(Called(x), In(b, env), count);
      assert Find(l', Called(x)) == Find(l, Called(x));
    }
    forall c: string | Global(c) !in Names(b.binders)
      ensures Global(c) !in l'
    {
      assert Live(Global(c), In(b, env), count);
      assert Find(l', Global(c)) == Find(l, Global(c));
    }
  }

  lemma KeptTrans(l: Locals, l1: Locals, l2: Locals, scope: Scope, count: nat, count1: nat, except: set<Name>)
    requires count <= count1 && Kept(l, l1, scope, count, {}) && Kept(l1, l2, scope, count1, except)
    ensures Kept(l, l2, scope, count, except)
  {
    forall q: Name | Live(q, scope, count) && q !in except
      ensures Find(l2, q) == Find(l, q)
    {
      assert Live(q, scope, count1);
    }
  }

  lemma RunThen(fuel: nat, w: World, st: Store, code: seq<Stmt>, st1: Store, s: Stmt, st2: Store)
    requires Exec(fuel, w, st, code) == Some(st1) && ExecStmt(fuel, w, st1, s) == Some(st2)
    ensures Exec(fuel, w, st, code + [s]) == Some(st2)
  {
    ExecCat(fuel, w, st, code, [s]);
    ExecOne(fuel, w, st1, s);
  }

  lemma RunBoth(fuel: nat, w: World, st: Store, code: seq<Stmt>, st1: Store, code1: seq<Stmt>, st2: Store)
    requires Exec(fuel, w, st, code) == Some(st1) && Exec(fuel, w, st1, code1) == Some(st2)
    ensures Exec(fuel, w, st, code + code1) == Some(st2)
  {
    ExecCat(fuel, w, st, code, code1);
  }

  /** Storing a result after names in use were kept. */
  lemma StoreResult(st: Store, st1: Store, scope: Scope, count: nat, ret: Name, v: Value,
                    marks: MarkSet) returns (st2: Store)
    requires Kept(st.locals, st1.locals, scope, count, {}) && Flat(v)
    ensures st2 == Store(st1.locals[ret := v], marks)
    ensures Yields(Some(st2), st, scope, count, {ret}, ret, v, marks)
  {
    st2 := Store(st1.locals[ret := v], marks);
  }

  /** A block of one statement that declares nothing. */
  lemma ExecPlain(fuel: nat, w: World, st: Store, s: Stmt)
    requires DeclaredBy(s) == {}
    ensures ExecBlock(fuel, w, st, [s]) == ExecStmt(fuel, w, st, s)
  {
    ExecOne(fuel, w, st, s);
    assert Declared([s]) == {} by { assert Declared([s][1..]) == {}; }
    var r := ExecStmt(fuel, w, st, s);
    if r.Some? {
      LeaveNone(st.locals, r.value.locals);
      assert Store(r.value.locals, r.value.marks) == r.value;
    }
  }

  lemma LeaveNone(l: Locals, l': Locals)
    ensures Leave(l, l', {}) == l'
  {
  }

  lemma ExecClass(fuel: nat, w: World, st: Store, y: Name, s: Stmt, s': Stmt, st1: Store)
    requires Find(st.locals, y).Some? && (st.locals[y].Int? || st.locals[y].Rat?)
    requires DeclaredBy(s) == DeclaredBy(s') == {}
    requires ExecStmt(fuel, w, st, if st.locals[y].Int? then s else s') == Some(st1)
    ensures ExecStmt(fuel, w, st, IfClass(y, [s], [s'])) == Some(st1)
  {
    ExecPlain(fuel, w, st, s);
    ExecPlain(fuel, w, st, s');
  }

  lemma {:induction false} DoCorrect(b: Batch, fuel: nat, env: Env, taken: set<Sym>, vars: set<Name>, count: nat,
                                     e: Code, ret: Name, st: Store)
    requires e.Do? && b.Ready(env, taken, vars)
    requires Represents(b, st.locals, env) && Target(ret, In(b, env), taken, count)
    requires Compilable(e.first, env.Keys, taken, b) && Compilable(e.second, env.Keys, taken, b)
    requires Eval(fuel, b.W(), env, e, st.marks).out.Val?
    ensures Computes(b, fuel, env, vars, count, e, ret, st)
    decreases fuel, 2, e, 0
  {
    var a := WriteExpr(e.first, vars, count);
    var st1 := ExprCorrect(b, fuel, env, taken, vars, count, e.first, st);
    CodeCorrect(b, fuel, env, taken, a.vars, a.count, e.second, ret, st1);
    var code := WriteCode(e.second, ret, a.vars, a.count).code;
    ReleaseThen(b.W(), fuel, st, a.code, st1, a.names[0], code);
    KeptTrans(st.locals, st1.locals, Exec(fuel, b.W(), st1, code).value.locals, In(b, env), count, a.count, {ret});
  }

  lemma ReleaseThen(w: World, fuel: nat, st: Store, code: seq<Stmt>, st1: Store, y: Name, code': seq<Stmt>)
    requires Exec(fuel, w, st, code) == Some(st1) && Find(st1.locals, y).Some?
    ensures Exec(fuel, w, st, code + [Release(y)] + code') == Exec(fuel, w, st1, code')
  {
    RunThen(fuel, w, st, code, st1, Release(y), st1);
    ExecCat(fuel, w, st, code + [Release(y)], code');
  }

  lemma {:induction false} NegateCorrect(b: Batch, fuel: nat, env: Env, taken: set<Sym>, vars: set<Name>, count: nat,
                                         e: Code, ret: Name, st: Store)
    requires e.Negate? && Runs(b, fuel, env, taken, vars, count, e, ret, st)
    ensures Computes(b, fuel, env, vars, count, e, ret, st)
    decreases fuel, 2, e, 0
  {
    var a := WriteExpr(e.arg, vars, count);
    var st1 := ExprCorrect(b, fuel, env, taken, vars, count, e.arg, st);
    var y := a.names[0];
    NegateExec(b.W(), fuel, st, st1, In(b, env), count, a.code, y, ret);
  }

  lemma NegateExec(w: World, fuel: nat, st: Store, st1: Store, scope: Scope, count: nat, code: seq<Stmt>,
                   y: Name, ret: Name)
    requires Exec(fuel, w, st, code) == Some(st1) && Kept(st.locals, st1.locals, scope, count, {})
    requires Find(st1.locals, y).Some? && NegateValue(st1.locals[y]).Val?
    ensures var s := IfClass(y, [ComputeNeg(ret, y)], [ComputeNeg(ret, y)]);
            var v := NegateValue(st1.locals[y]).v;
            Yields(Exec(fuel, w, st, code + [s]), st, scope, count, {ret}, ret, v, st1.marks)
  {
    NegatedRight(st1.locals[y]);
    var st2 := StoreResult(st, st1, scope, count, ret, NegateValue(st1.locals[y]).v, st1.marks);
    ExecClass(fuel, w, st1, y, ComputeNeg(ret, y), ComputeNeg(ret, y), st2);
    RunThen(fuel, w, st, code, st1, IfClass(y, [ComputeNeg(ret, y)], [ComputeNeg(ret, y)]), st2);
  }

  lemma {:induction false} ArithCorrect(b: Batch, fuel: nat, env: Env, taken: set<Sym>, vars: set<Name>, count: nat,
                                        e: Code, ret: Name, st: Store)
    requires e.Arith? && Runs(b, fuel, env, taken, vars, count, e, ret, st)
    ensures Computes(b, fuel, env, vars, count, e, ret, st)
    decreases fuel, 2, e, 0
  {
    var a := WriteExpr(e.left, vars, count);
    var c := WriteExpr(e.right, a.vars, a.count);
    var st1 := ExprCorrect(b, fuel, env, taken, vars, count, e.left, st);
    var st2 := ExprCorrect(b, fuel, env, taken, a.vars, a.count, e.right, st1);
    assert Live(a.names[0], In(b, env), a.count);
    KeptTrans(st.locals, st1.locals, st2.locals, In(b, env), count, a.count, {});
    RunBoth(fuel, b.W(), st, a.code, st1, c.code, st2);
    ArithExec(b.W(), fuel, st, st2, In(b, env), count, a.code + c.code, OnIntegers(e.op), e.op, a.names[0], c.names[0],
              ret);
  }

  lemma ArithExec(w: World, fuel: nat, st: Store, st1: Store, scope: Scope, count: nat, code: seq<Stmt>,
                  onInts: ArithOp, onRats: ArithOp, y: Name, z: Name, ret: Name)
    requires Exec(fuel, w, st, code) == Some(st1) && Kept(st.locals, st1.locals, scope, count, {})
    requires Find(st1.locals, y).Some? && Find(st1.locals, z).Some? && !onInts.Div?
    requires ArithValue(if st1.locals[y].Int? then onInts else onRats, st1.locals[y], st1.locals[z]).Val?
    ensures var s := IfClass(y, [Compute(ret, onInts, y, z)], [Compute(ret, onRats, y, z)]);
            var v := ArithValue(if st1.locals[y].Int? then onInts else onRats, st1.locals[y], st1.locals[z]).v;
            Yields(Exec(fuel, w, st, code + [s]), st, scope, count, {ret}, ret, v, st1.marks)
  {
    var op := if st1.locals[y].Int? then onInts else onRats;
    var v := ArithValue(op, st1.locals[y], st1.locals[z]).v;
    ComputedRight(op, st1.locals[y], st1.locals[z]);
    var st2 := StoreResult(st, st1, scope, count, ret, v, st1.marks);
    ExecClass(fuel, w, st1, y, Compute(ret, onInts, y, z), Compute(ret, onRats, y, z), st2);
    RunThen(fuel, w, st, code, st1, IfClass(y, [Compute(ret, onInts, y, z)], [Compute(ret, onRats, y, z)]), st2);
  }

  lemma {:induction false} LetCorrect(b: Batch, fuel: nat, env: Env, taken: set<Sym>, vars: set<Name>, count: nat,
                                      e: Code, ret: Name, st: Store)
    requires e.Let? && Runs(b, fuel, env, taken, vars, count, e, ret, st)
    ensures Computes(b, fuel, env, vars, count, e, ret, st)
    decreases fuel, 2, e, 0
  {
    var a, st1, env1 := LetOpens(b, fuel, env, taken, vars, count, e, ret, st);
    CodeCorrect(b, fuel, env1, taken + {e.x}, a.vars + {Key(e.x)}, a.count, e.body, ret, st1);
    var code := WriteCode(e.body, ret, a.vars + {Key(e.x)}, a.count).code;
    var r := Eval(fuel, b.W(), env, e, st.marks);
    LetExec(b, fuel, st, st1, env, env1, count, a.count, Called(e.x), a.code, code, ret, r);
  }

  /** The bound part of a LET, written as a, has been run up to st1, and its body can be run. */
  ghost predicate Opened(b: Batch, fuel: nat, env: Env, env': Env, taken: set<Sym>, count: nat, x: Sym, a: Out,
                         ret: Name, st: Store, st1: Store)
  {
    && b.Ready(env', taken + {x}, a.vars + {Key(x)}) && Target(ret, In(b, env'), taken + {x}, a.count)
    && Exec(fuel, b.W(), st.(locals := st.locals - {Called(x)}), a.code) == Some(st1) && count <= a.count
    && Kept(st.locals, st1.locals, In(b, env), count, {}) && Represents(b, st1.locals, env')
    && env'.Keys == env.Keys + {x} && Live(Called(x), In(b, env'), a.count) && Called(x) != ret
    && Find(st1.locals, Called(x)).Some?
  }

  lemma {:induction false} LetOpens(b: Batch, fuel: nat, env: Env, taken: set<Sym>, vars: set<Name>, count: nat,
                                    e: Code, ret: Name, st: Store)
    returns (a: Out, st1: Store, env': Env)
    requires e.Let? && b.Ready(env, taken, vars) && Compilable(e, env.Keys, taken, b)
    requires Represents(b, st.locals, env) && Target(ret, In(b, env), taken, count)
    requires Eval(fuel, b.W(), env, e.bound, st.marks).out.Val?
    ensures var r := Eval(fuel, b.W(), env, e.bound, st.marks);
            && a == WriteCode(e.bound, Called(e.x), vars, count) && env' == env[e.x := r.out.v] && st1.marks == r.marks
            && Opened(b, fuel, env, env', taken, count, e.x, a, ret, st, st1)
    decreases fuel, 2, e.bound, 2
  {
    var x := Called(e.x);
    var st0 := st.(locals := st.locals - {x});
    NameApart(e.x, taken, b.binders);
    assert Represents(b, st0.locals, env);
    CodeCorrect(b, fuel, env, taken + {e.x}, vars, count, e.bound, x, st0);
    CodeVars(e.bound, env.Keys, taken + {e.x}, b, x, vars, count);
    a := WriteCode(e.bound, x, vars, count);
    st1 := Exec(fuel, b.W(), st0, a.code).value;
    env' := env[e.x := Eval(fuel, b.W(), env, e.bound, st.marks).out.v];
    LetBound(b, st.locals, st1.locals, env, env', count, e.x);
    LetReady(b, env, env', taken, a.vars, count, a.count, e.x, ret);
    LetVariable(b, env', taken + {e.x}, a.count, e.x, ret);
  }

  lemma LetVariable(b: Batch, env: Env, taken: set<Sym>, count: nat, x: Sym, ret: Name)
    requires Distinguished(b.binders) && env.Keys <= b.binders && x in env && Target(ret, In(b, env), taken, count)
    ensures Live(Called(x), In(b, env), count) && Called(x) != ret
  {
    assert Called(x) in Names(env.Keys);
  }

  lemma LetReady(b: Batch, env: Env, env': Env, taken: set<Sym>, vars: set<Name>, count: nat, count': nat, x: Sym,
                 ret: Name)
    requires b.Ready(env, taken, vars) && Target(ret, In(b, env), taken, count) && count <= count'
    requires x in b.binders && x !in taken && x in env' && env' == env[x := env'[x]] && Flat(env'[x])
    ensures b.Ready(env', taken + {x}, vars + {Key(x)}) && Target(ret, In(b, env'), taken + {x}, count')
  {
    NameApart(x, taken, b.binders);
    NamesMore(taken, taken + {x});
    assert env'.Keys == env.Keys + {x};
  }

  lemma LetExec(b: Batch, fuel: nat, st: Store, st1: Store, env: Env, env': Env, count: nat, count': nat, x: Name,
                code: seq<Stmt>, code': seq<Stmt>, ret: Name, r: Result<Value>)
    requires env.Keys <= env'.Keys && count <= count' && r.out.Val?
    requires Exec(fuel, b.W(), st.(locals := st.locals - {x}), code) == Some(st1)
    requires Kept(st.locals, st1.locals, In(b, env), count, {})
    requires Yields(Exec(fuel, b.W(), st1, code'), st1, In(b, env'), count', {ret}, ret, r.out.v, r.marks)
    requires Live(x, In(b, env'), count') && x != ret && Find(st1.locals, x).Some?
    ensures Yields(Exec(fuel, b.W(), st, [Declare(x)] + code + code' + [Release(x)]), st, In(b, env), count, {ret}, ret,
                   r.out.v, r.marks)
  {
    var st2 := Exec(fuel, b.W(), st1, code').value;
    assert Find(st2.locals, x) == Find(st1.locals, x);
    RunBoth(fuel, b.W(), st.(locals := st.locals - {x}), code, st1, code', st2);
    DeclareExec(b.W(), fuel, st, x, code + code', st2);
    assert [Declare(x)] + code + code' == [Declare(x)] + (code + code');
    RunThen(fuel, b.W(), st, [Declare(x)] + code + code', st2, Release(x), st2);
    KeptMore(st1.locals, st2.locals, In(b, env), In(b, env'), count', {ret});
    KeptTrans(st.locals, st1.locals, st2.locals, In(b, env), count, count', {ret});
  }

  lemma LetBound(b: Batch, l: Locals, l': Locals, env: Env, env': Env, count: nat, x: Sym)
    requires x in b.binders && x !in env && x in env' && env' == env[x := env'[x]] && Represents(b, l, env)
    requires Kept(l - {Called(x)}, l', In(b, env), count, {Called(x)}) && Find(l', Called(x)) == Some(env'[x])
    ensures env'.Keys == env.Keys + {x} && Represents(b, l', env') && Kept(l, l', In(b, env), count, {})
  {
    NameApart(x, env.Keys, b.binders);
    forall q: Name | Live(q, In(b, env), count)
      ensures Find(l', q) == Find(l, q)
    {
      assert q != Called(x);
      assert Find(l - {Called(x)}, q) == Find(l, q);
    }
    KeptRepresents(b, l, l', env, count);
  }

  /** What is kept for a larger scope is kept for a smaller one. */
  lemma KeptMore(l: Locals, l': Locals, scope: Scope, scope': Scope, count: nat, except: set<Name>)
    requires scope.vars <= scope'.vars && scope.bound == scope'.bound && Kept(l, l', scope', count, except)
    ensures Kept(l, l', scope, count, except)
  {
    forall q: Name | Live(q, scope, count) && q !in except
      ensures Find(l', q) == Find(l, q)
    {
      assert Live(q, scope', count);
    }
  }

  lemma {:induction false} IfSignCorrect(b: Batch, fuel: nat, env: Env, taken: set<Sym>, vars: set<Name>, count: nat,
                                         e: Code, ret: Name, st: Store)
    requires e.IfSign? && Runs(b, fuel, env, taken, vars, count, e, ret, st)
    ensures Computes(b, fuel, env, vars, count, e, ret, st)
    decreases fuel, 2, e, 0
  {
    SignEval(fuel, b.W(), env, e, st.marks);
    var a := WriteExpr(e.arg, vars, count);
    var st1 := ExprCorrect(b, fuel, env, taken, vars, count, e.arg, st);
    var y := a.names[0];
    var t := WriteCode(e.thn, ret, a.vars, a.count);
    var f := WriteCode(e.els, ret, t.vars, t.count);
    var t' := WriteCode(e.thn, ret, f.vars, f.count);
    var f' := WriteCode(e.els, ret, t'.vars, t'.count);
    var v := Find(st1.locals, y).value;
    var pos := SignValue(e.test, v).v;
    var _ := BranchVars(e.thn, e.els, env.Keys, taken, b, ret, a.vars, a.count);
    var vs, n := if v.Int? then a.vars else f.vars, if v.Int? then a.count else f.count;
    var st2 := BranchCorrect(b, fuel, env, taken, vs, n, e, pos, ret, st1);
    IfSignExec(b.W(), fuel, st, a.code, st1, e.test, y, v, t.code, f.code, t'.code, f'.code, st2);
    KeptTrans(st.locals, st1.locals, st2.locals, In(b, env), count, n, {ret});
  }

  lemma SignEval(fuel: nat, w: World, env: Env, e: Code, marks: MarkSet)
    requires e.IfSign? && Eval(fuel, w, env, e, marks).out.Val?
    ensures var r := Eval(fuel, w, env, e.arg, marks);
            && r.out.Val? && SignValue(e.test, r.out.v).Val?
            && Eval(fuel, w, env, e, marks) ==
               Eval(fuel, w, env, if SignValue(e.test, r.out.v).v then e.thn else e.els, r.marks)
  {
  }

  lemma IfSignExec(w: World, fuel: nat, st: Store, code: seq<Stmt>, st1: Store, test: SignTest, y: Name, v: Value,
                   t: seq<Stmt>, f: seq<Stmt>, t': seq<Stmt>, f': seq<Stmt>, st2: Store)
    requires Exec(fuel, w, st, code) == Some(st1) && Find(st1.locals, y) == Some(v) && SignValue(test, v).Val?
    requires var pos := SignValue(test, v).v;
             ExecBlock(fuel, w, st1, if v.Int? then if pos then t else f else if pos then t' else f') == Some(st2)
    ensures Exec(fuel, w, st, code + [IfClass(y, [IfSgn(test, y, t, f)], [IfSgn(test, y, t', f')])]) == Some(st2)
  {
    SgnRight(test, v);
    ExecPlain(fuel, w, st1, IfSgn(test, y, t, f));
    ExecPlain(fuel, w, st1, IfSgn(test, y, t', f'));
    RunThen(fuel, w, st, code, st1, IfClass(y, [IfSgn(test, y, t, f)], [IfSgn(test, y, t', f')]), st2);
  }

  /** The branch that is taken, of two written one after the other. */
  lemma {:induction false} BranchCorrect(b: Batch, fuel: nat, env: Env, taken: set<Sym>, vars: set<Name>, count: nat,
                                         e: Code, pos: bool, ret: Name, st: Store)
    returns (st': Store)
    requires b.Ready(env, taken, vars) && (e.IfSign? || e.IfMarked? || e.Compare?)
    requires Compilable(e, env.Keys, taken, b)
    requires Represents(b, st.locals, env) && Target(ret, In(b, env), taken, count)
    requires Eval(fuel, b.W(), env, if pos then e.thn else e.els, st.marks).out.Val?
    ensures var t := WriteCode(e.thn, ret, vars, count);
            var f := WriteCode(e.els, ret, t.vars, t.count);
            var r := Eval(fuel, b.W(), env, if pos then e.thn else e.els, st.marks);
            && ExecBlock(fuel, b.W(), st, if pos then t.code else f.code) == Some(st')
            && Yields(Some(st'), st, In(b, env), count, {ret}, ret, r.out.v, r.marks)
    decreases fuel, 2, if pos then e.thn else e.els, 3
  {
    var t := WriteCode(e.thn, ret, vars, count);
    if pos {
      BlockCorrect(b, fuel, env, taken, vars, count, e.thn, ret, st);
      st' := ExecBlock(fuel, b.W(), st, t.code).value;
    } else {
      CodeVars(e.thn, env.Keys, taken, b, ret, vars, count);
      BlockCorrect(b, fuel, env, taken, t.vars, t.count, e.els, ret, st);
      st' := ExecBlock(fuel, b.W(), st, WriteCode(e.els, ret, t.vars, t.count).code).value;
      assert Kept(st.locals, st.locals, In(b, env), count, {});
      KeptTrans(st.locals, st.locals, st'.locals, In(b, env), count, t.count, {ret});
    }
  }

  /** Code in a block of its own: what it declares is not in use outside. */
  lemma {:induction false} BlockCorrect(b: Batch, fuel: nat, env: Env, taken: set<Sym>, vars: set<Name>, count: nat,
                                        e: Code, ret: Name, st: Store)
    requires Runs(b, fuel, env, taken, vars, count, e, ret, st)
    ensures BlockComputes(b, fuel, env, vars, count, e, ret, st)
    decreases fuel, 2, e, 2
  {
    CodeCorrect(b, fuel, env, taken, vars, count, e, ret, st);
    var r, o := Eval(fuel, b.W(), env, e, st.marks), WriteCode(e, ret, vars, count);
    BlockApart(b, env, taken, vars, count, e, ret, o);
    LeaveYields(fuel, b.W(), st, o.code, In(b, env), count, ret, r.out.v, r.marks);
  }

  lemma BlockApart(b: Batch, env: Env, taken: set<Sym>, vars: set<Name>, count: nat, e: Code, ret: Name, o: Out)
    requires Distinguished(b.binders) && env.Keys <= taken <= b.binders && Target(ret, In(b, env), taken, count)
    requires Compilable(e, env.Keys, taken, b) && o == WriteCode(e, ret, vars, count)
    ensures ret !in Declared(o.code) && forall q <- Declared(o.code) :: !Live(q, In(b, env), count)
  {
    CompilableOnce(e, env.Keys, taken, b);
    CodeDeclares(e, ret, vars, count);
    NotInUse(b, env, taken, count, ret, o.code, Binds(e), BoundOnce(e), o.count);
  }

  lemma NotInUse(b: Batch, env: Env, taken: set<Sym>, count: nat, ret: Name,
                 code: seq<Stmt>, xs: set<Name>, once: bool, hi: nat)
    requires env.Keys <= taken <= b.binders && Target(ret, In(b, env), taken, count)
    requires Declares(code, xs, once, count, hi) && xs <= Names(b.binders) - Names(taken)
    ensures ret !in Declared(code) && forall q <- Declared(code) :: !Live(q, In(b, env), count)
  {
    forall q | q in Declared(code)
      ensures q != ret && !Live(q, In(b, env), count)
    {
      assert q.Source? ==> q in SourcesIn(Declared(code));
    }
  }

  lemma LeaveYields(fuel: nat, w: World, st: Store, code: seq<Stmt>, scope: Scope, count: nat, ret: Name, v: Value,
                    marks: MarkSet)
    requires Yields(Exec(fuel, w, st, code), st, scope, count, {ret}, ret, v, marks)
    requires ret !in Declared(code) && forall q <- Declared(code) :: !Live(q, scope, count)
    ensures Yields(ExecBlock(fuel, w, st, code), st, scope, count, {ret}, ret, v, marks)
  {
    var l := Exec(fuel, w, st, code).value.locals;
    var l' := Leave(st.locals, l, Declared(code));
    forall q | q !in Declared(code)
      ensures Find(l', q) == Find(l, q)
    {
    }
  }

  lemma KnownSymbol(s: Sym, vars: set<Name>, count: nat)
    requires Key(s) in vars
    ensures WriteSymExpr(Var(s), vars, count) == NamedOut([], [Called(s)], vars, count)
  {
  }

  lemma {:induction false} MarkVarCorrect(b: Batch, fuel: nat, env: Env, taken: set<Sym>, vars: set<Name>, count: nat,
                                          e: Code, ret: Name, st: Store)
    requires e.MarkVar? && Runs(b, fuel, env, taken, vars, count, e, ret, st)
    ensures Computes(b, fuel, env, vars, count, e, ret, st)
    decreases fuel, 2, e, 0
  {
    var y, i := Called(e.arg.s), e.i;
    var v := env[e.arg.s];
    assert Eval(fuel, b.W(), env, e.arg, st.marks) == Result(Val(v), st.marks);
    MarkVarExec(b.W(), fuel, st, y, i, ret);
    KnownSymbol(e.arg.s, vars, count);
    assert WriteCode(e, ret, vars, count).code == [IfMark(y, i, [ClearMark(y, i)], [SetMark(y, i)]), Copy(ret, y)];
    assert Kept(st.locals, st.locals, In(b, env), count, {});
    var st1 := StoreResult(st, st, In(b, env), count, ret, v, Flip(st.marks, v.s, i));
  }

  lemma FlipExec(w: World, fuel: nat, st: Store, y: Name, i: Bit)
    requires Find(st.locals, y).Some? && st.locals[y].Symbol?
    ensures Exec(fuel, w, st, [IfMark(y, i, [ClearMark(y, i)], [SetMark(y, i)])]) ==
            Some(st.(marks := Flip(st.marks, st.locals[y].s, i)))
  {
    ExecPlain(fuel, w, st, ClearMark(y, i));
    ExecPlain(fuel, w, st, SetMark(y, i));
    ExecOne(fuel, w, st, IfMark(y, i, [ClearMark(y, i)], [SetMark(y, i)]));
  }

  lemma MarkVarExec(w: World, fuel: nat, st: Store, y: Name, i: Bit, ret: Name)
    requires Find(st.locals, y).Some? && st.locals[y].Symbol?
    ensures Exec(fuel, w, st, [IfMark(y, i, [ClearMark(y, i)], [SetMark(y, i)]), Copy(ret, y)]) ==
            Some(Store(st.locals[ret := st.locals[y]], Flip(st.marks, st.locals[y].s, i)))
  {
    var s := IfMark(y, i, [ClearMark(y, i)], [SetMark(y, i)]);
    var st1 := st.(marks := Flip(st.marks, st.locals[y].s, i));
    FlipExec(w, fuel, st, y, i);
    RunThen(fuel, w, st, [s], st1, Copy(ret, y), st1.(locals := st.locals[ret := st.locals[y]]));
    assert [s] + [Copy(ret, y)] == [s, Copy(ret, y)];
  }

  lemma {:induction false} IfMarkedCorrect(b: Batch, fuel: nat, env: Env, taken: set<Sym>, vars: set<Name>,
                                           count: nat, e: Code, ret: Name, st: Store)
    requires e.IfMarked? && Runs(b, fuel, env, taken, vars, count, e, ret, st)
    ensures Computes(b, fuel, env, vars, count, e, ret, st)
    decreases fuel, 2, e, 0
  {
    var y := Called(e.arg.s);
    var t := WriteCode(e.thn, ret, vars, count);
    var f := WriteCode(e.els, ret, t.vars, t.count);
    assert Eval(fuel, b.W(), env, e.arg, st.marks).out.v == env[e.arg.s];
    KnownSymbol(e.arg.s, vars, count);
    assert WriteCode(e, ret, vars, count).code == [IfMark(y, e.i, t.code, f.code)];
    ExecOne(fuel, b.W(), st, IfMark(y, e.i, t.code, f.code));
    var pos := (env[e.arg.s].s, e.i) in st.marks;
    var st1 := BranchCorrect(b, fuel, env, taken, vars, count, e, pos, ret, st);
  }

  lemma {:induction false} CompareCorrect(b: Batch, fuel: nat, env: Env, taken: set<Sym>, vars: set<Name>,
                                          count: nat, e: Code, ret: Name, st: Store)
    requires e.Compare? && Runs(b, fuel, env, taken, vars, count, e, ret, st)
    ensures Computes(b, fuel, env, vars, count, e, ret, st)
    decreases fuel, 2, e, 0
  {
    var y, z := Called(e.left.s), Called(e.right.s);
    var t := WriteCode(e.thn, ret, vars, count);
    var f := WriteCode(e.els, ret, t.vars, t.count);
    var pos := CompareEval(fuel, b.W(), env, e, st.marks);
    var st1 := BranchCorrect(b, fuel, env, taken, vars, count, e, pos, ret, st);
    CompareCode(e, ret, vars, count);
    CompareExec(b.W(), fuel, st, y, z, t.code, f.code, st1);
  }

  lemma CompareExec(w: World, fuel: nat, st: Store, y: Name, z: Name, t: seq<Stmt>, f: seq<Stmt>, st1: Store)
    requires Find(st.locals, y).Some? && st.locals[y].Symbol? && Find(st.locals, z).Some? && st.locals[z].Symbol?
    requires ExecBlock(fuel, w, st, if w.before(st.locals[y].s, st.locals[z].s) then t else f) == Some(st1)
    ensures Exec(fuel, w, st, [IfBefore(y, z, t, f)]) == Some(st1)
  {
    ExecOne(fuel, w, st, IfBefore(y, z, t, f));
  }

  lemma CompareEval(fuel: nat, w: World, env: Env, e: Code, marks: MarkSet) returns (pos: bool)
    requires e.Compare? && e.left.Var? && e.left.s in env && e.right.Var? && e.right.s in env
    requires w.defs == map[] && Eval(fuel, w, env, e, marks).out.Val?
    ensures env[e.left.s].Symbol? && env[e.right.s].Symbol? && pos == w.before(env[e.left.s].s, env[e.right.s].s)
    ensures Eval(fuel, w, env, e, marks) == Eval(fuel, w, env, if pos then e.thn else e.els, marks)
  {
    assert Eval(fuel, w, env, e.left, marks) == Result(Val(env[e.left.s]), marks);
    assert Eval(fuel, w, env, e.right, marks) == Result(Val(env[e.right.s]), marks);
    pos := w.before(env[e.left.s].s, env[e.right.s].s);
  }

  lemma CompareCode(e: Code, ret: Name, vars: set<Name>, count: nat)
    requires e.Compare? && e.left.Var? && Key(e.left.s) in vars && e.right.Var? && Key(e.right.s) in vars
    ensures var t := WriteCode(e.thn, ret, vars, count);
            var f := WriteCode(e.els, ret, t.vars, t.count);
            WriteCode(e, ret, vars, count).code ==
            [IfBefore(Called(e.left.s), Called(e.right.s), t.code, f.code)]
  {
    KnownSymbol(e.left.s, vars, count);
    KnownSymbol(e.right.s, vars, count);
  }

  // ----- applications, calls and matches -----

  predicate AllFlat(vs: seq<Value>) {
    forall i :: 0 <= i < |vs| ==> Flat(vs[i])
  }

  /** The values held by names that are kept stay the same. */
  lemma {:induction false} ValuesKept(l: Locals, l': Locals, scope: Scope, count: nat, names: seq<Name>)
    requires Kept(l, l', scope, count, {}) && forall i :: 0 <= i < |names| ==> Live(names[i], scope, count)
    ensures Values(l', names) == Values(l, names)
    decreases names
  {
    if names != [] {
      assert Find(l', names[0]) == Find(l, names[0]);
      ValuesKept(l, l', scope, count, names[1..]);
    }
  }

  lemma {:induction false} ExprsCorrect(b: Batch, fuel: nat, env: Env, taken: set<Sym>, vars: set<Name>, count: nat,
                                        es: seq<Code>, done: seq<Value>, st: Store)
    returns (st': Store, vs: seq<Value>)
    requires b.Ready(env, taken, vars) && (forall i :: 0 <= i < |es| ==> Compilable(es[i], env.Keys, taken, b))
    requires Represents(b, st.locals, env) && EvalArgs(fuel, b.W(), env, es, done, st.marks).out.Val?
    ensures var o := WriteExprs(es, vars, count);
            && Exec(fuel, b.W(), st, o.code) == Some(st')
            && EvalArgs(fuel, b.W(), env, es, done, st.marks) == Result(Val(done + vs), st'.marks)
            && HoldValues(st.locals, st'.locals, In(b, env), count, o, vs)
            && b.Ready(env, taken, o.vars) && Represents(b, st'.locals, env)
    decreases fuel, 2, es, 0
  {
    if es == [] {
      st', vs := st, [];
      assert done + vs == done;
    } else {
      var a := WriteExpr(es[0], vars, count);
      var st1 := ExprCorrect(b, fuel, env, taken, vars, count, es[0], st);
      var v := Eval(fuel, b.W(), env, es[0], st.marks).out.v;
      var ws;
      st', ws := ExprsCorrect(b, fuel, env, taken, a.vars, a.count, es[1..], done + [v], st1);
      vs := [v] + ws;
      ArgsStep(fuel, b.W(), env, es, done, st.marks, v, ws, st1.marks, st'.marks);
      var c := WriteExprs(es[1..], a.vars, a.count);
      RunBoth(fuel, b.W(), st, a.code, st1, c.code, st');
      HoldMore(st.locals, st1.locals, st'.locals, In(b, env), count, a, c, v, ws);
    }
  }

  lemma ArgsStep(fuel: nat, w: World, env: Env, es: seq<Code>, done: seq<Value>, marks: MarkSet, v: Value,
                 ws: seq<Value>,
                 marks1: MarkSet, marks2: MarkSet)
    requires es != [] && Eval(fuel, w, env, es[0], marks) == Result(Val(v), marks1)
    requires EvalArgs(fuel, w, env, es[1..], done + [v], marks1) == Result(Val(done + [v] + ws), marks2)
    ensures EvalArgs(fuel, w, env, es, done, marks) == Result(Val(done + ([v] + ws)), marks2)
  {
    assert done + [v] + ws == done + ([v] + ws);
  }

  /** The names written hold the values vs, and names in use are kept. */
  ghost predicate HoldValues(l: Locals, l': Locals, scope: Scope, count: nat, o: NamedOut, vs: seq<Value>) {
    && Values(l', o.names) == Some(vs) && AllFlat(vs) && Kept(l, l', scope, count, {})
    && forall i :: 0 <= i < |o.names| ==> NewName(o.names[i], scope, count, o.count)
  }

  lemma HoldMore(l: Locals, l1: Locals, l2: Locals, scope: Scope, count: nat, a: NamedOut, c: NamedOut, v: Value,
                 ws: seq<Value>)
    requires |a.names| == 1 && NewName(a.names[0], scope, count, a.count) && count <= a.count <= c.count
    requires Find(l1, a.names[0]) == Some(v) && Flat(v) && Kept(l, l1, scope, count, {})
    requires HoldValues(l1, l2, scope, a.count, c, ws)
    ensures HoldValues(l, l2, scope, count, NamedOut(a.code + c.code, a.names + c.names, c.vars, c.count), [v] + ws)
  {
    KeptTrans(l, l1, l2, scope, count, a.count, {});
    assert Live(a.names[0], scope, a.count);
    assert (a.names + c.names)[1..] == c.names;
    forall i | 0 <= i < |a.names + c.names|
      ensures NewName((a.names + c.names)[i], scope, count, c.count)
    {
      if i > 0 { assert (a.names + c.names)[i] == c.names[i - 1]; }
    }
  }

  lemma {:induction false} ApplyCorrect(b: Batch, fuel: nat, env: Env, taken: set<Sym>, vars: set<Name>, count: nat,
                                        e: Code, ret: Name, st: Store)
    requires e.Apply? && Runs(b, fuel, env, taken, vars, count, e, ret, st)
    ensures Computes(b, fuel, env, vars, count, e, ret, st)
    decreases fuel, 2, e, 0
  {
    var a := WriteExprs(e.args, vars, count);
    var st1, vs := ExprsCorrect(b, fuel, env, taken, vars, count, e.args, [], st);
    assert [] + vs == vs;
    Constantly(b, e.head, a.vars);
    ApplyExec(b.W(), fuel, st, st1, In(b, env), count, a, vs, e.head, ret);
  }

  lemma ApplyExec(w: World, fuel: nat, st: Store, st1: Store, scope: Scope, count: nat, a: NamedOut,
                  vs: seq<Value>, c: Sym, ret: Name)
    requires Exec(fuel, w, st, a.code) == Some(st1) && HoldValues(st.locals, st1.locals, scope, count, a, vs)
    requires count <= a.count && Global(c) !in st1.locals
    ensures var h := Temp(a.count);
            Yields(Exec(fuel, w, st, a.code + [Declare(h), Constant(h, c)] + [NewApp(ret, h, a.names)]),
                   st, scope, count, {ret}, ret, App(Symbol(c), vs), st1.marks)
  {
    var h := Temp(a.count);
    var st2 := ConstantSet(fuel, w, st1, h, c);
    RunBoth(fuel, w, st, a.code, st1, [Declare(h), Constant(h, c)], st2);
    assert Kept(st1.locals, st2.locals, scope, a.count, {});
    ValuesKept(st1.locals, st2.locals, scope, a.count, a.names);
    KeptTrans(st.locals, st1.locals, st2.locals, scope, count, a.count, {});
    var st3 := StoreResult(st, st2, scope, count, ret, App(Symbol(c), vs), st1.marks);
    RunThen(fuel, w, st, a.code + [Declare(h), Constant(h, c)], st2, NewApp(ret, h, a.names), st3);
  }

  lemma ConstantSet(fuel: nat, w: World, st: Store, t: Name, c: Sym) returns (st': Store)
    requires Global(c) !in st.locals
    ensures st' == st.(locals := (st.locals - {t})[t := Symbol(c)])
    ensures Exec(fuel, w, st, [Declare(t), Constant(t, c)]) == Some(st')
  {
    ExecCat(fuel, w, st, [Declare(t)], [Constant(t, c)]);
    ExecOne(fuel, w, st, Declare(t));
    st' := st.(locals := (st.locals - {t})[t := Symbol(c)]);
    ExecOne(fuel, w, st.(locals := st.locals - {t}), Constant(t, c));
    assert [Declare(t), Constant(t, c)] == [Declare(t)] + [Constant(t, c)];
  }

  lemma {:induction false} CallCorrect(b: Batch, fuel: nat, env: Env, taken: set<Sym>, vars: set<Name>, count: nat,
                                       e: Code, ret: Name, st: Store)
    requires e.Call? && Runs(b, fuel, env, taken, vars, count, e, ret, st)
    ensures Computes(b, fuel, env, vars, count, e, ret, st)
    decreases fuel, 2, e, 0
  {
    var a := WriteExprs(e.args, vars, count);
    var st1, vs := ExprsCorrect(b, fuel, env, taken, vars, count, e.args, [], st);
    assert [] + vs == vs;
    FunctionCorrect(b, fuel, e.prog, vs, st1.marks);
    var r := EvalCall(fuel, b.W(), e.prog, vs, st1.marks);
    CallExec(b.W(), fuel, st, st1, In(b, env), count, a, vs, e.prog, ret, r.out.v, r.marks);
  }

  lemma CallExec(w: World, fuel: nat, st: Store, st1: Store, scope: Scope, count: nat, a: NamedOut,
                 vs: seq<Value>, f: Sym, ret: Name, v: Value, marks: MarkSet)
    requires Exec(fuel, w, st, a.code) == Some(st1) && HoldValues(st.locals, st1.locals, scope, count, a, vs)
    requires ExecCall(fuel, w, f, vs, st1.marks) == Some(Return(Some(v), marks)) && Flat(v)
    ensures Yields(Exec(fuel, w, st, a.code + [CallFn(ret, f, a.names)]), st, scope, count, {ret}, ret, v, marks)
  {
    var st2 := StoreResult(st, st1, scope, count, ret, v, marks);
    RunThen(fuel, w, st, a.code, st1, CallFn(ret, f, a.names), st2);
  }

  /** Where a call of a program has a value, the compiled function returns it too and leaves
      the same marks. */
  lemma {:induction false} FunctionCorrect(b: Batch, fuel: nat, prog: Sym, vals: seq<Value>, marks: MarkSet)
    requires b.Valid() && prog in b.progs && AllFlat(vals) && |vals| == |b.progs[prog].params|
    requires EvalCall(fuel, b.W(), prog, vals, marks).out.Val?
    ensures var r := EvalCall(fuel, b.W(), prog, vals, marks);
            ExecCall(fuel, b.W(), prog, vals, marks) == Some(Return(Some(r.out.v), r.marks)) && Flat(r.out.v)
    decreases fuel, 0
  {
    assert b.Compiles(prog);
    var p := b.progs[prog];
    var env := Bind(map[], p.params, vals, |p.params|);
    ParametersBound(b, p.params, vals);
    ParametersReady(b, prog, env);
    var st0 := Store(BindLocals(p.params, vals, |p.params|), marks);
    var st := ExprCorrect(b, fuel - 1, env, env.Keys, Keys(p.params), 0, p.body, st0);
  }

  lemma ParametersReady(b: Batch, prog: Sym, env: Env)
    requires b.Valid() && prog in b.progs && env.Keys == Elements(b.progs[prog].params)
    requires forall x <- env :: Flat(env[x])
    ensures b.Ready(env, env.Keys, Keys(b.progs[prog].params))
  {
    assert b.Compiles(prog);
    forall x | x in env
      ensures Key(x) in Keys(b.progs[prog].params)
    {
      assert x in b.progs[prog].params;
    }
    forall q | q in Keys(b.progs[prog].params)
      ensures q.Source? ==> q.s in b.binders
    {
      var x :| x in b.progs[prog].params && q == Key(x);
      assert x in Elements(b.progs[prog].params);
    }
  }

  lemma ParametersBound(b: Batch, xs: seq<Sym>, vs: seq<Value>)
    requires |xs| <= |vs| && AllFlat(vs) && Distinguished(b.binders) && Elements(xs) <= b.binders
    requires Distinct(xs)
    ensures var env := Bind(map[], xs, vs, |xs|);
            && env.Keys == Elements(xs) && Represents(b, BindLocals(xs, vs, |xs|), env)
            && forall x <- env :: Flat(env[x])
  {
    var none: Env := map[];
    var env := Bind(none, xs, vs, |xs|);
    assert xs[..|xs|] == xs;
    forall x: Sym
      ensures x in env <==> x in xs
      ensures x in env ==> Find(BindLocals(xs, vs, |xs|), Called(x)) == Some(env[x]) && Flat(env[x])
    {
      BindGet(none, xs, vs, |xs|, x);
      if x in xs {
        LocalsBound(b, xs, vs, |xs|, x);
        var i :| 0 <= i < |xs| && xs[i] == x;
        assert Get(env, x) == Some(vs[i]);
      }
    }
    OnlyParameters(b, xs, vs, |xs|);
  }

  lemma {:induction false} LocalsBound(b: Batch, xs: seq<Sym>, vs: seq<Value>, n: nat, x: Sym)
    requires n <= |xs| && n <= |vs| && Distinguished(b.binders) && Elements(xs) <= b.binders && x in b.binders
    ensures Find(BindLocals(xs, vs, n), Called(x)) == Get(Bind(map[], xs, vs, n), x)
  {
    if n > 0 {
      LocalsBound(b, xs, vs, n - 1, x);
      assert xs[n - 1] in Elements(xs) && Unlike(xs[n - 1], x);
    }
  }

  lemma {:induction false} OnlyParameters(b: Batch, xs: seq<Sym>, vs: seq<Value>, n: nat)
    requires n <= |xs| && n <= |vs| && Elements(xs) <= b.binders
    ensures Unhidden(b, BindLocals(xs, vs, n))
  {
    if n > 0 {
      OnlyParameters(b, xs, vs, n - 1);
      assert xs[n - 1] in Elements(xs);
    }
  }

  lemma {:induction false} MatchCorrect(b: Batch, fuel: nat, env: Env, taken: set<Sym>, vars: set<Name>, count: nat,
                                        e: Code, ret: Name, st: Store)
    requires e.Match? && Runs(b, fuel, env, taken, vars, count, e, ret, st)
    ensures Computes(b, fuel, env, vars, count, e, ret, st)
    decreases fuel, 2, e, 0
  {
    var a, st1 := MatchScrut(b, fuel, env, taken, vars, count, e, ret, st);
    MatchCases(e, ret, vars, count);
    MatchRest(b, fuel, env, taken, count, e.cases, a, ret, st, st1,
              Eval(fuel, b.W(), env, e, st.marks), WriteCode(e, ret, vars, count).code);
  }

  lemma MatchEval(fuel: nat, w: World, env: Env, e: Code, marks: MarkSet)
    requires e.Match? && Eval(fuel, w, env, e, marks).out.Val?
    ensures var r := Eval(fuel, w, env, e.scrut, marks);
            && r.out.Val?
            && Eval(fuel, w, env, e, marks) ==
               EvalCases(fuel, w, env, e.cases, Head(w.defs, r.out.v), Arguments(r.out.v), r.marks)
  {
  }

  /** The scrutinee has been run, up to st1, and its value is in the name given by a. */
  ghost predicate Scrutinized(b: Batch, fuel: nat, env: Env, taken: set<Sym>, count: nat, cases: seq<Case>,
                              a: NamedOut, ret: Name, st: Store, st1: Store)
  {
    && b.Ready(env, taken, a.vars) && CompilableCases(cases, env.Keys, taken, b) && FirstKnown(cases, env.Keys)
    && |a.names| == 1 && NewName(a.names[0], In(b, env), count, a.count) && count <= a.count
    && Exec(fuel, b.W(), st, a.code) == Some(st1) && Kept(st.locals, st1.locals, In(b, env), count, {})
    && Represents(b, st1.locals, env) && Target(ret, In(b, env), taken, count)
    && Find(st1.locals, a.names[0]).Some? && Flat(st1.locals[a.names[0]])
  }

  predicate CompilableCases(cases: seq<Case>, scope: set<Sym>, taken: set<Sym>, b: Batch) {
    ArmsFirst(cases) && forall i :: 0 <= i < |cases| ==> CompilableCase(cases[i], scope, taken, b)
  }

  lemma {:induction false} MatchScrut(b: Batch, fuel: nat, env: Env, taken: set<Sym>, vars: set<Name>, count: nat,
                                      e: Code, ret: Name, st: Store)
    returns (a: NamedOut, st1: Store)
    requires e.Match? && Runs(b, fuel, env, taken, vars, count, e, ret, st)
    ensures a == WriteExpr(e.scrut, vars, count)
    ensures Scrutinized(b, fuel, env, taken, count, e.cases, a, ret, st, st1)
    ensures CasesValue(b, fuel, env, e.cases, st1, a, Eval(fuel, b.W(), env, e, st.marks))
    decreases fuel, 2, e.scrut, 3
  {
    MatchEval(fuel, b.W(), env, e, st.marks);
    a := WriteExpr(e.scrut, vars, count);
    st1 := ExprCorrect(b, fuel, env, taken, vars, count, e.scrut, st);
  }

  lemma MatchCases(e: Code, ret: Name, vars: set<Name>, count: nat)
    requires e.Match?
    ensures CasesCode(e.cases, WriteExpr(e.scrut, vars, count), ret, WriteCode(e, ret, vars, count).code)
  {
    MatchCode(e, ret, vars, count);
    var a := WriteExpr(e.scrut, vars, count);
    assert a.names == [a.names[0]];
  }

  /** The cases have the outcome r. */
  ghost predicate CasesValue(b: Batch, fuel: nat, env: Env, cases: seq<Case>, st1: Store, a: NamedOut,
                             r: Result<Value>) {
    && |a.names| == 1 && Find(st1.locals, a.names[0]).Some? && r.out.Val?
    && var v := st1.locals[a.names[0]];
       r == EvalCases(fuel, b.W(), env, cases, Head(map[], v), Arguments(v), st1.marks)
  }

  /** The code for a match whose scrutinee has the code and the name given by a. */
  predicate CasesCode(cases: seq<Case>, a: NamedOut, ret: Name, code: seq<Stmt>) {
    && |a.names| == 1
    && var y, h, p := a.names[0], Temp(a.count), WriteArgs(cases, false, a.vars, a.count + 1);
       var c := WriteCases(cases, p.names, y, h, ret, p.vars, p.count);
       code == a.code + [GetHead(h, y)] + p.code + c.code + Releases([y] + p.names)
  }

  /** After the scrutinee. */
  lemma {:induction false} MatchRest(b: Batch, fuel: nat, env: Env, taken: set<Sym>, count: nat, cases: seq<Case>,
                                     a: NamedOut, ret: Name, st: Store, st1: Store, r: Result<Value>, code: seq<Stmt>)
    requires Scrutinized(b, fuel, env, taken, count, cases, a, ret, st, st1)
    requires CasesValue(b, fuel, env, cases, st1, a, r) && CasesCode(cases, a, ret, code)
    ensures Yields(Exec(fuel, b.W(), st, code), st, In(b, env), count, {ret}, ret, r.out.v, r.marks)
    decreases fuel, 2, cases, 2
  {
    var y, h := a.names[0], Temp(a.count);
    var p := WriteArgs(cases, false, a.vars, a.count + 1);
    ArgsVars(cases, false, env.Keys, b, a.vars, a.count + 1);
    var st3 := MatchReady(b, fuel, env, taken, count, cases, a, p, ret, st, st1);
    CasesRunnable(b, fuel, env, taken, count, cases, a, p, ret, st, st1, st3, r);
    CasesCorrect(b, fuel, env, taken, p.vars, p.count, cases, p.names, y, h, ret, st1.locals[y], st3);
    var c := WriteCases(cases, p.names, y, h, ret, p.vars, p.count);
    MatchFinish(b, fuel, env, taken, count, p.count, [y] + p.names, ret, st, a.code, st1, h, y, p.code, st3, c.code,
                code, r);
  }

  lemma MatchReady(b: Batch, fuel: nat, env: Env, taken: set<Sym>, count: nat, cases: seq<Case>, a: NamedOut,
                   p: NamedOut, ret: Name, st: Store, st1: Store)
    returns (st3: Store)
    requires Scrutinized(b, fuel, env, taken, count, cases, a, ret, st, st1)
    requires p == WriteArgs(cases, false, a.vars, a.count + 1)
    ensures var y, h := a.names[0], Temp(a.count);
            && Exec(fuel, b.W(), st1.(locals := st1.locals[h := InnerHead(st1.locals[y])]), p.code) == Some(st3)
            && Prepared(b, env, taken, count, a.count, p.count, cases, p.names, y, ret, st, st1, st3)
  {
    var y := a.names[0];
    st3 := MatchPrologue(b, fuel, env, taken, cases, a.vars, a.count, p, InnerHead(st1.locals[y]), st1);
    PrologueReady(b, st, st1, st3, env, taken, count, a.count, p.count, cases, p.names, y, ret);
  }

  lemma CasesRunnable(b: Batch, fuel: nat, env: Env, taken: set<Sym>, count: nat, cases: seq<Case>, a: NamedOut,
                      p: NamedOut, ret: Name, st: Store, st1: Store, st3: Store, r: Result<Value>)
    requires Scrutinized(b, fuel, env, taken, count, cases, a, ret, st, st1) && OnlyBinders(p.vars, b.binders)
    requires CasesValue(b, fuel, env, cases, st1, a, r) && a.vars <= p.vars
    requires Prepared(b, env, taken, count, a.count, p.count, cases, p.names, a.names[0], ret, st, st1, st3)
    ensures var y, h := a.names[0], Temp(a.count);
            CasesRun(b, fuel, env, taken, p.vars, p.count, cases, p.names, y, h, ret, st1.locals[y], st3)
  {
  }

  lemma MatchFinish(b: Batch, fuel: nat, env: Env, taken: set<Sym>, count: nat, count': nat, names: seq<Name>,
                    ret: Name, st: Store, scrut: seq<Stmt>, st1: Store, h: Name, y: Name, ctors: seq<Stmt>,
                    st3: Store, cases: seq<Stmt>, code: seq<Stmt>, r: Result<Value>)
    requires Exec(fuel, b.W(), st, scrut) == Some(st1) && Find(st1.locals, y).Some?
    requires Exec(fuel, b.W(), st1.(locals := st1.locals[h := InnerHead(st1.locals[y])]), ctors) == Some(st3)
    requires count <= count' && Kept(st.locals, st3.locals, In(b, env), count, {}) && r.out.Val?
    requires Yields(Exec(fuel, b.W(), st3, cases), st3, In(b, env), count', {ret}, ret, r.out.v, r.marks)
    requires Target(ret, In(b, env), taken, count) && Holding(st3.locals, names, In(b, env), count, count')
    requires code == scrut + [GetHead(h, y)] + ctors + cases + Releases(names)
    ensures Yields(Exec(fuel, b.W(), st, code), st, In(b, env), count, {ret}, ret, r.out.v, r.marks)
  {
    var st4 := Exec(fuel, b.W(), st3, cases).value;
    KeptTrans(st.locals, st3.locals, st4.locals, In(b, env), count, count', {ret});
    ReleasesRun(fuel, b.W(), st3, st4, In(b, env), taken, count, count', ret, names);
    MatchExec(b.W(), fuel, st, scrut, st1, h, y, ctors, st3, cases, st4, Releases(names), code);
  }

  lemma MatchExec(w: World, fuel: nat, st: Store, scrut: seq<Stmt>, st1: Store, h: Name, y: Name, ctors: seq<Stmt>,
                  st3: Store, cases: seq<Stmt>, st4: Store, releases: seq<Stmt>, code: seq<Stmt>)
    requires Exec(fuel, w, st, scrut) == Some(st1) && Find(st1.locals, y).Some?
    requires Exec(fuel, w, st1.(locals := st1.locals[h := InnerHead(st1.locals[y])]), ctors) == Some(st3)
    requires Exec(fuel, w, st3, cases) == Some(st4) && Exec(fuel, w, st4, releases) == Some(st4)
    requires code == scrut + [GetHead(h, y)] + ctors + cases + releases
    ensures Exec(fuel, w, st, code) == Some(st4)
  {
    HeadThen(w, fuel, st, scrut, st1, h, y, ctors, st3);
    RunBoth(fuel, w, st, scrut + [GetHead(h, y)] + ctors, st3, cases, st4);
    RunBoth(fuel, w, st, scrut + [GetHead(h, y)] + ctors + cases, st4, releases, st4);
  }

  /** Names that values were put in, or that variables have, hold values. */
  predicate Holding(l: Locals, names: seq<Name>, scope: Scope, lo: nat, hi: nat) {
    forall i :: 0 <= i < |names| ==> NewName(names[i], scope, lo, hi) && names[i] in l
  }

  lemma HoldingMore(l: Locals, names: seq<Name>, names': seq<Name>, scope: Scope, lo: nat, mid: nat, hi: nat)
    requires lo <= mid <= hi && Holding(l, names, scope, lo, mid) && Holding(l, names', scope, mid, hi)
    ensures Holding(l, names + names', scope, lo, hi)
  {
  }

  /** What a match has kept is still there to be released. */
  lemma ReleasesRun(fuel: nat, w: World, st: Store, st': Store, scope: Scope, taken: set<Sym>, count: nat,
                    count': nat, ret: Name, names: seq<Name>)
    requires Target(ret, scope, taken, count) && Holding(st.locals, names, scope, count, count')
    requires Kept(st.locals, st'.locals, scope, count', {ret})
    ensures Exec(fuel, w, st', Releases(names)) == Some(st')
  {
    forall i | 0 <= i < |names|
      ensures names[i] in st'.locals
    {
      assert NewName(names[i], scope, count, count') && names[i] in st.locals;
      assert Live(names[i], scope, count') && names[i] != ret;
      assert Find(st'.locals, names[i]) == Find(st.locals, names[i]);
    }
    ReleaseAll(fuel, w, st', names);
  }

  lemma {:induction false} ReleaseAll(fuel: nat, w: World, st: Store, names: seq<Name>)
    requires forall i :: 0 <= i < |names| ==> names[i] in st.locals
    ensures Exec(fuel, w, st, Releases(names)) == Some(st)
    decreases names
  {
    if names != [] {
      assert Releases(names)[0] == Release(names[0]) && Releases(names)[1..] == Releases(names[1..]);
      ReleaseAll(fuel, w, st, names[1..]);
    }
  }

  /** From st1 to st3, the head of y and the constructors of the patterns were put in place. */
  ghost predicate Prepared(b: Batch, env: Env, taken: set<Sym>, count: nat, next: nat, count': nat, cases: seq<Case>,
                           ctors: seq<Name>, y: Name, ret: Name, st: Store, st1: Store, st3: Store)
  {
    && st3.marks == st1.marks && Kept(st.locals, st3.locals, In(b, env), count, {}) && Find(st1.locals, y).Some?
    && CasesReady(b, st3, env, taken, count', cases, ctors, y, Temp(next), ret, st1.locals[y])
    && Holding(st3.locals, [y] + ctors, In(b, env), count, count')
  }

  /** After the scrutinee, its head and the constructors of the patterns are put in place. */
  lemma MatchPrologue(b: Batch, fuel: nat, env: Env, taken: set<Sym>, cases: seq<Case>, vars: set<Name>, next: nat,
                      p: NamedOut, v: Value, st: Store)
    returns (st3: Store)
    requires OnlyBinders(vars, b.binders) && CompilableCases(cases, env.Keys, taken, b) && FirstKnown(cases, env.Keys)
    requires p == WriteArgs(cases, false, vars, next + 1) && Represents(b, st.locals, env)
    ensures Exec(fuel, b.W(), st.(locals := st.locals[Temp(next) := v]), p.code) == Some(st3)
    ensures CtorsSet(b, env, cases, p.names, next + 1, p.count, st.(locals := st.locals[Temp(next) := v]), st3)
  {
    HeadSet(b, st, env, next, v);
    st3 := ArgsCorrect(b, fuel, cases, false, env, taken, vars, next + 1, st.(locals := st.locals[Temp(next) := v]));
  }

  lemma HeadThen(w: World, fuel: nat, st: Store, code: seq<Stmt>, st1: Store, h: Name, y: Name, code': seq<Stmt>,
                 st3: Store)
    requires Exec(fuel, w, st, code) == Some(st1) && Find(st1.locals, y).Some?
    requires Exec(fuel, w, st1.(locals := st1.locals[h := InnerHead(st1.locals[y])]), code') == Some(st3)
    ensures Exec(fuel, w, st, code + [GetHead(h, y)] + code') == Some(st3)
  {
    var st2 := st1.(locals := st1.locals[h := InnerHead(st1.locals[y])]);
    RunThen(fuel, w, st, code, st1, GetHead(h, y), st2);
    RunBoth(fuel, w, st, code + [GetHead(h, y)], st2, code', st3);
  }

  lemma PrologueReady(b: Batch, st: Store, st1: Store, st3: Store, env: Env, taken: set<Sym>, count: nat, next: nat,
                      count': nat, cases: seq<Case>, ctors: seq<Name>, y: Name, ret: Name)
    requires count <= next < count' && Target(ret, In(b, env), taken, count)
    requires NewName(y, In(b, env), count, next) && Find(st1.locals, y).Some? && Flat(st1.locals[y])
    requires Kept(st.locals, st1.locals, In(b, env), count, {}) && Represents(b, st1.locals, env)
    requires CtorsSet(b, env, cases, ctors, next + 1, count',
                      st1.(locals := st1.locals[Temp(next) := InnerHead(st1.locals[y])]), st3)
    ensures Prepared(b, env, taken, count, next, count', cases, ctors, y, ret, st, st1, st3)
  {
    PrologueKept(b, st, st1, st3, env, count, next, y);
    HoldingMore(st3.locals, [y], ctors, In(b, env), count, next + 1, count');
  }

  lemma HeadSet(b: Batch, st: Store, env: Env, n: nat, v: Value)
    requires Represents(b, st.locals, env)
    ensures Kept(st.locals, st.locals[Temp(n) := v], In(b, env), n, {}) && Represents(b, st.locals[Temp(n) := v], env)
  {
    KeptRepresents(b, st.locals, st.locals[Temp(n) := v], env, n);
  }

  /** What is known after the head and the constructors are put in place. */
  lemma PrologueKept(b: Batch, st: Store, st1: Store, st3: Store, env: Env, count: nat, next: nat, y: Name)
    requires NewName(y, In(b, env), count, next) && count <= next && Find(st1.locals, y).Some?
    requires Kept(st.locals, st1.locals, In(b, env), count, {}) && Represents(b, st1.locals, env)
    requires Kept(st1.locals[Temp(next) := InnerHead(st1.locals[y])], st3.locals, In(b, env), next + 1, {})
    ensures Kept(st.locals, st3.locals, In(b, env), count, {}) && Represents(b, st3.locals, env)
    ensures Find(st3.locals, y) == Some(st1.locals[y]) && Find(st3.locals, Temp(next)) == Some(InnerHead(st1.locals[y]))
  {
    var h, l2 := Temp(next), st1.locals[Temp(next) := InnerHead(st1.locals[y])];
    assert Live(y, In(b, env), next + 1) && Live(h, In(b, env), next + 1) && y != h;
    HeadSet(b, st1, env, next, InnerHead(st1.locals[y]));
    KeptTrans(st.locals, st1.locals, l2, In(b, env), count, next, {});
    KeptTrans(st.locals, l2, st3.locals, In(b, env), count, next + 1, {});
    KeptRepresents(b, l2, st3.locals, env, next + 1);
  }

  /** The names of the constructors that cases are compared with hold them. */
  predicate HoldCtors(locals: Locals, cases: seq<Case>, ctors: seq<Name>, lo: nat, hi: nat) {
    forall i :: 0 <= i < |cases| && cases[i].Arm? ==> i < |ctors| && HoldsCtor(locals, cases[i].ctor, ctors[i], lo, hi)
  }

  predicate HoldsCtor(locals: Locals, c: Sym, q: Name, lo: nat, hi: nat) {
    Find(locals, q) == Some(Symbol(c)) && q.Temp? && lo <= q.n < hi
  }

  /** From st to st', the constructors of cases were put in names. */
  ghost predicate CtorsSet(b: Batch, env: Env, cases: seq<Case>, names: seq<Name>, lo: nat, hi: nat, st: Store,
                           st': Store)
  {
    && st'.marks == st.marks && Kept(st.locals, st'.locals, In(b, env), lo, {})
    && HoldCtors(st'.locals, cases, names, lo, hi) && Holding(st'.locals, names, In(b, env), lo, hi)
  }

  lemma {:induction false} ArgsCorrect(b: Batch, fuel: nat, cases: seq<Case>, met: bool, env: Env,
                                       taken: set<Sym>, vars: set<Name>, count: nat, st: Store)
    returns (st': Store)
    requires OnlyBinders(vars, b.binders) && CompilableCases(cases, env.Keys, taken, b)
    requires Represents(b, st.locals, env) && (!met ==> FirstKnown(cases, env.Keys))
    ensures var o := WriteArgs(cases, met, vars, count);
            Exec(fuel, b.W(), st, o.code) == Some(st') && CtorsSet(b, env, cases, o.names, count, o.count, st, st')
    decreases cases
  {
    if cases == [] || cases[0].Default? {
      st' := st;
      assert cases != [] ==> cases[1..] == [];
    } else {
      var t := Temp(count);
      var a := WriteCtor(cases[0].ctor, vars, count);
      var c := WriteArgs(cases[1..], true, a.vars, a.count);
      Constantly(b, cases[0].ctor, vars);
      var st1 := ConstantSet(fuel, b.W(), st, t, cases[0].ctor);
      assert Kept(st.locals, st1.locals, In(b, env), count, {});
      KeptRepresents(b, st.locals, st1.locals, env, count);
      st' := ArgsCorrect(b, fuel, cases[1..], true, env, taken, a.vars, a.count, st1);
      ExecCat(fuel, b.W(), st, a.code, c.code);
      KeptTrans(st.locals, st1.locals, st'.locals, In(b, env), count, a.count, {});
      assert Live(t, In(b, env), a.count);
      HoldFirst(st'.locals, cases, t, c.names, count, c.count);
      HoldingMore(st'.locals, [t], c.names, In(b, env), count, a.count, c.count);
    }
  }

  lemma HoldFirst(locals: Locals, cases: seq<Case>, q: Name, names: seq<Name>, lo: nat, hi: nat)
    requires cases != [] && cases[0].Arm? && HoldsCtor(locals, cases[0].ctor, q, lo, hi)
    requires HoldCtors(locals, cases[1..], names, lo + 1, hi)
    ensures HoldCtors(locals, cases, [q] + names, lo, hi)
  {
    forall i | 0 < i < |cases| && cases[i].Arm?
      ensures i < |[q] + names| && HoldsCtor(locals, cases[i].ctor, ([q] + names)[i], lo, hi)
    {
      assert cases[1..][i - 1] == cases[i];
    }
  }

  /** The scrutinee v is in y and its head in h, and the constructors are in place. */
  ghost predicate CasesReady(b: Batch, st: Store, env: Env, taken: set<Sym>, count: nat, cases: seq<Case>,
                             ctors: seq<Name>, y: Name, h: Name, ret: Name, v: Value) {
    && Represents(b, st.locals, env) && Target(ret, In(b, env), taken, count) && Flat(v)
    && Find(st.locals, y) == Some(v) && Find(st.locals, h) == Some(InnerHead(v))
    && Live(y, In(b, env), count) && HoldCtors(st.locals, cases, ctors, 0, count)
  }

  /** Cases that can be run, after the scrutinee v. */
  ghost predicate CasesRun(b: Batch, fuel: nat, env: Env, taken: set<Sym>, vars: set<Name>, count: nat,
                           cases: seq<Case>, ctors: seq<Name>, y: Name, h: Name, ret: Name, v: Value, st: Store)
  {
    && b.Ready(env, taken, vars) && CompilableCases(cases, env.Keys, taken, b)
    && CasesReady(b, st, env, taken, count, cases, ctors, y, h, ret, v)
    && EvalCases(fuel, b.W(), env, cases, Head(map[], v), Arguments(v), st.marks).out.Val?
  }

  ghost predicate CasesCompute(b: Batch, fuel: nat, env: Env, vars: set<Name>, count: nat, cases: seq<Case>,
                               ctors: seq<Name>, y: Name, h: Name, ret: Name, v: Value, st: Store)
  {
    var r := EvalCases(fuel, b.W(), env, cases, Head(map[], v), Arguments(v), st.marks);
    var o := WriteCases(cases, ctors, y, h, ret, vars, count);
    && r.out.Val?
    && Yields(Exec(fuel, b.W(), st, o.code), st, In(b, env), count, {ret}, ret, r.out.v, r.marks)
  }

  lemma {:induction false} CasesCorrect(b: Batch, fuel: nat, env: Env, taken: set<Sym>, vars: set<Name>, count: nat,
                                        cases: seq<Case>, ctors: seq<Name>,
                                        y: Name, h: Name, ret: Name, v: Value, st: Store)
    requires CasesRun(b, fuel, env, taken, vars, count, cases, ctors, y, h, ret, v, st)
    ensures CasesCompute(b, fuel, env, vars, count, cases, ctors, y, h, ret, v, st)
    decreases fuel, 2, cases, 1
  {
    if cases[0].Default? {
      DefaultCorrect(b, fuel, env, taken, vars, count, cases, ctors, y, h, ret, v, st);
    } else if Head(map[], v) == Symbol(cases[0].ctor) {
      ArmCorrect(b, fuel, env, taken, vars, count, cases[0], y, ret, v, st);
      ArmExec(b.W(), fuel, st, cases, ctors, y, h, ret, vars, count, v);
    } else {
      OtherCases(b, fuel, env, taken, vars, count, cases, ctors, y, h, ret, v, st);
    }
  }

  lemma {:induction false} DefaultCorrect(b: Batch, fuel: nat, env: Env, taken: set<Sym>, vars: set<Name>, count: nat,
                                          cases: seq<Case>, ctors: seq<Name>,
                                          y: Name, h: Name, ret: Name, v: Value, st: Store)
    requires CasesRun(b, fuel, env, taken, vars, count, cases, ctors, y, h, ret, v, st)
    requires cases != [] && cases[0].Default?
    ensures CasesCompute(b, fuel, env, vars, count, cases, ctors, y, h, ret, v, st)
    decreases fuel, 2, cases, 0
  {
    var body := cases[0].body;
    assert body < cases[0];
    BlockCorrect(b, fuel, env, taken, vars, count, body, ret, st);
    DefaultExec(b.W(), fuel, st, cases, ctors, y, h, ret, vars, count);
  }

  lemma DefaultExec(w: World, fuel: nat, st: Store, cases: seq<Case>, ctors: seq<Name>, y: Name, h: Name, ret: Name,
                    vars: set<Name>, count: nat)
    requires |cases| == 1 && cases[0].Default?
    ensures Exec(fuel, w, st, WriteCases(cases, ctors, y, h, ret, vars, count).code) ==
            ExecBlock(fuel, w, st, WriteCode(cases[0].body, ret, vars, count).code)
  {
    var code := WriteCode(cases[0].body, ret, vars, count).code;
    ExecOne(fuel, w, st, Block(code));
    assert [Block(code)] + [] == [Block(code)];
  }

  /** The first pattern does not match. */
  lemma {:induction false} OtherCases(b: Batch, fuel: nat, env: Env, taken: set<Sym>, vars: set<Name>, count: nat,
                                      cases: seq<Case>, ctors: seq<Name>,
                                      y: Name, h: Name, ret: Name, v: Value, st: Store)
    requires CasesRun(b, fuel, env, taken, vars, count, cases, ctors, y, h, ret, v, st)
    requires cases != [] && cases[0].Arm? && Head(map[], v) != Symbol(cases[0].ctor)
    ensures CasesCompute(b, fuel, env, vars, count, cases, ctors, y, h, ret, v, st)
    decreases fuel, 2, cases, 0
  {
    var c := cases[0];
    var a := WriteCode(c.body, ret, vars + Keys(c.vars), count);
    OnlyMoreBinders(vars, c.vars, b.binders);
    CodeVars(c.body, env.Keys + Elements(c.vars), taken + Elements(c.vars), b, ret, vars + Keys(c.vars), count);
    CasesLeft(b, st, env, taken, count, a.count, cases, ctors, y, h, ret, v);
    CasesCorrect(b, fuel, env, taken, a.vars, a.count, cases[1..], ctors[1..], y, h, ret, v, st);
    ArmExec(b.W(), fuel, st, cases, ctors, y, h, ret, vars, count, v);
    var code := WriteCases(cases[1..], ctors[1..], y, h, ret, a.vars, a.count).code;
    KeptLess(st.locals, Exec(fuel, b.W(), st, code).value.locals, In(b, env), count, a.count, {ret});
  }

  lemma KeptLess(l: Locals, l': Locals, scope: Scope, count: nat, count': nat, except: set<Name>)
    requires count <= count' && Kept(l, l', scope, count', except)
    ensures Kept(l, l', scope, count, except)
  {
    KeptTrans(l, l, l', scope, count, count', except);
  }

  lemma CasesLeft(b: Batch, st: Store, env: Env, taken: set<Sym>, count: nat, count': nat, cases: seq<Case>,
                  ctors: seq<Name>, y: Name, h: Name, ret: Name, v: Value)
    requires cases != [] && ctors != [] && count <= count'
    requires CasesReady(b, st, env, taken, count, cases, ctors, y, h, ret, v)
    ensures CasesReady(b, st, env, taken, count', cases[1..], ctors[1..], y, h, ret, v)
  {
  }

  /** The test for the first pattern selects its case or the remaining ones. */
  lemma ArmExec(w: World, fuel: nat, st: Store, cases: seq<Case>, ctors: seq<Name>, y: Name, h: Name, ret: Name,
                vars: set<Name>, count: nat, v: Value)
    requires cases != [] && cases[0].Arm? && ctors != [] && Flat(v)
    requires Find(st.locals, h) == Some(InnerHead(v)) && Find(st.locals, ctors[0]) == Some(Symbol(cases[0].ctor))
    ensures var c := cases[0];
            var a := WriteCode(c.body, ret, vars + Keys(c.vars), count);
            Exec(fuel, w, st, WriteCases(cases, ctors, y, h, ret, vars, count).code) ==
            if Head(map[], v) == Symbol(c.ctor) then ExecBlock(fuel, w, st, WriteKids(c.vars, y, |c.vars|) + a.code)
            else Exec(fuel, w, st, WriteCases(cases[1..], ctors[1..], y, h, ret, a.vars, a.count).code)
  {
    var c := cases[0];
    var a := WriteCode(c.body, ret, vars + Keys(c.vars), count);
    var rest := WriteCases(cases[1..], ctors[1..], y, h, ret, a.vars, a.count).code;
    ExecOne(fuel, w, st, IfSame(h, ctors[0], WriteKids(c.vars, y, |c.vars|) + a.code, rest));
    CasesBlock(fuel, w, st, cases[1..], ctors[1..], y, h, ret, a.vars, a.count);
  }

  /** The chain of comparisons declares nothing in its own block. */
  lemma CasesBlock(fuel: nat, w: World, st: Store, cases: seq<Case>, ctors: seq<Name>, y: Name, h: Name, ret: Name,
                   vars: set<Name>, count: nat)
    ensures var code := WriteCases(cases, ctors, y, h, ret, vars, count).code;
            ExecBlock(fuel, w, st, code) == Exec(fuel, w, st, code)
  {
    var code := WriteCases(cases, ctors, y, h, ret, vars, count).code;
    CasesDeclareNothing(cases, ctors, y, h, ret, vars, count);
    var r := Exec(fuel, w, st, code);
    if r.Some? { LeaveNone(st.locals, r.value.locals); }
  }

  lemma OnlyMoreBinders(vars: set<Name>, xs: seq<Sym>, binders: set<Sym>)
    requires OnlyBinders(vars, binders) && Elements(xs) <= binders
    ensures OnlyBinders(vars + Keys(xs), binders)
  {
    assert forall x :: x in xs ==> x in Elements(xs);
  }

  /** The case that matches: pattern variables are set, and the body is run. */
  lemma {:induction false} ArmCorrect(b: Batch, fuel: nat, env: Env, taken: set<Sym>, vars: set<Name>, count: nat,
                                      c: Case,
                                      y: Name, ret: Name, v: Value, st: Store)
    requires b.Ready(env, taken, vars) && c.Arm? && CompilableCase(c, env.Keys, taken, b)
    requires Represents(b, st.locals, env) && Target(ret, In(b, env), taken, count) && Flat(v)
    requires Find(st.locals, y) == Some(v) && Live(y, In(b, env), count) && |c.vars| == |Arguments(v)|
    requires Eval(fuel, b.W(), Bind(env, c.vars, Arguments(v), |c.vars|), c.body, st.marks).out.Val?
    ensures var r := Eval(fuel, b.W(), Bind(env, c.vars, Arguments(v), |c.vars|), c.body, st.marks);
            var code := WriteCode(c.body, ret, vars + Keys(c.vars), count).code;
            Yields(ExecBlock(fuel, b.W(), st, WriteKids(c.vars, y, |c.vars|) + code), st, In(b, env), count, {ret}, ret,
                   r.out.v, r.marks)
    decreases fuel, 2, c, 0
  {
    var n := |c.vars|;
    var env' := Bind(env, c.vars, Arguments(v), n);
    PatternApart(b, env, taken, count, c.vars, y);
    var st1 := KidsExec(b, fuel, st, c.vars, y, v, n);
    PatternBound(b, st.locals, st1.locals, env, count, c.vars, Arguments(v));
    PatternReady(b, env, env', taken, vars, count, c.vars, ret);
    CodeCorrect(b, fuel, env', taken + Elements(c.vars), vars + Keys(c.vars), count, c.body, ret, st1);
    var code := WriteCode(c.body, ret, vars + Keys(c.vars), count).code;
    KidsThen(b, fuel, st, st1, env, env', count, WriteKids(c.vars, y, n), code, ret,
             Eval(fuel, b.W(), env', c.body, st.marks));
    ArmBlock(b, fuel, env, taken, vars, count, c, y, ret, st, Eval(fuel, b.W(), env', c.body, st.marks));
  }

  lemma PatternApart(b: Batch, env: Env, taken: set<Sym>, count: nat, xs: seq<Sym>, y: Name)
    requires Distinguished(b.binders) && env.Keys <= taken <= b.binders
    requires Elements(xs) <= b.binders && Elements(xs) !! taken && Live(y, In(b, env), count)
    ensures Names(Elements(xs)) !! Names(env.Keys) && y !in Names(Elements(xs))
  {
    NamesApart(Elements(xs), env.Keys, b.binders);
    NamesMore(Elements(xs), b.binders);
  }

  lemma PatternReady(b: Batch, env: Env, env': Env, taken: set<Sym>, vars: set<Name>, count: nat, xs: seq<Sym>,
                     ret: Name)
    requires b.Ready(env, taken, vars) && Target(ret, In(b, env), taken, count)
    requires Elements(xs) <= b.binders && Elements(xs) !! taken && env'.Keys == env.Keys + Elements(xs)
    requires forall x <- env' :: Flat(env'[x])
    ensures b.Ready(env', taken + Elements(xs), vars + Keys(xs))
    ensures Target(ret, In(b, env'), taken + Elements(xs), count)
  {
    OnlyMoreBinders(vars, xs, b.binders);
    assert forall x <- env' :: Key(x) in vars + Keys(xs);
    NamesApart(Elements(xs), taken, b.binders);
    NamesMore(taken, taken + Elements(xs));
  }

  lemma KidsThen(b: Batch, fuel: nat, st: Store, st1: Store, env: Env, env': Env, count: nat, kids: seq<Stmt>,
                 code: seq<Stmt>, ret: Name, r: Result<Value>)
    requires env.Keys <= env'.Keys && r.out.Val? && Exec(fuel, b.W(), st, kids) == Some(st1)
    requires Kept(st.locals, st1.locals, In(b, env), count, {})
    requires Yields(Exec(fuel, b.W(), st1, code), st1, In(b, env'), count, {ret}, ret, r.out.v, r.marks)
    ensures Yields(Exec(fuel, b.W(), st, kids + code), st, In(b, env), count, {ret}, ret, r.out.v, r.marks)
  {
    var st2 := Exec(fuel, b.W(), st1, code).value;
    RunBoth(fuel, b.W(), st, kids, st1, code, st2);
    KeptMore(st1.locals, st2.locals, In(b, env), In(b, env'), count, {ret});
    KeptTrans(st.locals, st1.locals, st2.locals, In(b, env), count, count, {ret});
  }

  /** What a case declares is not in use outside. */
  lemma ArmBlock(b: Batch, fuel: nat, env: Env, taken: set<Sym>, vars: set<Name>, count: nat, c: Case,
                 y: Name, ret: Name, st: Store, r: Result<Value>)
    requires b.Ready(env, taken, vars) && c.Arm? && CompilableCase(c, env.Keys, taken, b) && r.out.Val?
    requires Target(ret, In(b, env), taken, count)
    requires var code := WriteKids(c.vars, y, |c.vars|) + WriteCode(c.body, ret, vars + Keys(c.vars), count).code;
             Yields(Exec(fuel, b.W(), st, code), st, In(b, env), count, {ret}, ret, r.out.v, r.marks)
    ensures var code := WriteKids(c.vars, y, |c.vars|) + WriteCode(c.body, ret, vars + Keys(c.vars), count).code;
            Yields(ExecBlock(fuel, b.W(), st, code), st, In(b, env), count, {ret}, ret, r.out.v, r.marks)
  {
    var o := WriteCode(c.body, ret, vars + Keys(c.vars), count);
    var code := WriteKids(c.vars, y, |c.vars|) + o.code;
    ArmApart(b, env, taken, vars, count, c, y, ret, code);
    LeaveYields(fuel, b.W(), st, code, In(b, env), count, ret, r.out.v, r.marks);
  }

  lemma ArmApart(b: Batch, env: Env, taken: set<Sym>, vars: set<Name>, count: nat, c: Case, y: Name, ret: Name,
                 code: seq<Stmt>)
    requires Distinguished(b.binders) && env.Keys <= taken <= b.binders && Target(ret, In(b, env), taken, count)
    requires c.Arm? && CompilableCase(c, env.Keys, taken, b)
    requires code == WriteKids(c.vars, y, |c.vars|) + WriteCode(c.body, ret, vars + Keys(c.vars), count).code
    ensures ret !in Declared(code) && forall q <- Declared(code) :: !Live(q, In(b, env), count)
  {
    CompilableOnce(c.body, env.Keys + Elements(c.vars), taken + Elements(c.vars), b);
    NamesOf(c.vars);
    NamesDistinct(c.vars, b.binders);
    ArmDeclares(c, y, ret, vars, count);
    var xs := Elements(CalledAll(c.vars)) + Binds(c.body);
    assert xs <= Names(b.binders) - Names(taken) by {
      NamesApart(Elements(c.vars), taken, b.binders);
      NamesMore(Elements(c.vars), b.binders);
      NamesMore(taken, taken + Elements(c.vars));
    }
    NotInUse(b, env, taken, count, ret, code, xs, OnceDeclared(code),
             WriteCode(c.body, ret, vars + Keys(c.vars), count).count);
  }

  /** Locals in which the first n pattern variables are set. */
  function WithKids(l: Locals, xs: seq<Sym>, vs: seq<Value>, n: nat): Locals
    requires n <= |xs| && n <= |vs|
  {
    if n == 0 then l else WithKids(l, xs, vs, n - 1)[Called(xs[n - 1]) := vs[n - 1]]
  }

  lemma {:induction false} WithKidsFind(b: Batch, l: Locals, xs: seq<Sym>, vs: seq<Value>, n: nat, q: Name)
    requires n <= |xs| && n <= |vs| && Distinguished(b.binders) && Elements(xs) <= b.binders
    ensures q !in Names(Elements(xs)) ==> Find(WithKids(l, xs, vs, n), q) == Find(l, q)
    ensures Distinct(xs) ==>
              forall i :: 0 <= i < n && Called(xs[i]) == q ==> Find(WithKids(l, xs, vs, n), q) == Some(vs[i])
    ensures q in WithKids(l, xs, vs, n) ==> q in l || q in Names(Elements(xs))
  {
    if n > 0 {
      WithKidsFind(b, l, xs, vs, n - 1, q);
      assert forall i :: 0 <= i < n ==> xs[i] in Elements(xs) && Unlike(xs[n - 1], xs[i]);
    }
  }

  lemma {:induction false} KidsExec(b: Batch, fuel: nat, st: Store, xs: seq<Sym>, y: Name, v: Value, n: nat)
    returns (st': Store)
    requires n <= |xs| == |Arguments(v)| && Find(st.locals, y) == Some(v) && y !in Names(Elements(xs))
    requires Distinguished(b.binders) && Elements(xs) <= b.binders
    ensures st' == st.(locals := WithKids(st.locals, xs, Arguments(v), n))
    ensures Exec(fuel, b.W(), st, WriteKids(xs, y, n)) == Some(st')
  {
    st' := st.(locals := WithKids(st.locals, xs, Arguments(v), n));
    if n > 0 {
      var st1 := KidsExec(b, fuel, st, xs, y, v, n - 1);
      WithKidsFind(b, st.locals, xs, Arguments(v), n - 1, y);
      RunThen(fuel, b.W(), st, WriteKids(xs, y, n - 1), st1, GetKid(Called(xs[n - 1]), y, n - 1), st');
    }
  }

  lemma PatternBound(b: Batch, l: Locals, l': Locals, env: Env, count: nat, xs: seq<Sym>, vs: seq<Value>)
    requires |xs| == |vs| && l' == WithKids(l, xs, vs, |xs|) && Distinct(xs)
    requires Elements(xs) <= b.binders && Names(Elements(xs)) !! Names(env.Keys)
    requires Represents(b, l, env) && AllFlat(vs) && forall x <- env :: Flat(env[x])
    ensures var env' := Bind(env, xs, vs, |xs|);
            && env'.Keys == env.Keys + Elements(xs) && Represents(b, l', env') && Kept(l, l', In(b, env), count, {})
            && forall x <- env' :: Flat(env'[x])
  {
    forall x: Sym
      ensures x in Bind(env, xs, vs, |xs|) <==> x in env || x in xs
    {
      PatternVariable(b, l, env, xs, vs, x);
    }
    forall x | x in Bind(env, xs, vs, |xs|)
      ensures Find(l', Called(x)) == Some(Bind(env, xs, vs, |xs|)[x]) && Flat(Bind(env, xs, vs, |xs|)[x])
    {
      PatternVariable(b, l, env, xs, vs, x);
    }
    forall q: Name
      ensures Live(q, In(b, env), count) ==> Find(l', q) == Find(l, q)
      ensures q in l' ==> q in l || q in Names(b.binders)
    {
      WithKidsFind(b, l, xs, vs, |xs|, q);
    }
  }

  lemma PatternVariable(b: Batch, l: Locals, env: Env, xs: seq<Sym>, vs: seq<Value>, x: Sym)
    requires |xs| == |vs| && Distinct(xs) && Elements(xs) <= b.binders && Names(Elements(xs)) !! Names(env.Keys)
    requires Represents(b, l, env) && AllFlat(vs) && forall x <- env :: Flat(env[x])
    ensures var env', l' := Bind(env, xs, vs, |xs|), WithKids(l, xs, vs, |xs|);
            && (x in env' <==> x in env || x in xs)
            && (x in env' ==> Find(l', Called(x)) == Some(env'[x]) && Flat(env'[x]))
  {
    assert xs[..|xs|] == xs;
    BindGet(env, xs, vs, |xs|, x);
    WithKidsFind(b, l, xs, vs, |xs|, Called(x));
    if x in xs {
      var i :| 0 <= i < |xs| && xs[i] == x;
      assert Get(Bind(env, xs, vs, |xs|), x) == Some(vs[i]);
    } else if x in env {
      assert Called(x) in Names(env.Keys);
    }
  }
}
