/** Failure in compiled code.  FAIL stores a null pointer, and a function whose result is null
    returns it.  Where code comes to use a null pointer it stops; so the compiled function
    returns a value exactly if the interpreter does, as long as no application is built around
    a null pointer. */
module Failures {
  import opened Marks
  import opened Options
  import opened Collections
  import opened Slots
  import opened SideCode
  import opened Identifiers
  import opened Compiler
  import opened Conditions
  import opened CompilerProof
  import opened Frames
  import Typing
  import Divisions

  /** There is no value, for a reason that typing does not rule out: FAIL was evaluated, no
      case matched, a term was marked or compared that is not a symbol, a division is by zero,
      or evaluation does not end. */
  predicate Stops(o: Outcome<Value>) {
    match o
    case Val(_) => false
    case Failed(why) => why.Explicit? || why.NoCase? || why.NotASymbol?
    case Undefined(what) => what.DivisionByZero?
    case OutOfFuel => true
  }

  /** The code may end with FAIL, or with a call of a program that may. */
  predicate EndsInFail(e: Code, fails: set<Sym>) {
    match e
    case FailOf(_) => true
    case Call(prog, _) => prog in fails
    case Do(_, second) => EndsInFail(second, fails)
    case Let(_, _, body) => EndsInFail(body, fails)
    case IfSign(_, _, thn, els) => EndsInFail(thn, fails) || EndsInFail(els, fails)
    case IfMarked(_, _, thn, els) => EndsInFail(thn, fails) || EndsInFail(els, fails)
    case Compare(_, _, thn, els) => EndsInFail(thn, fails) || EndsInFail(els, fails)
    case Match(_, cases) => exists i :: 0 <= i < |cases| && EndsInFail(cases[i].body, fails)
    case _ => false
  }

  /** No operand and no argument of an application fails: an application would be built around a
      null pointer. */
  predicate WellPlaced(e: Code, fails: set<Sym>) {
    match e
    case Apply(_, args) => forall i :: 0 <= i < |args| ==> WellPlaced(args[i], fails) && !EndsInFail(args[i], fails)
    case Call(_, args) => forall i :: 0 <= i < |args| ==> WellPlaced(args[i], fails)
    case Do(first, second) => WellPlaced(first, fails) && WellPlaced(second, fails)
    case Let(_, bound, body) => WellPlaced(bound, fails) && WellPlaced(body, fails)
    case Arith(_, left, right) =>
      WellPlaced(left, fails) && !EndsInFail(left, fails) && WellPlaced(right, fails) && !EndsInFail(right, fails)
    case Negate(arg) => WellPlaced(arg, fails) && !EndsInFail(arg, fails)
    case IfSign(_, arg, thn, els) => WellPlaced(arg, fails) && WellPlaced(thn, fails) && WellPlaced(els, fails)
    case IfMarked(_, _, thn, els) => WellPlaced(thn, fails) && WellPlaced(els, fails)
    case Compare(_, _, thn, els) => WellPlaced(thn, fails) && WellPlaced(els, fails)
    case Match(scrut, cases) =>
      WellPlaced(scrut, fails) && forall i :: 0 <= i < |cases| ==> WellPlaced(cases[i].body, fails)
    case _ => true
  }

  predicate PlacedIn(b: Batch, fails: set<Sym>, p: Sym) {
    && p in b.progs && WellPlaced(b.progs[p].body, fails)
    && (EndsInFail(b.progs[p].body, fails) ==> p in fails)
  }

  /** The programs are well placed, and fails holds those that may end with FAIL. */
  predicate AllPlaced(b: Batch, fails: set<Sym>) {
    forall p {:trigger PlacedIn(b, fails, p)} :: p in b.progs ==> PlacedIn(b, fails, p)
  }

  /** The run r stops, or it ends with q unset, where it may. */
  predicate Lost(r: Option<Store>, q: Name, may: bool) {
    r.None? || (may && q !in r.value.locals)
  }

  /** Code that can be run and stops. */
  ghost predicate Halts(b: Batch, fails: set<Sym>, fuel: nat, env: Env, taken: set<Sym>, vars: set<Name>, e: Code,
                        st: Store)
  {
    && b.Ready(env, taken, vars) && Compilable(e, env.Keys, taken, b) && WellPlaced(e, fails) && AllPlaced(b, fails)
    && Represents(b, st.locals, env) && Stops(Eval(fuel, b.W(), env, e, st.marks).out)
  }

  ghost predicate Fails(b: Batch, fails: set<Sym>, fuel: nat, env: Env, taken: set<Sym>, vars: set<Name>, count: nat,
                        e: Code, ret: Name, st: Store)
  {
    Halts(b, fails, fuel, env, taken, vars, e, st) && Target(ret, In(b, env), taken, count)
  }

  ghost predicate Loses(b: Batch, fails: set<Sym>, fuel: nat, vars: set<Name>, count: nat, e: Code, ret: Name,
                        st: Store)
  {
    Lost(Exec(fuel, b.W(), st, WriteCode(e, ret, vars, count).code), ret, EndsInFail(e, fails))
  }

  // ----- runs that stop -----

  lemma NoneThen(fuel: nat, w: World, st: Store, code: seq<Stmt>, code': seq<Stmt>)
    requires Exec(fuel, w, st, code).None?
    ensures Exec(fuel, w, st, code + code').None?
  {
    ExecCat(fuel, w, st, code, code');
  }

  /** A statement that stops after code that need not. */
  lemma StopThen(fuel: nat, w: World, st: Store, code: seq<Stmt>, s: Stmt, code': seq<Stmt>)
    requires var r := Exec(fuel, w, st, code); r.Some? ==> ExecStmt(fuel, w, r.value, s).None?
    ensures Exec(fuel, w, st, code + [s]).None? && Exec(fuel, w, st, code + [s] + code').None?
  {
    ExecCat(fuel, w, st, code, [s]);
    var r := Exec(fuel, w, st, code);
    if r.Some? { ExecOne(fuel, w, r.value, s); }
    NoneThen(fuel, w, st, code + [s], code');
  }

  lemma LostAfter(fuel: nat, w: World, st: Store, code: seq<Stmt>, st1: Store, code': seq<Stmt>, ret: Name, may: bool)
    requires Exec(fuel, w, st, code) == Some(st1) && Lost(Exec(fuel, w, st1, code'), ret, may)
    ensures Lost(Exec(fuel, w, st, code + code'), ret, may)
  {
    ExecCat(fuel, w, st, code, code');
  }

  // ----- code -----

  /** Where evaluation stops, so do the statements written, or they end with ret unset. */
  lemma {:induction false} CodeFails(b: Batch, fails: set<Sym>, fuel: nat, env: Env, taken: set<Sym>, vars: set<Name>,
                                     count: nat, e: Code, ret: Name, st: Store)
    requires Fails(b, fails, fuel, env, taken, vars, count, e, ret, st)
    ensures Loses(b, fails, fuel, vars, count, e, ret, st)
    decreases fuel, 2, e, 2
  {
    match e
    case IntLit(_) =>
    case RatLit(_, _) =>
    case Var(_) =>
    case Apply(_, _) => ApplyFails(b, fails, fuel, env, taken, vars, count, e, ret, st);
    case Call(_, _) => CallFails(b, fails, fuel, env, taken, vars, count, e, ret, st);
    case Do(_, _) => DoFails(b, fails, fuel, env, taken, vars, count, e, ret, st);
    case Let(_, _, _) => LetFails(b, fails, fuel, env, taken, vars, count, e, ret, st);
    case Arith(_, _, _) => ArithFails(b, fails, fuel, env, taken, vars, count, e, ret, st);
    case Negate(_) => NegateFails(b, fails, fuel, env, taken, vars, count, e, ret, st);
    case IfSign(_, _, _, _) => IfSignFails(b, fails, fuel, env, taken, vars, count, e, ret, st);
    case FailOf(_) => ExecOne(fuel, b.W(), st, Null(ret));
    case MarkVar(_, _) => MarkVarFails(b, fails, fuel, env, taken, vars, count, e, ret, st);
    case IfMarked(_, _, _, _) => IfMarkedFails(b, fails, fuel, env, taken, vars, count, e, ret, st);
    case Compare(_, _, _, _) => CompareFails(b, fails, fuel, env, taken, vars, count, e, ret, st);
    case Match(_, _) => MatchFails(b, fails, fuel, env, taken, vars, count, e, ret, st);
  }

  /** What is marked is not a symbol. */
  lemma MarkVarFails(b: Batch, fails: set<Sym>, fuel: nat, env: Env, taken: set<Sym>, vars: set<Name>, count: nat,
                     e: Code, ret: Name, st: Store)
    requires e.MarkVar? && Fails(b, fails, fuel, env, taken, vars, count, e, ret, st)
    ensures Loses(b, fails, fuel, vars, count, e, ret, st)
  {
    var y := Called(e.arg.s);
    var s := IfMark(y, e.i, [ClearMark(y, e.i)], [SetMark(y, e.i)]);
    assert Eval(fuel, b.W(), env, e.arg, st.marks) == Result(Val(env[e.arg.s]), st.marks);
    KnownSymbol(e.arg.s, vars, count);
    assert WriteCode(e, ret, vars, count).code == [s] + [Copy(ret, y)];
    StopThen(fuel, b.W(), st, [], s, [Copy(ret, y)]);
    assert [] + [s] == [s];
  }

  lemma {:induction false} ExprFails(b: Batch, fails: set<Sym>, fuel: nat, env: Env, taken: set<Sym>, vars: set<Name>,
                                     count: nat, e: Code, st: Store)
    requires Halts(b, fails, fuel, env, taken, vars, e, st)
    ensures var o := WriteExpr(e, vars, count); Lost(Exec(fuel, b.W(), st, o.code), o.names[0], EndsInFail(e, fails))
    decreases fuel, 2, e, 3
  {
    assert !e.Var?;
    var t := Temp(count);
    var st1 := st.(locals := st.locals - {t});
    CodeFails(b, fails, fuel, env, taken, vars, count + 1, e, t, st1);
    ExecOne(fuel, b.W(), st, Declare(t));
    LostAfter(fuel, b.W(), st, [Declare(t)], st1, WriteCode(e, t, vars, count + 1).code, t, EndsInFail(e, fails));
  }

  /** Arguments of which one stops: the run stops, or leaves a name unset. */
  lemma {:induction false} ExprsFail(b: Batch, fails: set<Sym>, fuel: nat, env: Env, taken: set<Sym>, vars: set<Name>,
                                     count: nat, es: seq<Code>, done: seq<Value>, st: Store)
    requires b.Ready(env, taken, vars) && AllPlaced(b, fails) && Represents(b, st.locals, env)
    requires forall i :: 0 <= i < |es| ==> Compilable(es[i], env.Keys, taken, b) && WellPlaced(es[i], fails)
    requires var r := EvalArgs(fuel, b.W(), env, es, done, st.marks); !r.out.Val? && Stops(Stop(r.out))
    ensures ArgsLost(Exec(fuel, b.W(), st, WriteExprs(es, vars, count).code), WriteExprs(es, vars, count).names,
                     SomeFails(es, fails))
    decreases fuel, 2, es, 0
  {
    var a := WriteExpr(es[0], vars, count);
    var c := WriteExprs(es[1..], a.vars, a.count);
    if Eval(fuel, b.W(), env, es[0], st.marks).out.Val? {
      var st1 := ExprCorrect(b, fuel, env, taken, vars, count, es[0], st);
      var v := Eval(fuel, b.W(), env, es[0], st.marks).out.v;
      ExprsFail(b, fails, fuel, env, taken, a.vars, a.count, es[1..], done + [v], st1);
      ExecCat(fuel, b.W(), st, a.code, c.code);
      if SomeFails(es[1..], fails) { SomeFailsLater(es, fails); }
      assert (a.names + c.names)[1..] == c.names;
    } else {
      assert !es[0].Var?;
      ExprFails(b, fails, fuel, env, taken, vars, count, es[0], st);
      LaterKeep(b, env, taken, es[1..], a.vars, count, a.count);
      FirstLost(fuel, b.W(), st, a, c, EndsInFail(es[0], fails));
    }
  }

  predicate SomeFails(es: seq<Code>, fails: set<Sym>) {
    exists i :: 0 <= i < |es| && EndsInFail(es[i], fails)
  }

  lemma SomeFailsLater(es: seq<Code>, fails: set<Sym>)
    requires es != [] && SomeFails(es[1..], fails)
    ensures SomeFails(es, fails)
  {
    var i :| 0 <= i < |es[1..]| && EndsInFail(es[1..][i], fails);
    assert es[i + 1] == es[1..][i];
  }

  /** The run r stops, or it ends with one of the names unset, where it may. */
  predicate ArgsLost(r: Option<Store>, names: seq<Name>, may: bool) {
    r.None? || (may && Values(r.value.locals, names).None?)
  }

  /** Later arguments do not set the temporary of an earlier one. */
  lemma LaterKeep(b: Batch, env: Env, taken: set<Sym>, es: seq<Code>, vars: set<Name>, n: nat, count: nat)
    requires Distinguished(b.binders) && taken <= b.binders && n < count
    requires forall i :: 0 <= i < |es| ==> Compilable(es[i], env.Keys, taken, b)
    ensures Temp(n) !in Sets(WriteExprs(es, vars, count).code)
  {
    AllFresh(es, env.Keys, taken, b);
    ExprsSet(es, Temp(count), vars, count);
  }

  lemma FirstLost(fuel: nat, w: World, st: Store, a: NamedOut, c: NamedOut, may: bool)
    requires |a.names| == 1 && Lost(Exec(fuel, w, st, a.code), a.names[0], may) && a.names[0] !in Sets(c.code)
    ensures ArgsLost(Exec(fuel, w, st, a.code + c.code), a.names + c.names, may)
  {
    ExecCat(fuel, w, st, a.code, c.code);
    var r := Exec(fuel, w, st, a.code);
    if r.Some? { Keeps(fuel, w, r.value, c.code, a.names[0]); }
  }

  lemma {:induction false} ApplyFails(b: Batch, fails: set<Sym>, fuel: nat, env: Env, taken: set<Sym>,
                                      vars: set<Name>, count: nat, e: Code, ret: Name, st: Store)
    requires e.Apply? && Fails(b, fails, fuel, env, taken, vars, count, e, ret, st)
    ensures Loses(b, fails, fuel, vars, count, e, ret, st)
    decreases fuel, 2, e, 0
  {
    ExprsFail(b, fails, fuel, env, taken, vars, count, e.args, [], st);
    var a := WriteExprs(e.args, vars, count);
    var h := WriteSymbol(e.head, a.vars, a.count);
    NoneThen(fuel, b.W(), st, a.code, h.code);
    NoneThen(fuel, b.W(), st, a.code + h.code, [NewApp(ret, h.names[0], a.names)]);
  }

  lemma {:induction false} CallFails(b: Batch, fails: set<Sym>, fuel: nat, env: Env, taken: set<Sym>, vars: set<Name>,
                                     count: nat, e: Code, ret: Name, st: Store)
    requires e.Call? && Fails(b, fails, fuel, env, taken, vars, count, e, ret, st)
    ensures Loses(b, fails, fuel, vars, count, e, ret, st)
    decreases fuel, 2, e, 0
  {
    var a := WriteExprs(e.args, vars, count);
    var r := EvalArgs(fuel, b.W(), env, e.args, [], st.marks);
    if r.out.Val? {
      var st1, vs := ExprsCorrect(b, fuel, env, taken, vars, count, e.args, [], st);
      assert [] + vs == vs;
      FunctionFails(b, fails, fuel, e.prog, vs, st1.marks);
      CallLost(b.W(), fuel, st, a, st1, vs, e.prog, ret, e.prog in fails);
    } else {
      ExprsFail(b, fails, fuel, env, taken, vars, count, e.args, [], st);
      StopThen(fuel, b.W(), st, a.code, CallFn(ret, e.prog, a.names), []);
    }
  }

  lemma CallLost(w: World, fuel: nat, st: Store, a: NamedOut, st1: Store, vs: seq<Value>, f: Sym, ret: Name,
                 may: bool)
    requires Exec(fuel, w, st, a.code) == Some(st1) && Values(st1.locals, a.names) == Some(vs)
    requires NoValue(ExecCall(fuel, w, f, vs, st1.marks), may)
    ensures Lost(Exec(fuel, w, st, a.code + [CallFn(ret, f, a.names)]), ret, may)
  {
    ExecOne(fuel, w, st1, CallFn(ret, f, a.names));
    LostAfter(fuel, w, st, a.code, st1, [CallFn(ret, f, a.names)], ret, may);
  }

  /** A call stops, or returns a null pointer, where it may. */
  predicate NoValue(r: Option<Return>, may: bool) {
    r.None? || (may && r.value.v.None?)
  }

  predicate CallStops(b: Batch, fuel: nat, prog: Sym, vals: seq<Value>, marks: MarkSet) {
    Stops(EvalCall(fuel, b.W(), prog, vals, marks).out)
  }

  /** Where a call of a program stops, the compiled function returns no value. */
  lemma {:induction false} FunctionFails(b: Batch, fails: set<Sym>, fuel: nat, prog: Sym, vals: seq<Value>,
                                         marks: MarkSet)
    requires b.Valid() && AllPlaced(b, fails) && prog in b.progs && AllFlat(vals) && |vals| == |b.progs[prog].params|
    requires CallStops(b, fuel, prog, vals, marks)
    ensures NoValue(ExecCall(fuel, b.W(), prog, vals, marks), prog in fails)
    decreases fuel, 0
  {
    if fuel > 0 {
      var env := BodyReady(b, fails, fuel, prog, vals, marks);
      BodyFails(b, fails, fuel - 1, b.progs[prog], env, vals, marks);
      assert PlacedIn(b, fails, prog);
      FunctionLost(b.W(), fuel, prog, vals, marks, EndsInFail(b.progs[prog].body, fails));
    }
  }

  /** The statements for the body of a program stop, or leave its result unset. */
  predicate BodyLost(fuel: nat, w: World, p: Program, vals: seq<Value>, marks: MarkSet, may: bool) {
    && |vals| == |p.params|
    && var o := WriteExpr(p.body, Keys(p.params), 0);
       Lost(Exec(fuel, w, Store(BindLocals(p.params, vals, |p.params|), marks), o.code), o.names[0], may)
  }

  lemma {:induction false} BodyFails(b: Batch, fails: set<Sym>, fuel: nat, p: Program, env: Env, vals: seq<Value>,
                                     marks: MarkSet)
    requires |vals| == |p.params|
    requires Halts(b, fails, fuel, env, env.Keys, Keys(p.params), p.body,
                   Store(BindLocals(p.params, vals, |p.params|), marks))
    ensures BodyLost(fuel, b.W(), p, vals, marks, EndsInFail(p.body, fails))
    decreases fuel, 3
  {
    ExprFails(b, fails, fuel, env, env.Keys, Keys(p.params), 0, p.body,
              Store(BindLocals(p.params, vals, |p.params|), marks));
  }

  /** The body of a program halts on its arguments. */
  lemma BodyReady(b: Batch, fails: set<Sym>, fuel: nat, prog: Sym, vals: seq<Value>, marks: MarkSet) returns (env: Env)
    requires b.Valid() && AllPlaced(b, fails) && prog in b.progs && AllFlat(vals) && |vals| == |b.progs[prog].params|
    requires CallStops(b, fuel, prog, vals, marks) && fuel > 0
    ensures var p := b.progs[prog];
            var st := Store(BindLocals(p.params, vals, |p.params|), marks);
            Halts(b, fails, fuel - 1, env, env.Keys, Keys(p.params), p.body, st)
  {
    assert b.Compiles(prog) && PlacedIn(b, fails, prog);
    var p := b.progs[prog];
    env := Bind(map[], p.params, vals, |p.params|);
    ParametersBound(b, p.params, vals);
    ParametersReady(b, prog, env);
  }

  lemma FunctionLost(w: World, fuel: nat, prog: Sym, vals: seq<Value>, marks: MarkSet, may: bool)
    requires prog in w.progs && fuel > 0 && BodyLost(fuel - 1, w, w.progs[prog], vals, marks, may)
    ensures NoValue(ExecCall(fuel, w, prog, vals, marks), may)
  {
  }

  lemma {:induction false} DoFails(b: Batch, fails: set<Sym>, fuel: nat, env: Env, taken: set<Sym>, vars: set<Name>,
                                   count: nat, e: Code, ret: Name, st: Store)
    requires e.Do? && Fails(b, fails, fuel, env, taken, vars, count, e, ret, st)
    ensures Loses(b, fails, fuel, vars, count, e, ret, st)
    decreases fuel, 2, e, 0
  {
    var a := WriteExpr(e.first, vars, count);
    var code := WriteCode(e.second, ret, a.vars, a.count).code;
    DoStops(fuel, b.W(), env, e, st.marks);
    if Eval(fuel, b.W(), env, e.first, st.marks).out.Val? {
      var st1 := ExprCorrect(b, fuel, env, taken, vars, count, e.first, st);
      CodeFails(b, fails, fuel, env, taken, a.vars, a.count, e.second, ret, st1);
      ReleaseThen(b.W(), fuel, st, a.code, st1, a.names[0], code);
    } else {
      FirstFails(b, fails, fuel, env, taken, vars, count, e.first, st, code);
    }
  }

  /** The first of two pieces of code stops, or leaves its value unset. */
  lemma {:induction false} FirstFails(b: Batch, fails: set<Sym>, fuel: nat, env: Env, taken: set<Sym>,
                                      vars: set<Name>, count: nat, first: Code, st: Store, code: seq<Stmt>)
    requires Halts(b, fails, fuel, env, taken, vars, first, st)
    ensures var a := WriteExpr(first, vars, count);
            Exec(fuel, b.W(), st, a.code + [Release(a.names[0])] + code).None?
    decreases fuel, 2, first, 4
  {
    var a := WriteExpr(first, vars, count);
    ExprFails(b, fails, fuel, env, taken, vars, count, first, st);
    StopThen(fuel, b.W(), st, a.code, Release(a.names[0]), code);
  }

  lemma DoStops(fuel: nat, w: World, env: Env, e: Code, marks: MarkSet)
    requires e.Do? && Stops(Eval(fuel, w, env, e, marks).out)
    ensures var r := Eval(fuel, w, env, e.first, marks);
            if r.out.Val? then Stops(Eval(fuel, w, env, e.second, r.marks).out) else Stops(r.out)
  {
  }

  lemma {:induction false} LetFails(b: Batch, fails: set<Sym>, fuel: nat, env: Env, taken: set<Sym>, vars: set<Name>,
                                    count: nat, e: Code, ret: Name, st: Store)
    requires e.Let? && Fails(b, fails, fuel, env, taken, vars, count, e, ret, st)
    ensures Loses(b, fails, fuel, vars, count, e, ret, st)
    decreases fuel, 2, e, 1
  {
    var x := Called(e.x);
    var a := WriteCode(e.bound, x, vars, count);
    var code := WriteCode(e.body, ret, a.vars + {Key(e.x)}, a.count).code;
    LetStops(fuel, b.W(), env, e, st.marks);
    if Eval(fuel, b.W(), env, e.bound, st.marks).out.Val? {
      var _, st1, env1 := LetOpens(b, fuel, env, taken, vars, count, e, ret, st);
      CodeFails(b, fails, fuel, env1, taken + {e.x}, a.vars + {Key(e.x)}, a.count, e.body, ret, st1);
      LetLost(b.W(), fuel, st, x, a.code, st1, code, ret, EndsInFail(e, fails));
    } else {
      BoundFails(b, fails, fuel, env, taken, vars, count, e, ret, st);
    }
  }

  lemma LetStops(fuel: nat, w: World, env: Env, e: Code, marks: MarkSet)
    requires e.Let? && Stops(Eval(fuel, w, env, e, marks).out)
    ensures var r := Eval(fuel, w, env, e.bound, marks);
            if r.out.Val? then Stops(Eval(fuel, w, env[e.x := r.out.v], e.body, r.marks).out) else Stops(r.out)
  {
  }

  lemma LetLost(w: World, fuel: nat, st: Store, x: Name, code: seq<Stmt>, st1: Store, code': seq<Stmt>, ret: Name,
                may: bool)
    requires Exec(fuel, w, st.(locals := st.locals - {x}), code) == Some(st1)
    requires Lost(Exec(fuel, w, st1, code'), ret, may)
    ensures Lost(Exec(fuel, w, st, [Declare(x)] + code + code' + [Release(x)]), ret, may)
  {
    DeclareExec(w, fuel, st, x, code, st1);
    LostAfter(fuel, w, st, [Declare(x)] + code, st1, code', ret, may);
    LostReleases(fuel, w, st, [Declare(x)] + code + code', [x], ret, may);
    assert Releases([x]) == [Release(x)];
  }

  /** The bound part stops or leaves the variable unset, which is released after the body. */
  lemma {:induction false} BoundFails(b: Batch, fails: set<Sym>, fuel: nat, env: Env, taken: set<Sym>,
                                      vars: set<Name>, count: nat, e: Code, ret: Name, st: Store)
    requires e.Let? && Fails(b, fails, fuel, env, taken, vars, count, e, ret, st)
    requires Stops(Eval(fuel, b.W(), env, e.bound, st.marks).out)
    ensures Loses(b, fails, fuel, vars, count, e, ret, st)
    decreases fuel, 2, e, 0
  {
    var x := Called(e.x);
    var st0 := st.(locals := st.locals - {x});
    NameApart(e.x, taken, b.binders);
    assert Represents(b, st0.locals, env);
    var a := WriteCode(e.bound, x, vars, count);
    var code := WriteCode(e.body, ret, a.vars + {Key(e.x)}, a.count).code;
    CodeFails(b, fails, fuel, env, taken + {e.x}, vars, count, e.bound, x, st0);
    BodyKeeps(b, env, taken, a.vars + {Key(e.x)}, a.count, e, ret);
    BoundLost(b.W(), fuel, st, x, a.code, code);
  }

  /** The body of a LET does not set its variable. */
  lemma BodyKeeps(b: Batch, env: Env, taken: set<Sym>, vars: set<Name>, count: nat, e: Code, ret: Name)
    requires Distinguished(b.binders) && taken <= b.binders && e.Let? && Compilable(e, env.Keys, taken, b)
    requires Target(ret, In(b, env), taken, count)
    ensures Called(e.x) !in Sets(WriteCode(e.body, ret, vars, count).code)
  {
    NameApart(e.x, taken, b.binders);
    BoundFresh(e.body, env.Keys + {e.x}, taken + {e.x}, b);
    assert Called(e.x) in Names(taken + {e.x});
    CodeSets(e.body, ret, vars, count);
  }

  lemma BoundLost(w: World, fuel: nat, st: Store, x: Name, code: seq<Stmt>, code': seq<Stmt>)
    requires Lost(Exec(fuel, w, st.(locals := st.locals - {x}), code), x, true) && x !in Sets(code')
    ensures Exec(fuel, w, st, [Declare(x)] + code + code' + [Release(x)]).None?
  {
    var st0 := st.(locals := st.locals - {x});
    ExecOne(fuel, w, st, Declare(x));
    ExecCat(fuel, w, st, [Declare(x)], code);
    ExecCat(fuel, w, st, [Declare(x)] + code, code');
    var r := Exec(fuel, w, st0, code);
    if r.Some? { Keeps(fuel, w, r.value, code', x); }
    StopThen(fuel, w, st, [Declare(x)] + code + code', Release(x), []);
  }

  lemma {:induction false} ArithFails(b: Batch, fails: set<Sym>, fuel: nat, env: Env, taken: set<Sym>,
                                      vars: set<Name>, count: nat, e: Code, ret: Name, st: Store)
    requires e.Arith? && Fails(b, fails, fuel, env, taken, vars, count, e, ret, st)
    ensures Loses(b, fails, fuel, vars, count, e, ret, st)
    decreases fuel, 2, e, 1
  {
    if HaveValues(fuel, b.W(), env, e, st.marks) {
      DivisionFails(b, fails, fuel, env, taken, vars, count, e, ret, st);
    } else {
      var a := WriteExpr(e.left, vars, count);
      var c := WriteExpr(e.right, a.vars, a.count);
      OperandsFail(b, fails, fuel, env, taken, vars, count, e, st);
      var y, z := a.names[0], c.names[0];
      NoneThen(fuel, b.W(), st, a.code + c.code,
               [IfClass(y, [Compute(ret, OnIntegers(e.op), y, z)], [Compute(ret, e.op, y, z)])]);
    }
  }

  /** Both operands have values. */
  predicate HaveValues(fuel: nat, w: World, env: Env, e: Code, marks: MarkSet)
    requires e.Arith?
  {
    var r := Eval(fuel, w, env, e.left, marks);
    r.out.Val? && Eval(fuel, w, env, e.right, r.marks).out.Val?
  }

  /** A division of rationals is by zero. */
  lemma DivisionFails(b: Batch, fails: set<Sym>, fuel: nat, env: Env, taken: set<Sym>, vars: set<Name>, count: nat,
                      e: Code, ret: Name, st: Store)
    requires e.Arith? && Halts(b, fails, fuel, env, taken, vars, e, st) && HaveValues(fuel, b.W(), env, e, st.marks)
    ensures Loses(b, fails, fuel, vars, count, e, ret, st)
  {
    var a := WriteExpr(e.left, vars, count);
    var c := WriteExpr(e.right, a.vars, a.count);
    var st1 := ExprCorrect(b, fuel, env, taken, vars, count, e.left, st);
    var st2 := ExprCorrect(b, fuel, env, taken, a.vars, a.count, e.right, st1);
    assert Live(a.names[0], In(b, env), a.count);
    RunBoth(fuel, b.W(), st, a.code, st1, c.code, st2);
    DivisionLost(b.W(), fuel, st, st2, a.code + c.code, e.op, a.names[0], c.names[0], ret);
  }

  lemma DivisionLost(w: World, fuel: nat, st: Store, st1: Store, code: seq<Stmt>, op: ArithOp, y: Name, z: Name,
                     ret: Name)
    requires Exec(fuel, w, st, code) == Some(st1) && Find(st1.locals, y).Some? && Find(st1.locals, z).Some?
    requires st1.locals[y].Rat? && ArithValue(op, st1.locals[y], st1.locals[z]).Undefined?
    ensures Exec(fuel, w, st, code + [IfClass(y, [Compute(ret, OnIntegers(op), y, z)], [Compute(ret, op, y, z)])]).None?
  {
    ComputedRight(op, st1.locals[y], st1.locals[z]);
    ExecPlain(fuel, w, st1, Compute(ret, op, y, z));
    StopThen(fuel, w, st, code, IfClass(y, [Compute(ret, OnIntegers(op), y, z)], [Compute(ret, op, y, z)]), []);
  }

  lemma {:induction false} OperandsFail(b: Batch, fails: set<Sym>, fuel: nat, env: Env, taken: set<Sym>,
                                        vars: set<Name>, count: nat, e: Code, st: Store)
    requires e.Arith? && Halts(b, fails, fuel, env, taken, vars, e, st) && !HaveValues(fuel, b.W(), env, e, st.marks)
    ensures var a := WriteExpr(e.left, vars, count);
            Exec(fuel, b.W(), st, a.code + WriteExpr(e.right, a.vars, a.count).code).None?
    decreases fuel, 2, e, 0
  {
    var a := WriteExpr(e.left, vars, count);
    var c := WriteExpr(e.right, a.vars, a.count);
    if Eval(fuel, b.W(), env, e.left, st.marks).out.Val? {
      var st1 := ExprCorrect(b, fuel, env, taken, vars, count, e.left, st);
      ExprFails(b, fails, fuel, env, taken, a.vars, a.count, e.right, st1);
      ExecCat(fuel, b.W(), st, a.code, c.code);
    } else {
      ExprFails(b, fails, fuel, env, taken, vars, count, e.left, st);
      NoneThen(fuel, b.W(), st, a.code, c.code);
    }
  }

  lemma {:induction false} NegateFails(b: Batch, fails: set<Sym>, fuel: nat, env: Env, taken: set<Sym>,
                                       vars: set<Name>, count: nat, e: Code, ret: Name, st: Store)
    requires e.Negate? && Fails(b, fails, fuel, env, taken, vars, count, e, ret, st)
    ensures Loses(b, fails, fuel, vars, count, e, ret, st)
    decreases fuel, 2, e, 0
  {
    var a := WriteExpr(e.arg, vars, count);
    var y := a.names[0];
    ExprFails(b, fails, fuel, env, taken, vars, count, e.arg, st);
    NoneThen(fuel, b.W(), st, a.code, [IfClass(y, [ComputeNeg(ret, y)], [ComputeNeg(ret, y)])]);
  }

  // ----- branches -----

  lemma {:induction false} BlockFails(b: Batch, fails: set<Sym>, fuel: nat, env: Env, taken: set<Sym>,
                                      vars: set<Name>, count: nat, e: Code, ret: Name, st: Store)
    requires Fails(b, fails, fuel, env, taken, vars, count, e, ret, st)
    ensures Lost(ExecBlock(fuel, b.W(), st, WriteCode(e, ret, vars, count).code), ret, EndsInFail(e, fails))
    decreases fuel, 2, e, 3
  {
    CodeFails(b, fails, fuel, env, taken, vars, count, e, ret, st);
    BlockApart(b, env, taken, vars, count, e, ret, WriteCode(e, ret, vars, count));
  }

  lemma {:induction false} BranchFails(b: Batch, fails: set<Sym>, fuel: nat, env: Env, taken: set<Sym>,
                                       vars: set<Name>, count: nat, e: Code, pos: bool, ret: Name, st: Store)
    requires b.Ready(env, taken, vars) && (e.IfSign? || e.IfMarked? || e.Compare?)
    requires Compilable(e, env.Keys, taken, b) && WellPlaced(e, fails) && AllPlaced(b, fails)
    requires Represents(b, st.locals, env) && Target(ret, In(b, env), taken, count)
    requires Stops(Eval(fuel, b.W(), env, if pos then e.thn else e.els, st.marks).out)
    ensures var t := WriteCode(e.thn, ret, vars, count);
            var f := WriteCode(e.els, ret, t.vars, t.count);
            Lost(ExecBlock(fuel, b.W(), st, if pos then t.code else f.code), ret, EndsInFail(e, fails))
    decreases fuel, 2, if pos then e.thn else e.els, 4
  {
    if pos {
      BlockFails(b, fails, fuel, env, taken, vars, count, e.thn, ret, st);
    } else {
      CodeVars(e.thn, env.Keys, taken, b, ret, vars, count);
      var t := WriteCode(e.thn, ret, vars, count);
      BlockFails(b, fails, fuel, env, taken, t.vars, t.count, e.els, ret, st);
    }
  }

  lemma {:induction false} IfSignFails(b: Batch, fails: set<Sym>, fuel: nat, env: Env, taken: set<Sym>,
                                       vars: set<Name>, count: nat, e: Code, ret: Name, st: Store)
    requires e.IfSign? && Fails(b, fails, fuel, env, taken, vars, count, e, ret, st)
    ensures Loses(b, fails, fuel, vars, count, e, ret, st)
    decreases fuel, 2, e, 0
  {
    var a := WriteExpr(e.arg, vars, count);
    var y := a.names[0];
    var t := WriteCode(e.thn, ret, a.vars, a.count);
    var f := WriteCode(e.els, ret, t.vars, t.count);
    var t' := WriteCode(e.thn, ret, f.vars, f.count);
    var f' := WriteCode(e.els, ret, t'.vars, t'.count);
    var s := IfClass(y, [IfSgn(e.test, y, t.code, f.code)], [IfSgn(e.test, y, t'.code, f'.code)]);
    SignStops(fuel, b.W(), env, e, st.marks);
    if Eval(fuel, b.W(), env, e.arg, st.marks).out.Val? {
      var st1 := ExprCorrect(b, fuel, env, taken, vars, count, e.arg, st);
      var v := Find(st1.locals, y).value;
      var pos := SignValue(e.test, v).v;
      var _ := BranchVars(e.thn, e.els, env.Keys, taken, b, ret, a.vars, a.count);
      var vs, n := if v.Int? then a.vars else f.vars, if v.Int? then a.count else f.count;
      BranchFails(b, fails, fuel, env, taken, vs, n, e, pos, ret, st1);
      IfSignLost(b.W(), fuel, st1, e.test, y, v, t.code, f.code, t'.code, f'.code, ret, EndsInFail(e, fails));
      LostAfter(fuel, b.W(), st, a.code, st1, [s], ret, EndsInFail(e, fails));
    } else {
      ExprFails(b, fails, fuel, env, taken, vars, count, e.arg, st);
      StopThen(fuel, b.W(), st, a.code, s, []);
    }
  }

  lemma SignStops(fuel: nat, w: World, env: Env, e: Code, marks: MarkSet)
    requires e.IfSign? && Stops(Eval(fuel, w, env, e, marks).out)
    ensures var r := Eval(fuel, w, env, e.arg, marks);
            if !r.out.Val? then Stops(r.out)
            else
              && SignValue(e.test, r.out.v).Val?
              && Stops(Eval(fuel, w, env, if SignValue(e.test, r.out.v).v then e.thn else e.els, r.marks).out)
  {
  }

  lemma IfSignLost(w: World, fuel: nat, st: Store, test: SignTest, y: Name, v: Value, t: seq<Stmt>, f: seq<Stmt>,
                   t': seq<Stmt>, f': seq<Stmt>, ret: Name, may: bool)
    requires Find(st.locals, y) == Some(v) && SignValue(test, v).Val?
    requires var pos := SignValue(test, v).v;
             Lost(ExecBlock(fuel, w, st, if v.Int? then if pos then t else f else if pos then t' else f'), ret, may)
    ensures Lost(Exec(fuel, w, st, [IfClass(y, [IfSgn(test, y, t, f)], [IfSgn(test, y, t', f')])]), ret, may)
  {
    SgnRight(test, v);
    ExecPlain(fuel, w, st, IfSgn(test, y, t, f));
    ExecPlain(fuel, w, st, IfSgn(test, y, t', f'));
    ExecOne(fuel, w, st, IfClass(y, [IfSgn(test, y, t, f)], [IfSgn(test, y, t', f')]));
  }

  lemma {:induction false} IfMarkedFails(b: Batch, fails: set<Sym>, fuel: nat, env: Env, taken: set<Sym>,
                                         vars: set<Name>, count: nat, e: Code, ret: Name, st: Store)
    requires e.IfMarked? && Fails(b, fails, fuel, env, taken, vars, count, e, ret, st)
    ensures Loses(b, fails, fuel, vars, count, e, ret, st)
    decreases fuel, 2, e, 0
  {
    var t := WriteCode(e.thn, ret, vars, count);
    var f := WriteCode(e.els, ret, t.vars, t.count);
    IfMarkedStops(fuel, b.W(), env, e, st.marks);
    var v := env[e.arg.s];
    if v.Symbol? { BranchFails(b, fails, fuel, env, taken, vars, count, e, (v.s, e.i) in st.marks, ret, st); }
    IfMarkedCode(e, ret, vars, count);
    IfMarkLost(b.W(), fuel, st, Called(e.arg.s), e.i, t.code, f.code, ret, EndsInFail(e, fails));
  }

  lemma IfMarkedStops(fuel: nat, w: World, env: Env, e: Code, marks: MarkSet)
    requires e.IfMarked? && e.arg.Var? && e.arg.s in env && w.defs == map[] && Stops(Eval(fuel, w, env, e, marks).out)
    ensures var v := env[e.arg.s];
            v.Symbol? ==> Stops(Eval(fuel, w, env, if (v.s, e.i) in marks then e.thn else e.els, marks).out)
  {
    assert Eval(fuel, w, env, e.arg, marks) == Result(Val(env[e.arg.s]), marks);
  }

  lemma IfMarkedCode(e: Code, ret: Name, vars: set<Name>, count: nat)
    requires e.IfMarked? && e.arg.Var? && Key(e.arg.s) in vars
    ensures var t := WriteCode(e.thn, ret, vars, count);
            var f := WriteCode(e.els, ret, t.vars, t.count);
            WriteCode(e, ret, vars, count).code == [IfMark(Called(e.arg.s), e.i, t.code, f.code)]
  {
    KnownSymbol(e.arg.s, vars, count);
  }

  lemma IfMarkLost(w: World, fuel: nat, st: Store, y: Name, i: Bit, t: seq<Stmt>, f: seq<Stmt>, ret: Name, may: bool)
    requires y in st.locals ==> st.locals[y].Symbol? ==>
                 Lost(ExecBlock(fuel, w, st, if (st.locals[y].s, i) in st.marks then t else f), ret, may)
    ensures Lost(Exec(fuel, w, st, [IfMark(y, i, t, f)]), ret, may)
  {
    ExecOne(fuel, w, st, IfMark(y, i, t, f));
  }

  lemma {:induction false} CompareFails(b: Batch, fails: set<Sym>, fuel: nat, env: Env, taken: set<Sym>,
                                        vars: set<Name>, count: nat, e: Code, ret: Name, st: Store)
    requires e.Compare? && Fails(b, fails, fuel, env, taken, vars, count, e, ret, st)
    ensures Loses(b, fails, fuel, vars, count, e, ret, st)
    decreases fuel, 2, e, 0
  {
    var t := WriteCode(e.thn, ret, vars, count);
    var f := WriteCode(e.els, ret, t.vars, t.count);
    CompareStops(fuel, b.W(), env, e, st.marks);
    var v, v' := env[e.left.s], env[e.right.s];
    if v.Symbol? && v'.Symbol? {
      BranchFails(b, fails, fuel, env, taken, vars, count, e, b.before(v.s, v'.s), ret, st);
    }
    CompareCode(e, ret, vars, count);
    IfBeforeLost(b.W(), fuel, st, Called(e.left.s), Called(e.right.s), t.code, f.code, ret, EndsInFail(e, fails));
  }

  lemma CompareStops(fuel: nat, w: World, env: Env, e: Code, marks: MarkSet)
    requires e.Compare? && e.left.Var? && e.left.s in env && e.right.Var? && e.right.s in env
    requires w.defs == map[] && Stops(Eval(fuel, w, env, e, marks).out)
    ensures var v, v' := env[e.left.s], env[e.right.s];
            v.Symbol? && v'.Symbol? ==>
              Stops(Eval(fuel, w, env, if w.before(v.s, v'.s) then e.thn else e.els, marks).out)
  {
    assert Eval(fuel, w, env, e.left, marks) == Result(Val(env[e.left.s]), marks);
    assert Eval(fuel, w, env, e.right, marks) == Result(Val(env[e.right.s]), marks);
  }

  lemma IfBeforeLost(w: World, fuel: nat, st: Store, y: Name, z: Name, t: seq<Stmt>, f: seq<Stmt>, ret: Name,
                     may: bool)
    requires y in st.locals && z in st.locals && st.locals[y].Symbol? && st.locals[z].Symbol? ==>
               Lost(ExecBlock(fuel, w, st, if w.before(st.locals[y].s, st.locals[z].s) then t else f), ret, may)
    ensures Lost(Exec(fuel, w, st, [IfBefore(y, z, t, f)]), ret, may)
  {
    ExecOne(fuel, w, st, IfBefore(y, z, t, f));
  }

  // ----- matches -----

  predicate CasesPlaced(cases: seq<Case>, fails: set<Sym>) {
    forall i :: 0 <= i < |cases| ==> WellPlaced(cases[i].body, fails)
  }

  predicate CasesEndInFail(cases: seq<Case>, fails: set<Sym>) {
    exists i :: 0 <= i < |cases| && EndsInFail(cases[i].body, fails)
  }

  /** The cases stop. */
  ghost predicate CasesStop(b: Batch, fails: set<Sym>, fuel: nat, env: Env, cases: seq<Case>, v: Value,
                            marks: MarkSet)
  {
    && CasesPlaced(cases, fails) && AllPlaced(b, fails)
    && Stops(EvalCases(fuel, b.W(), env, cases, Head(map[], v), Arguments(v), marks).out)
  }

  lemma {:induction false} MatchFails(b: Batch, fails: set<Sym>, fuel: nat, env: Env, taken: set<Sym>,
                                      vars: set<Name>, count: nat, e: Code, ret: Name, st: Store)
    requires e.Match? && Fails(b, fails, fuel, env, taken, vars, count, e, ret, st)
    ensures Loses(b, fails, fuel, vars, count, e, ret, st)
    decreases fuel, 2, e, 0
  {
    var a := WriteExpr(e.scrut, vars, count);
    var code := WriteCode(e, ret, vars, count).code;
    MatchCases(e, ret, vars, count);
    if Eval(fuel, b.W(), env, e.scrut, st.marks).out.Val? {
      var st1 := ExprCorrect(b, fuel, env, taken, vars, count, e.scrut, st);
      CasesLost(b, fails, fuel, env, taken, count, e.cases, a, ret, st, st1, code);
    } else {
      ExprFails(b, fails, fuel, env, taken, vars, count, e.scrut, st);
      ScrutLost(b.W(), fuel, e.cases, a, ret, st, code);
    }
  }

  /** A match whose scrutinee stops, or leaves its name unset. */
  lemma ScrutLost(w: World, fuel: nat, cases: seq<Case>, a: NamedOut, ret: Name, st: Store, code: seq<Stmt>)
    requires CasesCode(cases, a, ret, code) && Lost(Exec(fuel, w, st, a.code), a.names[0], true)
    ensures Exec(fuel, w, st, code).None?
  {
    var y, h, p := a.names[0], Temp(a.count), WriteArgs(cases, false, a.vars, a.count + 1);
    var c := WriteCases(cases, p.names, y, h, ret, p.vars, p.count);
    var start := a.code + [GetHead(h, y)];
    StopThen(fuel, w, st, a.code, GetHead(h, y), []);
    NoneThen(fuel, w, st, start, p.code);
    NoneThen(fuel, w, st, start + p.code, c.code);
    NoneThen(fuel, w, st, start + p.code + c.code, Releases([y] + p.names));
  }

  /** A match after its scrutinee. */
  lemma {:induction false} CasesLost(b: Batch, fails: set<Sym>, fuel: nat, env: Env, taken: set<Sym>, count: nat,
                                     cases: seq<Case>, a: NamedOut, ret: Name, st: Store, st1: Store, code: seq<Stmt>)
    requires Scrutinized(b, fuel, env, taken, count, cases, a, ret, st, st1) && CasesCode(cases, a, ret, code)
    requires CasesStop(b, fails, fuel, env, cases, st1.locals[a.names[0]], st1.marks)
    ensures Lost(Exec(fuel, b.W(), st, code), ret, CasesEndInFail(cases, fails))
    decreases fuel, 2, cases, 2
  {
    var y, h := a.names[0], Temp(a.count);
    var p := WriteArgs(cases, false, a.vars, a.count + 1);
    ArgsVars(cases, false, env.Keys, b, a.vars, a.count + 1);
    var st3 := MatchReady(b, fuel, env, taken, count, cases, a, p, ret, st, st1);
    CasesFail(b, fails, fuel, env, taken, p.vars, p.count, cases, p.names, y, h, ret, st1.locals[y], st3);
    var c := WriteCases(cases, p.names, y, h, ret, p.vars, p.count);
    HeadThen(b.W(), fuel, st, a.code, st1, h, y, p.code, st3);
    LostAfter(fuel, b.W(), st, a.code + [GetHead(h, y)] + p.code, st3, c.code, ret, CasesEndInFail(cases, fails));
    LostReleases(fuel, b.W(), st, a.code + [GetHead(h, y)] + p.code + c.code, [y] + p.names, ret,
                 CasesEndInFail(cases, fails));
  }

  lemma LostReleases(fuel: nat, w: World, st: Store, code: seq<Stmt>, names: seq<Name>, ret: Name, may: bool)
    requires Lost(Exec(fuel, w, st, code), ret, may)
    ensures Lost(Exec(fuel, w, st, code + Releases(names)), ret, may)
  {
    ExecCat(fuel, w, st, code, Releases(names));
    var r := Exec(fuel, w, st, code);
    if r.Some? { ReleasesKeep(fuel, w, r.value, names); }
  }

  /** Releasing changes nothing. */
  lemma {:induction false} ReleasesKeep(fuel: nat, w: World, st: Store, names: seq<Name>)
    ensures var r := Exec(fuel, w, st, Releases(names)); r.None? || r.value == st
    decreases names
  {
    if names != [] {
      assert Releases(names)[0] == Release(names[0]) && Releases(names)[1..] == Releases(names[1..]);
      ReleasesKeep(fuel, w, st, names[1..]);
    }
  }

  lemma {:induction false} CasesFail(b: Batch, fails: set<Sym>, fuel: nat, env: Env, taken: set<Sym>, vars: set<Name>,
                                     count: nat, cases: seq<Case>, ctors: seq<Name>, y: Name, h: Name, ret: Name,
                                     v: Value, st: Store)
    requires b.Ready(env, taken, vars) && CompilableCases(cases, env.Keys, taken, b)
    requires CasesReady(b, st, env, taken, count, cases, ctors, y, h, ret, v)
    requires CasesStop(b, fails, fuel, env, cases, v, st.marks)
    ensures Lost(Exec(fuel, b.W(), st, WriteCases(cases, ctors, y, h, ret, vars, count).code), ret,
                 CasesEndInFail(cases, fails))
    decreases fuel, 2, cases, 1
  {
    if cases == [] {
      ExecOne(fuel, b.W(), st, Exit);
    } else if cases[0].Default? {
      assert cases[0].body < cases[0];
      BlockFails(b, fails, fuel, env, taken, vars, count, cases[0].body, ret, st);
      DefaultExec(b.W(), fuel, st, cases, ctors, y, h, ret, vars, count);
    } else if Head(map[], v) == Symbol(cases[0].ctor) {
      ArmFails(b, fails, fuel, env, taken, vars, count, cases[0], y, ret, v, st);
      ArmExec(b.W(), fuel, st, cases, ctors, y, h, ret, vars, count, v);
    } else {
      OtherCasesFail(b, fails, fuel, env, taken, vars, count, cases, ctors, y, h, ret, v, st);
    }
  }

  lemma {:induction false} OtherCasesFail(b: Batch, fails: set<Sym>, fuel: nat, env: Env, taken: set<Sym>,
                                          vars: set<Name>, count: nat, cases: seq<Case>, ctors: seq<Name>, y: Name,
                                          h: Name, ret: Name, v: Value, st: Store)
    requires b.Ready(env, taken, vars) && CompilableCases(cases, env.Keys, taken, b)
    requires CasesReady(b, st, env, taken, count, cases, ctors, y, h, ret, v)
    requires CasesStop(b, fails, fuel, env, cases, v, st.marks)
    requires cases != [] && cases[0].Arm? && Head(map[], v) != Symbol(cases[0].ctor)
    ensures Lost(Exec(fuel, b.W(), st, WriteCases(cases, ctors, y, h, ret, vars, count).code), ret,
                 CasesEndInFail(cases, fails))
    decreases fuel, 2, cases, 0
  {
    var c := cases[0];
    var a := WriteCode(c.body, ret, vars + Keys(c.vars), count);
    RestReady(b, env, taken, vars, count, cases, ctors, y, h, ret, v, st, a);
    CasesFail(b, fails, fuel, env, taken, a.vars, a.count, cases[1..], ctors[1..], y, h, ret, v, st);
    ArmExec(b.W(), fuel, st, cases, ctors, y, h, ret, vars, count, v);
    if CasesEndInFail(cases[1..], fails) { FailsLater(cases, fails); }
  }

  /** The cases after the first can be run. */
  lemma RestReady(b: Batch, env: Env, taken: set<Sym>, vars: set<Name>, count: nat, cases: seq<Case>,
                  ctors: seq<Name>, y: Name, h: Name, ret: Name, v: Value, st: Store, a: Out)
    requires b.Ready(env, taken, vars) && CompilableCases(cases, env.Keys, taken, b)
    requires CasesReady(b, st, env, taken, count, cases, ctors, y, h, ret, v)
    requires cases != [] && cases[0].Arm? && a == WriteCode(cases[0].body, ret, vars + Keys(cases[0].vars), count)
    ensures ctors != [] && b.Ready(env, taken, a.vars) && CompilableCases(cases[1..], env.Keys, taken, b)
    ensures CasesReady(b, st, env, taken, a.count, cases[1..], ctors[1..], y, h, ret, v)
  {
    var c := cases[0];
    OnlyMoreBinders(vars, c.vars, b.binders);
    CodeVars(c.body, env.Keys + Elements(c.vars), taken + Elements(c.vars), b, ret, vars + Keys(c.vars), count);
    CasesLeft(b, st, env, taken, count, a.count, cases, ctors, y, h, ret, v);
  }

  lemma FailsLater(cases: seq<Case>, fails: set<Sym>)
    requires cases != [] && CasesEndInFail(cases[1..], fails)
    ensures CasesEndInFail(cases, fails)
  {
    var i :| 0 <= i < |cases[1..]| && EndsInFail(cases[1..][i].body, fails);
    assert cases[i + 1] == cases[1..][i];
  }

  lemma {:induction false} ArmFails(b: Batch, fails: set<Sym>, fuel: nat, env: Env, taken: set<Sym>, vars: set<Name>,
                                    count: nat, c: Case, y: Name, ret: Name, v: Value, st: Store)
    requires b.Ready(env, taken, vars) && c.Arm? && CompilableCase(c, env.Keys, taken, b)
    requires WellPlaced(c.body, fails) && AllPlaced(b, fails)
    requires Represents(b, st.locals, env) && Target(ret, In(b, env), taken, count) && Flat(v)
    requires Find(st.locals, y) == Some(v) && Live(y, In(b, env), count) && |c.vars| == |Arguments(v)|
    requires Stops(Eval(fuel, b.W(), Bind(env, c.vars, Arguments(v), |c.vars|), c.body, st.marks).out)
    ensures var code := WriteKids(c.vars, y, |c.vars|) + WriteCode(c.body, ret, vars + Keys(c.vars), count).code;
            Lost(ExecBlock(fuel, b.W(), st, code), ret, EndsInFail(c.body, fails))
    decreases fuel, 2, c, 0
  {
    var n := |c.vars|;
    var env' := Bind(env, c.vars, Arguments(v), n);
    PatternApart(b, env, taken, count, c.vars, y);
    var st1 := KidsExec(b, fuel, st, c.vars, y, v, n);
    PatternBound(b, st.locals, st1.locals, env, count, c.vars, Arguments(v));
    PatternReady(b, env, env', taken, vars, count, c.vars, ret);
    CodeFails(b, fails, fuel, env', taken + Elements(c.vars), vars + Keys(c.vars), count, c.body, ret, st1);
    var code := WriteCode(c.body, ret, vars + Keys(c.vars), count).code;
    ArmApart(b, env, taken, vars, count, c, y, ret, WriteKids(c.vars, y, n) + code);
    BlockLost(b.W(), fuel, st, WriteKids(c.vars, y, n), st1, code, ret, EndsInFail(c.body, fails));
  }

  lemma BlockLost(w: World, fuel: nat, st: Store, code: seq<Stmt>, st1: Store, code': seq<Stmt>, ret: Name, may: bool)
    requires Exec(fuel, w, st, code) == Some(st1) && Lost(Exec(fuel, w, st1, code'), ret, may)
    requires ret !in Declared(code + code')
    ensures Lost(ExecBlock(fuel, w, st, code + code'), ret, may)
  {
    LostAfter(fuel, w, st, code, st1, code', ret, may);
  }

  // ----- functions -----

  /** Where a call of a program has a value or stops, the compiled function returns a value
      exactly if the program has one, and then the same. */
  lemma FunctionExact(b: Batch, fails: set<Sym>, fuel: nat, prog: Sym, vals: seq<Value>, marks: MarkSet)
    requires b.Valid() && AllPlaced(b, fails) && prog in b.progs && AllFlat(vals)
    requires |vals| == |b.progs[prog].params|
    requires var r := EvalCall(fuel, b.W(), prog, vals, marks); r.out.Val? || Stops(r.out)
    ensures Returns(ExecCall(fuel, b.W(), prog, vals, marks), EvalCall(fuel, b.W(), prog, vals, marks))
  {
    if EvalCall(fuel, b.W(), prog, vals, marks).out.Val? {
      FunctionCorrect(b, fuel, prog, vals, marks);
    } else {
      FunctionFails(b, fails, fuel, prog, vals, marks);
    }
  }

  /** The function returns the value of r, or none if it has none. */
  predicate Returns(run: Option<Return>, r: Result<Value>) {
    if r.out.Val? then run == Some(Return(Some(r.out.v), r.marks)) else NoValue(run, true)
  }

  /** Well-typed programs that do not divide integers: the compiled function returns what the
      checker computes, and no value where the checker computes none. */
  lemma TypedExact(st: Typing.Setting, b: Batch, fails: set<Sym>, fuel: nat, prog: Sym, vals: seq<Value>,
                   marks: MarkSet)
    requires Divisions.Settled(true, st, b) && Divisions.Callable(true, st, b, prog, vals) && AllPlaced(b, fails)
    ensures Returns(ExecCall(fuel, b.W(), prog, vals, marks), EvalCall(fuel, Divisions.Checked(b), prog, vals, marks))
  {
    assert Typing.TypedProgram(st.sig, st.progTys, st.w.progs[prog], st.progTys[prog]);
    Typing.PreservationCall(st, fuel, prog, vals, marks);
    Divisions.SameCall(true, st, fuel, prog, vals, marks);
    FunctionExact(b, fails, fuel, prog, vals, marks);
  }
}
