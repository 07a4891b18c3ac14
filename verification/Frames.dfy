/** What emitted statements leave alone: however a run goes, the code for an expression sets only
    its target, new temporaries and the variables that the expression binds. */
module Frames {
  import opened Options
  import opened Marks
  import opened Collections
  import opened SideCode
  import opened Identifiers
  import opened Compiler
  import opened Blocks
  import opened Conditions

  // ----- names that statements set -----

  function Sets(ss: seq<Stmt>): set<Name>
    decreases ss
  {
    if ss == [] then {} else SetBy(ss[0]) + Sets(ss[1..])
  }

  function SetBy(s: Stmt): set<Name>
    decreases s
  {
    match s
    case IfClass(_, ints, rats) => Sets(ints) + Sets(rats)
    case IfSgn(_, _, thn, els) => Sets(thn) + Sets(els)
    case IfMark(_, _, thn, els) => Sets(thn) + Sets(els)
    case IfSame(_, _, thn, els) => Sets(thn) + Sets(els)
    case IfBefore(_, _, thn, els) => Sets(thn) + Sets(els)
    case Block(body) => Sets(body)
    case SetMark(_, _) => {}
    case ClearMark(_, _) => {}
    case Release(_) => {}
    case Exit => {}
    case Malformed => {}
    case _ => {s.x}
  }

  /** A name that is not set is as before, if the run does not stop. */
  predicate Same(r: Option<Store>, st: Store, q: Name) {
    r.None? || Find(r.value.locals, q) == Find(st.locals, q)
  }

  lemma {:induction false} StmtKeeps(fuel: nat, w: World, st: Store, s: Stmt, q: Name)
    requires q !in SetBy(s)
    ensures Same(ExecStmt(fuel, w, st, s), st, q)
    decreases s, 0
  {
    match s
    case IfClass(_, ints, rats) =>
      BlockKeeps(fuel, w, st, ints, q);
      BlockKeeps(fuel, w, st, rats, q);
    case IfSgn(_, _, thn, els) =>
      BlockKeeps(fuel, w, st, thn, q);
      BlockKeeps(fuel, w, st, els, q);
    case IfMark(_, _, thn, els) =>
      BlockKeeps(fuel, w, st, thn, q);
      BlockKeeps(fuel, w, st, els, q);
    case IfSame(_, _, thn, els) =>
      BlockKeeps(fuel, w, st, thn, q);
      BlockKeeps(fuel, w, st, els, q);
    case IfBefore(_, _, thn, els) =>
      BlockKeeps(fuel, w, st, thn, q);
      BlockKeeps(fuel, w, st, els, q);
    case Block(body) => BlockKeeps(fuel, w, st, body, q);
    case _ => PlainKeeps(fuel, w, st, s, q);
  }

  /** A statement without blocks. */
  predicate IsPlain(s: Stmt) {
    !(s.IfClass? || s.IfSgn? || s.IfMark? || s.IfSame? || s.IfBefore? || s.Block?)
  }

  lemma PlainKeeps(fuel: nat, w: World, st: Store, s: Stmt, q: Name)
    requires IsPlain(s) && q !in SetBy(s)
    ensures Same(ExecStmt(fuel, w, st, s), st, q)
  {
  }

  lemma {:induction false} BlockKeeps(fuel: nat, w: World, st: Store, ss: seq<Stmt>, q: Name)
    requires q !in Sets(ss)
    ensures Same(ExecBlock(fuel, w, st, ss), st, q)
    decreases ss, 1
  {
    Keeps(fuel, w, st, ss, q);
  }

  lemma {:induction false} Keeps(fuel: nat, w: World, st: Store, ss: seq<Stmt>, q: Name)
    requires q !in Sets(ss)
    ensures Same(Exec(fuel, w, st, ss), st, q)
    decreases ss, 0
  {
    if ss != [] {
      StmtKeeps(fuel, w, st, ss[0], q);
      var r := ExecStmt(fuel, w, st, ss[0]);
      if r.Some? { Keeps(fuel, w, r.value, ss[1..], q); }
    }
  }

  // ----- what code sets -----

  /** Names of the variables that code binds, in any block. */
  function Bound(e: Code): set<Name>
    decreases e
  {
    match e
    case IntLit(_) => {}
    case RatLit(_, _) => {}
    case Var(_) => {}
    case Apply(_, args) => BoundAll(args)
    case Call(_, args) => BoundAll(args)
    case Do(first, second) => Bound(first) + Bound(second)
    case Let(x, bound, body) => {Called(x)} + Bound(bound) + Bound(body)
    case Arith(_, left, right) => Bound(left) + Bound(right)
    case Negate(arg) => Bound(arg)
    case IfSign(_, arg, thn, els) => Bound(arg) + Bound(thn) + Bound(els)
    case FailOf(_) => {}
    case MarkVar(_, arg) => Bound(arg)
    case IfMarked(_, arg, thn, els) => Bound(arg) + Bound(thn) + Bound(els)
    case Compare(left, right, thn, els) => Bound(left) + Bound(right) + Bound(thn) + Bound(els)
    case Match(scrut, cases) => Bound(scrut) + BoundCases(cases)
  }

  function BoundAll(es: seq<Code>): set<Name>
    decreases es
  {
    if es == [] then {} else Bound(es[0]) + BoundAll(es[1..])
  }

  function BoundCases(cases: seq<Case>): set<Name>
    decreases cases
  {
    if cases == [] then {} else BoundCase(cases[0]) + BoundCases(cases[1..])
  }

  function BoundCase(c: Case): set<Name>
    decreases c
  {
    match c
    case Default(body) => Bound(body)
    case Arm(_, vars, body) => Elements(CalledAll(vars)) + Bound(body)
  }

  /** Only ret, temporaries from lo on and names in xs are set. */
  predicate Within(ss: seq<Stmt>, ret: Name, lo: nat, xs: set<Name>) {
    forall q <- Sets(ss) :: MaySet(q, ret, lo, xs)
  }

  predicate MaySet(q: Name, ret: Name, lo: nat, xs: set<Name>) {
    q == ret || q in xs || (q.Temp? && q.n >= lo)
  }

  lemma {:induction false} SetsCat(a: seq<Stmt>, b: seq<Stmt>)
    ensures Sets(a + b) == Sets(a) + Sets(b)
    decreases a
  {
    if a == [] {
      assert a + b == b;
    } else {
      assert (a + b)[0] == a[0] && (a + b)[1..] == a[1..] + b;
      SetsCat(a[1..], b);
    }
  }

  lemma SetsOne(s: Stmt)
    ensures Sets([s]) == SetBy(s)
  {
    assert Sets([s][1..]) == {};
  }

  /** Code after other code; each may set less. */
  lemma Then(a: seq<Stmt>, ret: Name, lo: nat, xs: set<Name>, b: seq<Stmt>, lo': nat, ys: set<Name>)
    requires Within(a, ret, lo, xs) && Within(b, ret, lo', ys) && lo <= lo'
    ensures Within(a + b, ret, lo, xs + ys)
  {
    SetsCat(a, b);
  }

  /** A statement after other code. */
  lemma Finish(a: seq<Stmt>, ret: Name, lo: nat, xs: set<Name>, s: Stmt)
    requires Within(a, ret, lo, xs) && forall q <- SetBy(s) :: MaySet(q, ret, lo, xs)
    ensures Within(a + [s], ret, lo, xs)
  {
    SetsCat(a, [s]);
    SetsOne(s);
  }

  lemma Start(s: Stmt, a: seq<Stmt>, ret: Name, lo: nat, xs: set<Name>)
    requires Within(a, ret, lo, xs) && forall q <- SetBy(s) :: MaySet(q, ret, lo, xs)
    ensures Within([s] + a, ret, lo, xs)
  {
    SetsCat([s], a);
    SetsOne(s);
  }

  /** The code for e sets ret, temporaries from count on and what e binds. */
  lemma {:induction false} CodeSets(e: Code, ret: Name, vars: set<Name>, count: nat)
    ensures Within(WriteCode(e, ret, vars, count).code, ret, count, Bound(e))
    decreases e, 2
  {
    match e
    case IntLit(_) => SetsOne(WriteCode(e, ret, vars, count).code[0]);
    case RatLit(_, _) => SetsOne(WriteCode(e, ret, vars, count).code[0]);
    case Var(s) => SetsOne(WriteVar(s, ret, vars));
    case Apply(_, _) => ApplySets(e, ret, vars, count);
    case Call(prog, args) =>
      ExprsSet(args, ret, vars, count);
      var a := WriteExprs(args, vars, count);
      Finish(a.code, ret, count, BoundAll(args), CallFn(ret, prog, a.names));
    case Do(first, second) =>
      ExprSets(first, ret, vars, count);
      var a := WriteExpr(first, vars, count);
      Finish(a.code, ret, count, Bound(first), Release(a.names[0]));
      CodeSets(second, ret, a.vars, a.count);
      Then(a.code + [Release(a.names[0])], ret, count, Bound(first),
           WriteCode(second, ret, a.vars, a.count).code, a.count, Bound(second));
    case Let(_, _, _) => LetSets(e, ret, vars, count);
    case Arith(_, _, _) => ArithSets(e, ret, vars, count);
    case Negate(arg) =>
      ExprSets(arg, ret, vars, count);
      var a := WriteExpr(arg, vars, count);
      var y := a.names[0];
      SetsOne(ComputeNeg(ret, y));
      Finish(a.code, ret, count, Bound(arg), IfClass(y, [ComputeNeg(ret, y)], [ComputeNeg(ret, y)]));
    case IfSign(_, _, _, _) => IfSignSets(e, ret, vars, count);
    case FailOf(_) => SetsOne(Null(ret));
    case MarkVar(_, _) => MarkVarSets(e, ret, vars, count);
    case IfMarked(_, _, _, _) => IfMarkedSets(e, ret, vars, count);
    case Compare(_, _, _, _) => CompareSets(e, ret, vars, count);
    case Match(_, _) => MatchSets(e, ret, vars, count);
  }

  lemma {:induction false} ExprSets(e: Code, ret: Name, vars: set<Name>, count: nat)
    ensures Within(WriteExpr(e, vars, count).code, ret, count, Bound(e))
    decreases e, 3
  {
    if !(e.Var? && Key(e.s) in vars) {
      var t := Temp(count);
      CodeSets(e, t, vars, count + 1);
      Start(Declare(t), WriteCode(e, t, vars, count + 1).code, t, count, Bound(e));
    }
  }

  lemma {:induction false} SymExprSets(e: Code, ret: Name, vars: set<Name>, count: nat)
    ensures Within(WriteSymExpr(e, vars, count).code, ret, count, Bound(e))
    decreases e, 4
  {
    ExprSets(e, ret, vars, count);
    Finish(WriteExpr(e, vars, count).code, ret, count, Bound(e), Malformed);
  }

  lemma {:induction false} ExprsSet(es: seq<Code>, ret: Name, vars: set<Name>, count: nat)
    ensures Within(WriteExprs(es, vars, count).code, ret, count, BoundAll(es))
    decreases es, 0
  {
    if es != [] {
      ExprSets(es[0], ret, vars, count);
      var a := WriteExpr(es[0], vars, count);
      ExprsSet(es[1..], ret, a.vars, a.count);
      Then(a.code, ret, count, Bound(es[0]), WriteExprs(es[1..], a.vars, a.count).code, a.count, BoundAll(es[1..]));
    }
  }

  lemma {:induction false} ApplySets(e: Code, ret: Name, vars: set<Name>, count: nat)
    requires e.Apply?
    ensures Within(WriteCode(e, ret, vars, count).code, ret, count, Bound(e))
    decreases e, 0
  {
    ExprsSet(e.args, ret, vars, count);
    var a := WriteExprs(e.args, vars, count);
    var h := WriteSymbol(e.head, a.vars, a.count);
    SymbolSets(e.head, ret, a.vars, a.count);
    Then(a.code, ret, count, BoundAll(e.args), h.code, a.count, {});
    assert BoundAll(e.args) + {} == BoundAll(e.args);
    Finish(a.code + h.code, ret, count, BoundAll(e.args), NewApp(ret, h.names[0], a.names));
  }

  lemma SymbolSets(s: Sym, ret: Name, vars: set<Name>, count: nat)
    ensures Within(WriteSymbol(s, vars, count).code, ret, count, {})
  {
    var t := Temp(count);
    if Key(s) !in vars {
      assert [Declare(t), Constant(t, Mangle(s))] == [Declare(t)] + [Constant(t, Mangle(s))];
      SetsOne(Constant(t, Mangle(s)));
      Start(Declare(t), [Constant(t, Mangle(s))], ret, count, {});
    }
  }

  lemma {:induction false} LetSets(e: Code, ret: Name, vars: set<Name>, count: nat)
    requires e.Let?
    ensures Within(WriteCode(e, ret, vars, count).code, ret, count, Bound(e))
    decreases e, 0
  {
    var x := Called(e.x);
    CodeSets(e.bound, x, vars, count);
    var a := WriteCode(e.bound, x, vars, count);
    CodeSets(e.body, ret, a.vars + {Key(e.x)}, a.count);
    var b := WriteCode(e.body, ret, a.vars + {Key(e.x)}, a.count);
    LetJoined(x, a.code, Bound(e.bound), count, b.code, a.count, Bound(e.body), ret);
  }

  lemma LetJoined(x: Name, a: seq<Stmt>, xs: set<Name>, lo: nat, b: seq<Stmt>, lo': nat, ys: set<Name>, ret: Name)
    requires Within(a, x, lo, xs) && Within(b, ret, lo', ys) && lo <= lo'
    ensures Within([Declare(x)] + a + b + [Release(x)], ret, lo, {x} + xs + ys)
  {
    assert Within(a, ret, lo, {x} + xs);
    Start(Declare(x), a, ret, lo, {x} + xs);
    Then([Declare(x)] + a, ret, lo, {x} + xs, b, lo', ys);
    Finish([Declare(x)] + a + b, ret, lo, {x} + xs + ys, Release(x));
  }

  lemma {:induction false} ArithSets(e: Code, ret: Name, vars: set<Name>, count: nat)
    requires e.Arith?
    ensures Within(WriteCode(e, ret, vars, count).code, ret, count, Bound(e))
    decreases e, 0
  {
    ExprSets(e.left, ret, vars, count);
    var a := WriteExpr(e.left, vars, count);
    ExprSets(e.right, ret, a.vars, a.count);
    var c := WriteExpr(e.right, a.vars, a.count);
    var y, z := a.names[0], c.names[0];
    Then(a.code, ret, count, Bound(e.left), c.code, a.count, Bound(e.right));
    SetsOne(Compute(ret, OnIntegers(e.op), y, z));
    SetsOne(Compute(ret, e.op, y, z));
    Finish(a.code + c.code, ret, count, Bound(e),
           IfClass(y, [Compute(ret, OnIntegers(e.op), y, z)], [Compute(ret, e.op, y, z)]));
  }

  /** Two branches, one written after the other. */
  lemma {:induction false} BranchesSet(e: Code, ret: Name, vars: set<Name>, count: nat) returns (t: Out, f: Out)
    requires e.IfSign? || e.IfMarked? || e.Compare?
    ensures t == WriteCode(e.thn, ret, vars, count) && f == WriteCode(e.els, ret, t.vars, t.count)
    ensures forall q <- Sets(t.code) + Sets(f.code) :: MaySet(q, ret, count, Bound(e.thn) + Bound(e.els))
    decreases e, 0
  {
    CodeSets(e.thn, ret, vars, count);
    t := WriteCode(e.thn, ret, vars, count);
    CodeSets(e.els, ret, t.vars, t.count);
    f := WriteCode(e.els, ret, t.vars, t.count);
  }

  lemma {:induction false} IfSignSets(e: Code, ret: Name, vars: set<Name>, count: nat)
    requires e.IfSign?
    ensures Within(WriteCode(e, ret, vars, count).code, ret, count, Bound(e))
    decreases e, 1
  {
    ExprSets(e.arg, ret, vars, count);
    var a := WriteExpr(e.arg, vars, count);
    var t, f := BranchesSet(e, ret, a.vars, a.count);
    var t', f' := BranchesSet(e, ret, f.vars, f.count);
    var y := a.names[0];
    SetsOne(IfSgn(e.test, y, t.code, f.code));
    SetsOne(IfSgn(e.test, y, t'.code, f'.code));
    Finish(a.code, ret, count, Bound(e), IfClass(y, [IfSgn(e.test, y, t.code, f.code)],
                                                 [IfSgn(e.test, y, t'.code, f'.code)]));
  }

  lemma {:induction false} MarkVarSets(e: Code, ret: Name, vars: set<Name>, count: nat)
    requires e.MarkVar?
    ensures Within(WriteCode(e, ret, vars, count).code, ret, count, Bound(e))
    decreases e, 0
  {
    SymExprSets(e.arg, ret, vars, count);
    var a := WriteSymExpr(e.arg, vars, count);
    var y := a.names[0];
    var s := IfMark(y, e.i, [ClearMark(y, e.i)], [SetMark(y, e.i)]);
    SetsOne(ClearMark(y, e.i));
    SetsOne(SetMark(y, e.i));
    Finish(a.code, ret, count, Bound(e.arg), s);
    Finish(a.code + [s], ret, count, Bound(e.arg), Copy(ret, y));
    assert a.code + [s] + [Copy(ret, y)] == a.code + [s, Copy(ret, y)];
  }

  lemma {:induction false} IfMarkedSets(e: Code, ret: Name, vars: set<Name>, count: nat)
    requires e.IfMarked?
    ensures Within(WriteCode(e, ret, vars, count).code, ret, count, Bound(e))
    decreases e, 1
  {
    SymExprSets(e.arg, ret, vars, count);
    var a := WriteSymExpr(e.arg, vars, count);
    var t, f := BranchesSet(e, ret, a.vars, a.count);
    Finish(a.code, ret, count, Bound(e), IfMark(a.names[0], e.i, t.code, f.code));
  }

  lemma {:induction false} CompareSets(e: Code, ret: Name, vars: set<Name>, count: nat)
    requires e.Compare?
    ensures Within(WriteCode(e, ret, vars, count).code, ret, count, Bound(e))
    decreases e, 1
  {
    SymExprSets(e.left, ret, vars, count);
    var a := WriteSymExpr(e.left, vars, count);
    SymExprSets(e.right, ret, a.vars, a.count);
    var c := WriteSymExpr(e.right, a.vars, a.count);
    Then(a.code, ret, count, Bound(e.left), c.code, a.count, Bound(e.right));
    var t, f := BranchesSet(e, ret, c.vars, c.count);
    Finish(a.code + c.code, ret, count, Bound(e), IfBefore(a.names[0], c.names[0], t.code, f.code));
  }

  lemma {:induction false} MatchSets(e: Code, ret: Name, vars: set<Name>, count: nat)
    requires e.Match?
    ensures Within(WriteCode(e, ret, vars, count).code, ret, count, Bound(e))
    decreases e, 0
  {
    ExprSets(e.scrut, ret, vars, count);
    var a := WriteExpr(e.scrut, vars, count);
    var y, h := a.names[0], Temp(a.count);
    ArgsSet(e.cases, false, ret, a.vars, a.count + 1);
    var p := WriteArgs(e.cases, false, a.vars, a.count + 1);
    CasesSet(e.cases, p.names, y, h, ret, p.vars, p.count);
    var c := WriteCases(e.cases, p.names, y, h, ret, p.vars, p.count);
    MatchJoined(a, p, c, h, ret, count, Bound(e.scrut), BoundCases(e.cases));
    MatchCode(e, ret, vars, count);
  }

  lemma MatchJoined(a: NamedOut, p: NamedOut, c: Out, h: Name, ret: Name, count: nat, xs: set<Name>, ys: set<Name>)
    requires a.names != [] && count <= a.count <= p.count && h == Temp(a.count)
    requires Within(a.code, ret, count, xs) && Within(p.code, ret, a.count + 1, ys) && Within(c.code, ret, p.count, ys)
    ensures Within(a.code + [GetHead(h, a.names[0])] + p.code + c.code + Releases(a.names + p.names), ret, count,
                   xs + ys)
  {
    var s := GetHead(h, a.names[0]);
    Finish(a.code, ret, count, xs, s);
    Then(a.code + [s], ret, count, xs, p.code, count, ys);
    Then(a.code + [s] + p.code, ret, count, xs + ys, c.code, count, ys);
    assert xs + ys + ys == xs + ys;
    ReleasesSet(a.names + p.names);
    Then(a.code + [s] + p.code + c.code, ret, count, xs + ys, Releases(a.names + p.names), count, {});
    assert xs + ys + {} == xs + ys;
  }

  lemma {:induction false} ReleasesSet(names: seq<Name>)
    ensures Sets(Releases(names)) == {}
    decreases names
  {
    if names != [] {
      assert Releases(names)[0] == Release(names[0]) && Releases(names)[1..] == Releases(names[1..]);
      ReleasesSet(names[1..]);
    }
  }

  lemma {:induction false} ArgsSet(cases: seq<Case>, met: bool, ret: Name, vars: set<Name>, count: nat)
    ensures Within(WriteArgs(cases, met, vars, count).code, ret, count, BoundCases(cases))
    decreases cases, 0
  {
    if !(cases == [] || (met && cases[0].Default?)) {
      ArgSets(cases[0], ret, vars, count);
      var a := WriteArg(cases[0], vars, count);
      ArgsSet(cases[1..], met || cases[0].Arm?, ret, a.vars, a.count);
      Then(a.code, ret, count, BoundCase(cases[0]),
           WriteArgs(cases[1..], met || cases[0].Arm?, a.vars, a.count).code, a.count, BoundCases(cases[1..]));
    }
  }

  lemma {:induction false} ArgSets(c: Case, ret: Name, vars: set<Name>, count: nat)
    ensures Within(WriteArg(c, vars, count).code, ret, count, BoundCase(c))
    decreases c, 0
  {
    match c
    case Arm(ctor, _, _) =>
      var t := Temp(count);
      assert [Declare(t), WriteVar(ctor, t, vars)] == [Declare(t)] + [WriteVar(ctor, t, vars)];
      SetsOne(WriteVar(ctor, t, vars));
      Start(Declare(t), [WriteVar(ctor, t, vars)], ret, count, BoundCase(c));
    case Default(body) =>
      if !body.Var? { ExprSets(body, ret, vars, count); }
  }

  lemma {:induction false} KidsSet(xs: seq<Sym>, y: Name, n: nat, ret: Name, lo: nat)
    requires n <= |xs|
    ensures Within(WriteKids(xs, y, n), ret, lo, Elements(CalledAll(xs)))
  {
    if n > 0 {
      KidsSet(xs, y, n - 1, ret, lo);
      assert CalledAll(xs)[n - 1] == Called(xs[n - 1]);
      Finish(WriteKids(xs, y, n - 1), ret, lo, Elements(CalledAll(xs)), GetKid(Called(xs[n - 1]), y, n - 1));
    }
  }

  lemma {:induction false} CasesSet(cases: seq<Case>, ctors: seq<Name>, y: Name, h: Name, ret: Name, vars: set<Name>,
                                    count: nat)
    ensures Within(WriteCases(cases, ctors, y, h, ret, vars, count).code, ret, count, BoundCases(cases))
    decreases cases, 1
  {
    if cases == [] {
      SetsOne(Exit);
    } else if cases[0].Default? {
      DefaultSets(cases, ctors, y, h, ret, vars, count);
    } else if ctors == [] {
      SetsOne(Malformed);
    } else {
      ArmsSet(cases, ctors, y, h, ret, vars, count);
    }
  }

  lemma {:induction false} DefaultSets(cases: seq<Case>, ctors: seq<Name>, y: Name, h: Name, ret: Name,
                                       vars: set<Name>, count: nat)
    requires cases != [] && cases[0].Default?
    ensures Within(WriteCases(cases, ctors, y, h, ret, vars, count).code, ret, count, BoundCases(cases))
    decreases cases, 0
  {
    assert cases[0].body < cases[0];
    CodeSets(cases[0].body, ret, vars, count);
    var a := WriteCode(cases[0].body, ret, vars, count);
    SetsOne(Block(a.code));
    assert BoundCase(cases[0]) <= BoundCases(cases);
    Finish([Block(a.code)], ret, count, BoundCases(cases), Malformed);
    assert [Block(a.code)] + [] == [Block(a.code)];
  }

  lemma {:induction false} ArmsSet(cases: seq<Case>, ctors: seq<Name>, y: Name, h: Name, ret: Name, vars: set<Name>,
                                   count: nat)
    requires cases != [] && cases[0].Arm? && ctors != []
    ensures Within(WriteCases(cases, ctors, y, h, ret, vars, count).code, ret, count, BoundCases(cases))
    decreases cases, 0
  {
    var c := cases[0];
    assert c.body < c;
    CodeSets(c.body, ret, vars + Keys(c.vars), count);
    var a := WriteCode(c.body, ret, vars + Keys(c.vars), count);
    KidsSet(c.vars, y, |c.vars|, ret, count);
    Then(WriteKids(c.vars, y, |c.vars|), ret, count, Elements(CalledAll(c.vars)), a.code, count, Bound(c.body));
    CasesSet(cases[1..], ctors[1..], y, h, ret, a.vars, a.count);
    var b := WriteCases(cases[1..], ctors[1..], y, h, ret, a.vars, a.count);
    SetsOne(IfSame(h, ctors[0], WriteKids(c.vars, y, |c.vars|) + a.code, b.code));
  }

  // ----- what compilable code binds -----

  /** Compilable code binds no name that is taken. */
  lemma {:induction false} BoundFresh(e: Code, scope: set<Sym>, taken: set<Sym>, b: Batch)
    requires Compilable(e, scope, taken, b) && Distinguished(b.binders) && taken <= b.binders
    ensures Bound(e) <= Names(b.binders) - Names(taken)
    decreases e, 0
  {
    match e
    case IntLit(_) =>
    case RatLit(_, _) =>
    case Var(_) =>
    case Apply(_, args) => AllFresh(args, scope, taken, b);
    case Call(_, args) => AllFresh(args, scope, taken, b);
    case Do(first, second) =>
      BoundFresh(first, scope, taken, b);
      BoundFresh(second, scope, taken, b);
    case Let(x, bound, body) =>
      BoundFresh(bound, scope, taken + {x}, b);
      BoundFresh(body, scope + {x}, taken + {x}, b);
      NameApart(x, taken, b.binders);
      NamesMore(taken, taken + {x});
    case Arith(_, left, right) =>
      BoundFresh(left, scope, taken, b);
      BoundFresh(right, scope, taken, b);
    case Negate(arg) => BoundFresh(arg, scope, taken, b);
    case IfSign(_, arg, thn, els) =>
      BoundFresh(arg, scope, taken, b);
      BoundFresh(thn, scope, taken, b);
      BoundFresh(els, scope, taken, b);
    case FailOf(_) =>
    case MarkVar(_, _) =>
    case IfMarked(_, _, thn, els) =>
      BoundFresh(thn, scope, taken, b);
      BoundFresh(els, scope, taken, b);
    case Compare(_, _, thn, els) =>
      BoundFresh(thn, scope, taken, b);
      BoundFresh(els, scope, taken, b);
    case Match(scrut, cases) =>
      BoundFresh(scrut, scope, taken, b);
      CasesFresh(cases, scope, taken, b);
  }

  lemma {:induction false} AllFresh(es: seq<Code>, scope: set<Sym>, taken: set<Sym>, b: Batch)
    requires Distinguished(b.binders) && taken <= b.binders
    requires forall i :: 0 <= i < |es| ==> Compilable(es[i], scope, taken, b)
    ensures BoundAll(es) <= Names(b.binders) - Names(taken)
    decreases es, 0
  {
    if es != [] {
      BoundFresh(es[0], scope, taken, b);
      AllFresh(es[1..], scope, taken, b);
    }
  }

  lemma {:induction false} CasesFresh(cases: seq<Case>, scope: set<Sym>, taken: set<Sym>, b: Batch)
    requires Distinguished(b.binders) && taken <= b.binders
    requires forall i :: 0 <= i < |cases| ==> CompilableCase(cases[i], scope, taken, b)
    ensures BoundCases(cases) <= Names(b.binders) - Names(taken)
    decreases cases, 0
  {
    if cases != [] {
      var c := cases[0];
      assert c.body < c;
      if c.Default? {
        BoundFresh(c.body, scope, taken, b);
      } else {
        BoundFresh(c.body, scope + Elements(c.vars), taken + Elements(c.vars), b);
        NamesOf(c.vars);
        NamesApart(Elements(c.vars), taken, b.binders);
        NamesMore(Elements(c.vars), b.binders);
        NamesMore(taken, taken + Elements(c.vars));
      }
      CasesFresh(cases[1..], scope, taken, b);
    }
  }
}
