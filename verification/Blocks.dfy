/** Declarations in the emitted C++: a name may be declared once in a block.  The compiler
    declares a variable of the source in the block in which it binds it, so no name is
    declared twice in a block exactly if the source binds no name twice in one, as long as no
    variable is spelled like a temporary. */
module Blocks {
  import opened Marks
  import opened Collections
  import opened SideCode
  import opened Identifiers
  import opened Compiler

  // ----- blocks of statements -----

  /** No name is declared twice in a block or in one of the blocks within it. */
  predicate OnceDeclared(ss: seq<Stmt>)
    decreases ss
  {
    ss == [] || (OnceWithin(ss[0]) && DeclaredBy(ss[0]) !! Declared(ss[1..]) && OnceDeclared(ss[1..]))
  }

  predicate OnceWithin(s: Stmt)
    decreases s
  {
    match s
    case IfClass(_, ints, rats) => OnceDeclared(ints) && OnceDeclared(rats)
    case IfSgn(_, _, thn, els) => OnceDeclared(thn) && OnceDeclared(els)
    case IfMark(_, _, thn, els) => OnceDeclared(thn) && OnceDeclared(els)
    case IfSame(_, _, thn, els) => OnceDeclared(thn) && OnceDeclared(els)
    case IfBefore(_, _, thn, els) => OnceDeclared(thn) && OnceDeclared(els)
    case Block(body) => OnceDeclared(body)
    case _ => true
  }

  // ----- variables bound in the source -----

  /** Names of the variables that code binds in the block in which it is written; the branches
      of a conditional and the cases of a match have blocks of their own. */
  function Binds(e: Code): set<Name>
    decreases e
  {
    match e
    case IntLit(_) => {}
    case RatLit(_, _) => {}
    case Var(_) => {}
    case Apply(_, args) => BindsAll(args)
    case Call(_, args) => BindsAll(args)
    case Do(first, second) => Binds(first) + Binds(second)
    case Let(x, bound, body) => {Called(x)} + Binds(bound) + Binds(body)
    case Arith(_, left, right) => Binds(left) + Binds(right)
    case Negate(arg) => Binds(arg)
    case IfSign(_, arg, _, _) => Binds(arg)
    case FailOf(_) => {}
    case MarkVar(_, arg) => Binds(arg)
    case IfMarked(_, arg, _, _) => Binds(arg)
    case Compare(left, right, _, _) => Binds(left) + Binds(right)
    case Match(scrut, cases) => Binds(scrut) + BindsFirst(cases, false)
  }

  function BindsAll(es: seq<Code>): set<Name>
    decreases es
  {
    if es == [] then {} else Binds(es[0]) + BindsAll(es[1..])
  }

  /** Bound by defaults that come before any pattern: they are also written before the
      match. */
  function BindsFirst(cases: seq<Case>, met: bool): set<Name>
    decreases cases
  {
    if cases == [] || (met && cases[0].Default?) then {}
    else BindsInArg(cases[0]) + BindsFirst(cases[1..], met || cases[0].Arm?)
  }

  function BindsInArg(c: Case): set<Name>
    decreases c
  {
    if c.Default? && !c.body.Var? then Binds(c.body) else {}
  }

  function CalledAll(xs: seq<Sym>): (qs: seq<Name>)
    ensures |qs| == |xs| && forall i :: 0 <= i < |xs| ==> qs[i] == Called(xs[i])
  {
    seq(|xs|, i requires 0 <= i < |xs| => Called(xs[i]))
  }

  /** No name is bound twice in one block. */
  predicate BoundOnce(e: Code)
    decreases e
  {
    match e
    case IntLit(_) => true
    case RatLit(_, _) => true
    case Var(_) => true
    case Apply(_, args) => BoundOnceAll(args)
    case Call(_, args) => BoundOnceAll(args)
    case Do(first, second) => BoundOnce(first) && BoundOnce(second) && Binds(first) !! Binds(second)
    case Let(x, bound, body) =>
      && BoundOnce(bound) && BoundOnce(body)
      && {Called(x)} !! Binds(bound) && {Called(x)} + Binds(bound) !! Binds(body)
    case Arith(_, left, right) => BoundOnce(left) && BoundOnce(right) && Binds(left) !! Binds(right)
    case Negate(arg) => BoundOnce(arg)
    case IfSign(_, arg, thn, els) => BoundOnce(arg) && BoundOnce(thn) && BoundOnce(els)
    case FailOf(_) => true
    case MarkVar(_, arg) => BoundOnce(arg)
    case IfMarked(_, arg, thn, els) => BoundOnce(arg) && BoundOnce(thn) && BoundOnce(els)
    case Compare(left, right, thn, els) =>
      && BoundOnce(left) && BoundOnce(right) && Binds(left) !! Binds(right)
      && BoundOnce(thn) && BoundOnce(els)
    case Match(scrut, cases) =>
      && BoundOnce(scrut) && FirstOnce(cases, false) && Binds(scrut) !! BindsFirst(cases, false)
      && CasesOnce(cases)
  }

  predicate BoundOnceAll(es: seq<Code>)
    decreases es
  {
    es == [] || (BoundOnce(es[0]) && BoundOnceAll(es[1..]) && Binds(es[0]) !! BindsAll(es[1..]))
  }

  predicate FirstOnce(cases: seq<Case>, met: bool)
    decreases cases
  {
    cases == [] || (met && cases[0].Default?) ||
    var m := met || cases[0].Arm?;
    OnceInArg(cases[0]) && FirstOnce(cases[1..], m) && BindsInArg(cases[0]) !! BindsFirst(cases[1..], m)
  }

  predicate OnceInArg(c: Case)
    decreases c
  {
    c.Default? ==> BoundOnce(c.body)
  }

  /** Cases up to a default. */
  predicate CasesOnce(cases: seq<Case>)
    decreases cases
  {
    cases == [] ||
    match cases[0]
    case Default(body) => assert body < cases[0]; BoundOnce(body)
    case Arm(_, xs, body) =>
      assert body < cases[0];
      && Distinct(CalledAll(xs)) && Elements(CalledAll(xs)) !! Binds(body) && BoundOnce(body)
      && CasesOnce(cases[1..])
  }

  // ----- variables that are not spelled like temporaries -----

  predicate ClearOfTemps(e: Code)
    decreases e
  {
    match e
    case IntLit(_) => true
    case RatLit(_, _) => true
    case Var(_) => true
    case Apply(_, args) => forall i :: 0 <= i < |args| ==> ClearOfTemps(args[i])
    case Call(_, args) => forall i :: 0 <= i < |args| ==> ClearOfTemps(args[i])
    case Do(first, second) => ClearOfTemps(first) && ClearOfTemps(second)
    case Let(x, bound, body) => Called(x).Source? && ClearOfTemps(bound) && ClearOfTemps(body)
    case Arith(_, left, right) => ClearOfTemps(left) && ClearOfTemps(right)
    case Negate(arg) => ClearOfTemps(arg)
    case IfSign(_, arg, thn, els) => ClearOfTemps(arg) && ClearOfTemps(thn) && ClearOfTemps(els)
    case FailOf(_) => true
    case MarkVar(_, arg) => ClearOfTemps(arg)
    case IfMarked(_, arg, thn, els) => ClearOfTemps(arg) && ClearOfTemps(thn) && ClearOfTemps(els)
    case Compare(left, right, thn, els) =>
      ClearOfTemps(left) && ClearOfTemps(right) && ClearOfTemps(thn) && ClearOfTemps(els)
    case Match(scrut, cases) => ClearOfTemps(scrut) && forall i :: 0 <= i < |cases| ==> ClearCase(cases[i])
  }

  predicate ClearCase(c: Case)
    decreases c
  {
    && ClearOfTemps(c.body)
    && (c.Arm? ==> forall i :: 0 <= i < |c.vars| ==> Called(c.vars[i]).Source?)
  }

  // ----- what the compiler declares -----

  /** The block declares the variables xs and no others, temporaries from lo up to hi, and
      none of these twice exactly if `once` holds. */
  predicate Declares(ss: seq<Stmt>, xs: set<Name>, once: bool, lo: nat, hi: nat) {
    SourcesIn(Declared(ss)) == xs && TempsWithin(Declared(ss), lo, hi) && (OnceDeclared(ss) <==> once)
  }

  function SourcesIn(names: set<Name>): set<Name> {
    set q | q in names && q.Source?
  }

  predicate TempsWithin(names: set<Name>, lo: nat, hi: nat) {
    forall q <- names :: q.Temp? ==> lo <= q.n < hi
  }

  lemma {:induction false} DeclaredCat(a: seq<Stmt>, b: seq<Stmt>)
    ensures Declared(a + b) == Declared(a) + Declared(b)
    ensures OnceDeclared(a + b) <==> OnceDeclared(a) && OnceDeclared(b) && Declared(a) !! Declared(b)
    decreases a
  {
    if a == [] {
      assert a + b == b;
    } else {
      assert (a + b)[0] == a[0] && (a + b)[1..] == a[1..] + b;
      DeclaredCat(a[1..], b);
    }
  }

  /** One piece of code after another. */
  lemma Then(a: seq<Stmt>, xs: set<Name>, once: bool, lo: nat, mid: nat,
             b: seq<Stmt>, ys: set<Name>, once': bool, hi: nat)
    requires lo <= mid <= hi && Declares(a, xs, once, lo, mid) && Declares(b, ys, once', mid, hi)
    ensures Declares(a + b, xs + ys, once && once' && xs !! ys, lo, hi)
  {
    DeclaredCat(a, b);
    if xs !! ys {
      forall q | q in Declared(a)
        ensures q !in Declared(b)
      {
        assert q.Source? ==> q in SourcesIn(Declared(a));
        assert q.Source? ==> q !in SourcesIn(Declared(b));
      }
    } else {
      var x :| x in xs && x in ys;
      assert x in Declared(a) && x in Declared(b);
    }
  }

  /** A statement that declares nothing, after other code. */
  lemma Finish(a: seq<Stmt>, xs: set<Name>, once: bool, lo: nat, mid: nat, s: Stmt, once': bool, hi: nat)
    requires lo <= mid <= hi && Declares(a, xs, once, lo, mid)
    requires DeclaredBy(s) == {} && (OnceWithin(s) <==> once')
    ensures Declares(a + [s], xs, once && once', lo, hi)
  {
    One(s, once', mid, hi);
    Then(a, xs, once, lo, mid, [s], {}, once', hi);
    assert xs + {} == xs;
  }

  lemma One(s: Stmt, once: bool, lo: nat, hi: nat)
    requires DeclaredBy(s) == {} && (OnceWithin(s) <==> once)
    ensures Declares([s], {}, once, lo, hi)
  {
    assert Declared([s][1..]) == {};
  }

  /** A declared temporary, before other code. */
  lemma Start(s: Stmt, t: nat, a: seq<Stmt>, xs: set<Name>, once: bool, hi: nat)
    requires DeclaredBy(s) == {Temp(t)} && OnceWithin(s) && t < hi && Declares(a, xs, once, t + 1, hi)
    ensures Declares([s] + a, xs, once, t, hi)
  {
    assert Declared([s]) == {Temp(t)} by { assert Declared([s][1..]) == {}; }
    assert OnceDeclared([s]);
    DeclaredCat([s], a);
  }

  /** The code for e declares what e binds in its block, and no name twice in a block exactly
      if e binds none twice in one. */
  lemma {:induction false} CodeDeclares(e: Code, ret: Name, vars: set<Name>, count: nat)
    requires ClearOfTemps(e)
    ensures var o := WriteCode(e, ret, vars, count);
            Declares(o.code, Binds(e), BoundOnce(e), count, o.count)
    decreases e, 2
  {
    match e
    case IntLit(n) => One(NewInt(ret, GetSi(n)), true, count, count);
    case RatLit(num, den) => One(NewRat(ret, GetSi(num), GetSi(den)), true, count, count);
    case Var(s) => One(WriteCode(e, ret, vars, count).code[0], true, count, count);
    case Apply(_, _) => AppDeclares(e, ret, vars, count);
    case Call(_, _) => AppDeclares(e, ret, vars, count);
    case Do(_, _) => DoDeclares(e, ret, vars, count);
    case Let(_, _, _) => LetDeclares(e, ret, vars, count);
    case Arith(_, _, _) => ArithDeclares(e, ret, vars, count);
    case Negate(arg) =>
      ExprDeclares(arg, vars, count);
      var a := WriteExpr(arg, vars, count);
      var y := a.names[0];
      Plain(ComputeNeg(ret, y));
      Finish(a.code, Binds(arg), BoundOnce(arg), count, a.count,
             IfClass(y, [ComputeNeg(ret, y)], [ComputeNeg(ret, y)]), true, a.count);
    case IfSign(_, _, _, _) => IfSignDeclares(e, ret, vars, count);
    case FailOf(_) => One(Null(ret), true, count, count);
    case MarkVar(_, _) => MarkVarDeclares(e, ret, vars, count);
    case IfMarked(_, _, _, _) => IfMarkedDeclares(e, ret, vars, count);
    case Compare(_, _, _, _) => CompareDeclares(e, ret, vars, count);
    case Match(_, _) => MatchDeclares(e, ret, vars, count);
  }

  /** One statement without blocks. */
  lemma Plain(s: Stmt)
    requires DeclaredBy(s) == {} && OnceWithin(s)
    ensures OnceDeclared([s])
  {
    assert Declared([s][1..]) == {};
  }

  lemma {:induction false} ExprDeclares(e: Code, vars: set<Name>, count: nat)
    requires ClearOfTemps(e)
    ensures var o := WriteExpr(e, vars, count);
            Declares(o.code, Binds(e), BoundOnce(e), count, o.count)
    decreases e, 3
  {
    if !(e.Var? && Key(e.s) in vars) {
      CodeDeclares(e, Temp(count), vars, count + 1);
      var o := WriteCode(e, Temp(count), vars, count + 1);
      Start(Declare(Temp(count)), count, o.code, Binds(e), BoundOnce(e), o.count);
    }
  }

  lemma {:induction false} SymExprDeclares(e: Code, vars: set<Name>, count: nat)
    requires ClearOfTemps(e)
    ensures var o := WriteSymExpr(e, vars, count);
            Declares(o.code, Binds(e), BoundOnce(e), count, o.count)
    decreases e, 4
  {
    ExprDeclares(e, vars, count);
    var o := WriteExpr(e, vars, count);
    Finish(o.code, Binds(e), BoundOnce(e), count, o.count, Malformed, true, o.count);
  }

  lemma {:induction false} ExprsDeclare(es: seq<Code>, vars: set<Name>, count: nat)
    requires forall i :: 0 <= i < |es| ==> ClearOfTemps(es[i])
    ensures var o := WriteExprs(es, vars, count);
            Declares(o.code, BindsAll(es), BoundOnceAll(es), count, o.count)
    decreases es, 0
  {
    if es != [] {
      ExprDeclares(es[0], vars, count);
      var a := WriteExpr(es[0], vars, count);
      ExprsDeclare(es[1..], a.vars, a.count);
      var b := WriteExprs(es[1..], a.vars, a.count);
      Then(a.code, Binds(es[0]), BoundOnce(es[0]), count, a.count,
           b.code, BindsAll(es[1..]), BoundOnceAll(es[1..]), b.count);
    }
  }

  lemma {:induction false} AppDeclares(e: Code, ret: Name, vars: set<Name>, count: nat)
    requires ClearOfTemps(e)
    requires e.Apply? || e.Call?
    ensures var o := WriteCode(e, ret, vars, count);
            Declares(o.code, Binds(e), BoundOnce(e), count, o.count)
    decreases e, 0
  {
    ExprsDeclare(e.args, vars, count);
    var a := WriteExprs(e.args, vars, count);
    if e.Apply? {
      SymbolDeclares(e.head, a.vars, a.count);
      var h := WriteSymbol(e.head, a.vars, a.count);
      Then(a.code, BindsAll(e.args), BoundOnceAll(e.args), count, a.count, h.code, {}, true, h.count);
      assert BindsAll(e.args) + {} == BindsAll(e.args);
      Finish(a.code + h.code, BindsAll(e.args), BoundOnceAll(e.args), count, h.count,
             NewApp(ret, h.names[0], a.names), true, h.count);
    } else {
      Finish(a.code, BindsAll(e.args), BoundOnceAll(e.args), count, a.count, CallFn(ret, e.prog, a.names), true,
             a.count);
    }
  }

  lemma SymbolDeclares(s: Sym, vars: set<Name>, count: nat)
    ensures var o := WriteSymbol(s, vars, count); Declares(o.code, {}, true, count, o.count)
  {
    if Key(s) !in vars {
      var t := Temp(count);
      One(Constant(t, Mangle(s)), true, count + 1, count + 1);
      Start(Declare(t), count, [Constant(t, Mangle(s))], {}, true, count + 1);
      assert [Declare(t)] + [Constant(t, Mangle(s))] == [Declare(t), Constant(t, Mangle(s))];
    }
  }

  lemma {:induction false} DoDeclares(e: Code, ret: Name, vars: set<Name>, count: nat)
    requires e.Do? && ClearOfTemps(e)
    ensures var o := WriteCode(e, ret, vars, count);
            Declares(o.code, Binds(e), BoundOnce(e), count, o.count)
    decreases e, 0
  {
    ExprDeclares(e.first, vars, count);
    var a := WriteExpr(e.first, vars, count);
    CodeDeclares(e.second, ret, a.vars, a.count);
    var b := WriteCode(e.second, ret, a.vars, a.count);
    Finish(a.code, Binds(e.first), BoundOnce(e.first), count, a.count, Release(a.names[0]), true, a.count);
    Then(a.code + [Release(a.names[0])], Binds(e.first), BoundOnce(e.first), count, a.count,
         b.code, Binds(e.second), BoundOnce(e.second), b.count);
  }

  lemma {:induction false} LetDeclares(e: Code, ret: Name, vars: set<Name>, count: nat)
    requires ClearOfTemps(e)
    requires e.Let?
    ensures var o := WriteCode(e, ret, vars, count);
            Declares(o.code, Binds(e), BoundOnce(e), count, o.count)
    decreases e, 0
  {
    var x := Called(e.x);
    CodeDeclares(e.bound, x, vars, count);
    var a := WriteCode(e.bound, x, vars, count);
    CodeDeclares(e.body, ret, a.vars + {Key(e.x)}, a.count);
    var b := WriteCode(e.body, ret, a.vars + {Key(e.x)}, a.count);
    LetJoined(x, a.code, Binds(e.bound), BoundOnce(e.bound), count, a.count, b.code, Binds(e.body), BoundOnce(e.body),
              b.count);
  }

  lemma LetJoined(x: Name, a: seq<Stmt>, xs: set<Name>, once: bool, lo: nat, mid: nat, b: seq<Stmt>, ys: set<Name>,
                  once': bool, hi: nat)
    requires x.Source? && lo <= mid <= hi && Declares(a, xs, once, lo, mid) && Declares(b, ys, once', mid, hi)
    ensures Declares([Declare(x)] + a + b + [Release(x)], {x} + xs + ys,
                     once && once' && {x} !! xs && {x} + xs !! ys, lo, hi)
  {
    assert Declares([Declare(x)], {x}, true, lo, lo) by {
      assert Declared([Declare(x)][1..]) == {};
    }
    Then([Declare(x)], {x}, true, lo, lo, a, xs, once, mid);
    Then([Declare(x)] + a, {x} + xs, once && {x} !! xs, lo, mid, b, ys, once', hi);
    Finish([Declare(x)] + a + b, {x} + xs + ys, once && once' && {x} !! xs && {x} + xs !! ys, lo, hi, Release(x), true,
           hi);
  }

  lemma {:induction false} ArithDeclares(e: Code, ret: Name, vars: set<Name>, count: nat)
    requires ClearOfTemps(e)
    requires e.Arith?
    ensures var o := WriteCode(e, ret, vars, count);
            Declares(o.code, Binds(e), BoundOnce(e), count, o.count)
    decreases e, 0
  {
    ExprDeclares(e.left, vars, count);
    var a := WriteExpr(e.left, vars, count);
    ExprDeclares(e.right, a.vars, a.count);
    var b := WriteExpr(e.right, a.vars, a.count);
    var y, z := a.names[0], b.names[0];
    Then(a.code, Binds(e.left), BoundOnce(e.left), count, a.count, b.code, Binds(e.right), BoundOnce(e.right), b.count);
    Plain(Compute(ret, OnIntegers(e.op), y, z));
    Plain(Compute(ret, e.op, y, z));
    Finish(a.code + b.code, Binds(e), BoundOnce(e), count, b.count,
           IfClass(y, [Compute(ret, OnIntegers(e.op), y, z)], [Compute(ret, e.op, y, z)]), true, b.count);
  }

  lemma {:induction false} IfSignDeclares(e: Code, ret: Name, vars: set<Name>, count: nat)
    requires ClearOfTemps(e)
    requires e.IfSign?
    ensures var o := WriteCode(e, ret, vars, count);
            Declares(o.code, Binds(e), BoundOnce(e), count, o.count)
    decreases e, 1
  {
    ExprDeclares(e.arg, vars, count);
    var a := WriteExpr(e.arg, vars, count);
    var y := a.names[0];
    var t, f := BranchesDeclare(e, ret, a.vars, a.count);
    var t', f' := BranchesDeclare(e, ret, f.vars, f.count);
    var ints, rats := IfSgn(e.test, y, t.code, f.code), IfSgn(e.test, y, t'.code, f'.code);
    One(ints, BoundOnce(e.thn) && BoundOnce(e.els), 0, 0);
    One(rats, BoundOnce(e.thn) && BoundOnce(e.els), 0, 0);
    Finish(a.code, Binds(e.arg), BoundOnce(e.arg), count, a.count, IfClass(y, [ints], [rats]),
           BoundOnce(e.thn) && BoundOnce(e.els), f'.count);
  }

  /** Two branches, one written after the other. */
  lemma {:induction false} BranchesDeclare(e: Code, ret: Name, vars: set<Name>, count: nat) returns (t: Out, f: Out)
    requires ClearOfTemps(e)
    requires e.IfSign? || e.IfMarked? || e.Compare?
    ensures t == WriteCode(e.thn, ret, vars, count) && f == WriteCode(e.els, ret, t.vars, t.count)
    ensures (OnceDeclared(t.code) <==> BoundOnce(e.thn)) && (OnceDeclared(f.code) <==> BoundOnce(e.els))
    decreases e, 0
  {
    t := WriteCode(e.thn, ret, vars, count);
    f := WriteCode(e.els, ret, t.vars, t.count);
    CodeDeclares(e.thn, ret, vars, count);
    CodeDeclares(e.els, ret, t.vars, t.count);
  }

  lemma {:induction false} MarkVarDeclares(e: Code, ret: Name, vars: set<Name>, count: nat)
    requires ClearOfTemps(e)
    requires e.MarkVar?
    ensures var o := WriteCode(e, ret, vars, count);
            Declares(o.code, Binds(e), BoundOnce(e), count, o.count)
    decreases e, 0
  {
    SymExprDeclares(e.arg, vars, count);
    var a := WriteSymExpr(e.arg, vars, count);
    var y, i := a.names[0], e.i;
    var s := IfMark(y, i, [ClearMark(y, i)], [SetMark(y, i)]);
    Plain(ClearMark(y, i));
    Plain(SetMark(y, i));
    Finish(a.code, Binds(e.arg), BoundOnce(e.arg), count, a.count, s, true, a.count);
    Finish(a.code + [s], Binds(e.arg), BoundOnce(e.arg), count, a.count, Copy(ret, y), true, a.count);
    assert a.code + [s, Copy(ret, y)] == a.code + [s] + [Copy(ret, y)];
  }

  lemma {:induction false} IfMarkedDeclares(e: Code, ret: Name, vars: set<Name>, count: nat)
    requires ClearOfTemps(e)
    requires e.IfMarked?
    ensures var o := WriteCode(e, ret, vars, count);
            Declares(o.code, Binds(e), BoundOnce(e), count, o.count)
    decreases e, 1
  {
    SymExprDeclares(e.arg, vars, count);
    var a := WriteSymExpr(e.arg, vars, count);
    var t, f := BranchesDeclare(e, ret, a.vars, a.count);
    Finish(a.code, Binds(e.arg), BoundOnce(e.arg), count, a.count, IfMark(a.names[0], e.i, t.code, f.code),
           BoundOnce(e.thn) && BoundOnce(e.els), f.count);
  }

  lemma {:induction false} CompareDeclares(e: Code, ret: Name, vars: set<Name>, count: nat)
    requires ClearOfTemps(e)
    requires e.Compare?
    ensures var o := WriteCode(e, ret, vars, count);
            Declares(o.code, Binds(e), BoundOnce(e), count, o.count)
    decreases e, 1
  {
    var a, b := ComparedDeclare(e.left, e.right, vars, count);
    var t, f := BranchesDeclare(e, ret, b.vars, b.count);
    var both := BoundOnce(e.left) && BoundOnce(e.right) && Binds(e.left) !! Binds(e.right);
    Finish(a.code + b.code, Binds(e.left) + Binds(e.right), both, count, b.count,
           IfBefore(a.names[0], b.names[0], t.code, f.code), BoundOnce(e.thn) && BoundOnce(e.els), f.count);
  }

  lemma {:induction false} ComparedDeclare(left: Code, right: Code, vars: set<Name>, count: nat)
    returns (a: NamedOut, b: NamedOut)
    requires ClearOfTemps(left) && ClearOfTemps(right)
    ensures a == WriteSymExpr(left, vars, count) && b == WriteSymExpr(right, a.vars, a.count)
    ensures Declares(a.code + b.code, Binds(left) + Binds(right),
                     BoundOnce(left) && BoundOnce(right) && Binds(left) !! Binds(right), count, b.count)
    decreases if left < right then right else left, 5
  {
    SymExprDeclares(left, vars, count);
    a := WriteSymExpr(left, vars, count);
    SymExprDeclares(right, a.vars, a.count);
    b := WriteSymExpr(right, a.vars, a.count);
    Then(a.code, Binds(left), BoundOnce(left), count, a.count, b.code, Binds(right), BoundOnce(right), b.count);
  }

  lemma {:induction false} MatchDeclares(e: Code, ret: Name, vars: set<Name>, count: nat)
    requires ClearOfTemps(e)
    requires e.Match?
    ensures var o := WriteCode(e, ret, vars, count);
            Declares(o.code, Binds(e), BoundOnce(e), count, o.count)
    decreases e, 1
  {
    var a, p, b := MatchParts(e.scrut, e.cases, ret, vars, count);
    MatchCode(e, ret, vars, count);
    MatchJoined(a, a.names[0], p, b, count, Binds(e.scrut), BoundOnce(e.scrut), BindsFirst(e.cases, false),
                FirstOnce(e.cases, false), CasesOnce(e.cases), a.names + p.names, WriteCode(e, ret, vars, count).code);
  }

  /** The three parts of the code for a match. */
  lemma {:induction false} MatchParts(scrut: Code, cases: seq<Case>, ret: Name, vars: set<Name>, count: nat)
    returns (a: NamedOut, p: NamedOut, b: Out)
    requires ClearOfTemps(scrut) && forall i :: 0 <= i < |cases| ==> ClearCase(cases[i])
    ensures a == WriteExpr(scrut, vars, count) && p == WriteArgs(cases, false, a.vars, a.count + 1)
    ensures b == WriteCases(cases, p.names, a.names[0], Temp(a.count), ret, p.vars, p.count)
    ensures Declares(a.code, Binds(scrut), BoundOnce(scrut), count, a.count)
    ensures Declares(p.code, BindsFirst(cases, false), FirstOnce(cases, false), a.count + 1, p.count)
    ensures Declares(b.code, {}, CasesOnce(cases), p.count, b.count)
    decreases Match(scrut, cases), 0
  {
    ExprDeclares(scrut, vars, count);
    a := WriteExpr(scrut, vars, count);
    ArgsDeclare(cases, false, a.vars, a.count + 1);
    p := WriteArgs(cases, false, a.vars, a.count + 1);
    CasesDeclare(cases, p.names, a.names[0], Temp(a.count), ret, p.vars, p.count);
    b := WriteCases(cases, p.names, a.names[0], Temp(a.count), ret, p.vars, p.count);
  }

  lemma MatchJoined(a: NamedOut, y: Name, p: NamedOut, b: Out, count: nat,
                    xs: set<Name>, once: bool, first: set<Name>, onceFirst: bool, onceCases: bool,
                    rel: seq<Name>, code: seq<Stmt>)
    requires count <= a.count < p.count <= b.count && Declares(a.code, xs, once, count, a.count)
    requires Declares(p.code, first, onceFirst, a.count + 1, p.count) &&
             Declares(b.code, {}, onceCases, p.count, b.count)
    requires code == a.code + [GetHead(Temp(a.count), y)] + p.code + b.code + Releases(rel)
    ensures Declares(code, xs + first, once && onceFirst && xs !! first && onceCases, count, b.count)
  {
    var s := GetHead(Temp(a.count), y);
    Start(s, a.count, p.code, first, onceFirst, p.count);
    Then(a.code, xs, once, count, a.count, [s] + p.code, first, onceFirst, p.count);
    assert a.code + [s] + p.code == a.code + ([s] + p.code);
    Then(a.code + [s] + p.code, xs + first, once && onceFirst && xs !! first, count, p.count, b.code, {}, onceCases,
         b.count);
    assert xs + first + {} == xs + first;
    var all := a.code + [s] + p.code + b.code;
    ReleasesDeclare(rel, b.count);
    Then(all, xs + first, once && onceFirst && xs !! first && onceCases, count, b.count,
         Releases(rel), {}, true, b.count);
  }

  lemma {:induction false} ReleasesDeclare(names: seq<Name>, count: nat)
    ensures Declares(Releases(names), {}, true, count, count)
    decreases names
  {
    if names != [] {
      ReleasesDeclare(names[1..], count);
      assert Releases(names)[1..] == Releases(names[1..]);
    }
  }

  /** Patterns before a default. */
  function Arms(cases: seq<Case>): nat {
    if cases == [] || cases[0].Default? then 0 else 1 + Arms(cases[1..])
  }

  lemma {:induction false} ArgsDeclare(cases: seq<Case>, met: bool, vars: set<Name>, count: nat)
    requires forall i :: 0 <= i < |cases| ==> ClearCase(cases[i])
    ensures var o := WriteArgs(cases, met, vars, count);
            && Declares(o.code, BindsFirst(cases, met), FirstOnce(cases, met), count, o.count)
            && Arms(cases) <= |o.names|
    decreases cases, 0
  {
    if cases != [] && !(met && cases[0].Default?) {
      var c, m := cases[0], met || cases[0].Arm?;
      ArgDeclares(c, vars, count);
      var a := WriteArg(c, vars, count);
      ArgsDeclare(cases[1..], m, a.vars, a.count);
      var b := WriteArgs(cases[1..], m, a.vars, a.count);
      Then(a.code, BindsInArg(c), OnceInArg(c), count, a.count,
           b.code, BindsFirst(cases[1..], m), FirstOnce(cases[1..], m), b.count);
    }
  }

  lemma {:induction false} ArgDeclares(c: Case, vars: set<Name>, count: nat)
    requires ClearCase(c)
    ensures var o := WriteArg(c, vars, count);
            Declares(o.code, BindsInArg(c), OnceInArg(c), count, o.count)
    decreases c, 0
  {
    match c
    case Arm(ctor, _, _) =>
      var t, s := Temp(count), WriteCtor(ctor, vars, count).code[1];
      One(s, true, count + 1, count + 1);
      Start(Declare(t), count, [s], {}, true, count + 1);
      assert [Declare(t)] + [s] == [Declare(t), s];
    case Default(body) =>
      assert body < c;
      if !body.Var? { ExprDeclares(body, vars, count); }
  }

  lemma {:induction false} KidsDeclare(xs: seq<Sym>, y: Name, n: nat, count: nat)
    requires forall i :: 0 <= i < |xs| ==> Called(xs[i]).Source?
    requires n <= |xs|
    ensures Declares(WriteKids(xs, y, n), Elements(CalledAll(xs)[..n]), Distinct(CalledAll(xs)[..n]), count, count)
  {
    var qs := CalledAll(xs);
    if n == 0 {
      assert qs[..0] == [];
    } else {
      KidsDeclare(xs, y, n - 1, count);
      assert qs[..n] == qs[..n - 1] + [qs[n - 1]];
      assert WriteKids(xs, y, n) == WriteKids(xs, y, n - 1) + [GetKid(qs[n - 1], y, n - 1)];
      KidMore(WriteKids(xs, y, n - 1), qs[..n - 1], qs[n - 1], y, n - 1, count);
    }
  }

  lemma KidMore(kids: seq<Stmt>, qs: seq<Name>, q: Name, y: Name, k: nat, count: nat)
    requires q.Source? && Declares(kids, Elements(qs), Distinct(qs), count, count)
    ensures Declares(kids + [GetKid(q, y, k)], Elements(qs + [q]), Distinct(qs + [q]), count, count)
  {
    KidDeclares(q, y, k, count);
    Then(kids, Elements(qs), Distinct(qs), count, count, [GetKid(q, y, k)], {q}, true, count);
    OneMore(qs, q);
  }

  lemma KidDeclares(q: Name, y: Name, k: nat, count: nat)
    requires q.Source?
    ensures Declares([GetKid(q, y, k)], {q}, true, count, count)
  {
    assert Declared([GetKid(q, y, k)][1..]) == {};
  }

  lemma OneMore<T>(xs: seq<T>, x: T)
    ensures Elements(xs + [x]) == Elements(xs) + {x}
    ensures Distinct(xs + [x]) <==> Distinct(xs) && Elements(xs) !! {x}
  {
    if Distinct(xs + [x]) {
      forall i, j | 0 <= i < j < |xs|
        ensures xs[i] != xs[j]
      {
        assert (xs + [x])[i] != (xs + [x])[j];
      }
      forall i | 0 <= i < |xs|
        ensures xs[i] != x
      {
        assert (xs + [x])[i] != (xs + [x])[|xs|];
      }
    } else {
      var i, j :| 0 <= i < j < |xs + [x]| && (xs + [x])[i] == (xs + [x])[j];
      assert j == |xs| ==> xs[i] in Elements(xs);
    }
  }

  lemma {:induction false} CasesDeclare(cases: seq<Case>, ctors: seq<Name>, y: Name, h: Name, ret: Name,
                                        vars: set<Name>, count: nat)
    requires forall i :: 0 <= i < |cases| ==> ClearCase(cases[i])
    requires Arms(cases) <= |ctors|
    ensures var o := WriteCases(cases, ctors, y, h, ret, vars, count);
            Declares(o.code, {}, CasesOnce(cases), count, o.count)
    decreases cases, 1
  {
    if cases == [] {
      One(Exit, true, count, count);
    } else if cases[0].Default? {
      DefaultDeclares(cases, ctors, y, h, ret, vars, count);
    } else {
      ArmsDeclare(cases, ctors, y, h, ret, vars, count);
    }
  }

  lemma {:induction false} DefaultDeclares(cases: seq<Case>, ctors: seq<Name>, y: Name, h: Name, ret: Name,
                                           vars: set<Name>, count: nat)
    requires forall i :: 0 <= i < |cases| ==> ClearCase(cases[i])
    requires cases != [] && cases[0].Default?
    ensures var o := WriteCases(cases, ctors, y, h, ret, vars, count);
            Declares(o.code, {}, CasesOnce(cases), count, o.count)
    decreases cases, 0
  {
    var body := cases[0].body;
    assert body < cases[0];
    CodeDeclares(body, ret, vars, count);
    var a := WriteCode(body, ret, vars, count);
    BlockDeclares(a.code, BoundOnce(body), count, a.count);
  }

  lemma {:induction false} ArmsDeclare(cases: seq<Case>, ctors: seq<Name>, y: Name, h: Name, ret: Name,
                                       vars: set<Name>, count: nat)
    requires forall i :: 0 <= i < |cases| ==> ClearCase(cases[i])
    requires Arms(cases) <= |ctors| && cases != [] && cases[0].Arm?
    ensures var o := WriteCases(cases, ctors, y, h, ret, vars, count);
            Declares(o.code, {}, CasesOnce(cases), count, o.count)
    decreases cases, 0
  {
    var c := cases[0];
    ArmDeclares(c, y, ret, vars, count);
    var a := WriteCode(c.body, ret, vars + Keys(c.vars), count);
    CasesDeclare(cases[1..], ctors[1..], y, h, ret, a.vars, a.count);
    var b := WriteCases(cases[1..], ctors[1..], y, h, ret, a.vars, a.count);
    One(IfSame(h, ctors[0], WriteKids(c.vars, y, |c.vars|) + a.code, b.code), CasesOnce(cases), count, b.count);
  }

  lemma BlockDeclares(code: seq<Stmt>, once: bool, lo: nat, hi: nat)
    requires lo <= hi && (OnceDeclared(code) <==> once)
    ensures Declares([Block(code)] + [], {}, once, lo, hi) && Declares([Block(code)] + [Malformed], {}, once, lo, hi)
  {
    One(Block(code), once, lo, hi);
    Finish([Block(code)], {}, once, lo, hi, Malformed, true, hi);
    assert [Block(code)] + [] == [Block(code)];
  }

  lemma {:induction false} ArmDeclares(c: Case, y: Name, ret: Name, vars: set<Name>, count: nat)
    requires ClearCase(c)
    requires c.Arm?
    ensures var a := WriteCode(c.body, ret, vars + Keys(c.vars), count);
            var xs := CalledAll(c.vars);
            Declares(WriteKids(c.vars, y, |c.vars|) + a.code, Elements(xs) + Binds(c.body),
                     Distinct(xs) && BoundOnce(c.body) && Elements(xs) !! Binds(c.body), count, a.count)
    decreases c, 0
  {
    var n, qs := |c.vars|, CalledAll(c.vars);
    assert c.body < c && qs[..n] == qs;
    var a := WriteCode(c.body, ret, vars + Keys(c.vars), count);
    KidsDeclare(c.vars, y, n, count);
    CodeDeclares(c.body, ret, vars + Keys(c.vars), count);
    Then(WriteKids(c.vars, y, n), Elements(qs), Distinct(qs), count, count,
         a.code, Binds(c.body), BoundOnce(c.body), a.count);
  }

  /** The chain of comparisons declares nothing in its own block. */
  lemma CasesDeclareNothing(cases: seq<Case>, ctors: seq<Name>, y: Name, h: Name, ret: Name, vars: set<Name>,
                            count: nat)
    ensures Declared(WriteCases(cases, ctors, y, h, ret, vars, count).code) == {}
  {
    var code := WriteCases(cases, ctors, y, h, ret, vars, count).code;
    assert forall i :: 0 <= i < |code| ==> DeclaredBy(code[i]) == {};
    NothingDeclared(code);
  }

  lemma {:induction false} NothingDeclared(code: seq<Stmt>)
    requires forall i :: 0 <= i < |code| ==> DeclaredBy(code[i]) == {}
    ensures Declared(code) == {}
    decreases code
  {
    if code != [] {
      NothingDeclared(code[1..]);
    }
  }

  /** The function for a program declares no name twice in a block exactly if its body binds
      none twice in one and none of the names bound in the block of the body is a
      parameter's. */
  lemma FunctionDeclares(p: Program)
    requires ClearOfTemps(p.body) && forall i :: 0 <= i < |p.params| ==> Called(p.params[i]).Source?
    ensures var fn := CompileProgram(p);
            var params := Elements(CalledAll(p.params));
            OnceDeclared(fn.body) && params !! Declared(fn.body) <==> BoundOnce(p.body) && params !! Binds(p.body)
  {
    ExprDeclares(p.body, Keys(p.params), 0);
    var code, params := CompileProgram(p).body, Elements(CalledAll(p.params));
    assert forall q <- params :: q.Source?;
    assert forall q <- params :: q in Declared(code) <==> q in SourcesIn(Declared(code));
  }

  /** A variable spelled like a temporary may be declared again as that temporary. */
  lemma TempDeclaredTwice(bound: Code, body: Code)
    ensures var fn := CompileProgram(Program([], Let("e0", bound, body)));
            !OnceDeclared(fn.body) && Called("e0") == fn.result
  {
    assert Decimal(0) == "0" && TempName(0) == "e0";
    IdentOfTemp(0);
    assert Mangle("e0") == "e0";
    var code := WriteCode(Let("e0", bound, body), Temp(0), {}, 1).code;
    assert code[0] == Declare(Temp(0));
    var all := [Declare(Temp(0))] + code;
    assert all[1..] == code;
    assert Keys([]) == {};
    assert CompileProgram(Program([], Let("e0", bound, body))).body == all;
  }
}
