/** What the compiler asks of programs, and what code that meets it binds. */
module Conditions {
  import opened Marks
  import opened Collections
  import opened SideCode
  import opened Identifiers
  import opened Compiler
  import opened Blocks
  import opened Remembered

  // ----- code the compiler handles -----

  /** Code that is compiled as it is meant: literals fit a long and are not zero, symbols that
      are not variables can be read as constants, heads of applications are constants, calls
      have the right number of arguments, marks and comparisons are on variables, no variable
      that is taken is bound again and none is bound twice in a block, and a default comes
      last. */
  predicate Compilable(e: Code, scope: set<Sym>, taken: set<Sym>, b: Batch) {
    match e
    case IntLit(n) => GetSi(n) == n != 0
    case RatLit(num, den) => GetSi(num) == num && GetSi(den) == den
    case Var(s) => s in scope || Readable(s, b)
    case Apply(head, args) =>
      && Readable(head, b) && args != [] && Apart(args)
      && forall i :: 0 <= i < |args| ==> Compilable(args[i], scope, taken, b)
    case Call(prog, args) =>
      && prog in b.progs && |args| == |b.progs[prog].params| && Apart(args)
      && forall i :: 0 <= i < |args| ==> Compilable(args[i], scope, taken, b)
    case Do(first, second) =>
      Compilable(first, scope, taken, b) && Compilable(second, scope, taken, b) && Binds(first) !! Binds(second)
    case Let(x, bound, body) =>
      && x in b.binders && x !in taken && Binds(bound) !! Binds(body)
      && Compilable(bound, scope, taken + {x}, b) && Compilable(body, scope + {x}, taken + {x}, b)
    case Arith(_, left, right) =>
      Compilable(left, scope, taken, b) && Compilable(right, scope, taken, b) && Binds(left) !! Binds(right)
    case Negate(arg) => Compilable(arg, scope, taken, b)
    case IfSign(_, arg, thn, els) =>
      Compilable(arg, scope, taken, b) && Compilable(thn, scope, taken, b) && Compilable(els, scope, taken, b)
    case FailOf(_) => true
    case MarkVar(_, arg) => arg.Var? && arg.s in scope
    case IfMarked(_, arg, thn, els) =>
      arg.Var? && arg.s in scope && Compilable(thn, scope, taken, b) && Compilable(els, scope, taken, b)
    case Compare(left, right, thn, els) =>
      && left.Var? && left.s in scope && right.Var? && right.s in scope
      && Compilable(thn, scope, taken, b) && Compilable(els, scope, taken, b)
    case Match(scrut, cases) =>
      && Compilable(scrut, scope, taken, b) && FirstKnown(cases, scope) && ArmsFirst(cases)
      && forall i :: 0 <= i < |cases| ==> CompilableCase(cases[i], scope, taken, b)
  }

  predicate CompilableCase(c: Case, scope: set<Sym>, taken: set<Sym>, b: Batch) {
    match c
    case Default(body) => Compilable(body, scope, taken, b)
    case Arm(ctor, vars, body) =>
      && Readable(ctor, b) && Distinct(vars) && Elements(vars) <= b.binders && Elements(vars) !! taken
      && Compilable(body, scope + Elements(vars), taken + Elements(vars), b)
  }

  /** A constant that is found under its name: no variable, spelled neither like a temporary
      nor with special characters, and whose global is not hidden by a variable. */
  predicate Readable(c: Sym, b: Batch) {
    c !in b.binders && Key(c).Source? && Mangle(c) == c && Global(c) !in Names(b.binders)
  }

  /** Arguments bind different variables. */
  predicate Apart(es: seq<Code>) {
    forall i, j :: 0 <= i < j < |es| ==> Binds(es[i]) !! Binds(es[j])
  }

  predicate ArmsFirst(cases: seq<Case>) {
    forall i :: 0 <= i < |cases| - 1 ==> cases[i].Arm?
  }

  /** A default without patterns before it is a variable without special characters: anything
      but a symbol is written twice, and the string of a symbol is released as it is. */
  predicate FirstKnown(cases: seq<Case>, scope: set<Sym>) {
    cases != [] && cases[0].Default? ==>
      cases[0].body.Var? && cases[0].body.s in scope && Mangle(cases[0].body.s) == cases[0].body.s
  }

  /** A variable whose name the emitted text does not use for something else. */
  predicate Unreserved(x: Sym, progs: Table, words: set<string>) {
    Mangle(x) !in words && !IsNumber(Mangle(x)) && forall p <- progs :: Mangle(x) != FunctionName(p)
  }

  /** Programs to compile, the symbols that code may bind, the order of symbols, and the key
      words of C++ and the names that it finds in the headers of the checker. */
  datatype Batch = Batch(progs: Table, binders: set<Sym>, before: (Sym, Sym) -> bool, words: set<string>) {
    predicate Valid() {
      && Distinguished(binders)
      && (forall x {:trigger Unreserved(x, progs, words)} :: x in binders ==> Unreserved(x, progs, words))
      && (forall p {:trigger Compiles(p)} :: p in progs ==> Compiles(p))
    }

    predicate Compiles(p: Sym)
      requires p in progs
    {
      && Distinct(progs[p].params) && Elements(progs[p].params) <= binders
      && Compilable(progs[p].body, Elements(progs[p].params), Elements(progs[p].params), this)
    }

    /** What compiled code computes. */
    function W(): World {
      World(progs, map[], before, false)
    }

    /** env is an environment of flat terms whose variables the writer knows; it takes no
        constant for a variable. */
    predicate Ready(env: Env, taken: set<Sym>, vars: set<Name>) {
      && Valid() && env.Keys <= taken <= binders
      && (forall x <- env :: Flat(env[x]) && Key(x) in vars)
      && OnlyBinders(vars, binders)
    }
  }

  /** Applications have symbols as heads, as those built by code and by the parser do. */
  predicate Flat(v: Value) {
    v.App? ==> v.head.Symbol? && forall i :: 0 <= i < |v.args| ==> Flat(v.args[i])
  }

  predicate OnlyBinders(vars: set<Name>, binders: set<Sym>) {
    forall q <- vars :: q.Source? ==> q.s in binders
  }

  // ----- what compilable code binds -----

  lemma NameApart(x: Sym, xs: set<Sym>, binders: set<Sym>)
    requires Distinguished(binders) && xs <= binders && x in binders && x !in xs
    ensures Called(x) !in Names(xs)
  {
    assert forall y <- xs :: Unlike(x, y);
  }

  lemma NamesApart(xs: set<Sym>, ys: set<Sym>, binders: set<Sym>)
    requires Distinguished(binders) && xs <= binders && ys <= binders && xs !! ys
    ensures Names(xs) !! Names(ys)
  {
    assert forall x <- xs, y <- ys :: Unlike(x, y);
  }

  lemma NamesMore(xs: set<Sym>, ys: set<Sym>)
    requires xs <= ys
    ensures Names(xs) <= Names(ys)
  {
  }

  lemma NamesOf(xs: seq<Sym>)
    ensures Elements(CalledAll(xs)) == Names(Elements(xs))
  {
    forall q
      ensures q in Elements(CalledAll(xs)) <==> q in Names(Elements(xs))
    {
      if q in Names(Elements(xs)) {
        var x :| x in xs && q == Called(x);
        var i :| 0 <= i < |xs| && xs[i] == x;
        assert CalledAll(xs)[i] == q;
      }
    }
  }

  lemma NamesDistinct(xs: seq<Sym>, binders: set<Sym>)
    requires Distinguished(binders) && Elements(xs) <= binders && Distinct(xs)
    ensures Distinct(CalledAll(xs)) && forall i :: 0 <= i < |xs| ==> Called(xs[i]).Source?
  {
    assert forall i :: 0 <= i < |xs| ==> xs[i] in Elements(xs);
    assert forall i, j :: 0 <= i < |xs| && 0 <= j < |xs| ==> Unlike(xs[i], xs[j]);
  }

  /** Compilable code binds no name twice in a block, and none that is taken. */
  lemma {:induction false} CompilableOnce(e: Code, scope: set<Sym>, taken: set<Sym>, b: Batch)
    requires Compilable(e, scope, taken, b) && Distinguished(b.binders) && taken <= b.binders
    ensures BoundOnce(e) && ClearOfTemps(e) && Binds(e) <= Names(b.binders) - Names(taken)
    decreases e, 0
  {
    match e
    case IntLit(_) =>
    case RatLit(_, _) =>
    case Var(_) =>
    case Apply(_, args) => AllOnce(args, scope, taken, b);
    case Call(_, args) => AllOnce(args, scope, taken, b);
    case Do(first, second) =>
      CompilableOnce(first, scope, taken, b);
      CompilableOnce(second, scope, taken, b);
    case Let(x, bound, body) =>
      CompilableOnce(bound, scope, taken + {x}, b);
      CompilableOnce(body, scope + {x}, taken + {x}, b);
      NameApart(x, taken, b.binders);
    case Arith(_, left, right) =>
      CompilableOnce(left, scope, taken, b);
      CompilableOnce(right, scope, taken, b);
    case Negate(arg) => CompilableOnce(arg, scope, taken, b);
    case IfSign(_, arg, thn, els) =>
      CompilableOnce(arg, scope, taken, b);
      CompilableOnce(thn, scope, taken, b);
      CompilableOnce(els, scope, taken, b);
    case FailOf(_) =>
    case MarkVar(_, _) =>
    case IfMarked(_, _, thn, els) =>
      CompilableOnce(thn, scope, taken, b);
      CompilableOnce(els, scope, taken, b);
    case Compare(_, _, thn, els) =>
      CompilableOnce(thn, scope, taken, b);
      CompilableOnce(els, scope, taken, b);
    case Match(scrut, cases) =>
      CompilableOnce(scrut, scope, taken, b);
      AllCasesOnce(cases, scope, taken, b);
      NoneFirst(cases, false, scope);
  }

  lemma {:induction false} AllOnce(es: seq<Code>, scope: set<Sym>, taken: set<Sym>, b: Batch)
    requires Distinguished(b.binders) && taken <= b.binders
    requires Apart(es) && forall i :: 0 <= i < |es| ==> Compilable(es[i], scope, taken, b)
    ensures BoundOnceAll(es) && BindsAll(es) <= Names(b.binders) - Names(taken)
    ensures forall i :: 0 <= i < |es| ==> ClearOfTemps(es[i])
    ensures forall x <- BindsAll(es) :: exists i :: 0 <= i < |es| && x in Binds(es[i])
    decreases es, 0
  {
    if es != [] {
      CompilableOnce(es[0], scope, taken, b);
      AllOnce(es[1..], scope, taken, b);
      forall x | x in BindsAll(es[1..])
        ensures x !in Binds(es[0]) && exists i :: 0 <= i < |es| && x in Binds(es[i])
      {
        var i :| 0 <= i < |es[1..]| && x in Binds(es[1..][i]);
        assert es[1..][i] == es[i + 1];
      }
    }
  }

  lemma {:induction false} AllCasesOnce(cases: seq<Case>, scope: set<Sym>, taken: set<Sym>, b: Batch)
    requires Distinguished(b.binders) && taken <= b.binders && ArmsFirst(cases)
    requires forall i :: 0 <= i < |cases| ==> CompilableCase(cases[i], scope, taken, b)
    ensures CasesOnce(cases) && forall i :: 0 <= i < |cases| ==> ClearCase(cases[i])
    decreases cases, 0
  {
    if cases != [] {
      var c := cases[0];
      assert c.body < c;
      if c.Default? {
        CompilableOnce(c.body, scope, taken, b);
      } else {
        CompilableOnce(c.body, scope + Elements(c.vars), taken + Elements(c.vars), b);
        NamesOf(c.vars);
        NamesDistinct(c.vars, b.binders);
        AllCasesOnce(cases[1..], scope, taken, b);
      }
    }
  }

  lemma {:induction false} NoneFirst(cases: seq<Case>, met: bool, scope: set<Sym>)
    requires ArmsFirst(cases) && (!met ==> FirstKnown(cases, scope))
    ensures BindsFirst(cases, met) == {} == RemembersArgs(cases, met) && FirstOnce(cases, met)
    decreases cases
  {
    if cases != [] && cases[0].Arm? {
      NoneFirst(cases[1..], true, scope);
    } else if cases != [] {
      assert cases[1..] == [];
      assert BindsFirst(cases[1..], met) == {} == RemembersArgs(cases[1..], met) && FirstOnce(cases[1..], met);
      assert !met ==> BoundOnce(cases[0].body) && BindsInArg(cases[0]) == {} == RemembersArg(cases[0]);
    }
  }

  /** Compilable code makes the compiler remember only what may be bound. */
  lemma {:induction false} CompilableRemembers(e: Code, scope: set<Sym>, taken: set<Sym>, b: Batch)
    requires Compilable(e, scope, taken, b)
    ensures OnlyBinders(Remembers(e), b.binders)
    decreases e, 0
  {
    match e
    case IntLit(_) =>
    case RatLit(_, _) =>
    case Var(_) =>
    case Apply(_, args) => AllRemember(args, scope, taken, b);
    case Call(_, args) => AllRemember(args, scope, taken, b);
    case Do(first, second) =>
      CompilableRemembers(first, scope, taken, b);
      CompilableRemembers(second, scope, taken, b);
    case Let(x, bound, body) =>
      CompilableRemembers(bound, scope, taken + {x}, b);
      CompilableRemembers(body, scope + {x}, taken + {x}, b);
    case Arith(_, left, right) =>
      CompilableRemembers(left, scope, taken, b);
      CompilableRemembers(right, scope, taken, b);
    case Negate(arg) => CompilableRemembers(arg, scope, taken, b);
    case IfSign(_, arg, thn, els) =>
      CompilableRemembers(arg, scope, taken, b);
      CompilableRemembers(thn, scope, taken, b);
      CompilableRemembers(els, scope, taken, b);
    case FailOf(_) =>
    case MarkVar(_, _) =>
    case IfMarked(_, _, thn, els) =>
      CompilableRemembers(thn, scope, taken, b);
      CompilableRemembers(els, scope, taken, b);
    case Compare(_, _, thn, els) =>
      CompilableRemembers(thn, scope, taken, b);
      CompilableRemembers(els, scope, taken, b);
    case Match(scrut, cases) =>
      CompilableRemembers(scrut, scope, taken, b);
      CasesCompilable(cases, scope, taken, b);
      NoneFirst(cases, false, scope);
  }

  lemma {:induction false} AllRemember(es: seq<Code>, scope: set<Sym>, taken: set<Sym>, b: Batch)
    requires forall i :: 0 <= i < |es| ==> Compilable(es[i], scope, taken, b)
    ensures OnlyBinders(RemembersAll(es), b.binders)
    decreases es, 0
  {
    if es != [] {
      CompilableRemembers(es[0], scope, taken, b);
      AllRemember(es[1..], scope, taken, b);
    }
  }

  lemma {:induction false} CasesCompilable(cases: seq<Case>, scope: set<Sym>, taken: set<Sym>, b: Batch)
    requires forall i :: 0 <= i < |cases| ==> CompilableCase(cases[i], scope, taken, b)
    ensures OnlyBinders(RemembersCases(cases), b.binders)
    decreases cases, 0
  {
    if cases != [] {
      var c := cases[0];
      assert c.body < c;
      if c.Default? {
        CompilableRemembers(c.body, scope, taken, b);
      } else {
        CompilableRemembers(c.body, scope + Elements(c.vars), taken + Elements(c.vars), b);
        assert forall x :: x in c.vars ==> x in Elements(c.vars);
        CasesCompilable(cases[1..], scope, taken, b);
      }
    }
  }
}
