/** Which programs are compiled to functions whose text makes sense.  Those of valid batches
    are. */
module Building {
  import opened Marks
  import opened Collections
  import opened SideCode
  import opened Identifiers
  import opened Compiler
  import opened Blocks
  import opened Remembered
  import opened Scoping
  import opened Conditions

  /** No name is declared twice in a block, and each that is used is declared before. */
  predicate WellFormed(fn: Function, progs: Table) {
    var params := Elements(CalledAll(fn.params));
    && Distinct(CalledAll(fn.params)) && OnceDeclared(fn.body) && params !! Declared(fn.body)
    && Resolved(fn.body, params, progs) && fn.result in params + Declared(fn.body)
  }

  /** The condition on a program. */
  predicate SoundProgram(p: Program, progs: Table) {
    var params := Elements(CalledAll(p.params));
    && Distinct(CalledAll(p.params)) && BoundOnce(p.body) && params !! Binds(p.body)
    && Sound(p.body, progs, Keys(p.params), params)
  }

  /** The function for a program is well formed exactly if the program is sound. */
  lemma FunctionWellFormed(p: Program, progs: Table)
    requires Unconfused(p.body) && forall i :: 0 <= i < |p.params| ==> NotTemp(p.params[i])
    ensures WellFormed(CompileProgram(p), progs) <==> SoundProgram(p, progs)
  {
    var params := Elements(CalledAll(p.params));
    UnconfusedClear(p.body);
    FunctionDeclares(p);
    ExprThen(p.body, Keys(p.params), 0, params, progs, Keys(p.params), params);
  }

  // ----- programs of valid batches -----

  /** Variables in scope are known and declared, and only variables are known. */
  predicate InScope(scope: set<Sym>, b: Batch, seen: set<Name>, bound: set<Name>) {
    && Distinguished(b.binders) && scope <= b.binders && OnlyBinders(seen, b.binders)
    && forall x <- scope :: Key(x) in seen && Called(x) in bound
  }

  lemma SymbolSound(s: Sym, scope: set<Sym>, b: Batch, seen: set<Name>, bound: set<Name>)
    requires InScope(scope, b, seen, bound) && (s in scope || Readable(s, b))
    ensures NotTemp(s) && Reads(s, seen, bound)
  {
  }

  lemma {:induction false} CompilableSound(e: Code, scope: set<Sym>, taken: set<Sym>, b: Batch, seen: set<Name>,
                                           bound: set<Name>)
    requires Compilable(e, scope, taken, b) && InScope(scope, b, seen, bound)
    ensures Sound(e, b.progs, seen, bound) && Unconfused(e)
    decreases e, 2
  {
    match e
    case IntLit(_) =>
    case RatLit(_, _) =>
    case Var(s) => SymbolSound(s, scope, b, seen, bound);
    case Apply(_, _) => CallSound(e, scope, taken, b, seen, bound);
    case Call(_, _) => CallSound(e, scope, taken, b, seen, bound);
    case Do(first, second) =>
      CompilableSound(first, scope, taken, b, seen, bound);
      CompilableRemembers(first, scope, taken, b);
      CompilableSound(second, scope, taken, b, seen + Remembers(first), bound + Binds(first));
    case Let(x, c, body) =>
      CompilableSound(c, scope, taken + {x}, b, seen, bound + {Called(x)});
      CompilableRemembers(c, scope, taken + {x}, b);
      CompilableSound(body, scope + {x}, taken + {x}, b, seen + Remembers(c) + {Key(x)},
                      bound + {Called(x)} + Binds(c));
    case Arith(_, _, _) => ArithSound(e, scope, taken, b, seen, bound);
    case Negate(arg) => CompilableSound(arg, scope, taken, b, seen, bound);
    case IfSign(_, _, _, _) => IfSignSound(e, scope, taken, b, seen, bound);
    case FailOf(_) =>
    case MarkVar(_, arg) => SymbolSound(arg.s, scope, b, seen, bound);
    case IfMarked(_, arg, _, _) =>
      SymbolSound(arg.s, scope, b, seen, bound);
      BranchesSound(e, scope, taken, b, seen, bound);
    case Compare(left, right, _, _) =>
      SymbolSound(left.s, scope, b, seen, bound);
      SymbolSound(right.s, scope, b, seen, bound);
      BranchesSound(e, scope, taken, b, seen, bound);
    case Match(scrut, cases) =>
      CompilableSound(scrut, scope, taken, b, seen, bound);
      CompilableRemembers(scrut, scope, taken, b);
      CompilableMatch(cases, scope, taken, b, seen + Remembers(scrut), bound + Binds(scrut));
  }

  lemma {:induction false} ArithSound(e: Code, scope: set<Sym>, taken: set<Sym>, b: Batch, seen: set<Name>,
                                      bound: set<Name>)
    requires e.Arith? && Compilable(e, scope, taken, b) && InScope(scope, b, seen, bound)
    ensures Sound(e, b.progs, seen, bound) && Unconfused(e)
    decreases e, 1
  {
    var seen', bound' := seen + Remembers(e.left), bound + Binds(e.left);
    CompilableSound(e.left, scope, taken, b, seen, bound);
    CompilableRemembers(e.left, scope, taken, b);
    CompilableSound(e.right, scope, taken, b, seen', bound');
    StillUsable(e.left, scope, taken, b, seen, bound' + Binds(e.right));
    StillUsable(e.right, scope, taken, b, seen', bound' + Binds(e.right));
  }

  lemma StillUsable(e: Code, scope: set<Sym>, taken: set<Sym>, b: Batch, seen: set<Name>, bound: set<Name>)
    requires Compilable(e, scope, taken, b) && InScope(scope, b, seen, bound)
    ensures Usable(e, seen, bound)
  {
    if e.Var? {
      SymbolSound(e.s, scope, b, seen, bound);
    }
  }

  /** Two branches, written where the same is known. */
  lemma {:induction false} BranchesSound(e: Code, scope: set<Sym>, taken: set<Sym>, b: Batch, seen: set<Name>,
                                         bound: set<Name>)
    requires (e.IfSign? || e.IfMarked? || e.Compare?) && InScope(scope, b, seen, bound)
    requires Compilable(e.thn, scope, taken, b) && Compilable(e.els, scope, taken, b)
    ensures Sound(e.thn, b.progs, seen, bound) && Sound(e.els, b.progs, seen + Remembers(e.thn), bound)
    ensures Unconfused(e.thn) && Unconfused(e.els)
    ensures InScope(scope, b, seen + Remembers(e.thn) + Remembers(e.els), bound)
    decreases e, 0
  {
    CompilableSound(e.thn, scope, taken, b, seen, bound);
    CompilableRemembers(e.thn, scope, taken, b);
    CompilableSound(e.els, scope, taken, b, seen + Remembers(e.thn), bound);
    CompilableRemembers(e.els, scope, taken, b);
  }

  lemma {:induction false} IfSignSound(e: Code, scope: set<Sym>, taken: set<Sym>, b: Batch, seen: set<Name>,
                                       bound: set<Name>)
    requires e.IfSign? && Compilable(e, scope, taken, b) && InScope(scope, b, seen, bound)
    ensures Sound(e, b.progs, seen, bound) && Unconfused(e)
    decreases e, 1
  {
    CompilableSound(e.arg, scope, taken, b, seen, bound);
    CompilableRemembers(e.arg, scope, taken, b);
    var seen', bound' := seen + Remembers(e.arg), bound + Binds(e.arg);
    var again := seen' + Remembers(e.thn) + Remembers(e.els);
    BranchesSound(e, scope, taken, b, seen', bound');
    BranchesSound(e, scope, taken, b, again, bound');
    assert again + Remembers(e.thn) == again;
  }

  lemma {:induction false} CallSound(e: Code, scope: set<Sym>, taken: set<Sym>, b: Batch, seen: set<Name>,
                                     bound: set<Name>)
    requires (e.Apply? || e.Call?) && Compilable(e, scope, taken, b) && InScope(scope, b, seen, bound)
    ensures Sound(e, b.progs, seen, bound) && Unconfused(e)
    decreases e, 1
  {
    ArgsSound(e.args, scope, taken, b, seen, bound);
    AllUsable(e.args, scope, taken, b, seen, bound + BindsAll(e.args));
    if e.Apply? {
      AllRemember(e.args, scope, taken, b);
      SymbolSound(e.head, scope, b, seen + RemembersAll(e.args), bound + BindsAll(e.args));
    }
  }

  lemma {:induction false} ArgsSound(es: seq<Code>, scope: set<Sym>, taken: set<Sym>, b: Batch, seen: set<Name>,
                                     bound: set<Name>)
    requires (forall i :: 0 <= i < |es| ==> Compilable(es[i], scope, taken, b)) && InScope(scope, b, seen, bound)
    ensures WrittenAll(es, b.progs, seen, bound) && forall i :: 0 <= i < |es| ==> Unconfused(es[i])
    decreases es, 0
  {
    if es != [] {
      CompilableSound(es[0], scope, taken, b, seen, bound);
      CompilableRemembers(es[0], scope, taken, b);
      ArgsSound(es[1..], scope, taken, b, seen + Remembers(es[0]), bound + Binds(es[0]));
    }
  }

  lemma {:induction false} AllUsable(es: seq<Code>, scope: set<Sym>, taken: set<Sym>, b: Batch, seen: set<Name>,
                                     bound: set<Name>)
    requires (forall i :: 0 <= i < |es| ==> Compilable(es[i], scope, taken, b)) && InScope(scope, b, seen, bound)
    ensures UsableAll(es, seen, bound)
    decreases es
  {
    if es != [] {
      StillUsable(es[0], scope, taken, b, seen, bound);
      CompilableRemembers(es[0], scope, taken, b);
      AllUsable(es[1..], scope, taken, b, seen + Remembers(es[0]), bound);
    }
  }

  lemma {:induction false} CompilableMatch(cases: seq<Case>, scope: set<Sym>, taken: set<Sym>, b: Batch,
                                           seen: set<Name>, bound: set<Name>)
    requires (forall i :: 0 <= i < |cases| ==> CompilableCase(cases[i], scope, taken, b)) && ArmsFirst(cases)
    requires FirstKnown(cases, scope) && InScope(scope, b, seen, bound)
    ensures SoundMatch(cases, b.progs, seen, bound) && forall i :: 0 <= i < |cases| ==> UnconfusedCase(cases[i])
    decreases cases, 1
  {
    NoneFirst(cases, false, scope);
    assert seen + {} == seen && bound + {} == bound;
    PatternsSound(cases, false, scope, taken, b, seen, bound);
    CasesSound(cases, scope, taken, b, seen, bound);
  }

  lemma {:induction false} PatternsSound(cases: seq<Case>, met: bool, scope: set<Sym>, taken: set<Sym>, b: Batch,
                                         seen: set<Name>, bound: set<Name>)
    requires (forall i :: 0 <= i < |cases| ==> CompilableCase(cases[i], scope, taken, b)) && ArmsFirst(cases)
    requires (!met ==> FirstKnown(cases, scope)) && InScope(scope, b, seen, bound)
    ensures SoundArgs(cases, met, b.progs, seen, bound) && Released(cases, met, bound)
    decreases cases
  {
    if cases != [] && cases[0].Arm? {
      SymbolSound(cases[0].ctor, scope, b, seen, bound);
      assert seen + RemembersArg(cases[0]) == seen && bound + BindsInArg(cases[0]) == bound;
      PatternsSound(cases[1..], true, scope, taken, b, seen, bound);
    } else if cases != [] {
      assert cases[1..] == [];
    }
  }

  lemma {:induction false} CasesSound(cases: seq<Case>, scope: set<Sym>, taken: set<Sym>, b: Batch, seen: set<Name>,
                                      bound: set<Name>)
    requires (forall i :: 0 <= i < |cases| ==> CompilableCase(cases[i], scope, taken, b)) && ArmsFirst(cases)
    requires InScope(scope, b, seen, bound)
    ensures SoundCases(cases, b.progs, seen, bound) && forall i :: 0 <= i < |cases| ==> UnconfusedCase(cases[i])
    decreases cases, 0
  {
    if cases != [] {
      var c := cases[0];
      assert c.body < c;
      if c.Default? {
        CompilableSound(c.body, scope, taken, b, seen, bound);
      } else {
        ArmSound(c, scope, taken, b, seen, bound);
        CasesSound(cases[1..], scope, taken, b, seen + Keys(c.vars) + Remembers(c.body), bound);
      }
    }
  }

  lemma {:induction false} ArmSound(c: Case, scope: set<Sym>, taken: set<Sym>, b: Batch, seen: set<Name>,
                                    bound: set<Name>)
    requires c.Arm? && CompilableCase(c, scope, taken, b) && InScope(scope, b, seen, bound)
    ensures Sound(c.body, b.progs, seen + Keys(c.vars), bound + Elements(CalledAll(c.vars))) && UnconfusedCase(c)
    ensures InScope(scope, b, seen + Keys(c.vars) + Remembers(c.body), bound)
    decreases c, 0
  {
    assert c.body < c;
    var xs := Elements(c.vars);
    PatternInScope(c, scope, b, seen, bound);
    CompilableSound(c.body, scope + xs, taken + xs, b, seen + Keys(c.vars), bound + Elements(CalledAll(c.vars)));
    CompilableRemembers(c.body, scope + xs, taken + xs, b);
    SymbolSound(c.ctor, scope, b, seen, bound);
  }

  lemma PatternInScope(c: Case, scope: set<Sym>, b: Batch, seen: set<Name>, bound: set<Name>)
    requires c.Arm? && Elements(c.vars) <= b.binders && InScope(scope, b, seen, bound)
    ensures InScope(scope + Elements(c.vars), b, seen + Keys(c.vars), bound + Elements(CalledAll(c.vars)))
    ensures InScope(scope, b, seen + Keys(c.vars), bound)
    ensures forall i :: 0 <= i < |c.vars| ==> NotTemp(c.vars[i])
  {
    NamesOf(c.vars);
    assert forall x :: x in c.vars ==> x in Elements(c.vars);
  }

  /** The function for a program of a valid batch is well formed. */
  lemma ProgramBuilds(b: Batch, prog: Sym)
    requires b.Valid() && prog in b.progs
    ensures WellFormed(CompileProgram(b.progs[prog]), b.progs)
  {
    assert b.Compiles(prog);
    var p := b.progs[prog];
    var scope := Elements(p.params);
    CompilableOnce(p.body, scope, scope, b);
    NamesOf(p.params);
    NamesDistinct(p.params, b.binders);
    assert forall i :: 0 <= i < |p.params| ==> p.params[i] in scope;
    assert InScope(scope, b, Keys(p.params), Elements(CalledAll(p.params)));
    CompilableSound(p.body, scope, scope, b, Keys(p.params), Elements(CalledAll(p.params)));
    FunctionWellFormed(p, b.progs);
  }

  // ----- programs whose text makes no sense -----

  /** A symbol of one letter, other than e, is written as it is. */
  lemma OneLetter(s: Sym)
    requires |s| == 1 && IsWordChar(s[0]) && s[0] != 'e'
    ensures Key(s) == Called(s) == Source(s)
  {
    assert Mangle(s) == s;
  }

  predicate Compiles(e: Code, progs: Table) {
    WellFormed(CompileProgram(Program(["v"], e)), progs)
  }

  lemma CompilesSound(e: Code, progs: Table)
    requires Unconfused(e)
    ensures Compiles(e, progs) <==>
            BoundOnce(e) && Source("v") !in Binds(e) && Sound(e, progs, {Source("v")}, {Source("v")})
  {
    OneLetter("v");
    var p := Program(["v"], e);
    FunctionWellFormed(p, progs);
    assert Keys(p.params) == {Source("v")};
    assert Elements(CalledAll(p.params)) == {Source("v")};
  }

  /** A mark on a constant. */
  lemma MarkedConstant(i: Bit, progs: Table)
    ensures var e := MarkVar(i, Var("k")); BoundOnce(e) && !Compiles(e, progs)
  {
    OneLetter("k");
    CompilesSound(MarkVar(i, Var("k")), progs);
  }

  /** A constant named like a variable of an earlier branch, which is remembered. */
  lemma RememberedBranch(i: Bit, progs: Table)
    ensures var e := IfMarked(i, Var("v"), Let("x", Var("v"), Var("x")), Var("x")); BoundOnce(e) && !Compiles(e, progs)
  {
    OneLetter("v");
    OneLetter("x");
    var thn := Let("x", Var("v"), Var("x"));
    assert Unconfused(thn) && Remembers(thn) == {Source("x")};
    CompilesSound(IfMarked(i, Var("v"), thn, Var("x")), progs);
  }

  /** A match whose first case is a constant, which is released. */
  lemma ReleasedConstant(progs: Table)
    ensures var e := Match(Var("v"), [Default(Var("k"))]); BoundOnce(e) && !Compiles(e, progs)
  {
    OneLetter("v");
    OneLetter("k");
    var e := Match(Var("v"), [Default(Var("k"))]);
    FirstSymbol("k");
    assert e.cases[0] == Default(Var("k")) && Unconfused(Var("k"));
    assert {Source("v")} + Binds(e.scrut) + BindsFirst(e.cases, false) == {Source("v")};
    CompilesSound(e, progs);
  }

  lemma FirstSymbol(s: Sym)
    ensures var cases := [Default(Var(s))];
            && BindsFirst(cases, false) == {} && FirstOnce(cases, false) && CasesOnce(cases)
            && forall bound: set<Name> :: Released(cases, false, bound) <==> Key(s) in bound
  {
    var cases := [Default(Var(s))];
    assert cases[1..] == [];
    assert BindsFirst(cases[1..], false) == {} && FirstOnce(cases[1..], false);
    assert forall bound: set<Name> :: Released(cases[1..], false, bound);
  }

  /** The literal zero, for which C++ finds two constructors. */
  lemma LiteralZero(progs: Table)
    ensures !Compiles(IntLit(0), progs)
  {
    CompilesSound(IntLit(0), progs);
  }
}
