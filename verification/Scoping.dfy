/** Whether emitted text makes sense: names are declared where they are used.  The compiler
    remembers variables whose blocks have ended, so this depends on all that it has written
    before. */
module Scoping {
  import opened Marks
  import opened Collections
  import opened SideCode
  import opened Identifiers
  import opened Compiler
  import opened Blocks
  import opened Remembered

  // ----- resolved text -----

  predicate AllIn(names: seq<Name>, known: set<Name>) {
    forall i :: 0 <= i < |names| ==> names[i] in known
  }

  /** Each name that is read or assigned is known or was declared before it in its block or
      in one around it; functions that are called exist and have so many parameters; no
      literal is zero, and nothing is malformed. */
  predicate Resolved(ss: seq<Stmt>, known: set<Name>, progs: Table)
    decreases ss
  {
    ss == [] || (ResolvedIn(ss[0], known, progs) && Resolved(ss[1..], known + DeclaredBy(ss[0]), progs))
  }

  predicate ResolvedIn(s: Stmt, known: set<Name>, progs: Table)
    decreases s
  {
    match s
    case Declare(_) => true
    case NewInt(x, n) => x in known && n != 0
    case NewRat(x, _, _) => x in known
    case Copy(x, y) => x in known && y in known
    case Constant(x, _) => x in known
    case Null(x) => x in known
    case NewApp(x, head, args) => x in known && head in known && AllIn(args, known)
    case CallFn(x, f, args) => x in known && AllIn(args, known) && f in progs && |args| == |progs[f].params|
    case GetHead(_, y) => y in known
    case GetKid(_, y, _) => y in known
    case IfClass(y, ints, rats) => y in known && Resolved(ints, known, progs) && Resolved(rats, known, progs)
    case Compute(x, _, y, z) => x in known && y in known && z in known
    case ComputeNeg(x, y) => x in known && y in known
    case IfSgn(_, y, thn, els) => y in known && Resolved(thn, known, progs) && Resolved(els, known, progs)
    case IfMark(y, _, thn, els) => y in known && Resolved(thn, known, progs) && Resolved(els, known, progs)
    case SetMark(y, _) => y in known
    case ClearMark(y, _) => y in known
    case IfSame(y, z, thn, els) => {y, z} <= known && Resolved(thn, known, progs) && Resolved(els, known, progs)
    case IfBefore(y, z, thn, els) => {y, z} <= known && Resolved(thn, known, progs) && Resolved(els, known, progs)
    case Block(body) => Resolved(body, known, progs)
    case Release(x) => x in known
    case Exit => true
    case Malformed => false
  }

  lemma {:induction false} ResolvedCat(a: seq<Stmt>, b: seq<Stmt>, known: set<Name>, progs: Table)
    ensures Resolved(a + b, known, progs) <==> Resolved(a, known, progs) && Resolved(b, known + Declared(a), progs)
    decreases a
  {
    if a == [] {
      assert a + b == b && known + Declared(a) == known;
    } else {
      assert (a + b)[0] == a[0] && (a + b)[1..] == a[1..] + b;
      ResolvedCat(a[1..], b, known + DeclaredBy(a[0]), progs);
      assert known + DeclaredBy(a[0]) + Declared(a[1..]) == known + Declared(a);
    }
  }

  lemma ResolvedOne(s: Stmt, known: set<Name>, progs: Table)
    ensures Resolved([s], known, progs) <==> ResolvedIn(s, known, progs)
  {
    assert Resolved([s][1..], known + DeclaredBy(s), progs);
  }

  /** Code and a last statement. */
  lemma ResolvedThen(a: seq<Stmt>, s: Stmt, known: set<Name>, progs: Table)
    ensures Resolved(a + [s], known, progs) <==> Resolved(a, known, progs) && ResolvedIn(s, known + Declared(a), progs)
  {
    ResolvedCat(a, [s], known, progs);
    ResolvedOne(s, known + Declared(a), progs);
  }

  // ----- the condition on the source -----

  /** A symbol that was bound before is still bound. */
  predicate Reads(s: Sym, seen: set<Name>, bound: set<Name>) {
    Key(s) in seen ==> Called(s) in bound
  }

  predicate Known(e: Code, seen: set<Name>, bound: set<Name>) {
    e.Var? && Key(e.s) in seen && Called(e.s) in bound
  }

  /** Code that can be written where the symbols in seen were bound before, anywhere, and the
      names in bound are declared. */
  predicate Sound(e: Code, progs: Table, seen: set<Name>, bound: set<Name>)
    decreases e, 0
  {
    match e
    case IntLit(n) => GetSi(n) != 0
    case RatLit(_, _) => true
    case Var(s) => Reads(s, seen, bound)
    case Apply(head, args) =>
      && WrittenAll(args, progs, seen, bound) && UsableAll(args, seen, bound + BindsAll(args))
      && Reads(head, seen + RemembersAll(args), bound + BindsAll(args))
    case Call(prog, args) =>
      && WrittenAll(args, progs, seen, bound) && UsableAll(args, seen, bound + BindsAll(args))
      && prog in progs && |args| == |progs[prog].params|
    case Do(first, second) =>
      Sound(first, progs, seen, bound) && Sound(second, progs, seen + Remembers(first), bound + Binds(first))
    case Let(x, b, body) =>
      && Sound(b, progs, seen, bound + {Called(x)})
      && Sound(body, progs, seen + Remembers(b) + {Key(x)}, bound + {Called(x)} + Binds(b))
    case Arith(_, left, right) =>
      var seen', bound' := seen + Remembers(left), bound + Binds(left) + Binds(right);
      && Written(left, progs, seen, bound) && Written(right, progs, seen', bound + Binds(left))
      && Usable(left, seen, bound') && Usable(right, seen', bound')
    case Negate(arg) => Sound(arg, progs, seen, bound)
    case IfSign(_, arg, thn, els) =>
      var seen', bound' := seen + Remembers(arg), bound + Binds(arg);
      var again := seen' + Remembers(thn) + Remembers(els);
      && Sound(arg, progs, seen, bound)
      && Sound(thn, progs, seen', bound') && Sound(els, progs, seen' + Remembers(thn), bound')
      && Sound(thn, progs, again, bound') && Sound(els, progs, again, bound')
    case FailOf(_) => true
    case MarkVar(_, arg) => Known(arg, seen, bound)
    case IfMarked(_, arg, thn, els) =>
      && Known(arg, seen, bound)
      && Sound(thn, progs, seen, bound) && Sound(els, progs, seen + Remembers(thn), bound)
    case Compare(left, right, thn, els) =>
      && Known(left, seen, bound) && Known(right, seen, bound)
      && Sound(thn, progs, seen, bound) && Sound(els, progs, seen + Remembers(thn), bound)
    case Match(scrut, cases) =>
      Sound(scrut, progs, seen, bound) && SoundMatch(cases, progs, seen + Remembers(scrut), bound + Binds(scrut))
  }

  /** The cases of a match: what they are compared with, their code, and what is released. */
  predicate SoundMatch(cases: seq<Case>, progs: Table, seen: set<Name>, bound: set<Name>)
    decreases cases, 1
  {
    && SoundArgs(cases, false, progs, seen, bound)
    && SoundCases(cases, progs, seen + RemembersArgs(cases, false), bound + BindsFirst(cases, false))
    && Released(cases, false, bound + BindsFirst(cases, false))
  }

  /** Code written before its value is used: nothing is written for a variable. */
  predicate Written(e: Code, progs: Table, seen: set<Name>, bound: set<Name>)
    decreases e, 1
  {
    (e.Var? && Key(e.s) in seen) || Sound(e, progs, seen, bound)
  }

  /** The value of code can be used later. */
  predicate Usable(e: Code, seen: set<Name>, bound: set<Name>) {
    e.Var? ==> Reads(e.s, seen, bound)
  }

  predicate WrittenAll(es: seq<Code>, progs: Table, seen: set<Name>, bound: set<Name>)
    decreases es, 0
  {
    es == [] || (Written(es[0], progs, seen, bound) &&
                 WrittenAll(es[1..], progs, seen + Remembers(es[0]), bound + Binds(es[0])))
  }

  predicate UsableAll(es: seq<Code>, seen: set<Name>, bound: set<Name>) {
    es == [] || (Usable(es[0], seen, bound) && UsableAll(es[1..], seen + Remembers(es[0]), bound))
  }

  predicate SoundArgs(cases: seq<Case>, met: bool, progs: Table, seen: set<Name>, bound: set<Name>)
    decreases cases, 0
  {
    cases == [] || (met && cases[0].Default?) ||
    var c := cases[0];
    && SoundArg(c, progs, seen, bound)
    && SoundArgs(cases[1..], met || c.Arm?, progs, seen + RemembersArg(c), bound + BindsInArg(c))
  }

  predicate SoundArg(c: Case, progs: Table, seen: set<Name>, bound: set<Name>)
    decreases c, 0
  {
    match c
    case Arm(ctor, _, _) => Reads(ctor, seen, bound)
    case Default(body) => body.Var? || Sound(body, progs, seen, bound)
  }

  /** Symbols released as they are spelled are declared. */
  predicate Released(cases: seq<Case>, met: bool, bound: set<Name>) {
    cases == [] || (met && cases[0].Default?) ||
    ((cases[0].Default? && cases[0].body.Var? ==> Key(cases[0].body.s) in bound) &&
     Released(cases[1..], met || cases[0].Arm?, bound))
  }

  /** A default is the last case. */
  predicate SoundCases(cases: seq<Case>, progs: Table, seen: set<Name>, bound: set<Name>)
    decreases cases, 0
  {
    cases == [] ||
    match cases[0]
    case Default(body) => assert body < cases[0]; |cases| == 1 && Sound(body, progs, seen, bound)
    case Arm(_, xs, body) =>
      assert body < cases[0];
      && Sound(body, progs, seen + Keys(xs), bound + Elements(CalledAll(xs)))
      && SoundCases(cases[1..], progs, seen + Keys(xs) + Remembers(body), bound)
  }

  // ----- symbols that are not spelled like temporaries -----

  predicate NotTemp(s: Sym) {
    Key(s).Source? && Called(s).Source?
  }

  predicate Unconfused(e: Code)
    decreases e
  {
    match e
    case IntLit(_) => true
    case RatLit(_, _) => true
    case Var(s) => NotTemp(s)
    case Apply(head, args) => NotTemp(head) && forall i :: 0 <= i < |args| ==> Unconfused(args[i])
    case Call(_, args) => forall i :: 0 <= i < |args| ==> Unconfused(args[i])
    case Do(first, second) => Unconfused(first) && Unconfused(second)
    case Let(x, bound, body) => NotTemp(x) && Unconfused(bound) && Unconfused(body)
    case Arith(_, left, right) => Unconfused(left) && Unconfused(right)
    case Negate(arg) => Unconfused(arg)
    case IfSign(_, arg, thn, els) => Unconfused(arg) && Unconfused(thn) && Unconfused(els)
    case FailOf(_) => true
    case MarkVar(_, arg) => Unconfused(arg)
    case IfMarked(_, arg, thn, els) => Unconfused(arg) && Unconfused(thn) && Unconfused(els)
    case Compare(left, right, thn, els) =>
      Unconfused(left) && Unconfused(right) && Unconfused(thn) && Unconfused(els)
    case Match(scrut, cases) => Unconfused(scrut) && forall i :: 0 <= i < |cases| ==> UnconfusedCase(cases[i])
  }

  predicate UnconfusedCase(c: Case)
    decreases c
  {
    && Unconfused(c.body)
    && (c.Arm? ==> NotTemp(c.ctor) && forall i :: 0 <= i < |c.vars| ==> NotTemp(c.vars[i]))
  }

  lemma {:induction false} UnconfusedClear(e: Code)
    requires Unconfused(e)
    ensures ClearOfTemps(e)
    decreases e
  {
    match e
    case IntLit(_) =>
    case RatLit(_, _) =>
    case Var(_) =>
    case Apply(_, args) => forall i | 0 <= i < |args| { UnconfusedClear(args[i]); }
    case Call(_, args) => forall i | 0 <= i < |args| { UnconfusedClear(args[i]); }
    case Do(first, second) => UnconfusedClear(first); UnconfusedClear(second);
    case Let(_, bound, body) => UnconfusedClear(bound); UnconfusedClear(body);
    case Arith(_, left, right) => UnconfusedClear(left); UnconfusedClear(right);
    case Negate(arg) => UnconfusedClear(arg);
    case IfSign(_, arg, thn, els) => UnconfusedClear(arg); UnconfusedClear(thn); UnconfusedClear(els);
    case FailOf(_) =>
    case MarkVar(_, arg) => UnconfusedClear(arg);
    case IfMarked(_, arg, thn, els) => UnconfusedClear(arg); UnconfusedClear(thn); UnconfusedClear(els);
    case Compare(left, right, thn, els) =>
      UnconfusedClear(left); UnconfusedClear(right); UnconfusedClear(thn); UnconfusedClear(els);
    case Match(scrut, cases) =>
      UnconfusedClear(scrut);
      forall i | 0 <= i < |cases|
        ensures ClearCase(cases[i])
      {
        assert cases[i].body < cases[i];
        UnconfusedClear(cases[i].body);
      }
  }

  // ----- what is written is resolved exactly if the condition holds -----

  /** Remembered and known are the symbols in seen and the names in bound, but for
      temporaries. */
  ghost predicate At(vars: set<Name>, known: set<Name>, seen: set<Name>, bound: set<Name>) {
    Alike(vars, seen) && Alike(known, bound)
  }

  lemma AtMore(vars: set<Name>, known: set<Name>, seen: set<Name>, bound: set<Name>, t: Name)
    requires At(vars, known, seen, bound) && t.Temp?
    ensures At(vars, known + {t}, seen, bound)
  {
  }

  lemma CodeAfter(e: Code, ret: Name, vars: set<Name>, count: nat, known: set<Name>, seen: set<Name>, bound: set<Name>)
    requires Unconfused(e) && At(vars, known, seen, bound)
    ensures var o := WriteCode(e, ret, vars, count);
            At(o.vars, known + Declared(o.code), seen + Remembers(e), bound + Binds(e))
  {
    UnconfusedClear(e);
    CodeRemembers(e, ret, vars, count);
    CodeDeclares(e, ret, vars, count);
    SourcesAlike(Declared(WriteCode(e, ret, vars, count).code), Binds(e));
  }

  lemma SourcesAlike(names: set<Name>, xs: set<Name>)
    requires SourcesIn(names) == xs
    ensures Alike(names, xs)
  {
    forall q: Name | q.Source?
      ensures q in names <==> q in xs
    {
      assert q in names <==> q in SourcesIn(names);
    }
  }

  lemma ExprAfter(e: Code, vars: set<Name>, count: nat, known: set<Name>, seen: set<Name>, bound: set<Name>)
    requires Unconfused(e) && At(vars, known, seen, bound)
    ensures var o := WriteExpr(e, vars, count);
            At(o.vars, known + Declared(o.code), seen + Remembers(e), bound + Binds(e))
  {
    UnconfusedClear(e);
    ExprRemembers(e, vars, count);
    ExprDeclares(e, vars, count);
    SourcesAlike(Declared(WriteExpr(e, vars, count).code), Binds(e));
  }

  /** The name of a value can be used where the value can. */
  lemma NameUsable(e: Code, vars: set<Name>, count: nat, seen: set<Name>, known: set<Name>, bound: set<Name>)
    requires Unconfused(e) && At(vars, known, seen, bound) && Declared(WriteExpr(e, vars, count).code) <= known
    ensures WriteExpr(e, vars, count).names[0] in known <==> Usable(e, seen, bound)
  {
    var t, code := Temp(count), WriteCode(e, Temp(count), vars, count + 1).code;
    assert ([Declare(t)] + code)[0] == Declare(t);
  }

  lemma {:induction false} CodeResolves(e: Code, ret: Name, vars: set<Name>, count: nat, known: set<Name>,
                                        progs: Table, seen: set<Name>, bound: set<Name>)
    requires Unconfused(e) && ret in known && At(vars, known, seen, bound)
    ensures Resolved(WriteCode(e, ret, vars, count).code, known, progs) <==> Sound(e, progs, seen, bound)
    decreases e, 2
  {
    match e
    case IntLit(n) => ResolvedOne(NewInt(ret, GetSi(n)), known, progs);
    case RatLit(num, den) => ResolvedOne(NewRat(ret, GetSi(num), GetSi(den)), known, progs);
    case Var(s) => ResolvedOne(WriteVar(s, ret, vars), known, progs);
    case Apply(_, _) => ApplyResolves(e, ret, vars, count, known, progs, seen, bound);
    case Call(_, _) => CallResolves(e, ret, vars, count, known, progs, seen, bound);
    case Do(_, _) => DoResolves(e, ret, vars, count, known, progs, seen, bound);
    case Let(_, _, _) => LetResolves(e, ret, vars, count, known, progs, seen, bound);
    case Arith(_, _, _) => ArithResolves(e, ret, vars, count, known, progs, seen, bound);
    case Negate(_) => NegateResolves(e, ret, vars, count, known, progs, seen, bound);
    case IfSign(_, _, _, _) => IfSignResolves(e, ret, vars, count, known, progs, seen, bound);
    case FailOf(_) => ResolvedOne(Null(ret), known, progs);
    case MarkVar(_, _) => MarkVarResolves(e, ret, vars, count, known, progs, seen, bound);
    case IfMarked(_, _, _, _) => IfMarkedResolves(e, ret, vars, count, known, progs, seen, bound);
    case Compare(_, _, _, _) => CompareResolves(e, ret, vars, count, known, progs, seen, bound);
    case Match(_, _) => MatchResolves(e, ret, vars, count, known, progs, seen, bound);
  }

  lemma {:induction false} ExprResolves(e: Code, vars: set<Name>, count: nat, known: set<Name>, progs: Table,
                                        seen: set<Name>, bound: set<Name>)
    requires Unconfused(e) && At(vars, known, seen, bound)
    ensures Resolved(WriteExpr(e, vars, count).code, known, progs) <==> Written(e, progs, seen, bound)
    decreases e, 3
  {
    if !(e.Var? && Key(e.s) in vars) {
      var t, code := Temp(count), WriteCode(e, Temp(count), vars, count + 1).code;
      CodeResolves(e, t, vars, count + 1, known + {t}, progs, seen, bound);
      assert ([Declare(t)] + code)[1..] == code;
    }
  }

  /** Code for a value that is used at once. */
  lemma {:induction false} ExprThen(e: Code, vars: set<Name>, count: nat, known: set<Name>, progs: Table,
                                    seen: set<Name>, bound: set<Name>)
    requires Unconfused(e) && At(vars, known, seen, bound)
    ensures var o := WriteExpr(e, vars, count);
            && At(o.vars, known + Declared(o.code), seen + Remembers(e), bound + Binds(e))
            && (Resolved(o.code, known, progs) && o.names[0] in known + Declared(o.code) <==>
                Sound(e, progs, seen, bound))
    decreases e, 4
  {
    ExprResolves(e, vars, count, known, progs, seen, bound);
    ExprAfter(e, vars, count, known, seen, bound);
    var known' := known + Declared(WriteExpr(e, vars, count).code);
    NameUsable(e, vars, count, seen, known', bound + Binds(e));
  }

  lemma {:induction false} DoResolves(e: Code, ret: Name, vars: set<Name>, count: nat, known: set<Name>,
                                      progs: Table, seen: set<Name>, bound: set<Name>)
    requires e.Do? && Unconfused(e) && ret in known && At(vars, known, seen, bound)
    ensures Resolved(WriteCode(e, ret, vars, count).code, known, progs) <==> Sound(e, progs, seen, bound)
    decreases e, 0
  {
    var a := WriteExpr(e.first, vars, count);
    ExprThen(e.first, vars, count, known, progs, seen, bound);
    CodeResolves(e.second, ret, a.vars, a.count, known + Declared(a.code), progs, seen + Remembers(e.first),
                 bound + Binds(e.first));
    ReleaseText(a.code, a.names[0], WriteCode(e.second, ret, a.vars, a.count).code, known, progs);
  }

  lemma ReleaseText(a: seq<Stmt>, y: Name, b: seq<Stmt>, known: set<Name>, progs: Table)
    ensures var known' := known + Declared(a);
            Resolved(a + [Release(y)] + b, known, progs) <==>
            Resolved(a, known, progs) && y in known' && Resolved(b, known', progs)
  {
    ResolvedThen(a, Release(y), known, progs);
    ResolvedCat(a + [Release(y)], b, known, progs);
    DeclaredCat(a, [Release(y)]);
    assert Declared([Release(y)]) == {} by { assert Declared([Release(y)][1..]) == {}; }
    assert known + Declared(a + [Release(y)]) == known + Declared(a);
  }

  lemma {:induction false} LetResolves(e: Code, ret: Name, vars: set<Name>, count: nat, known: set<Name>,
                                       progs: Table, seen: set<Name>, bound: set<Name>)
    requires e.Let? && Unconfused(e) && ret in known && At(vars, known, seen, bound)
    ensures Resolved(WriteCode(e, ret, vars, count).code, known, progs) <==> Sound(e, progs, seen, bound)
    decreases e, 0
  {
    var x := Called(e.x);
    var a := WriteCode(e.bound, x, vars, count);
    var b := WriteCode(e.body, ret, a.vars + {Key(e.x)}, a.count);
    var known', bound' := known + {x}, bound + {x};
    CodeResolves(e.bound, x, vars, count, known', progs, seen, bound');
    CodeAfter(e.bound, x, vars, count, known', seen, bound');
    CodeResolves(e.body, ret, a.vars + {Key(e.x)}, a.count, known' + Declared(a.code), progs,
                 seen + Remembers(e.bound) + {Key(e.x)}, bound' + Binds(e.bound));
    LetText(x, a.code, b.code, known, progs);
  }

  lemma LetText(x: Name, a: seq<Stmt>, b: seq<Stmt>, known: set<Name>, progs: Table)
    ensures var known' := known + {x};
            Resolved([Declare(x)] + a + b + [Release(x)], known, progs) <==>
            Resolved(a, known', progs) && Resolved(b, known' + Declared(a), progs)
  {
    ResolvedCat(a, b, known + {x}, progs);
    DeclareText(x, a + b, known, progs);
    assert [Declare(x)] + a + b == [Declare(x)] + (a + b);
    ResolvedThen([Declare(x)] + a + b, Release(x), known, progs);
  }

  lemma DeclareText(x: Name, code: seq<Stmt>, known: set<Name>, progs: Table)
    ensures Resolved([Declare(x)] + code, known, progs) <==> Resolved(code, known + {x}, progs)
    ensures x in Declared([Declare(x)] + code)
  {
    assert Declared([Declare(x)]) == {x} by { assert Declared([Declare(x)][1..]) == {}; }
    ResolvedOne(Declare(x), known, progs);
    ResolvedCat([Declare(x)], code, known, progs);
    DeclaredCat([Declare(x)], code);
  }

  lemma {:induction false} NegateResolves(e: Code, ret: Name, vars: set<Name>, count: nat, known: set<Name>,
                                          progs: Table, seen: set<Name>, bound: set<Name>)
    requires e.Negate? && Unconfused(e) && ret in known && At(vars, known, seen, bound)
    ensures Resolved(WriteCode(e, ret, vars, count).code, known, progs) <==> Sound(e, progs, seen, bound)
    decreases e, 0
  {
    var a := WriteExpr(e.arg, vars, count);
    ExprThen(e.arg, vars, count, known, progs, seen, bound);
    var s := ComputeNeg(ret, a.names[0]);
    ResolvedOne(s, known + Declared(a.code), progs);
    ResolvedThen(a.code, IfClass(a.names[0], [s], [s]), known, progs);
  }

  lemma {:induction false} ArithResolves(e: Code, ret: Name, vars: set<Name>, count: nat, known: set<Name>,
                                         progs: Table, seen: set<Name>, bound: set<Name>)
    requires e.Arith? && Unconfused(e) && ret in known && At(vars, known, seen, bound)
    ensures Resolved(WriteCode(e, ret, vars, count).code, known, progs) <==> Sound(e, progs, seen, bound)
    decreases e, 0
  {
    var a := WriteExpr(e.left, vars, count);
    var b := WriteExpr(e.right, a.vars, a.count);
    var seen', known', bound' := seen + Remembers(e.left), known + Declared(a.code), bound + Binds(e.left);
    ExprResolves(e.left, vars, count, known, progs, seen, bound);
    ExprAfter(e.left, vars, count, known, seen, bound);
    ExprResolves(e.right, a.vars, a.count, known', progs, seen', bound');
    ExprAfter(e.right, a.vars, a.count, known', seen', bound');
    NameUsable(e.left, vars, count, seen, known' + Declared(b.code), bound' + Binds(e.right));
    NameUsable(e.right, a.vars, a.count, seen', known' + Declared(b.code), bound' + Binds(e.right));
    ArithText(a, b, e.op, ret, known, progs);
  }

  lemma ArithText(a: NamedOut, b: NamedOut, op: ArithOp, ret: Name, known: set<Name>, progs: Table)
    requires |a.names| == 1 && |b.names| == 1 && ret in known
    ensures var y, z, known' := a.names[0], b.names[0], known + Declared(a.code);
            Resolved(a.code + b.code + [IfClass(y, [Compute(ret, OnIntegers(op), y, z)], [Compute(ret, op, y, z)])],
                     known, progs) <==>
            && Resolved(a.code, known, progs) && Resolved(b.code, known', progs)
            && {y, z} <= known' + Declared(b.code)
  {
    var y, z := a.names[0], b.names[0];
    var s, s' := Compute(ret, OnIntegers(op), y, z), Compute(ret, op, y, z);
    var known' := known + Declared(a.code + b.code);
    DeclaredCat(a.code, b.code);
    ResolvedCat(a.code, b.code, known, progs);
    ResolvedOne(s, known', progs);
    ResolvedOne(s', known', progs);
    ResolvedThen(a.code + b.code, IfClass(y, [s], [s']), known, progs);
    assert known + Declared(a.code) + Declared(b.code) == known';
  }

  lemma {:induction false} BranchesResolve(e: Code, ret: Name, vars: set<Name>, count: nat, known: set<Name>,
                                           progs: Table, seen: set<Name>, bound: set<Name>)
    returns (t: Out, f: Out)
    requires (e.IfSign? || e.IfMarked? || e.Compare?) && Unconfused(e.thn) && Unconfused(e.els)
    requires ret in known && At(vars, known, seen, bound)
    ensures t == WriteCode(e.thn, ret, vars, count) && f == WriteCode(e.els, ret, t.vars, t.count)
    ensures Resolved(t.code, known, progs) <==> Sound(e.thn, progs, seen, bound)
    ensures Resolved(f.code, known, progs) <==> Sound(e.els, progs, seen + Remembers(e.thn), bound)
    ensures Alike(f.vars, seen + Remembers(e.thn) + Remembers(e.els))
    decreases e, 0
  {
    t := WriteCode(e.thn, ret, vars, count);
    f := WriteCode(e.els, ret, t.vars, t.count);
    CodeResolves(e.thn, ret, vars, count, known, progs, seen, bound);
    CodeRemembers(e.thn, ret, vars, count);
    CodeResolves(e.els, ret, t.vars, t.count, known, progs, seen + Remembers(e.thn), bound);
    CodeRemembers(e.els, ret, t.vars, t.count);
  }

  lemma {:induction false} IfSignResolves(e: Code, ret: Name, vars: set<Name>, count: nat, known: set<Name>,
                                          progs: Table, seen: set<Name>, bound: set<Name>)
    requires e.IfSign? && Unconfused(e) && ret in known && At(vars, known, seen, bound)
    ensures Resolved(WriteCode(e, ret, vars, count).code, known, progs) <==> Sound(e, progs, seen, bound)
    decreases e, 1
  {
    var a := WriteExpr(e.arg, vars, count);
    ExprThen(e.arg, vars, count, known, progs, seen, bound);
    var seen', known', bound' := seen + Remembers(e.arg), known + Declared(a.code), bound + Binds(e.arg);
    var again := seen' + Remembers(e.thn) + Remembers(e.els);
    var t, f := BranchesResolve(e, ret, a.vars, a.count, known', progs, seen', bound');
    var t', f' := BranchesResolve(e, ret, f.vars, f.count, known', progs, again, bound');
    assert again + Remembers(e.thn) == again;
    IfSignText(a, e.test, t.code, f.code, t'.code, f'.code, known, progs);
  }

  lemma IfSignText(a: NamedOut, test: SignTest, t: seq<Stmt>, f: seq<Stmt>, t': seq<Stmt>, f': seq<Stmt>,
                   known: set<Name>, progs: Table)
    requires |a.names| == 1
    ensures var y, known' := a.names[0], known + Declared(a.code);
            Resolved(a.code + [IfClass(y, [IfSgn(test, y, t, f)], [IfSgn(test, y, t', f')])], known, progs) <==>
            && Resolved(a.code, known, progs) && y in known' && Resolved(t, known', progs) && Resolved(f, known', progs)
            && Resolved(t', known', progs) && Resolved(f', known', progs)
  {
    var y, known' := a.names[0], known + Declared(a.code);
    SgnText(test, y, t, f, known', progs);
    SgnText(test, y, t', f', known', progs);
    ClassText(a.code, y, [IfSgn(test, y, t, f)], [IfSgn(test, y, t', f')], known, progs);
  }

  lemma SgnText(test: SignTest, y: Name, t: seq<Stmt>, f: seq<Stmt>, known: set<Name>, progs: Table)
    ensures Resolved([IfSgn(test, y, t, f)], known, progs) <==>
            y in known && Resolved(t, known, progs) && Resolved(f, known, progs)
  {
    ResolvedOne(IfSgn(test, y, t, f), known, progs);
  }

  lemma ClassText(code: seq<Stmt>, y: Name, ints: seq<Stmt>, rats: seq<Stmt>, known: set<Name>, progs: Table)
    ensures var known' := known + Declared(code);
            Resolved(code + [IfClass(y, ints, rats)], known, progs) <==>
            && Resolved(code, known, progs) && y in known'
            && Resolved(ints, known', progs) && Resolved(rats, known', progs)
  {
    ResolvedThen(code, IfClass(y, ints, rats), known, progs);
  }

  /** A symbol that is not known leaves a test without its operand. */
  lemma SymExprResolves(e: Code, vars: set<Name>, count: nat, known: set<Name>, progs: Table,
                        seen: set<Name>, bound: set<Name>)
    requires Unconfused(e) && At(vars, known, seen, bound)
    ensures var o := WriteSymExpr(e, vars, count);
            if e.Var? && Key(e.s) in seen then o == NamedOut([], [Called(e.s)], vars, count)
            else !Resolved(o.code, known, progs)
  {
    if !(e.Var? && Key(e.s) in vars) {
      ResolvedThen(WriteExpr(e, vars, count).code, Malformed, known, progs);
    }
  }

  lemma MarkVarResolves(e: Code, ret: Name, vars: set<Name>, count: nat, known: set<Name>,
                        progs: Table, seen: set<Name>, bound: set<Name>)
    requires e.MarkVar? && Unconfused(e) && ret in known && At(vars, known, seen, bound)
    ensures Resolved(WriteCode(e, ret, vars, count).code, known, progs) <==> Sound(e, progs, seen, bound)
  {
    var a := WriteSymExpr(e.arg, vars, count);
    SymExprResolves(e.arg, vars, count, known, progs, seen, bound);
    var y, i := a.names[0], e.i;
    var s := IfMark(y, i, [ClearMark(y, i)], [SetMark(y, i)]);
    ResolvedCat(a.code, [s, Copy(ret, y)], known, progs);
    FlipText(y, i, ret, known, progs);
    assert known + {} == known;
  }

  lemma FlipText(y: Name, i: Bit, ret: Name, known: set<Name>, progs: Table)
    requires ret in known
    ensures Resolved([IfMark(y, i, [ClearMark(y, i)], [SetMark(y, i)]), Copy(ret, y)], known, progs) <==> y in known
  {
    var s := IfMark(y, i, [ClearMark(y, i)], [SetMark(y, i)]);
    ResolvedOne(ClearMark(y, i), known, progs);
    ResolvedOne(SetMark(y, i), known, progs);
    ResolvedOne(s, known, progs);
    assert [s, Copy(ret, y)] == [s] + [Copy(ret, y)];
    ResolvedThen([s], Copy(ret, y), known, progs);
  }

  lemma {:induction false} IfMarkedResolves(e: Code, ret: Name, vars: set<Name>, count: nat, known: set<Name>,
                                            progs: Table, seen: set<Name>, bound: set<Name>)
    requires e.IfMarked? && Unconfused(e) && ret in known && At(vars, known, seen, bound)
    ensures Resolved(WriteCode(e, ret, vars, count).code, known, progs) <==> Sound(e, progs, seen, bound)
    decreases e, 1
  {
    var a := WriteSymExpr(e.arg, vars, count);
    SymExprResolves(e.arg, vars, count, known, progs, seen, bound);
    var t := WriteCode(e.thn, ret, a.vars, a.count);
    var f := WriteCode(e.els, ret, t.vars, t.count);
    MarkText(a.code, a.names[0], e.i, t.code, f.code, known, progs);
    if e.arg.Var? && Key(e.arg.s) in seen {
      var _, _ := BranchesResolve(e, ret, vars, count, known, progs, seen, bound);
      assert known + {} == known;
    }
  }

  lemma MarkText(code: seq<Stmt>, y: Name, i: Bit, t: seq<Stmt>, f: seq<Stmt>, known: set<Name>, progs: Table)
    ensures var known' := known + Declared(code);
            Resolved(code + [IfMark(y, i, t, f)], known, progs) <==>
            && Resolved(code, known, progs) && y in known' && Resolved(t, known', progs) && Resolved(f, known', progs)
  {
    ResolvedThen(code, IfMark(y, i, t, f), known, progs);
  }

  lemma {:induction false} CompareResolves(e: Code, ret: Name, vars: set<Name>, count: nat, known: set<Name>,
                                           progs: Table, seen: set<Name>, bound: set<Name>)
    requires e.Compare? && Unconfused(e) && ret in known && At(vars, known, seen, bound)
    ensures Resolved(WriteCode(e, ret, vars, count).code, known, progs) <==> Sound(e, progs, seen, bound)
    decreases e, 1
  {
    var a := WriteSymExpr(e.left, vars, count);
    var b := WriteSymExpr(e.right, a.vars, a.count);
    SymExprResolves(e.left, vars, count, known, progs, seen, bound);
    if e.left.Var? && Key(e.left.s) in seen {
      SymExprResolves(e.right, vars, count, known, progs, seen, bound);
    }
    var t := WriteCode(e.thn, ret, b.vars, b.count);
    var f := WriteCode(e.els, ret, t.vars, t.count);
    BeforeText(a.code, b.code, a.names[0], b.names[0], t.code, f.code, known, progs);
    assert known + {} == known;
    if e.left.Var? && Key(e.left.s) in seen && e.right.Var? && Key(e.right.s) in seen {
      var _, _ := BranchesResolve(e, ret, vars, count, known, progs, seen, bound);
    }
  }

  lemma BeforeText(a: seq<Stmt>, b: seq<Stmt>, y: Name, z: Name, t: seq<Stmt>, f: seq<Stmt>, known: set<Name>,
                   progs: Table)
    ensures var known' := known + Declared(a);
            var known'' := known' + Declared(b);
            Resolved(a + b + [IfBefore(y, z, t, f)], known, progs) <==>
            && Resolved(a, known, progs) && Resolved(b, known', progs) && {y, z} <= known''
            && Resolved(t, known'', progs) && Resolved(f, known'', progs)
  {
    ResolvedCat(a, b, known, progs);
    DeclaredCat(a, b);
    ResolvedThen(a + b, IfBefore(y, z, t, f), known, progs);
    assert known + Declared(a + b) == known + Declared(a) + Declared(b);
  }

  // ----- applications, calls and matches -----

  lemma {:induction false} ExprsResolve(es: seq<Code>, vars: set<Name>, count: nat, known: set<Name>, progs: Table,
                                        seen: set<Name>, bound: set<Name>)
    requires (forall i :: 0 <= i < |es| ==> Unconfused(es[i])) && At(vars, known, seen, bound)
    ensures var o := WriteExprs(es, vars, count);
            && At(o.vars, known + Declared(o.code), seen + RemembersAll(es), bound + BindsAll(es))
            && (Resolved(o.code, known, progs) <==> WrittenAll(es, progs, seen, bound))
    decreases es, 0
  {
    if es != [] {
      var a := WriteExpr(es[0], vars, count);
      ExprResolves(es[0], vars, count, known, progs, seen, bound);
      ExprAfter(es[0], vars, count, known, seen, bound);
      var seen', known', bound' := seen + Remembers(es[0]), known + Declared(a.code), bound + Binds(es[0]);
      ExprsResolve(es[1..], a.vars, a.count, known', progs, seen', bound');
      var b := WriteExprs(es[1..], a.vars, a.count);
      ResolvedCat(a.code, b.code, known, progs);
      DeclaredCat(a.code, b.code);
      assert known' + Declared(b.code) == known + Declared(a.code + b.code);
    }
  }

  lemma {:induction false} NamesUsable(es: seq<Code>, vars: set<Name>, count: nat, seen: set<Name>,
                                       known: set<Name>, bound: set<Name>)
    requires (forall i :: 0 <= i < |es| ==> Unconfused(es[i])) && At(vars, known, seen, bound)
    requires Declared(WriteExprs(es, vars, count).code) <= known
    ensures AllIn(WriteExprs(es, vars, count).names, known) <==> UsableAll(es, seen, bound)
    decreases es
  {
    if es != [] {
      var a := WriteExpr(es[0], vars, count);
      var b := WriteExprs(es[1..], a.vars, a.count);
      DeclaredCat(a.code, b.code);
      NameUsable(es[0], vars, count, seen, known, bound);
      ExprRemembers(es[0], vars, count);
      NamesUsable(es[1..], a.vars, a.count, seen + Remembers(es[0]), known, bound);
      AllInMore(a.names[0], b.names, known);
      assert a.names + b.names == [a.names[0]] + b.names;
    }
  }

  lemma AllInMore(y: Name, names: seq<Name>, known: set<Name>)
    ensures AllIn([y] + names, known) <==> y in known && AllIn(names, known)
  {
    assert ([y] + names)[0] == y;
    assert forall i :: 0 <= i < |names| ==> names[i] == ([y] + names)[i + 1];
  }

  lemma {:induction false} CallResolves(e: Code, ret: Name, vars: set<Name>, count: nat, known: set<Name>,
                                        progs: Table, seen: set<Name>, bound: set<Name>)
    requires e.Call? && Unconfused(e) && ret in known && At(vars, known, seen, bound)
    ensures Resolved(WriteCode(e, ret, vars, count).code, known, progs) <==> Sound(e, progs, seen, bound)
    decreases e, 0
  {
    var a := WriteExprs(e.args, vars, count);
    ExprsResolve(e.args, vars, count, known, progs, seen, bound);
    NamesUsable(e.args, vars, count, seen, known + Declared(a.code), bound + BindsAll(e.args));
    ResolvedThen(a.code, CallFn(ret, e.prog, a.names), known, progs);
  }

  lemma {:induction false} ApplyResolves(e: Code, ret: Name, vars: set<Name>, count: nat, known: set<Name>,
                                         progs: Table, seen: set<Name>, bound: set<Name>)
    requires e.Apply? && Unconfused(e) && ret in known && At(vars, known, seen, bound)
    ensures Resolved(WriteCode(e, ret, vars, count).code, known, progs) <==> Sound(e, progs, seen, bound)
    decreases e, 0
  {
    var a := WriteExprs(e.args, vars, count);
    var h := WriteSymbol(e.head, a.vars, a.count);
    ExprsResolve(e.args, vars, count, known, progs, seen, bound);
    var seen', known', bound' := seen + RemembersAll(e.args), known + Declared(a.code), bound + BindsAll(e.args);
    SymbolResolves(e.head, a.vars, a.count, known', progs, seen', bound');
    NamesUsable(e.args, vars, count, seen, known' + Declared(h.code), bound');
    ResolvedCat(a.code, h.code, known, progs);
    DeclaredCat(a.code, h.code);
    ResolvedThen(a.code + h.code, NewApp(ret, h.names[0], a.names), known, progs);
    assert known + Declared(a.code + h.code) == known' + Declared(h.code);
  }

  lemma SymbolResolves(s: Sym, vars: set<Name>, count: nat, known: set<Name>, progs: Table,
                       seen: set<Name>, bound: set<Name>)
    requires NotTemp(s) && At(vars, known, seen, bound)
    ensures var h := WriteSymbol(s, vars, count);
            && Resolved(h.code, known, progs) && (forall q <- Declared(h.code) :: q.Temp?)
            && (h.names[0] in known + Declared(h.code) <==> Reads(s, seen, bound))
  {
    var t := Temp(count);
    TempResolves(t, Constant(t, Mangle(s)), known, progs);
  }

  /** A temporary is declared and assigned. */
  lemma TempResolves(t: Name, s: Stmt, known: set<Name>, progs: Table)
    requires DeclaredBy(s) == {}
    ensures Declared([Declare(t), s]) == {t}
    ensures Resolved([Declare(t), s], known, progs) <==> ResolvedIn(s, known + {t}, progs)
  {
    assert [Declare(t), s] == [Declare(t)] + [s];
    DeclaredCat([Declare(t)], [s]);
    ResolvedThen([Declare(t)], s, known, progs);
    ResolvedOne(Declare(t), known, progs);
    assert Declared([s]) == {} by { assert Declared([s][1..]) == {}; }
    assert Declared([Declare(t)]) == {t} by { assert Declared([Declare(t)][1..]) == {}; }
  }

  /** The names of the constructors of patterns, up to a default, are known. */
  predicate CtorsIn(cases: seq<Case>, ctors: seq<Name>, known: set<Name>) {
    cases == [] || cases[0].Default? || (ctors != [] && ctors[0] in known && CtorsIn(cases[1..], ctors[1..], known))
  }

  lemma {:induction false} ArgResolves(c: Case, vars: set<Name>, count: nat, known: set<Name>, progs: Table,
                                       seen: set<Name>, bound: set<Name>)
    requires UnconfusedCase(c) && At(vars, known, seen, bound)
    ensures var a := WriteArg(c, vars, count);
            && At(a.vars, known + Declared(a.code), seen + RemembersArg(c), bound + BindsInArg(c))
            && (Resolved(a.code, known, progs) <==> SoundArg(c, progs, seen, bound))
            && (c.Default? && c.body.Var? ==> a.names[0] == Key(c.body.s))
            && (c.Arm? || !c.body.Var? ==> a.names[0] in Declared(a.code))
    decreases c, 0
  {
    assert c.body < c;
    var t := Temp(count);
    if c.Arm? {
      TempResolves(t, WriteVar(c.ctor, t, vars), known, progs);
    } else if !c.body.Var? {
      ExprResolves(c.body, vars, count, known, progs, seen, bound);
      ExprAfter(c.body, vars, count, known, seen, bound);
      var code := WriteCode(c.body, t, vars, count + 1).code;
      assert ([Declare(t)] + code)[0] == Declare(t);
    }
  }

  lemma ArgsAfter(cases: seq<Case>, met: bool, vars: set<Name>, count: nat, known: set<Name>, seen: set<Name>,
                  bound: set<Name>)
    requires (forall i :: 0 <= i < |cases| ==> UnconfusedCase(cases[i])) && At(vars, known, seen, bound)
    ensures var p := WriteArgs(cases, met, vars, count);
            At(p.vars, known + Declared(p.code), seen + RemembersArgs(cases, met), bound + BindsFirst(cases, met))
  {
    forall i | 0 <= i < |cases|
      ensures ClearCase(cases[i])
    {
      UnconfusedClear(cases[i].body);
    }
    ArgsRemember(cases, met, vars, count);
    ArgsDeclare(cases, met, vars, count);
    SourcesAlike(Declared(WriteArgs(cases, met, vars, count).code), BindsFirst(cases, met));
  }

  lemma {:induction false} ArgsResolve(cases: seq<Case>, met: bool, vars: set<Name>, count: nat, known: set<Name>,
                                       progs: Table, seen: set<Name>, bound: set<Name>)
    requires (forall i :: 0 <= i < |cases| ==> UnconfusedCase(cases[i])) && At(vars, known, seen, bound)
    ensures Resolved(WriteArgs(cases, met, vars, count).code, known, progs) <==>
            SoundArgs(cases, met, progs, seen, bound)
    decreases cases, 1
  {
    if cases != [] && !(met && cases[0].Default?) {
      var c, m := cases[0], met || cases[0].Arm?;
      var a := WriteArg(c, vars, count);
      ArgResolves(c, vars, count, known, progs, seen, bound);
      ArgsResolve(cases[1..], m, a.vars, a.count, known + Declared(a.code), progs, seen + RemembersArg(c),
                  bound + BindsInArg(c));
      ResolvedCat(a.code, WriteArgs(cases[1..], m, a.vars, a.count).code, known, progs);
    }
  }

  lemma {:induction false} ArgsNames(cases: seq<Case>, met: bool, vars: set<Name>, count: nat, known: set<Name>,
                                     progs: Table, seen: set<Name>, bound: set<Name>, later: set<Name>)
    requires (forall i :: 0 <= i < |cases| ==> UnconfusedCase(cases[i])) && At(vars, known, seen, bound)
    requires Declared(WriteArgs(cases, met, vars, count).code) <= later
    ensures var p := WriteArgs(cases, met, vars, count);
            (AllIn(p.names, later) <==> Released(cases, met, later)) && CtorsIn(cases, p.names, later)
    decreases cases, 1
  {
    if cases != [] && !(met && cases[0].Default?) {
      var c, m := cases[0], met || cases[0].Arm?;
      var a := WriteArg(c, vars, count);
      ArgResolves(c, vars, count, known, progs, seen, bound);
      var b := WriteArgs(cases[1..], m, a.vars, a.count);
      DeclaredCat(a.code, b.code);
      ArgsNames(cases[1..], m, a.vars, a.count, known + Declared(a.code), progs, seen + RemembersArg(c),
                bound + BindsInArg(c), later);
      AllInMore(a.names[0], b.names, later);
      assert a.names + b.names == [a.names[0]] + b.names && (a.names + b.names)[1..] == b.names;
    }
  }

  lemma {:induction false} ReleasedAlike(cases: seq<Case>, met: bool, known: set<Name>, bound: set<Name>)
    requires (forall i :: 0 <= i < |cases| ==> UnconfusedCase(cases[i])) && Alike(known, bound)
    ensures Released(cases, met, known) <==> Released(cases, met, bound)
    decreases cases
  {
    if cases != [] {
      ReleasedAlike(cases[1..], met || cases[0].Arm?, known, bound);
      assert UnconfusedCase(cases[0]) && Unconfused(cases[0].body);
    }
  }

  lemma {:induction false} KidsResolve(xs: seq<Sym>, y: Name, n: nat, known: set<Name>, progs: Table)
    requires n <= |xs| && y in known
    ensures Resolved(WriteKids(xs, y, n), known, progs)
  {
    if n > 0 {
      KidsResolve(xs, y, n - 1, known, progs);
      ResolvedThen(WriteKids(xs, y, n - 1), GetKid(Called(xs[n - 1]), y, n - 1), known, progs);
    }
  }

  lemma {:induction false} ReleasesResolve(names: seq<Name>, known: set<Name>, progs: Table)
    ensures Resolved(Releases(names), known, progs) <==> AllIn(names, known)
    ensures Declared(Releases(names)) == {}
    decreases names
  {
    if names != [] {
      ReleasesResolve(names[1..], known, progs);
      assert Releases(names)[1..] == Releases(names[1..]);
      assert names == [names[0]] + names[1..] && known + {} == known;
      AllInMore(names[0], names[1..], known);
    }
  }

  lemma {:induction false} ArmResolves(c: Case, y: Name, ret: Name, vars: set<Name>, count: nat, known: set<Name>,
                                       progs: Table, seen: set<Name>, bound: set<Name>)
    requires c.Arm? && UnconfusedCase(c) && {y, ret} <= known && At(vars, known, seen, bound)
    ensures var a := WriteCode(c.body, ret, vars + Keys(c.vars), count);
            && Alike(a.vars, seen + Keys(c.vars) + Remembers(c.body))
            && (Resolved(WriteKids(c.vars, y, |c.vars|) + a.code, known, progs) <==>
                Sound(c.body, progs, seen + Keys(c.vars), bound + Elements(CalledAll(c.vars))))
    decreases c, 0
  {
    assert c.body < c;
    var kids, qs := WriteKids(c.vars, y, |c.vars|), CalledAll(c.vars);
    var a := WriteCode(c.body, ret, vars + Keys(c.vars), count);
    KidsResolve(c.vars, y, |c.vars|, known, progs);
    KidsDeclare(c.vars, y, |c.vars|, count);
    assert qs[..|qs|] == qs;
    SourcesAlike(Declared(kids), Elements(qs));
    CodeResolves(c.body, ret, vars + Keys(c.vars), count, known + Declared(kids), progs, seen + Keys(c.vars),
                 bound + Elements(qs));
    CodeRemembers(c.body, ret, vars + Keys(c.vars), count);
    ResolvedCat(kids, a.code, known, progs);
  }

  lemma {:induction false} CasesResolve(cases: seq<Case>, ctors: seq<Name>, y: Name, h: Name, ret: Name,
                                        vars: set<Name>, count: nat, known: set<Name>, progs: Table,
                                        seen: set<Name>, bound: set<Name>)
    requires (forall i :: 0 <= i < |cases| ==> UnconfusedCase(cases[i])) && At(vars, known, seen, bound)
    requires {y, h, ret} <= known && CtorsIn(cases, ctors, known)
    ensures Resolved(WriteCases(cases, ctors, y, h, ret, vars, count).code, known, progs) <==>
            SoundCases(cases, progs, seen, bound)
    decreases cases, 1
  {
    if cases == [] {
      ResolvedOne(Exit, known, progs);
    } else if cases[0].Default? {
      DefaultResolves(cases, ctors, y, h, ret, vars, count, known, progs, seen, bound);
    } else {
      var c := cases[0];
      ArmResolves(c, y, ret, vars, count, known, progs, seen, bound);
      var a := WriteCode(c.body, ret, vars + Keys(c.vars), count);
      CasesResolve(cases[1..], ctors[1..], y, h, ret, a.vars, a.count, known, progs,
                   seen + Keys(c.vars) + Remembers(c.body), bound);
      var b := WriteCases(cases[1..], ctors[1..], y, h, ret, a.vars, a.count);
      SameText(h, ctors[0], WriteKids(c.vars, y, |c.vars|) + a.code, b.code, known, progs);
    }
  }

  lemma SameText(h: Name, z: Name, t: seq<Stmt>, f: seq<Stmt>, known: set<Name>, progs: Table)
    requires {h, z} <= known
    ensures Resolved([IfSame(h, z, t, f)], known, progs) <==> Resolved(t, known, progs) && Resolved(f, known, progs)
  {
    ResolvedOne(IfSame(h, z, t, f), known, progs);
  }

  lemma {:induction false} DefaultResolves(cases: seq<Case>, ctors: seq<Name>, y: Name, h: Name, ret: Name,
                                           vars: set<Name>, count: nat, known: set<Name>, progs: Table,
                                           seen: set<Name>, bound: set<Name>)
    requires cases != [] && cases[0].Default? && UnconfusedCase(cases[0]) && At(vars, known, seen, bound)
    requires ret in known
    ensures Resolved(WriteCases(cases, ctors, y, h, ret, vars, count).code, known, progs) <==>
            SoundCases(cases, progs, seen, bound)
    decreases cases, 0
  {
    var c := cases[0];
    assert c.body < c;
    CodeResolves(c.body, ret, vars, count, known, progs, seen, bound);
    BlockText(WriteCode(c.body, ret, vars, count).code, |cases| == 1, known, progs);
  }

  lemma BlockText(code: seq<Stmt>, last: bool, known: set<Name>, progs: Table)
    ensures Resolved([Block(code)] + if last then [] else [Malformed], known, progs) <==>
            last && Resolved(code, known, progs)
  {
    ResolvedOne(Block(code), known, progs);
    if last {
      assert [Block(code)] + [] == [Block(code)];
    } else {
      ResolvedThen([Block(code)], Malformed, known, progs);
    }
  }

  lemma {:induction false} MatchResolves(e: Code, ret: Name, vars: set<Name>, count: nat, known: set<Name>,
                                         progs: Table, seen: set<Name>, bound: set<Name>)
    requires e.Match? && Unconfused(e) && ret in known && At(vars, known, seen, bound)
    ensures Resolved(WriteCode(e, ret, vars, count).code, known, progs) <==> Sound(e, progs, seen, bound)
    decreases e, 1
  {
    MatchWhole(e, ret, vars, count, known, progs);
    ExprThen(e.scrut, vars, count, known, progs, seen, bound);
    MatchSound(WriteExpr(e.scrut, vars, count), e.cases, ret, known, progs, seen + Remembers(e.scrut),
               bound + Binds(e.scrut), Sound(e.scrut, progs, seen, bound));
  }

  /** What is written for a match is resolved. */
  predicate MatchResolved(a: NamedOut, cases: seq<Case>, ret: Name, known: set<Name>, progs: Table)
    requires |a.names| == 1
  {
    var y, h, known' := a.names[0], Temp(a.count), known + Declared(a.code);
    && Resolved(a.code, known, progs) && y in known'
    && CasesResolved(cases, a.vars, a.count + 1, y, h, ret, known' + {h}, progs)
  }

  lemma {:induction false} MatchSound(a: NamedOut, cases: seq<Case>, ret: Name, known: set<Name>, progs: Table,
                                      seen: set<Name>, bound: set<Name>, scrut: bool)
    requires |a.names| == 1 && (forall i :: 0 <= i < |cases| ==> UnconfusedCase(cases[i]))
    requires ret in known && At(a.vars, known + Declared(a.code), seen, bound)
    requires scrut <==> Resolved(a.code, known, progs) && a.names[0] in known + Declared(a.code)
    ensures MatchResolved(a, cases, ret, known, progs) <==> scrut && SoundMatch(cases, progs, seen, bound)
    decreases cases, 3
  {
    var known', h := known + Declared(a.code), Temp(a.count);
    AtMore(a.vars, known', seen, bound, h);
    if scrut {
      CasesText(cases, a.vars, a.count + 1, a.names[0], h, ret, known' + {h}, progs, seen, bound);
    }
  }

  lemma MatchWhole(e: Code, ret: Name, vars: set<Name>, count: nat, known: set<Name>, progs: Table)
    requires e.Match?
    ensures Resolved(WriteCode(e, ret, vars, count).code, known, progs) <==>
            MatchResolved(WriteExpr(e.scrut, vars, count), e.cases, ret, known, progs)
  {
    var a := WriteExpr(e.scrut, vars, count);
    MatchCode(e, ret, vars, count);
    assert a.names == [a.names[0]];
    var p := WriteArgs(e.cases, false, a.vars, a.count + 1);
    var c := WriteCases(e.cases, p.names, a.names[0], Temp(a.count), ret, p.vars, p.count).code;
    MatchParts(a, e.cases, ret, p, c, WriteCode(e, ret, vars, count).code, known, progs);
  }

  lemma MatchParts(a: NamedOut, cases: seq<Case>, ret: Name, p: NamedOut, c: seq<Stmt>, code: seq<Stmt>,
                   known: set<Name>, progs: Table)
    requires |a.names| == 1 && p == WriteArgs(cases, false, a.vars, a.count + 1)
    requires c == WriteCases(cases, p.names, a.names[0], Temp(a.count), ret, p.vars, p.count).code
    requires code == a.code + [GetHead(Temp(a.count), a.names[0])] + p.code + c + Releases([a.names[0]] + p.names)
    ensures Resolved(code, known, progs) <==> MatchResolved(a, cases, ret, known, progs)
  {
    var y, h := a.names[0], Temp(a.count);
    CasesDeclareNothing(cases, p.names, y, h, ret, p.vars, p.count);
    MatchText(a.code, y, h, p.code, p.names, c, known, progs);
    MatchPieces(a, cases, ret, p, c, known, progs);
  }

  lemma MatchPieces(a: NamedOut, cases: seq<Case>, ret: Name, p: NamedOut, c: seq<Stmt>, known: set<Name>,
                    progs: Table)
    requires |a.names| == 1 && p == WriteArgs(cases, false, a.vars, a.count + 1)
    requires c == WriteCases(cases, p.names, a.names[0], Temp(a.count), ret, p.vars, p.count).code
    ensures MatchResolved(a, cases, ret, known, progs) <==>
            PiecesResolved(a.code, a.names[0], Temp(a.count), p.code, p.names, c, known, progs)
  {
  }

  /** The pieces that a match is put together from are resolved. */
  predicate PiecesResolved(a: seq<Stmt>, y: Name, h: Name, p: seq<Stmt>, names: seq<Name>, c: seq<Stmt>,
                           known: set<Name>, progs: Table)
  {
    var known' := known + Declared(a) + {h};
    && Resolved(a, known, progs) && y in known + Declared(a) && Resolved(p, known', progs)
    && Resolved(c, known' + Declared(p), progs) && AllIn(names, known' + Declared(p))
  }

  /** What is written for cases is resolved. */
  predicate CasesResolved(cases: seq<Case>, vars: set<Name>, count: nat, y: Name, h: Name, ret: Name,
                          known: set<Name>, progs: Table)
  {
    var p := WriteArgs(cases, false, vars, count);
    var c, known' := WriteCases(cases, p.names, y, h, ret, p.vars, p.count).code, known + Declared(p.code);
    Resolved(p.code, known, progs) && Resolved(c, known', progs) && AllIn(p.names, known')
  }

  /** The cases of a match after its scrutinee. */
  lemma {:induction false} CasesText(cases: seq<Case>, vars: set<Name>, count: nat, y: Name, h: Name, ret: Name,
                                     known: set<Name>, progs: Table, seen: set<Name>, bound: set<Name>)
    requires (forall i :: 0 <= i < |cases| ==> UnconfusedCase(cases[i])) && At(vars, known, seen, bound)
    requires {y, h, ret} <= known
    ensures CasesResolved(cases, vars, count, y, h, ret, known, progs) <==> SoundMatch(cases, progs, seen, bound)
    decreases cases, 2
  {
    var p := WriteArgs(cases, false, vars, count);
    var known', bound' := known + Declared(p.code), bound + BindsFirst(cases, false);
    ArgsResolve(cases, false, vars, count, known, progs, seen, bound);
    ArgsAfter(cases, false, vars, count, known, seen, bound);
    ArgsNames(cases, false, vars, count, known, progs, seen, bound, known');
    ReleasedAlike(cases, false, known', bound');
    CasesResolve(cases, p.names, y, h, ret, p.vars, p.count, known', progs, seen + RemembersArgs(cases, false), bound');
  }

  lemma MatchText(a: seq<Stmt>, y: Name, h: Name, p: seq<Stmt>, names: seq<Name>, c: seq<Stmt>, known: set<Name>,
                  progs: Table)
    requires Declared(c) == {}
    ensures Resolved(a + [GetHead(h, y)] + p + c + Releases([y] + names), known, progs) <==>
            PiecesResolved(a, y, h, p, names, c, known, progs)
  {
    var all := a + [GetHead(h, y)];
    var known' := known + Declared(a) + {h};
    HeadText(a, y, h, known, progs);
    ResolvedCat(all, p, known, progs);
    DeclaredCat(all, p);
    assert known + Declared(all + p) == known' + Declared(p);
    ResolvedCat(all + p, c, known, progs);
    DeclaredCat(all + p, c);
    assert known + Declared(all + p + c) == known' + Declared(p);
    ResolvedCat(all + p + c, Releases([y] + names), known, progs);
    ReleasesResolve([y] + names, known' + Declared(p), progs);
    AllInMore(y, names, known' + Declared(p));
  }

  lemma HeadText(a: seq<Stmt>, y: Name, h: Name, known: set<Name>, progs: Table)
    ensures known + Declared(a + [GetHead(h, y)]) == known + Declared(a) + {h}
    ensures Resolved(a + [GetHead(h, y)], known, progs) <==> Resolved(a, known, progs) && y in known + Declared(a)
  {
    var s := GetHead(h, y);
    ResolvedThen(a, s, known, progs);
    DeclaredCat(a, [s]);
    assert Declared([s]) == {h} by { assert Declared([s][1..]) == {}; }
  }
}
