/** What the compiler remembers as variables: it never forgets one, even where the block that
    declares it has ended. */
module Remembered {
  import opened SideCode
  import opened Identifiers
  import opened Compiler

  /** Strings of the variables that code binds anywhere. */
  function Remembers(e: Code): set<Name>
    decreases e
  {
    match e
    case IntLit(_) => {}
    case RatLit(_, _) => {}
    case Var(_) => {}
    case Apply(_, args) => RemembersAll(args)
    case Call(_, args) => RemembersAll(args)
    case Do(first, second) => Remembers(first) + Remembers(second)
    case Let(x, bound, body) => Remembers(bound) + {Key(x)} + Remembers(body)
    case Arith(_, left, right) => Remembers(left) + Remembers(right)
    case Negate(arg) => Remembers(arg)
    case IfSign(_, arg, thn, els) => Remembers(arg) + Remembers(thn) + Remembers(els)
    case FailOf(_) => {}
    case MarkVar(_, arg) => Remembers(arg)
    case IfMarked(_, arg, thn, els) => Remembers(arg) + Remembers(thn) + Remembers(els)
    case Compare(left, right, thn, els) => Remembers(left) + Remembers(right) + Remembers(thn) + Remembers(els)
    case Match(scrut, cases) => Remembers(scrut) + RemembersArgs(cases, false) + RemembersCases(cases)
  }

  function RemembersAll(es: seq<Code>): set<Name>
    decreases es
  {
    if es == [] then {} else Remembers(es[0]) + RemembersAll(es[1..])
  }

  /** From defaults that come before any pattern. */
  function RemembersArgs(cases: seq<Case>, met: bool): set<Name>
    decreases cases
  {
    if cases == [] || (met && cases[0].Default?) then {}
    else RemembersArg(cases[0]) + RemembersArgs(cases[1..], met || cases[0].Arm?)
  }

  function RemembersArg(c: Case): set<Name>
    decreases c
  {
    if c.Default? then Remembers(c.body) else {}
  }

  /** Cases up to a default. */
  function RemembersCases(cases: seq<Case>): set<Name>
    decreases cases
  {
    if cases == [] then {}
    else match cases[0]
      case Default(body) => assert body < cases[0]; Remembers(body)
      case Arm(_, xs, body) => assert body < cases[0]; Keys(xs) + Remembers(body) + RemembersCases(cases[1..])
  }

  /** The same but for temporaries. */
  ghost predicate Alike(xs: set<Name>, ys: set<Name>) {
    forall q: Name :: q.Source? ==> (q in xs <==> q in ys)
  }

  /** Writing code adds its variables to those remembered. */
  lemma {:induction false} CodeRemembers(e: Code, ret: Name, vars: set<Name>, count: nat)
    ensures Alike(WriteCode(e, ret, vars, count).vars, vars + Remembers(e))
    decreases e, 2
  {
    match e
    case IntLit(_) =>
    case RatLit(_, _) =>
    case Var(_) =>
    case Apply(_, args) => ExprsRemember(args, vars, count);
    case Call(_, args) => ExprsRemember(args, vars, count);
    case Do(first, second) =>
      ExprRemembers(first, vars, count);
      var a := WriteExpr(first, vars, count);
      CodeRemembers(second, ret, a.vars, a.count);
    case Let(x, bound, body) =>
      CodeRemembers(bound, Called(x), vars, count);
      var a := WriteCode(bound, Called(x), vars, count);
      CodeRemembers(body, ret, a.vars + {Key(x)}, a.count);
    case Arith(_, left, right) =>
      ExprRemembers(left, vars, count);
      var a := WriteExpr(left, vars, count);
      ExprRemembers(right, a.vars, a.count);
    case Negate(arg) => ExprRemembers(arg, vars, count);
    case IfSign(_, _, _, _) => BranchesRemember(e, ret, vars, count);
    case FailOf(_) =>
    case MarkVar(_, arg) => ExprRemembers(arg, vars, count);
    case IfMarked(_, _, _, _) => BranchesRemember(e, ret, vars, count);
    case Compare(_, _, _, _) => CompareRemembers(e, ret, vars, count);
    case Match(_, _) => MatchRemembers(e, ret, vars, count);
  }

  lemma {:induction false} ExprRemembers(e: Code, vars: set<Name>, count: nat)
    ensures Alike(WriteExpr(e, vars, count).vars, vars + Remembers(e))
    decreases e, 3
  {
    CodeRemembers(e, Temp(count), vars, count + 1);
  }

  lemma {:induction false} ExprsRemember(es: seq<Code>, vars: set<Name>, count: nat)
    ensures Alike(WriteExprs(es, vars, count).vars, vars + RemembersAll(es))
    decreases es, 0
  {
    if es != [] {
      ExprRemembers(es[0], vars, count);
      var a := WriteExpr(es[0], vars, count);
      ExprsRemember(es[1..], a.vars, a.count);
    }
  }

  /** Two branches, written one after the other. */
  lemma {:induction false} BranchRemembers(e: Code, ret: Name, vars: set<Name>, count: nat) returns (f: Out)
    requires e.IfSign? || e.IfMarked? || e.Compare?
    ensures var t := WriteCode(e.thn, ret, vars, count);
            f == WriteCode(e.els, ret, t.vars, t.count) && Alike(f.vars, vars + Remembers(e.thn) + Remembers(e.els))
    decreases e, 0
  {
    var t := WriteCode(e.thn, ret, vars, count);
    f := WriteCode(e.els, ret, t.vars, t.count);
    CodeRemembers(e.thn, ret, vars, count);
    CodeRemembers(e.els, ret, t.vars, t.count);
  }

  lemma {:induction false} BranchesRemember(e: Code, ret: Name, vars: set<Name>, count: nat)
    requires e.IfSign? || e.IfMarked?
    ensures Alike(WriteCode(e, ret, vars, count).vars, vars + Remembers(e))
    decreases e, 1
  {
    ExprRemembers(e.arg, vars, count);
    var a := WriteExpr(e.arg, vars, count);
    var f := BranchRemembers(e, ret, a.vars, a.count);
    var _ := BranchRemembers(e, ret, f.vars, f.count);
  }

  lemma {:induction false} CompareRemembers(e: Code, ret: Name, vars: set<Name>, count: nat)
    requires e.Compare?
    ensures Alike(WriteCode(e, ret, vars, count).vars, vars + Remembers(e))
    decreases e, 1
  {
    ExprRemembers(e.left, vars, count);
    var a := WriteExpr(e.left, vars, count);
    ExprRemembers(e.right, a.vars, a.count);
    var c := WriteExpr(e.right, a.vars, a.count);
    var _ := BranchRemembers(e, ret, c.vars, c.count);
  }

  lemma {:induction false} MatchRemembers(e: Code, ret: Name, vars: set<Name>, count: nat)
    requires e.Match?
    ensures Alike(WriteCode(e, ret, vars, count).vars, vars + Remembers(e))
    decreases e, 1
  {
    ExprRemembers(e.scrut, vars, count);
    var a := WriteExpr(e.scrut, vars, count);
    ArgsRemember(e.cases, false, a.vars, a.count + 1);
    var p := WriteArgs(e.cases, false, a.vars, a.count + 1);
    CasesRemember(e.cases, p.names, a.names[0], Temp(a.count), ret, p.vars, p.count);
    MatchCode(e, ret, vars, count);
  }

  /** There is a name for each pattern before a default. */
  predicate Enough(cases: seq<Case>, ctors: seq<Name>) {
    cases == [] || cases[0].Default? || (ctors != [] && Enough(cases[1..], ctors[1..]))
  }

  lemma {:induction false} ArgsRemember(cases: seq<Case>, met: bool, vars: set<Name>, count: nat)
    ensures var p := WriteArgs(cases, met, vars, count);
            Alike(p.vars, vars + RemembersArgs(cases, met)) && Enough(cases, p.names)
    decreases cases, 1
  {
    if cases != [] && !(met && cases[0].Default?) {
      var a := WriteArg(cases[0], vars, count);
      ArgRemembers(cases[0], vars, count);
      ArgsRemember(cases[1..], met || cases[0].Arm?, a.vars, a.count);
      var b := WriteArgs(cases[1..], met || cases[0].Arm?, a.vars, a.count);
      assert (a.names + b.names)[1..] == b.names;
    }
  }

  lemma {:induction false} ArgRemembers(c: Case, vars: set<Name>, count: nat)
    ensures Alike(WriteArg(c, vars, count).vars, vars + RemembersArg(c))
    decreases c, 1
  {
    if c.Default? {
      assert c.body < c;
      ExprRemembers(c.body, vars, count);
    }
  }

  lemma {:induction false} CasesRemember(cases: seq<Case>, ctors: seq<Name>, y: Name, h: Name, ret: Name,
                                         vars: set<Name>, count: nat)
    requires Enough(cases, ctors)
    ensures Alike(WriteCases(cases, ctors, y, h, ret, vars, count).vars, vars + RemembersCases(cases))
    decreases cases, 1
  {
    if cases != [] {
      var c := cases[0];
      assert c.body < c;
      if c.Default? {
        CodeRemembers(c.body, ret, vars, count);
      } else {
        var a := WriteCode(c.body, ret, vars + Keys(c.vars), count);
        CodeRemembers(c.body, ret, vars + Keys(c.vars), count);
        CasesRemember(cases[1..], ctors[1..], y, h, ret, a.vars, a.count);
      }
    }
  }
}
