/** The compiler as it runs: a writer that remembers the variables it has seen and numbers
    its temporaries, while it produces statements. */
module Writer {
  import opened Marks
  import opened Options
  import opened SideCode
  import opened Identifiers
  import opened Compiler
  import opened Conditions
  import opened CompilerProof
  import opened Building
  import opened Failures

  /** Code and names written before more of them. */
  ghost function After(code: seq<Stmt>, names: seq<Name>, rest: NamedOut): NamedOut {
    NamedOut(code + rest.code, names + rest.names, rest.vars, rest.count)
  }

  lemma AfterMore(code: seq<Stmt>, names: seq<Name>, c: seq<Stmt>, y: Name, rest: NamedOut)
    ensures After(code, names, NamedOut(c + rest.code, [y] + rest.names, rest.vars, rest.count))
         == After(code + c, names + [y], rest)
  {
  }

  class Writer {
    var vars: set<Name>
    var exprCount: nat

    /** A writer for a program with the given parameters. */
    constructor (params: seq<Sym>)
      ensures vars == Keys(params) && exprCount == 0
    {
      vars, exprCount := Keys(params), 0;
    }

    method WriteCode(e: Code, ret: Name) returns (code: seq<Stmt>)
      modifies this
      ensures Out(code, vars, exprCount) == Compiler.WriteCode(e, ret, old(vars), old(exprCount))
      decreases e, 1
    {
      match e
      case IntLit(n) => code := [NewInt(ret, GetSi(n))];
      case RatLit(num, den) => code := [NewRat(ret, GetSi(num), GetSi(den))];
      case Var(s) => code := [WriteVar(s, ret, vars)];
      case Apply(head, args) =>
        var c, names := WriteExprs(args);
        var c', h := WriteSymbol(head);
        code := c + c' + [NewApp(ret, h, names)];
      case Call(prog, args) =>
        var c, names := WriteExprs(args);
        code := c + [CallFn(ret, prog, names)];
      case Do(first, second) =>
        var c, y := WriteExpr(first);
        var c' := WriteCode(second, ret);
        code := c + [Release(y)] + c';
      case Let(x, bound, body) =>
        var c := WriteCode(bound, Called(x));
        vars := vars + {Key(x)};
        var c' := WriteCode(body, ret);
        code := [Declare(Called(x))] + c + c' + [Release(Called(x))];
      case Arith(op, left, right) =>
        var c, y := WriteExpr(left);
        var c', z := WriteExpr(right);
        code := c + c' + [IfClass(y, [Compute(ret, OnIntegers(op), y, z)], [Compute(ret, op, y, z)])];
      case Negate(arg) =>
        var c, y := WriteExpr(arg);
        code := c + [IfClass(y, [ComputeNeg(ret, y)], [ComputeNeg(ret, y)])];
      case IfSign(_, _, _, _) => code := WriteIfSign(e, ret);
      case FailOf(_) => code := [Null(ret)];
      case MarkVar(i, arg) =>
        var c, y := WriteSymExpr(arg);
        code := c + [IfMark(y, i, [ClearMark(y, i)], [SetMark(y, i)]), Copy(ret, y)];
      case IfMarked(i, arg, thn, els) =>
        var c, y := WriteSymExpr(arg);
        var t := WriteCode(thn, ret);
        var f := WriteCode(els, ret);
        code := c + [IfMark(y, i, t, f)];
      case Compare(_, _, _, _) => code := WriteCompare(e, ret);
      case Match(_, _) => code := WriteMatch(e, ret);
    }

    method WriteIfSign(e: Code, ret: Name) returns (code: seq<Stmt>)
      requires e.IfSign?
      modifies this
      ensures Out(code, vars, exprCount) == Compiler.WriteCode(e, ret, old(vars), old(exprCount))
      decreases e, 0
    {
      var c, y := WriteExpr(e.arg);
      var t := WriteCode(e.thn, ret);
      var f := WriteCode(e.els, ret);
      var t' := WriteCode(e.thn, ret);
      var f' := WriteCode(e.els, ret);
      code := c + [IfClass(y, [IfSgn(e.test, y, t, f)], [IfSgn(e.test, y, t', f')])];
    }

    method WriteCompare(e: Code, ret: Name) returns (code: seq<Stmt>)
      requires e.Compare?
      modifies this
      ensures Out(code, vars, exprCount) == Compiler.WriteCode(e, ret, old(vars), old(exprCount))
      decreases e, 0
    {
      var c, y := WriteSymExpr(e.left);
      var c', z := WriteSymExpr(e.right);
      var t := WriteCode(e.thn, ret);
      var f := WriteCode(e.els, ret);
      code := c + c' + [IfBefore(y, z, t, f)];
    }

    method WriteMatch(e: Code, ret: Name) returns (code: seq<Stmt>)
      requires e.Match?
      modifies this
      ensures Out(code, vars, exprCount) == Compiler.WriteCode(e, ret, old(vars), old(exprCount))
      decreases e, 0
    {
      var c, y := WriteExpr(e.scrut);
      ghost var scrut := NamedOut(c, [y], vars, exprCount);
      var h := Temp(exprCount);
      exprCount := exprCount + 1;
      var p, names := WriteArgs(e.cases);
      ghost var args := NamedOut(p, names, vars, exprCount);
      var c' := WriteCases(e.cases, names, y, h, ret);
      code := c + [GetHead(h, y)] + p + c' + Releases([y] + names);
      MatchWritten(e, ret, old(vars), old(exprCount), scrut, args, Out(c', vars, exprCount));
    }

    method WriteExpr(e: Code) returns (code: seq<Stmt>, name: Name)
      modifies this
      ensures NamedOut(code, [name], vars, exprCount) == Compiler.WriteExpr(e, old(vars), old(exprCount))
      decreases e, 2
    {
      if e.Var? && Key(e.s) in vars {
        return [], Called(e.s);
      }
      name := Temp(exprCount);
      exprCount := exprCount + 1;
      code := WriteCode(e, name);
      code := [Declare(name)] + code;
      vars := vars + {name};
    }

    method WriteSymExpr(e: Code) returns (code: seq<Stmt>, name: Name)
      modifies this
      ensures NamedOut(code, [name], vars, exprCount) == Compiler.WriteSymExpr(e, old(vars), old(exprCount))
      decreases e, 3
    {
      var known := e.Var? && Key(e.s) in vars;
      code, name := WriteExpr(e);
      if !known {
        code := code + [Malformed];
      }
    }

    method WriteSymbol(s: Sym) returns (code: seq<Stmt>, name: Name)
      modifies this
      ensures NamedOut(code, [name], vars, exprCount) == Compiler.WriteSymbol(s, old(vars), old(exprCount))
    {
      if Key(s) in vars {
        return [], Called(s);
      }
      name := Temp(exprCount);
      exprCount := exprCount + 1;
      code := [Declare(name), Constant(name, Mangle(s))];
      vars := vars + {name};
    }

    method WriteExprs(es: seq<Code>) returns (code: seq<Stmt>, names: seq<Name>)
      modifies this
      ensures NamedOut(code, names, vars, exprCount) == Compiler.WriteExprs(es, old(vars), old(exprCount))
      decreases es, 0
    {
      code, names := [], [];
      for i := 0 to |es|
        invariant Compiler.WriteExprs(es, old(vars), old(exprCount))
               == After(code, names, Compiler.WriteExprs(es[i..], vars, exprCount))
      {
        assert es[i..][0] == es[i] && es[i..][1..] == es[i + 1..];
        var c, y := WriteExpr(es[i]);
        AfterMore(code, names, c, y, Compiler.WriteExprs(es[i + 1..], vars, exprCount));
        code, names := code + c, names + [y];
      }
      assert code + [] == code && names + [] == names;
    }

    /** Writes what cases are compared with, up to a default after a pattern. */
    method WriteArgs(cases: seq<Case>) returns (code: seq<Stmt>, names: seq<Name>)
      modifies this
      ensures NamedOut(code, names, vars, exprCount) == Compiler.WriteArgs(cases, false, old(vars), old(exprCount))
      decreases cases, 2
    {
      code, names := [], [];
      var met, i := false, 0;
      while i < |cases| && (!met || cases[i].Arm?)
        invariant i <= |cases|
        invariant Compiler.WriteArgs(cases, false, old(vars), old(exprCount))
               == After(code, names, Compiler.WriteArgs(cases[i..], met, vars, exprCount))
      {
        assert cases[i..][0] == cases[i] && cases[i..][1..] == cases[i + 1..];
        met := met || cases[i].Arm?;
        var c, y := WriteArg(cases[i]);
        AfterMore(code, names, c, y, Compiler.WriteArgs(cases[i + 1..], met, vars, exprCount));
        code, names, i := code + c, names + [y], i + 1;
      }
      assert i < |cases| ==> cases[i..][0] == cases[i];
      assert code + [] == code && names + [] == names;
    }

    method WriteArg(c: Case) returns (code: seq<Stmt>, name: Name)
      modifies this
      ensures NamedOut(code, [name], vars, exprCount) == Compiler.WriteArg(c, old(vars), old(exprCount))
      decreases c, 2
    {
      match c
      case Arm(ctor, _, _) =>
        name := Temp(exprCount);
        exprCount := exprCount + 1;
        code := [Declare(name), WriteVar(ctor, name, vars)];
        vars := vars + {name};
      case Default(body) =>
        assert body < c;
        if body.Var? {
          return [], Key(body.s);
        }
        code, name := WriteExpr(body);
    }

    method WriteCases(cases: seq<Case>, ctors: seq<Name>, y: Name, h: Name, ret: Name) returns (code: seq<Stmt>)
      modifies this
      ensures Out(code, vars, exprCount) == Compiler.WriteCases(cases, ctors, y, h, ret, old(vars), old(exprCount))
      decreases cases, 0
    {
      if cases == [] {
        return [Exit];
      }
      var c := cases[0];
      assert c.body < c;
      if c.Default? {
        code := WriteCode(c.body, ret);
        return [Block(code)] + if |cases| == 1 then [] else [Malformed];
      }
      if ctors == [] {
        return [Malformed];
      }
      vars := vars + Keys(c.vars);
      var t := WriteCode(c.body, ret);
      var f := WriteCases(cases[1..], ctors[1..], y, h, ret);
      code := [IfSame(h, ctors[0], WriteKids(c.vars, y, |c.vars|) + t, f)];
    }
  }

  /** The code for a match is put together from its parts. */
  lemma MatchWritten(e: Code, ret: Name, vars: set<Name>, count: nat, a: NamedOut, p: NamedOut, c: Out)
    requires e.Match? && a == Compiler.WriteExpr(e.scrut, vars, count)
    requires p == Compiler.WriteArgs(e.cases, false, a.vars, a.count + 1)
    requires c == Compiler.WriteCases(e.cases, p.names, a.names[0], Temp(a.count), ret, p.vars, p.count)
    ensures Compiler.WriteCode(e, ret, vars, count) ==
            Out(a.code + [GetHead(Temp(a.count), a.names[0])] + p.code + c.code + Releases([a.names[0]] + p.names),
                c.vars, c.count)
  {
    MatchCode(e, ret, vars, count);
    assert a.names == [a.names[0]];
  }

  /** Where a call of the program has a value, running the function returns it and leaves
      the same marks. */
  ghost predicate Implements(b: Batch, prog: Sym, fn: Function) {
    forall fuel: nat, vals: seq<Value>, marks: MarkSet ::
      |vals| == |fn.params| && AllFlat(vals) && EvalCall(fuel + 1, b.W(), prog, vals, marks).out.Val? ==>
        var r := EvalCall(fuel + 1, b.W(), prog, vals, marks);
        RunFunction(fuel, b.W(), fn, vals, marks) == Some(Return(Some(r.out.v), r.marks))
  }

  /** Where a call of the program stops, running the function returns no value. */
  ghost predicate FailsAlike(b: Batch, prog: Sym, fn: Function) {
    forall fuel: nat, vals: seq<Value>, marks: MarkSet ::
      |vals| == |fn.params| && AllFlat(vals) && Stops(EvalCall(fuel + 1, b.W(), prog, vals, marks).out) ==>
        NoValue(RunFunction(fuel, b.W(), fn, vals, marks), true)
  }

  /** Writes the function for a program of a valid batch: it is well formed and does what the
      program does; where failures are well placed, it fails where the program fails. */
  method WriteProgram(p: Program, ghost b: Batch, ghost prog: Sym) returns (fn: Function)
    requires b.Valid() && prog in b.progs && b.progs[prog] == p
    ensures fn.params == p.params && Implements(b, prog, fn)
    ensures forall fails: set<Sym> :: AllPlaced(b, fails) ==> FailsAlike(b, prog, fn)
    ensures WellFormed(fn, b.progs)
  {
    var writer := new Writer(p.params);
    var code, name := writer.WriteExpr(p.body);
    fn := Function(p.params, code, name);
    assert fn == CompileProgram(p);
    ProgramBuilds(b, prog);
    ProgramImplemented(b, prog);
    forall fails: set<Sym> | AllPlaced(b, fails)
      ensures FailsAlike(b, prog, fn)
    {
      ProgramFails(b, fails, prog);
    }
  }

  lemma ProgramFails(b: Batch, fails: set<Sym>, prog: Sym)
    requires b.Valid() && prog in b.progs && AllPlaced(b, fails)
    ensures FailsAlike(b, prog, CompileProgram(b.progs[prog]))
  {
    var fn := CompileProgram(b.progs[prog]);
    forall fuel: nat, vals: seq<Value>, marks: MarkSet |
      |vals| == |fn.params| && AllFlat(vals) && Stops(EvalCall(fuel + 1, b.W(), prog, vals, marks).out)
      ensures NoValue(RunFunction(fuel, b.W(), fn, vals, marks), true)
    {
      FunctionFails(b, fails, fuel + 1, prog, vals, marks);
    }
  }

  lemma ProgramImplemented(b: Batch, prog: Sym)
    requires b.Valid() && prog in b.progs
    ensures Implements(b, prog, CompileProgram(b.progs[prog]))
  {
    var fn := CompileProgram(b.progs[prog]);
    forall fuel: nat, vals: seq<Value>, marks: MarkSet |
      |vals| == |fn.params| && AllFlat(vals) && EvalCall(fuel + 1, b.W(), prog, vals, marks).out.Val?
      ensures var r := EvalCall(fuel + 1, b.W(), prog, vals, marks);
              RunFunction(fuel, b.W(), fn, vals, marks) == Some(Return(Some(r.out.v), r.marks))
    {
      FunctionCorrect(b, fuel + 1, prog, vals, marks);
    }
  }
}
