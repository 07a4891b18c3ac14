/** Symbols that the compiler takes for something else: it keeps variables and temporaries in
    one list, and reads constants from globals named after them. */
module Confusions {
  import opened Marks
  import opened Options
  import opened Slots
  import opened SideCode
  import opened Identifiers
  import opened Compiler
  import opened Conditions
  import opened CompilerProof

  // ----- symbols taken for temporaries -----

  /** A symbol that is no variable is taken for a temporary exactly if it is spelled like one
      that has been handed out; otherwise it is read as a constant. */
  lemma TakenForTemporary(s: Sym, ret: Name, vars: set<Name>, binders: set<Sym>)
    requires s !in binders && OnlyBinders(vars, binders)
    ensures WriteVar(s, ret, vars) == Constant(ret, Mangle(s)) <==>
            !exists n: nat :: Temp(n) in vars && s == TempName(n)
  {
    if Key(s) in vars {
      SpellingOfIdent(s);
      assert Key(s).Temp? && s == TempName(Key(s).n);
    } else if n: nat :| Temp(n) in vars && s == TempName(n) {
      IdentOfTemp(n);
      assert false;
    }
  }

  /** After code whose value is not in a variable, the symbol spelled like its temporary is
      read as its value. */
  lemma TemporaryRead(e: Code, ret: Name, vars: set<Name>, count: nat)
    requires !(e.Var? && Key(e.s) in vars)
    ensures var a := WriteExpr(e, vars, count);
            && a.names == [Temp(count)]
            && WriteCode(Do(e, Var(TempName(count))), ret, vars, count).code ==
               a.code + [Release(Temp(count))] + [Copy(ret, Called(TempName(count)))]
            && Called(TempName(count)) == Temp(count)
  {
    IdentOfTemp(count);
    MangleFixed(TempName(count));
  }

  // ----- a constant spelled like a temporary -----

  /** A program whose value is a constant, but which is compiled to return an application. */
  function Misread(c: Sym): Program {
    Program(["v"], Do(Apply(c, [Var("v")]), Var("e1")))
  }

  lemma MisreadNames()
    ensures Key("v") == Called("v") == Source("v") && Keys(["v"]) == {Source("v")}
    ensures TempName(1) == "e1"
  {
    assert Mangle("v") == "v";
    assert Decimal(1) == "1";
  }

  lemma MisreadApply(c: Sym)
    requires c != "v" && Key(c).Source? && Mangle(c) == c
    ensures var t1, t2, v := Temp(1), Temp(2), Source("v");
            WriteExpr(Apply(c, [Var("v")]), {v}, 1).code ==
            [Declare(t1), Declare(t2), Constant(t2, c), NewApp(t1, t2, [v])]
  {
    MisreadNames();
    var vars := {Source("v")};
    var args := [Var("v")];
    assert args[1..] == [];
    var a := WriteExprs(args, vars, 2);
    assert a == NamedOut([], [Source("v")], vars, 2) by {
      assert WriteExpr(args[0], vars, 2) == NamedOut([], [Source("v")], vars, 2);
      assert WriteExprs(args[1..], vars, 2) == NamedOut([], [], vars, 2);
    }
    assert WriteSymbol(c, vars, 2).code == [Declare(Temp(2)), Constant(Temp(2), c)];
  }

  lemma MisreadCode(c: Sym)
    requires c != "v" && Key(c).Source? && Mangle(c) == c
    ensures var t0, t1, t2, v := Temp(0), Temp(1), Temp(2), Source("v");
            CompileProgram(Misread(c)) ==
            Function(["v"],
                     [Declare(t0), Declare(t1), Declare(t2), Constant(t2, c), NewApp(t1, t2, [v]), Release(t1),
                      Copy(t0, t1)], t0)
  {
    MisreadNames();
    MisreadApply(c);
    TemporaryRead(Apply(c, [Var("v")]), Temp(0), {Source("v")}, 1);
  }

  lemma MisreadRun(w: World, fuel: nat, st: Store, c: Sym, u: Value)
    requires st.locals == map[Source("v") := u]
    ensures var t0, t1, t2, v := Temp(0), Temp(1), Temp(2), Source("v");
            var r := Exec(fuel, w, st, [Declare(t0), Declare(t1), Declare(t2), Constant(t2, c), NewApp(t1, t2, [v]),
                                        Release(t1), Copy(t0, t1)]);
            r.Some? && r.value.marks == st.marks && Find(r.value.locals, t0) == Some(App(Symbol(c), [u]))
  {
    var t0, t1, t2, v := Temp(0), Temp(1), Temp(2), Source("v");
    assert st.locals - {t0} == st.locals && st.locals - {t1} == st.locals && st.locals - {t2} == st.locals;
    var rest := [Constant(t2, c), NewApp(t1, t2, [v]), Release(t1), Copy(t0, t1)];
    ExecFirst(fuel, w, st, Declare(t2), rest, st);
    ExecFirst(fuel, w, st, Declare(t1), [Declare(t2)] + rest, st);
    ExecFirst(fuel, w, st, Declare(t0), [Declare(t1)] + ([Declare(t2)] + rest), st);
    assert [Declare(t0)] + ([Declare(t1)] + ([Declare(t2)] + rest)) ==
           [Declare(t0), Declare(t1), Declare(t2), Constant(t2, c), NewApp(t1, t2, [v]), Release(t1), Copy(t0, t1)];
    MisreadRest(w, fuel, st, c, u);
  }

  lemma MisreadRest(w: World, fuel: nat, st: Store, c: Sym, u: Value)
    requires st.locals == map[Source("v") := u]
    ensures var t0, t1, t2, v := Temp(0), Temp(1), Temp(2), Source("v");
            var r := Exec(fuel, w, st, [Constant(t2, c), NewApp(t1, t2, [v]), Release(t1), Copy(t0, t1)]);
            r.Some? && r.value.marks == st.marks && Find(r.value.locals, t0) == Some(App(Symbol(c), [u]))
  {
    var t0, t1, t2, v := Temp(0), Temp(1), Temp(2), Source("v");
    var st1 := st.(locals := st.locals[t2 := Symbol(c)]);
    var st2 := st.(locals := st1.locals[t1 := App(Symbol(c), [u])]);
    ValuesOne(st1.locals, v);
    ExecFirst(fuel, w, st, Constant(t2, c), [NewApp(t1, t2, [v]), Release(t1), Copy(t0, t1)], st1);
    ExecFirst(fuel, w, st1, NewApp(t1, t2, [v]), [Release(t1), Copy(t0, t1)], st2);
    ExecFirst(fuel, w, st2, Release(t1), [Copy(t0, t1)], st2);
    ExecOne(fuel, w, st2, Copy(t0, t1));
  }

  lemma ValuesOne(l: Locals, q: Name)
    requires q in l
    ensures Values(l, [q]) == Some([l[q]])
  {
    assert Values(l, [q][1..]) == Some([]);
    assert [l[q]] + [] == [l[q]];
  }

  lemma ExecFirst(fuel: nat, w: World, st: Store, s: Stmt, rest: seq<Stmt>, st1: Store)
    requires ExecStmt(fuel, w, st, s) == Some(st1)
    ensures Exec(fuel, w, st, [s] + rest) == Exec(fuel, w, st1, rest)
  {
    assert ([s] + rest)[1..] == rest;
  }

  lemma MisreadEval(w: World, fuel: nat, env: Env, c: Sym, u: Value, marks: MarkSet)
    requires w.defs == map[] && env == map["v" := u]
    ensures Eval(fuel, w, env, Misread(c).body, marks) == Result(Val(Symbol("e1")), marks)
  {
    var args := [Var("v")];
    assert Eval(fuel, w, env, args[0], marks) == Result(Val(u), marks);
    assert EvalArgs(fuel, w, env, args[1..], [] + [u], marks) == Result(Val([] + [u]), marks);
    assert Eval(fuel, w, env, Apply(c, args), marks).out.Val?;
    assert Eval(fuel, w, env, Apply(c, args), marks).marks == marks;
  }

  /** The program evaluates to the constant; its function returns the application. */
  lemma MisreadConstant(w: World, fuel: nat, f: Sym, c: Sym, u: Value, marks: MarkSet)
    requires fuel > 0 && w.defs == map[] && f in w.progs && w.progs[f] == Misread(c)
    requires c != "v" && Key(c).Source? && Mangle(c) == c
    ensures EvalCall(fuel, w, f, [u], marks).out == Val(Symbol("e1"))
    ensures ExecCall(fuel, w, f, [u], marks) == Some(Return(Some(App(Symbol(c), [u])), marks))
  {
    MisreadNames();
    MisreadCode(c);
    var l := BindLocals(["v"], [u], 1);
    assert BindLocals(["v"], [u], 0) == map[] && l == map[Source("v") := u];
    MisreadRun(w, fuel - 1, Store(l, marks), c, u);
    var env: Env := Bind(map[], ["v"], [u], 1);
    assert env == map["v" := u] by {
      var none: Env := map[];
      assert Bind(none, ["v"], [u], 0) == none;
    }
    MisreadEval(w, fuel - 1, env, c, u, marks);
  }

  // ----- constants -----

  /** A statement that reads the global of a constant finds it exactly if the constant is
      spelled without special characters and no local has the name of the global, or holds
      the constant. */
  lemma ConstantRead(fuel: nat, w: World, st: Store, x: Name, c: Sym)
    ensures var g := Global(Mangle(c));
            ExecStmt(fuel, w, st, Constant(x, Mangle(c))) == Some(st.(locals := st.locals[x := Symbol(c)])) <==>
            if g in st.locals then st.locals[g] == Symbol(c) else Mangle(c) == c
  {
    var g := Global(Mangle(c));
    var v := if g in st.locals then st.locals[g] else Symbol(Mangle(c));
    assert st.locals[x := v][x] == v;
  }

  /** A variable named like the global of a constant is read for it. */
  lemma HiddenGlobal(c: Sym)
    requires Mangle(c) == c
    ensures Called("e_" + c) == Global(c)
  {
    var s := "e_" + c;
    assert Mangle(s) == s by {
      assert forall i :: 0 <= i < |s| ==> s[i] == (if i < 2 then "e_"[i] else c[i - 2]);
      assert forall i :: 0 <= i < |c| ==> MangleChar(c[i]) == c[i];
    }
    assert s[1..][0] == '_';
  }
}
