/** Matches whose first case is a default: what they are compiled to, and when that is right. */
module FirstDefaults {
  import opened Marks
  import opened Options
  import opened SideCode
  import opened Identifiers
  import opened Compiler
  import opened Conditions
  import opened CompilerProof

  /** A default that comes first and is not a symbol is written out before the match and
      again in it.  Its code runs twice: the value and the marks are those of the second
      run, which are right exactly if running the default again changes nothing. */
  lemma FirstDefault(b: Batch, fuel: nat, env: Env, taken: set<Sym>, vars: set<Name>, count: nat,
                     e: Code, ret: Name, st: Store)
    requires b.Ready(env, taken, vars) && Represents(b, st.locals, env) && Target(ret, In(b, env), taken, count)
    requires e.Match? && |e.cases| == 1 && e.cases[0].Default? && !e.cases[0].body.Var?
    requires Compilable(e.scrut, env.Keys, taken, b) && Compilable(e.cases[0].body, env.Keys, taken, b)
    requires Eval(fuel, b.W(), env, e, st.marks).out.Val?
    requires Eval(fuel, b.W(), env, e.cases[0].body, Eval(fuel, b.W(), env, e, st.marks).marks).out.Val?
    ensures var r := Eval(fuel, b.W(), env, e, st.marks);
            var again := Eval(fuel, b.W(), env, e.cases[0].body, r.marks);
            var run := Exec(fuel, b.W(), st, WriteCode(e, ret, vars, count).code);
            && Yields(run, st, In(b, env), count, {ret}, ret, again.out.v, again.marks)
            && (Yields(run, st, In(b, env), count, {ret}, ret, r.out.v, r.marks) <==> again == r)
  {
    var twice := Do(e.cases[0].body, e.cases[0].body);
    var a, st1 := DefaultScrut(b, fuel, env, taken, vars, count, e, ret, st);
    DefaultEval(fuel, b.W(), env, e, st.marks);
    DefaultTwiceCode(e, ret, vars, count);
    var again := Eval(fuel, b.W(), env, twice, st1.marks);
    var code := WriteCode(e, ret, vars, count).code;
    DefaultTwice(b, fuel, env, taken, count, a, twice, ret, st, st1, again, code);
    var r := Eval(fuel, b.W(), env, e, st.marks);
    YieldsOne(Exec(fuel, b.W(), st, code), st, In(b, env), count, ret, again.out.v, again.marks, r.out.v, r.marks);
  }

  /** The code for the match: that of the scrutinee, and that of the default twice. */
  predicate TwiceCode(twice: Code, a: NamedOut, ret: Name, code: seq<Stmt>) {
    && |a.names| == 1 && twice.Do?
    && var p := WriteExpr(twice.first, a.vars, a.count + 1);
       var c := WriteCode(twice.second, ret, p.vars, p.count).code;
       code == a.code + [GetHead(Temp(a.count), a.names[0])] + p.code + [Block(c)] + Releases([a.names[0]] + p.names)
  }

  lemma DefaultScrut(b: Batch, fuel: nat, env: Env, taken: set<Sym>, vars: set<Name>, count: nat,
                     e: Code, ret: Name, st: Store)
    returns (a: NamedOut, st1: Store)
    requires b.Ready(env, taken, vars) && Represents(b, st.locals, env) && Target(ret, In(b, env), taken, count)
    requires e.Match? && |e.cases| == 1 && e.cases[0].Default? && !e.cases[0].body.Var?
    requires Compilable(e.scrut, env.Keys, taken, b) && Eval(fuel, b.W(), env, e, st.marks).out.Val?
    ensures a == WriteExpr(e.scrut, vars, count) && Scrutinized(b, fuel, env, taken, count, [], a, ret, st, st1)
    ensures st1.marks == Eval(fuel, b.W(), env, e.scrut, st.marks).marks
  {
    MatchEval(fuel, b.W(), env, e, st.marks);
    a := WriteExpr(e.scrut, vars, count);
    st1 := ExprCorrect(b, fuel, env, taken, vars, count, e.scrut, st);
  }

  lemma DefaultTwiceCode(e: Code, ret: Name, vars: set<Name>, count: nat)
    requires e.Match? && |e.cases| == 1 && e.cases[0].Default? && !e.cases[0].body.Var?
    ensures TwiceCode(Do(e.cases[0].body, e.cases[0].body), WriteExpr(e.scrut, vars, count), ret,
                      WriteCode(e, ret, vars, count).code)
  {
    MatchCases(e, ret, vars, count);
    DefaultCode(e.cases, WriteExpr(e.scrut, vars, count), ret, WriteCode(e, ret, vars, count).code);
  }

  lemma DefaultEval(fuel: nat, w: World, env: Env, e: Code, marks: MarkSet)
    requires e.Match? && |e.cases| == 1 && e.cases[0].Default? && Eval(fuel, w, env, e, marks).out.Val?
    ensures var body, m := e.cases[0].body, Eval(fuel, w, env, e.scrut, marks).marks;
            && Eval(fuel, w, env, e, marks) == Eval(fuel, w, env, body, m)
            && Eval(fuel, w, env, Do(body, body), m) ==
               Eval(fuel, w, env, body, Eval(fuel, w, env, e, marks).marks)
  {
    MatchEval(fuel, w, env, e, marks);
  }

  lemma DefaultCode(cases: seq<Case>, a: NamedOut, ret: Name, code: seq<Stmt>)
    requires |cases| == 1 && cases[0].Default? && !cases[0].body.Var? && CasesCode(cases, a, ret, code)
    ensures TwiceCode(Do(cases[0].body, cases[0].body), a, ret, code)
  {
    var body := cases[0].body;
    var p := WriteExpr(body, a.vars, a.count + 1);
    assert WriteArgs(cases[1..], false, p.vars, p.count) == NamedOut([], [], p.vars, p.count);
    assert p.code + [] == p.code && p.names + [] == p.names;
    assert WriteArgs(cases, false, a.vars, a.count + 1) == p;
    var c := WriteCode(body, ret, p.vars, p.count).code;
    assert [Block(c)] + [] == [Block(c)];
  }

  lemma DefaultTwice(b: Batch, fuel: nat, env: Env, taken: set<Sym>, count: nat, a: NamedOut, twice: Code,
                     ret: Name, st: Store, st1: Store, r: Result<Value>, code: seq<Stmt>)
    requires Scrutinized(b, fuel, env, taken, count, [], a, ret, st, st1) && TwiceCode(twice, a, ret, code)
    requires Compilable(twice.first, env.Keys, taken, b) && Compilable(twice.second, env.Keys, taken, b)
    requires r == Eval(fuel, b.W(), env, twice, st1.marks) && r.out.Val?
    ensures Yields(Exec(fuel, b.W(), st, code), st, In(b, env), count, {ret}, ret, r.out.v, r.marks)
  {
    var y, h := a.names[0], Temp(a.count);
    var p := WriteExpr(twice.first, a.vars, a.count + 1);
    var c := WriteCode(twice.second, ret, p.vars, p.count).code;
    var st2 := st1.(locals := st1.locals[h := InnerHead(st1.locals[y])]);
    HeadSet(b, st1, env, a.count, InnerHead(st1.locals[y]));
    var st3 := DefaultRuns(b, fuel, env, taken, a.vars, a.count + 1, twice, p, ret, st2, r);
    PrologueKept(b, st, st1, st3, env, count, a.count, y);
    HoldingBoth(b, st3.locals, env, count, a.count, p.count, y, p.names);
    MatchFinish(b, fuel, env, taken, count, p.count, [y] + p.names, ret, st, a.code, st1, h, y, p.code, st3, [Block(c)],
                code, r);
  }

  lemma DefaultRuns(b: Batch, fuel: nat, env: Env, taken: set<Sym>, vars: set<Name>, count: nat, twice: Code,
                    p: NamedOut, ret: Name, st: Store, r: Result<Value>)
    returns (st': Store)
    requires b.Ready(env, taken, vars) && Represents(b, st.locals, env) && Target(ret, In(b, env), taken, count)
    requires twice.Do? && p == WriteExpr(twice.first, vars, count)
    requires Compilable(twice.first, env.Keys, taken, b) && Compilable(twice.second, env.Keys, taken, b)
    requires r == Eval(fuel, b.W(), env, twice, st.marks) && r.out.Val?
    ensures Exec(fuel, b.W(), st, p.code) == Some(st') && Kept(st.locals, st'.locals, In(b, env), count, {})
    ensures NewName(p.names[0], In(b, env), count, p.count) && p.names[0] in st'.locals
    ensures var c := WriteCode(twice.second, ret, p.vars, p.count).code;
            Yields(Exec(fuel, b.W(), st', [Block(c)]), st', In(b, env), p.count, {ret}, ret, r.out.v, r.marks)
  {
    st' := ExprCorrect(b, fuel, env, taken, vars, count, twice.first, st);
    BlockCorrect(b, fuel, env, taken, p.vars, p.count, twice.second, ret, st');
    BlockExec(b.W(), fuel, st', WriteCode(twice.second, ret, p.vars, p.count).code);
  }

  lemma BlockExec(w: World, fuel: nat, st: Store, code: seq<Stmt>)
    ensures Exec(fuel, w, st, [Block(code)]) == ExecBlock(fuel, w, st, code)
  {
    ExecOne(fuel, w, st, Block(code));
  }

  lemma HoldingBoth(b: Batch, l: Locals, env: Env, count: nat, next: nat, count': nat, y: Name, names: seq<Name>)
    requires count <= next < count' && NewName(y, In(b, env), count, next) && y in l
    requires |names| == 1 && NewName(names[0], In(b, env), next + 1, count') && names[0] in l
    ensures Holding(l, [y] + names, In(b, env), count, count')
  {
    HoldingMore(l, [y], names, In(b, env), count, next + 1, count');
  }

  /** A mark that a first default flips is flipped back. */
  lemma MarkFlippedTwice(b: Batch, fuel: nat, env: Env, taken: set<Sym>, vars: set<Name>, count: nat,
                         v: Sym, i: Bit, ret: Name, st: Store)
    requires b.Ready(env, taken, vars) && Represents(b, st.locals, env) && Target(ret, In(b, env), taken, count)
    requires v in env && env[v].Symbol?
    ensures var e := Match(Var(v), [Default(MarkVar(i, Var(v)))]);
            var r := Exec(fuel, b.W(), st, WriteCode(e, ret, vars, count).code);
            && Eval(fuel, b.W(), env, e, st.marks) == Result(Val(env[v]), Flip(st.marks, env[v].s, i))
            && r.Some? && r.value.marks == st.marks != Flip(st.marks, env[v].s, i)
  {
    var body := MarkVar(i, Var(v));
    var e := Match(Var(v), [Default(body)]);
    assert e.cases[0] == Default(body);
    var once := Flip(st.marks, env[v].s, i);
    MarkEval(fuel, b.W(), env, v, i, st.marks);
    MarkEval(fuel, b.W(), env, v, i, once);
    FlipTwice(st.marks, env[v].s, i);
    FirstDefault(b, fuel, env, taken, vars, count, e, ret, st);
  }

  lemma MarkEval(fuel: nat, w: World, env: Env, v: Sym, i: Bit, marks: MarkSet)
    requires w.defs == map[] && v in env && env[v].Symbol?
    ensures var body, r := MarkVar(i, Var(v)), Result(Val(env[v]), Flip(marks, env[v].s, i));
            && Eval(fuel, w, env, body, marks) == r
            && Eval(fuel, w, env, Match(Var(v), [Default(body)]), marks) == r
  {
    var e := Match(Var(v), [Default(MarkVar(i, Var(v)))]);
    assert e.cases[0] == Default(MarkVar(i, Var(v)));
    assert Eval(fuel, w, env, Var(v), marks) == Result(Val(env[v]), marks);
  }

  lemma FlipTwice(marks: MarkSet, v: Sym, i: Bit)
    ensures Flip(Flip(marks, v, i), v, i) == marks != Flip(marks, v, i)
  {
  }
}
