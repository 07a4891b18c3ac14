/** The type checker as it runs: types of variables are inserted into the shared symbol
    table for the scope of the variable, and the previous entries are put back. */
module Checker {
  import opened Marks
  import opened Options
  import opened Collections
  import opened Slots
  import opened SideCode
  import opened Typing

  // ----- checking as a function of the table -----

  /** A type with the table that is left when it is found. */
  function Found(t: Option<Ty>, types: Types): Option<(Ty, Types)> {
    if t.None? then None else Some((t.value, types))
  }

  /** The type of code, and the symbol table after checking it. */
  function Through(types: Types, progTys: Types, e: Code): Option<(Ty, Types)>
    decreases e, 1
  {
    match e
    case IntLit(_) => Some((Mpz, types))
    case RatLit(_, _) => Some((Mpq, types))
    case Var(s) => Found(Get(types, s), types)
    case Apply(head, args) =>
      var a := ThroughArgs(types, progTys, args, []);
      if a.None? || head !in a.value.1 || !a.value.1[head].Pi? then None
      else Found(Applied(a.value.1[head], a.value.0), a.value.1)
    case Call(prog, args) =>
      var a := ThroughArgs(types, progTys, args, []);
      if a.None? || prog !in progTys || !progTys[prog].Pi? then None
      else Found(Applied(progTys[prog], a.value.0), a.value.1)
    case Do(first, second) =>
      var a := Through(types, progTys, first);
      if a.None? then None else Through(a.value.1, progTys, second)
    case Let(x, bound, body) =>
      var a := Through(types, progTys, bound);
      if a.None? then None else
      var (t, m) := a.value;
      var b := Through(m[x := t], progTys, body);
      if b.None? then None else Some((b.value.0, Put(b.value.1, x, Get(m, x))))
    case Arith(_, left, right) =>
      var a := Through(types, progTys, left);
      if a.None? then None else
      var b := Through(a.value.1, progTys, right);
      if b.None? || !Numeric(a.value.0) || a.value.0 != b.value.0 then None else b
    case Negate(arg) =>
      var a := Through(types, progTys, arg);
      if a.None? || !Numeric(a.value.0) then None else a
    case IfSign(_, arg, thn, els) =>
      var a := Through(types, progTys, arg);
      if a.None? || !Numeric(a.value.0) then None else ThroughBranches(a.value.1, progTys, e)
    case FailOf(t) =>
      if Numeric(t) || (t.Data? && Get(types, t.d) == Some(TypeK)) then Some((t, types)) else None
    case MarkVar(_, arg) =>
      var a := Through(types, progTys, arg);
      if a.None? || !Plain(a.value.1, a.value.0) then None else a
    case IfMarked(_, arg, thn, els) =>
      var a := Through(types, progTys, arg);
      if a.None? || !Plain(a.value.1, a.value.0) then None else ThroughBranches(a.value.1, progTys, e)
    case Compare(left, right, thn, els) =>
      var a := Through(types, progTys, left);
      if a.None? || !a.value.0.Data? then None else
      var b := Through(a.value.1, progTys, right);
      if b.None? || !b.value.0.Data? then None else ThroughBranches(b.value.1, progTys, e)
    case Match(scrut, cases) =>
      var a := Through(types, progTys, scrut);
      if a.None? || !Plain(a.value.1, a.value.0) then None else ThroughCases(a.value.1, progTys, cases, None)
  }

  function ThroughBranches(types: Types, progTys: Types, e: Code): Option<(Ty, Types)>
    requires e.IfSign? || e.IfMarked? || e.Compare?
    decreases e, 0
  {
    var a := Through(types, progTys, e.thn);
    if a.None? then None else
    var b := Through(a.value.1, progTys, e.els);
    if b.None? then None else Found(SameDatatype(Some(a.value.0), Some(b.value.0)), b.value.1)
  }

  function ThroughArgs(types: Types, progTys: Types, args: seq<Code>, done: seq<Ty>): Option<(seq<Ty>, Types)>
    decreases args
  {
    if args == [] then Some((done, types))
    else
      var a := Through(types, progTys, args[0]);
      if a.None? then None else ThroughArgs(a.value.1, progTys, args[1..], done + [a.value.0])
  }

  function ThroughCases(types: Types, progTys: Types, cases: seq<Case>, known: Option<Ty>): Option<(Ty, Types)>
    decreases cases
  {
    if cases == [] then Found(known, types)
    else
      var a := ThroughCase(types, progTys, cases[0]);
      if a.None? || (known.Some? && known.value != a.value.0) then None
      else ThroughCases(a.value.1, progTys, cases[1..], Some(a.value.0))
  }

  /** The entries of a pattern's variables are put back in the order in which they were
      replaced. */
  function ThroughCase(types: Types, progTys: Types, c: Case): Option<(Ty, Types)>
    decreases c
  {
    match c
    case Default(body) => Through(types, progTys, body)
    case Arm(ctor, vars, body) =>
      if vars == [] then Through(types, progTys, body)
      else if ctor !in types then None
      else
        var doms := Domains(types[ctor], |vars|);
        if doms.None? then None else
        var b := Through(Bind(types, vars, doms.value, |vars|), progTys, body);
        if b.None? then None
        else Some((b.value.0, Restore(b.value.1, vars, Saved(types, vars, doms.value, |vars|), |vars|)))
  }

  // ----- code whose patterns bind no variable twice -----

  /** No pattern binds a variable twice. */
  function DistinctVars(): Case -> bool {
    (c: Case) => c.Arm? ==> Distinct(c.vars)
  }

  /** Code whose patterns have distinct variables gets its type and leaves the table as it
      was. */
  lemma {:induction false} TableKept(types: Types, progTys: Types, e: Code)
    requires AllCases(e, DistinctVars())
    ensures Through(types, progTys, e) == Found(TypeOf(types, progTys, e), types)
    decreases e, 2
  {
    match e
    case IntLit(_) =>
    case RatLit(_, _) =>
    case Var(_) =>
    case Apply(_, _) => AppKept(types, progTys, e);
    case Call(_, _) => AppKept(types, progTys, e);
    case Do(first, second) =>
      TableKept(types, progTys, first);
      TableKept(types, progTys, second);
    case Let(_, _, _) => LetKept(types, progTys, e);
    case Arith(_, left, right) =>
      TableKept(types, progTys, left);
      TableKept(types, progTys, right);
    case Negate(arg) => TableKept(types, progTys, arg);
    case IfSign(_, _, _, _) => BranchesKept(types, progTys, e);
    case FailOf(_) =>
    case MarkVar(_, arg) => TableKept(types, progTys, arg);
    case IfMarked(_, _, _, _) => BranchesKept(types, progTys, e);
    case Compare(_, _, _, _) => CompareKept(types, progTys, e);
    case Match(_, _) => MatchKept(types, progTys, e);
  }

  lemma {:induction false} LetKept(types: Types, progTys: Types, e: Code)
    requires e.Let? && AllCases(e, DistinctVars())
    ensures Through(types, progTys, e) == Found(TypeOf(types, progTys, e), types)
    decreases e, 0
  {
    TableKept(types, progTys, e.bound);
    var t := TypeOf(types, progTys, e.bound);
    if t.Some? {
      TableKept(types[e.x := t.value], progTys, e.body);
      PutBack(types, e.x, t.value);
    }
  }

  lemma {:induction false} AppKept(types: Types, progTys: Types, e: Code)
    requires (e.Apply? || e.Call?) && AllCases(e, DistinctVars())
    ensures Through(types, progTys, e) == Found(TypeOf(types, progTys, e), types)
    decreases e, 0
  {
    ArgsKept(types, progTys, e.args, []);
  }

  lemma {:induction false} MatchKept(types: Types, progTys: Types, e: Code)
    requires e.Match? && AllCases(e, DistinctVars())
    ensures Through(types, progTys, e) == Found(TypeOf(types, progTys, e), types)
    decreases e, 0
  {
    TableKept(types, progTys, e.scrut);
    CasesKept(types, progTys, e.cases, None);
  }

  lemma {:induction false} CompareKept(types: Types, progTys: Types, e: Code)
    requires e.Compare? && AllCases(e, DistinctVars())
    ensures Through(types, progTys, e) == Found(TypeOf(types, progTys, e), types)
    decreases e, 1
  {
    TableKept(types, progTys, e.left);
    TableKept(types, progTys, e.right);
    BranchesKept(types, progTys, e);
  }

  lemma {:induction false} BranchesKept(types: Types, progTys: Types, e: Code)
    requires (e.IfSign? || e.IfMarked? || e.Compare?) && AllCases(e, DistinctVars())
    ensures ThroughBranches(types, progTys, e) ==
            Found(SameDatatype(TypeOf(types, progTys, e.thn), TypeOf(types, progTys, e.els)), types)
    ensures !e.Compare? ==> Through(types, progTys, e.arg) == Found(TypeOf(types, progTys, e.arg), types)
    decreases e, 0
  {
    if !e.Compare? { TableKept(types, progTys, e.arg); }
    TableKept(types, progTys, e.thn);
    TableKept(types, progTys, e.els);
  }

  lemma {:induction false} ArgsKept(types: Types, progTys: Types, args: seq<Code>, done: seq<Ty>)
    requires forall i :: 0 <= i < |args| ==> AllCases(args[i], DistinctVars())
    ensures var tys := TypesOf(types, progTys, args, done);
            ThroughArgs(types, progTys, args, done) == if tys.None? then None else Some((tys.value, types))
    decreases args
  {
    if args != [] {
      TableKept(types, progTys, args[0]);
      var t := TypeOf(types, progTys, args[0]);
      if t.Some? { ArgsKept(types, progTys, args[1..], done + [t.value]); }
    }
  }

  lemma {:induction false} CasesKept(types: Types, progTys: Types, cases: seq<Case>, known: Option<Ty>)
    requires forall i :: 0 <= i < |cases| ==> DistinctVars()(cases[i]) && AllCases(cases[i].body, DistinctVars())
    ensures ThroughCases(types, progTys, cases, known) == Found(TypeOfCases(types, progTys, cases, known), types)
    decreases cases
  {
    if cases != [] {
      CaseKept(types, progTys, cases[0]);
      CasesKept(types, progTys, cases[1..], TypeOfCase(types, progTys, cases[0]));
    }
  }

  lemma {:induction false} CaseKept(types: Types, progTys: Types, c: Case)
    requires DistinctVars()(c) && AllCases(c.body, DistinctVars())
    ensures ThroughCase(types, progTys, c) == Found(TypeOfCase(types, progTys, c), types)
    decreases c
  {
    assert c.body < c;
    if c.Default? || c.vars == [] {
      TableKept(types, progTys, c.body);
    } else if c.ctor in types && Domains(types[c.ctor], |c.vars|).Some? {
      var doms := Domains(types[c.ctor], |c.vars|).value;
      TableKept(Bind(types, c.vars, doms, |c.vars|), progTys, c.body);
      RestoreUndoes(types, c.vars, doms, |c.vars|);
    }
  }

  /** The case of a pattern leaves the table as it was exactly if each repeated variable
      already had the type that it is given at its last place but one. */
  lemma CaseTable(types: Types, progTys: Types, c: Case)
    requires c.Arm? && c.vars != [] && AllCases(c.body, DistinctVars()) && ThroughCase(types, progTys, c).Some?
    ensures c.ctor in types && Domains(types[c.ctor], |c.vars|).Some?
    ensures ThroughCase(types, progTys, c).value.1 == types <==>
            forall i: nat, j: nat :: LastTwo(c.vars, |c.vars|, i, j) ==>
              Get(types, c.vars[i]) == Some(Domains(types[c.ctor], |c.vars|).value[i])
  {
    var doms := Domains(types[c.ctor], |c.vars|).value;
    TableKept(Bind(types, c.vars, doms, |c.vars|), progTys, c.body);
    RestoreExact(types, c.vars, doms, |c.vars|);
  }

  /** A pattern that names a variable twice leaves the type of its first argument in the
      table, and a symbol without a type is accepted after it. */
  lemma TableLeft(t: Ty, progTys: Types) returns (types: Types, e: Code)
    ensures TypeOf(types, progTys, e).None? && Through(types, progTys, e) == Some((t, types["x" := t]))
  {
    types := map["d" := TypeK, "v" := Data("d"), "c" := SideCode.Pi(t, SideCode.Pi(Mpz, Data("d")))];
    var m := Match(Var("v"), [Arm("c", ["x", "x"], Var("v"))]);
    e := Do(m, Var("x"));
    RepeatedLeft(types, progTys, m.cases[0], t);
    assert ThroughCases(types, progTys, m.cases, None) == Some((Data("d"), types["x" := t]));
    assert Through(types, progTys, m) == Some((Data("d"), types["x" := t]));
  }

  lemma RepeatedLeft(types: Types, progTys: Types, c: Case, t: Ty)
    requires c == Arm("c", ["x", "x"], Var("v")) && "x" !in types && Get(types, "v") == Some(Data("d"))
    requires Get(types, "c") == Some(SideCode.Pi(t, SideCode.Pi(Mpz, Data("d"))))
    ensures ThroughCase(types, progTys, c) == Some((Data("d"), types["x" := t]))
  {
    var doms := Domains(types["c"], 2);
    assert doms == Some([t, Mpz]) by {
      assert Domains(Data("d"), 0) == Some([]) && [Mpz] + [] == [Mpz] && [t] + [Mpz] == [t, Mpz];
      assert Domains(SideCode.Pi(Mpz, Data("d")), 1) == Some([Mpz]);
    }
    var xs, ts := ["x", "x"], [t, Mpz];
    assert Bind(types, xs, ts, 1) == types["x" := t];
    assert Bind(types, xs, ts, 2) == types["x" := t]["x" := Mpz];
    assert Saved(types, xs, ts, 1) == [None];
    assert Saved(types, xs, ts, 2) == [None, Some(t)];
    var m := Bind(types, xs, ts, 2);
    assert Restore(m, xs, [None, Some(t)], 1) == m - {"x"};
    assert Restore(m, xs, [None, Some(t)], 2) == types["x" := t];
  }

  /** The argument types of t that remain after the first i. */
  ghost predicate Remaining(t: Ty, n: nat, doms: seq<Ty>, cur: Ty, i: nat)
    requires i <= n
  {
    && (Domains(t, n).Some? <==> Domains(cur, n - i).Some?)
    && (Domains(t, n).Some? ==> Domains(t, n).value == doms + Domains(cur, n - i).value)
  }

  lemma DomainsStep(t: Ty, n: nat, doms: seq<Ty>, cur: Ty, i: nat)
    requires i < n && cur.Pi? && Remaining(t, n, doms, cur, i)
    ensures Remaining(t, n, doms + [cur.dom], cur.cod, i + 1)
  {
    var rest := Domains(cur.cod, n - i - 1);
    assert rest.Some? ==> doms + ([cur.dom] + rest.value) == doms + [cur.dom] + rest.value;
  }

  // ----- the checker -----

  class Checker {
    var types: Types
    const progTys: Types

    constructor (types: Types, progTys: Types)
      ensures this.types == types && this.progTys == progTys
    {
      this.types, this.progTys := types, progTys;
    }

    /** Computes the type of code, or rejects it. */
    method Check(e: Code) returns (t: Option<Ty>)
      modifies this
      ensures Found(t, types) == Through(old(types), progTys, e)
      decreases e, 1
    {
      match e
      case IntLit(_) => t := Some(Mpz);
      case RatLit(_, _) => t := Some(Mpq);
      case Var(s) => t := Get(types, s);
      case Apply(head, args) =>
        var tys := CheckArgs(args);
        if tys.None? || head !in types || !types[head].Pi? { return None; }
        t := Applied(types[head], tys.value);
      case Call(prog, args) =>
        var tys := CheckArgs(args);
        if tys.None? || prog !in progTys || !progTys[prog].Pi? { return None; }
        t := Applied(progTys[prog], tys.value);
      case Do(first, second) =>
        t := Check(first);
        if t.None? { return; }
        t := Check(second);
      case Let(_, _, _) => t := CheckLet(e);
      case Arith(_, left, right) =>
        t := Check(left);
        if t.None? { return; }
        var t' := Check(right);
        if t'.None? || !Numeric(t.value) || t != t' { return None; }
      case Negate(arg) =>
        t := Check(arg);
        if t.Some? && !Numeric(t.value) { return None; }
      case IfSign(_, arg, _, _) =>
        t := Check(arg);
        if t.None? || !Numeric(t.value) { return None; }
        t := CheckBranches(e);
      case FailOf(ty) =>
        t := if Numeric(ty) || (ty.Data? && Get(types, ty.d) == Some(TypeK)) then Some(ty) else None;
      case MarkVar(_, arg) =>
        t := Check(arg);
        if t.Some? && !Plain(types, t.value) { return None; }
      case IfMarked(_, arg, _, _) =>
        t := Check(arg);
        if t.None? || !Plain(types, t.value) { return None; }
        t := CheckBranches(e);
      case Compare(left, right, _, _) =>
        t := Check(left);
        if t.None? || !t.value.Data? { return None; }
        t := Check(right);
        if t.None? || !t.value.Data? { return None; }
        t := CheckBranches(e);
      case Match(scrut, cases) =>
        t := Check(scrut);
        if t.None? || !Plain(types, t.value) { return None; }
        t := CheckCases(cases);
    }

    method CheckLet(e: Code) returns (t: Option<Ty>)
      requires e.Let?
      modifies this
      ensures Found(t, types) == Through(old(types), progTys, e)
      decreases e, 0
    {
      t := Check(e.bound);
      if t.None? { return; }
      var prev := Get(types, e.x);
      types := types[e.x := t.value];
      t := Check(e.body);
      types := Put(types, e.x, prev);
    }

    method CheckBranches(e: Code) returns (t: Option<Ty>)
      requires e.IfSign? || e.IfMarked? || e.Compare?
      modifies this
      ensures Found(t, types) == ThroughBranches(old(types), progTys, e)
      decreases e, 0
    {
      t := Check(e.thn);
      if t.None? { return; }
      var t' := Check(e.els);
      if t'.None? { return None; }
      t := SameDatatype(t, t');
    }

    method CheckArgs(args: seq<Code>) returns (tys: Option<seq<Ty>>)
      modifies this
      ensures ThroughArgs(old(types), progTys, args, []) == if tys.None? then None else Some((tys.value, types))
      decreases args, 1
    {
      var done: seq<Ty> := [];
      for i := 0 to |args|
        invariant ThroughArgs(old(types), progTys, args, []) == ThroughArgs(types, progTys, args[i..], done)
      {
        assert args[i..][0] == args[i] && args[i..][1..] == args[i + 1..];
        var t := Check(args[i]);
        if t.None? { return None; }
        done := done + [t.value];
      }
      tys := Some(done);
    }

    method CheckCases(cases: seq<Case>) returns (t: Option<Ty>)
      modifies this
      ensures Found(t, types) == ThroughCases(old(types), progTys, cases, None)
      decreases cases, 1
    {
      t := None;
      for i := 0 to |cases|
        invariant ThroughCases(old(types), progTys, cases, None) == ThroughCases(types, progTys, cases[i..], t)
      {
        assert cases[i..][0] == cases[i] && cases[i..][1..] == cases[i + 1..];
        var t' := CheckCase(cases[i]);
        if t'.None? || (t.Some? && t != t') { return None; }
        t := t';
      }
    }

    method CheckCase(c: Case) returns (t: Option<Ty>)
      modifies this
      ensures Found(t, types) == ThroughCase(old(types), progTys, c)
      decreases c, 0
    {
      match c
      case Default(body) => t := Check(body);
      case Arm(ctor, vars, body) =>
        if vars == [] {
          t := Check(body);
          return;
        }
        if ctor !in types { return None; }
        var prevs := InsertVars(types[ctor], vars);
        if prevs.None? { return None; }
        t := Check(body);
        if t.None? { return; }
        ghost var after := types;
        for i := 0 to |vars|
          invariant types == Restore(after, vars, prevs.value, i)
        {
          types := Put(types, vars[i], prevs.value[i]);
        }
    }

    /** Gives pattern variables the argument types of a constructor of type t. */
    method InsertVars(t: Ty, vars: seq<Sym>) returns (prevs: Option<seq<Option<Ty>>>)
      modifies this
      ensures prevs.Some? <==> Domains(t, |vars|).Some?
      ensures prevs.Some? ==>
                && types == Bind(old(types), vars, Domains(t, |vars|).value, |vars|)
                && prevs.value == Saved(old(types), vars, Domains(t, |vars|).value, |vars|)
    {
      var cur, olds, n := t, [], |vars|;
      ghost var doms: seq<Ty> := [];
      for i := 0 to n
        invariant |doms| == i
        invariant types == Bind(old(types), vars, doms, i)
        invariant olds == Saved(old(types), vars, doms, i)
        invariant Remaining(t, n, doms, cur, i)
      {
        if !cur.Pi? { return None; }
        BindPrefix(old(types), vars, doms, doms + [cur.dom], i);
        DomainsStep(t, n, doms, cur, i);
        doms := doms + [cur.dom];
        olds := olds + [Get(types, vars[i])];
        types := types[vars[i] := cur.dom];
        cur := cur.cod;
      }
      prevs := Some(olds);
      assert Domains(t, n).value == doms;
    }
  }
}
