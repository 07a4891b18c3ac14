/** Typing rules of side-condition code, one for each construct, and that the type checker
    accepts exactly the code that they give a type. */
module Rules {
  import opened Marks
  import opened Options
  import opened Slots
  import opened SideCode
  import opened Typing
  import opened Checker

  // ----- the rules -----

  /** The type of functions from types tys to t. */
  function Arrow(tys: seq<Ty>, t: Ty): Ty {
    if tys == [] then t else SideCode.Pi(tys[0], Arrow(tys[1..], t))
  }

  /** A datatype that is declared, possibly as a family. */
  ghost predicate Datatype(types: Types, t: Ty) {
    t.Data? && t.d in types && exists tys: seq<Ty> :: types[t.d] == Arrow(tys, TypeK)
  }

  ghost predicate HasType(types: Types, progTys: Types, e: Code, t: Ty)
    decreases e
  {
    match e
    case IntLit(_) => t == Mpz
    case RatLit(_, _) => t == Mpq
    case Var(s) => s in types && t == types[s]
    case Apply(head, args) => head in types && Results(types, progTys, types[head], args, t)
    case Call(prog, args) => prog in progTys && Results(types, progTys, progTys[prog], args, t)
    case Do(first, second) => (exists u :: HasType(types, progTys, first, u)) && HasType(types, progTys, second, t)
    case Let(x, bound, body) =>
      exists u :: HasType(types, progTys, bound, u) && HasType(types[x := u], progTys, body, t)
    case Arith(_, left, right) =>
      t in {Mpz, Mpq} && HasType(types, progTys, left, t) && HasType(types, progTys, right, t)
    case Negate(arg) => t in {Mpz, Mpq} && HasType(types, progTys, arg, t)
    case IfSign(_, arg, thn, els) =>
      && (HasType(types, progTys, arg, Mpz) || HasType(types, progTys, arg, Mpq))
      && t.Data? && HasType(types, progTys, thn, t) && HasType(types, progTys, els, t)
    case FailOf(u) => t == u && (u in {Mpz, Mpq} || (u.Data? && u.d in types && types[u.d] == TypeK))
    case MarkVar(_, arg) => Datatype(types, t) && HasType(types, progTys, arg, t)
    case IfMarked(_, arg, thn, els) =>
      && (exists u :: Datatype(types, u) && HasType(types, progTys, arg, u))
      && t.Data? && HasType(types, progTys, thn, t) && HasType(types, progTys, els, t)
    case Compare(left, right, thn, els) =>
      && (exists d: Sym :: HasType(types, progTys, left, Data(d)))
      && (exists d: Sym :: HasType(types, progTys, right, Data(d)))
      && t.Data? && HasType(types, progTys, thn, t) && HasType(types, progTys, els, t)
    case Match(scrut, cases) =>
      && (exists u :: Datatype(types, u) && HasType(types, progTys, scrut, u))
      && cases != [] && forall i :: 0 <= i < |cases| ==> CaseHasType(types, progTys, cases[i], t)
  }

  /** A function of type f, applied to all of its arguments, has a result of type t. */
  ghost predicate Results(types: Types, progTys: Types, f: Ty, args: seq<Code>, t: Ty)
    decreases args, 1
  {
    && args != [] && !t.Pi?
    && exists tys: seq<Ty> :: f == Arrow(tys, t) && HaveTypesIn(types, progTys, args, tys)
  }

  ghost predicate HaveTypesIn(types: Types, progTys: Types, args: seq<Code>, tys: seq<Ty>)
    decreases args, 0
  {
    |args| == |tys| && forall i :: 0 <= i < |args| ==> HasType(types, progTys, args[i], tys[i])
  }

  /** The variables of a pattern have the types of the first arguments of its constructor. */
  ghost predicate CaseHasType(types: Types, progTys: Types, c: Case, t: Ty)
    decreases c
  {
    match c
    case Default(body) => HasType(types, progTys, body, t)
    case Arm(ctor, vars, body) =>
      if vars == [] then HasType(types, progTys, body, t)
      else
        && ctor in types
        && exists tys: seq<Ty>, u :: types[ctor] == Arrow(tys, u) && |tys| == |vars| &&
                                     HasType(Bind(types, vars, tys, |vars|), progTys, body, t)
  }

  // ----- function types -----

  lemma {:induction false} Kinds(t: Ty) returns (tys: seq<Ty>)
    requires IsKind(t)
    ensures t == Arrow(tys, TypeK)
    decreases t
  {
    if t.TypeK? {
      tys := [];
    } else {
      var rest := Kinds(t.cod);
      tys := [t.dom] + rest;
      assert tys[1..] == rest;
    }
  }

  lemma {:induction false} ArrowKind(tys: seq<Ty>)
    ensures IsKind(Arrow(tys, TypeK))
    decreases tys
  {
    if tys != [] {
      ArrowKind(tys[1..]);
    }
  }

  lemma DatatypePlain(types: Types, t: Ty)
    ensures Plain(types, t) <==> Datatype(types, t)
  {
    if Plain(types, t) {
      var tys := Kinds(types[t.d]);
      assert types[t.d] == Arrow(tys, TypeK);
    } else if Datatype(types, t) {
      var tys: seq<Ty> :| types[t.d] == Arrow(tys, TypeK);
      ArrowKind(tys);
    }
  }

  /** Applying a function to all of its arguments. */
  lemma {:induction false} AppliedArrow(f: Ty, tys: seq<Ty>, t: Ty)
    ensures Applied(f, tys) == Some(t) <==> f == Arrow(tys, t) && !t.Pi?
    decreases tys
  {
    if f.Pi? && tys != [] {
      AppliedArrow(f.cod, tys[1..], t);
    }
  }

  /** The types of the first arguments. */
  lemma {:induction false} DomainsArrow(f: Ty, tys: seq<Ty>) returns (u: Ty)
    requires Domains(f, |tys|) == Some(tys)
    ensures f == Arrow(tys, u)
    decreases tys
  {
    u := f;
    if tys != [] {
      assert tys == [tys[0]] + tys[1..];
      assert f.dom == tys[0] && Domains(f.cod, |tys[1..]|) == Some(tys[1..]);
      u := DomainsArrow(f.cod, tys[1..]);
    }
  }

  lemma {:induction false} ArrowDomains(tys: seq<Ty>, u: Ty)
    ensures Domains(Arrow(tys, u), |tys|) == Some(tys)
    decreases tys
  {
    if tys != [] {
      ArrowDomains(tys[1..], u);
      assert tys == [tys[0]] + tys[1..];
    }
  }

  // ----- exactness -----

  /** The checker gives code a type exactly if the rules do. */
  lemma {:induction false} RulesExact(types: Types, progTys: Types, e: Code, t: Ty)
    ensures TypeOf(types, progTys, e) == Some(t) <==> HasType(types, progTys, e, t)
    decreases e, 2
  {
    match e
    case IntLit(_) =>
    case RatLit(_, _) =>
    case Var(_) =>
    case Apply(_, _) => AppExact(types, progTys, e, t);
    case Call(_, _) => AppExact(types, progTys, e, t);
    case Do(_, _) => BindingExact(types, progTys, e, t);
    case Let(_, _, _) => BindingExact(types, progTys, e, t);
    case Arith(_, _, _) => NumberExact(types, progTys, e, t);
    case Negate(_) => NumberExact(types, progTys, e, t);
    case IfSign(_, _, _, _) => TestExact(types, progTys, e, t);
    case FailOf(_) =>
    case MarkVar(_, _) => MarkExact(types, progTys, e, t);
    case IfMarked(_, _, _, _) => MarkExact(types, progTys, e, t);
    case Compare(_, _, _, _) => TestExact(types, progTys, e, t);
    case Match(_, _) => MatchExact(types, progTys, e, t);
  }

  lemma {:induction false} AppExact(types: Types, progTys: Types, e: Code, t: Ty)
    requires e.Apply? || e.Call?
    ensures TypeOf(types, progTys, e) == Some(t) <==> HasType(types, progTys, e, t)
    decreases e, 0
  {
    if e.Apply? && e.head in types {
      ResultsExact(types, progTys, types[e.head], e.args, t);
    } else if e.Call? && e.prog in progTys {
      ResultsExact(types, progTys, progTys[e.prog], e.args, t);
    }
  }

  lemma {:induction false} NumberExact(types: Types, progTys: Types, e: Code, t: Ty)
    requires e.Arith? || e.Negate?
    ensures TypeOf(types, progTys, e) == Some(t) <==> HasType(types, progTys, e, t)
    decreases e, 0
  {
    if e.Arith? {
      RulesExact(types, progTys, e.left, t);
      RulesExact(types, progTys, e.right, t);
    } else {
      RulesExact(types, progTys, e.arg, t);
    }
  }

  lemma {:induction false} BindingExact(types: Types, progTys: Types, e: Code, t: Ty)
    requires e.Do? || e.Let?
    ensures TypeOf(types, progTys, e) == Some(t) <==> HasType(types, progTys, e, t)
    decreases e, 0
  {
    if e.Do? {
      AnyType(types, progTys, e.first);
      RulesExact(types, progTys, e.second, t);
    } else {
      AnyType(types, progTys, e.bound);
      var u := TypeOf(types, progTys, e.bound);
      if u.Some? { RulesExact(types[e.x := u.value], progTys, e.body, t); }
    }
  }

  lemma {:induction false} TestExact(types: Types, progTys: Types, e: Code, t: Ty)
    requires e.IfSign? || e.Compare?
    ensures TypeOf(types, progTys, e) == Some(t) <==> HasType(types, progTys, e, t)
    decreases e, 1
  {
    BranchesExact(types, progTys, e, t);
    if e.IfSign? {
      RulesExact(types, progTys, e.arg, Mpz);
      RulesExact(types, progTys, e.arg, Mpq);
    } else {
      ComparedExact(types, progTys, e.left);
      ComparedExact(types, progTys, e.right);
    }
  }

  lemma {:induction false} MarkExact(types: Types, progTys: Types, e: Code, t: Ty)
    requires e.MarkVar? || e.IfMarked?
    ensures TypeOf(types, progTys, e) == Some(t) <==> HasType(types, progTys, e, t)
    decreases e, 1
  {
    if e.MarkVar? {
      DatatypePlain(types, t);
      RulesExact(types, progTys, e.arg, t);
    } else {
      TestedExact(types, progTys, e.arg);
      BranchesExact(types, progTys, e, t);
    }
  }

  lemma {:induction false} MatchExact(types: Types, progTys: Types, e: Code, t: Ty)
    requires e.Match?
    ensures TypeOf(types, progTys, e) == Some(t) <==> HasType(types, progTys, e, t)
    decreases e, 0
  {
    TestedExact(types, progTys, e.scrut);
    CasesExact(types, progTys, e.cases, None, t);
  }

  /** Both branches have one and the same datatype. */
  lemma {:induction false} BranchesExact(types: Types, progTys: Types, e: Code, t: Ty)
    requires e.IfSign? || e.IfMarked? || e.Compare?
    ensures SameDatatype(TypeOf(types, progTys, e.thn), TypeOf(types, progTys, e.els)) == Some(t) <==>
            t.Data? && HasType(types, progTys, e.thn, t) && HasType(types, progTys, e.els, t)
    decreases e, 0
  {
    RulesExact(types, progTys, e.thn, t);
    RulesExact(types, progTys, e.els, t);
  }

  /** Code has a type, some type or none. */
  lemma {:induction false} AnyType(types: Types, progTys: Types, e: Code)
    ensures TypeOf(types, progTys, e).Some? <==> exists u :: HasType(types, progTys, e, u)
    ensures forall u :: HasType(types, progTys, e, u) <==> TypeOf(types, progTys, e) == Some(u)
    decreases e, 3
  {
    forall u
      ensures HasType(types, progTys, e, u) <==> TypeOf(types, progTys, e) == Some(u)
    {
      RulesExact(types, progTys, e, u);
    }
    if TypeOf(types, progTys, e).Some? {
      assert HasType(types, progTys, e, TypeOf(types, progTys, e).value);
    }
  }

  lemma {:induction false} TestedExact(types: Types, progTys: Types, e: Code)
    ensures var t := TypeOf(types, progTys, e);
            t.Some? && Plain(types, t.value) <==> exists u :: Datatype(types, u) && HasType(types, progTys, e, u)
    decreases e, 4
  {
    AnyType(types, progTys, e);
    var t := TypeOf(types, progTys, e);
    if t.Some? { DatatypePlain(types, t.value); }
  }

  lemma {:induction false} ComparedExact(types: Types, progTys: Types, e: Code)
    ensures var t := TypeOf(types, progTys, e);
            t.Some? && t.value.Data? <==> exists d: Sym :: HasType(types, progTys, e, Data(d))
    decreases e, 4
  {
    AnyType(types, progTys, e);
    var t := TypeOf(types, progTys, e);
    if t.Some? && t.value.Data? {
      assert HasType(types, progTys, e, Data(t.value.d));
    }
  }

  lemma {:induction false} ResultsExact(types: Types, progTys: Types, f: Ty, args: seq<Code>, t: Ty)
    ensures var tys := TypesOf(types, progTys, args, []);
            tys.Some? && f.Pi? && Applied(f, tys.value) == Some(t) <==> Results(types, progTys, f, args, t)
    decreases args, 1
  {
    var tys := TypesOf(types, progTys, args, []);
    if tys.Some? {
      ArgsExact(types, progTys, args, [], tys.value);
      assert [] + tys.value == tys.value;
      AppliedArrow(f, tys.value, t);
    }
    forall us: seq<Ty> | f == Arrow(us, t) && HaveTypesIn(types, progTys, args, us)
      ensures tys == Some(us)
    {
      ArgsExact(types, progTys, args, [], us);
      assert [] + us == us;
    }
  }

  lemma {:induction false} ArgsExact(types: Types, progTys: Types, args: seq<Code>, done: seq<Ty>, tys: seq<Ty>)
    ensures TypesOf(types, progTys, args, done) == Some(done + tys) <==> HaveTypesIn(types, progTys, args, tys)
    decreases args, 0
  {
    TypesPrefix(types, progTys, args, done);
    assert tys == [] ==> done + tys == done;
    if args != [] && |tys| == |args| {
      RulesExact(types, progTys, args[0], tys[0]);
      ArgsExact(types, progTys, args[1..], done + [tys[0]], tys[1..]);
      assert done + [tys[0]] + tys[1..] == done + tys;
      var u := TypeOf(types, progTys, args[0]);
      if u.Some? {
        TypesPrefix(types, progTys, args[1..], done + [u.value]);
        assert (done + tys)[|done|] == tys[0] && (done + [u.value])[|done|] == u.value;
      }
    }
  }

  lemma {:induction false} TypesPrefix(types: Types, progTys: Types, args: seq<Code>, done: seq<Ty>)
    ensures var tys := TypesOf(types, progTys, args, done);
            tys.Some? ==> |tys.value| == |done| + |args| && done <= tys.value
    decreases args
  {
    if args != [] {
      var u := TypeOf(types, progTys, args[0]);
      if u.Some? { TypesPrefix(types, progTys, args[1..], done + [u.value]); }
    }
  }

  lemma {:induction false} CasesExact(types: Types, progTys: Types, cases: seq<Case>, known: Option<Ty>, t: Ty)
    ensures TypeOfCases(types, progTys, cases, known) == Some(t) <==>
            && (known.Some? ==> known.value == t) && (cases == [] ==> known.Some?)
            && forall i :: 0 <= i < |cases| ==> CaseHasType(types, progTys, cases[i], t)
    decreases cases, 0
  {
    if cases != [] {
      CaseExact(types, progTys, cases[0], t);
      var u := TypeOfCase(types, progTys, cases[0]);
      if u.Some? {
        CasesExact(types, progTys, cases[1..], u, t);
      }
    }
  }

  lemma {:induction false} CaseExact(types: Types, progTys: Types, c: Case, t: Ty)
    ensures TypeOfCase(types, progTys, c) == Some(t) <==> CaseHasType(types, progTys, c, t)
    decreases c, 0
  {
    assert c.body < c;
    if c.Default? || c.vars == [] {
      RulesExact(types, progTys, c.body, t);
    } else if c.ctor in types {
      var doms := Domains(types[c.ctor], |c.vars|);
      if doms.Some? {
        var u := DomainsArrow(types[c.ctor], doms.value);
        RulesExact(Bind(types, c.vars, doms.value, |c.vars|), progTys, c.body, t);
      }
      forall tys: seq<Ty>, u | types[c.ctor] == Arrow(tys, u) && |tys| == |c.vars|
        ensures doms == Some(tys)
      {
        ArrowDomains(tys, u);
      }
    }
  }

  /** Checking code whose patterns have distinct variables succeeds, with a type, exactly if
      the rules give the code that type. */
  lemma CheckedExact(types: Types, progTys: Types, e: Code, t: Ty)
    requires AllCases(e, DistinctVars())
    ensures Through(types, progTys, e) == Some((t, types)) <==> HasType(types, progTys, e, t)
    ensures Through(types, progTys, e).None? <==> !exists u :: HasType(types, progTys, e, u)
  {
    TableKept(types, progTys, e);
    AnyType(types, progTys, e);
  }
}
