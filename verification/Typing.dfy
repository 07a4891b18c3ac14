/** The type checker of side-condition code, and what its acceptance is worth. */
module Typing {
  import opened Marks
  import opened Options
  import opened Collections
  import opened Slots
  import opened SideCode
  import opened Interpreter

  type Types = map<Sym, Ty>

  predicate Numeric(t: Ty) {
    t.Mpz? || t.Mpq?
  }

  /** A kind: a datatype, possibly a family of them. */
  predicate IsKind(t: Ty) {
    t.TypeK? || (t.Pi? && IsKind(t.cod))
  }

  /** A datatype whose symbol is declared as one. */
  predicate Plain(types: Types, t: Ty) {
    t.Data? && t.d in types && IsKind(types[t.d])
  }

  /** The type of applying a function of type t to all of its arguments. */
  function Applied(t: Ty, argTys: seq<Ty>): Option<Ty> {
    if t.Pi? then
      if argTys == [] || argTys[0] != t.dom then None else Applied(t.cod, argTys[1..])
    else if argTys == [] then Some(t) else None
  }

  function Arity(t: Ty): nat {
    if t.Pi? then 1 + Arity(t.cod) else 0
  }

  /** The first n argument types of a function type. */
  function Domains(t: Ty, n: nat): (ts: Option<seq<Ty>>)
    ensures ts.Some? ==> |ts.value| == n
  {
    if n == 0 then Some([])
    else if !t.Pi? then None
    else
      var rest := Domains(t.cod, n - 1);
      if rest.None? then None else Some([t.dom] + rest.value)
  }

  /** Both branches of a conditional must have the same datatype. */
  function SameDatatype(t: Option<Ty>, t': Option<Ty>): Option<Ty> {
    if t.None? || t'.None? || !t.value.Data? || t != t' then None else t
  }

  // ----- the type of code -----

  function TypeOf(types: Types, progTys: Types, e: Code): Option<Ty>
    decreases e
  {
    match e
    case IntLit(_) => Some(Mpz)
    case RatLit(_, _) => Some(Mpq)
    case Var(s) => Get(types, s)
    case Apply(head, args) =>
      var tys := TypesOf(types, progTys, args, []);
      if tys.None? || head !in types || !types[head].Pi? then None else Applied(types[head], tys.value)
    case Call(prog, args) =>
      var tys := TypesOf(types, progTys, args, []);
      if tys.None? || prog !in progTys || !progTys[prog].Pi? then None else Applied(progTys[prog], tys.value)
    case Do(first, second) =>
      if TypeOf(types, progTys, first).None? then None else TypeOf(types, progTys, second)
    case Let(x, bound, body) =>
      var t := TypeOf(types, progTys, bound);
      if t.None? then None else TypeOf(types[x := t.value], progTys, body)
    case Arith(_, left, right) =>
      var t := TypeOf(types, progTys, left);
      var t' := TypeOf(types, progTys, right);
      if t.None? || t'.None? || !Numeric(t.value) || t != t' then None else t
    case Negate(arg) =>
      var t := TypeOf(types, progTys, arg);
      if t.None? || !Numeric(t.value) then None else t
    case IfSign(_, arg, thn, els) =>
      var t := TypeOf(types, progTys, arg);
      if t.None? || !Numeric(t.value) then None
      else SameDatatype(TypeOf(types, progTys, thn), TypeOf(types, progTys, els))
    case FailOf(t) =>
      if Numeric(t) || (t.Data? && Get(types, t.d) == Some(TypeK)) then Some(t) else None
    case MarkVar(_, arg) =>
      var t := TypeOf(types, progTys, arg);
      if t.None? || !Plain(types, t.value) then None else t
    case IfMarked(_, arg, thn, els) =>
      var t := TypeOf(types, progTys, arg);
      if t.None? || !Plain(types, t.value) then None
      else SameDatatype(TypeOf(types, progTys, thn), TypeOf(types, progTys, els))
    case Compare(left, right, thn, els) =>
      var t := TypeOf(types, progTys, left);
      var t' := TypeOf(types, progTys, right);
      if t.None? || t'.None? || !t.value.Data? || !t'.value.Data? then None
      else SameDatatype(TypeOf(types, progTys, thn), TypeOf(types, progTys, els))
    case Match(scrut, cases) =>
      var t := TypeOf(types, progTys, scrut);
      if t.None? || !Plain(types, t.value) then None else TypeOfCases(types, progTys, cases, None)
  }

  function TypesOf(types: Types, progTys: Types, args: seq<Code>, done: seq<Ty>): Option<seq<Ty>>
    decreases args
  {
    if args == [] then Some(done)
    else
      var t := TypeOf(types, progTys, args[0]);
      if t.None? then None else TypesOf(types, progTys, args[1..], done + [t.value])
  }

  /** All cases must have the same type, known from an earlier case if there is one. */
  function TypeOfCases(types: Types, progTys: Types, cases: seq<Case>, known: Option<Ty>): Option<Ty>
    decreases cases
  {
    if cases == [] then known
    else
      var t := TypeOfCase(types, progTys, cases[0]);
      if t.None? || (known.Some? && known != t) then None
      else TypeOfCases(types, progTys, cases[1..], t)
  }

  /** The variables of a pattern get the argument types of the constructor.  Neither that
      all arguments are named nor that the constructor builds the matched type is checked. */
  function TypeOfCase(types: Types, progTys: Types, c: Case): Option<Ty>
    decreases c
  {
    match c
    case Default(body) => TypeOf(types, progTys, body)
    case Arm(ctor, vars, body) =>
      if vars == [] then TypeOf(types, progTys, body)
      else if ctor !in types then None
      else
        var doms := Domains(types[ctor], |vars|);
        if doms.None? then None else TypeOf(Bind(types, vars, doms.value, |vars|), progTys, body)
  }

  // ----- patterns -----

  /** Every case of every match in e satisfies p. */
  predicate AllCases(e: Code, p: Case -> bool) {
    match e
    case IntLit(_) => true
    case RatLit(_, _) => true
    case Var(_) => true
    case Apply(_, args) => forall i :: 0 <= i < |args| ==> AllCases(args[i], p)
    case Call(_, args) => forall i :: 0 <= i < |args| ==> AllCases(args[i], p)
    case Do(first, second) => AllCases(first, p) && AllCases(second, p)
    case Let(_, bound, body) => AllCases(bound, p) && AllCases(body, p)
    case Arith(_, left, right) => AllCases(left, p) && AllCases(right, p)
    case Negate(arg) => AllCases(arg, p)
    case IfSign(_, arg, thn, els) => AllCases(arg, p) && AllCases(thn, p) && AllCases(els, p)
    case FailOf(_) => true
    case MarkVar(_, arg) => AllCases(arg, p)
    case IfMarked(_, arg, thn, els) => AllCases(arg, p) && AllCases(thn, p) && AllCases(els, p)
    case Compare(left, right, thn, els) =>
      AllCases(left, p) && AllCases(right, p) && AllCases(thn, p) && AllCases(els, p)
    case Match(scrut, cases) =>
      AllCases(scrut, p) && forall i :: 0 <= i < |cases| ==> p(cases[i]) && AllCases(cases[i].body, p)
  }

  /** Patterns name every argument of their constructor. */
  function FullyApplied(sig: Types): Case -> bool {
    (c: Case) => c.Arm? ==> c.ctor in sig && |c.vars| == Arity(sig[c.ctor])
  }

  // ----- values -----

  /** The type of a value over the declared constants; arguments must not be missing. */
  function ValueType(sig: Types, v: Value): Option<Ty>
    decreases v
  {
    match v
    case Int(_) => Some(Mpz)
    case Rat(_) => Some(Mpq)
    case Symbol(s) => Get(sig, s)
    case App(head, args) =>
      var t := ValueType(sig, head);
      if t.None? || args == [] then None else Spine(sig, t.value, args)
  }

  /** The type of applying a function of type t to some of its arguments. */
  function Spine(sig: Types, t: Ty, args: seq<Value>): Option<Ty>
    decreases args
  {
    if args == [] then Some(t)
    else if t.Pi? && ValueType(sig, args[0]) == Some(t.dom) then Spine(sig, t.cod, args[1..])
    else None
  }

  predicate HaveTypes(sig: Types, vs: seq<Value>, ts: seq<Ty>) {
    |vs| == |ts| && forall i :: 0 <= i < |vs| ==> ValueType(sig, vs[i]) == Some(ts[i])
  }

  function Codomain(t: Ty): Ty {
    if t.Pi? then Codomain(t.cod) else t
  }

  /** Some value has type t. */
  ghost predicate Inhabited(sig: Types, t: Ty) {
    exists v :: ValueType(sig, v) == Some(t)
  }

  /** Every argument of a function of type t can be given. */
  ghost predicate Applicable(sig: Types, t: Ty) {
    t.Pi? ==> Inhabited(sig, t.dom) && Applicable(sig, t.cod)
  }

  /** Numbers are literals: no constant is a number, or computes one from arguments that
      exist. */
  ghost predicate NumbersAreLiterals(sig: Types) {
    forall s <- sig :: Numeric(Codomain(sig[s])) ==> !Applicable(sig, sig[s])
  }

  // ----- typed programs, definitions and environments -----

  /** The body of a program has the type it is declared with (the checker computes the
      body's type but does not compare it). */
  predicate TypedProgram(sig: Types, progTys: Types, p: Program, t: Ty) {
    && |p.params| == Arity(t) && Domains(t, |p.params|).Some?
    && TypeOf(Bind(sig, p.params, Domains(t, |p.params|).value, |p.params|), progTys, p.body) == Some(Codomain(t))
    && AllCases(p.body, FullyApplied(sig))
  }

  predicate TypedDefs(sig: Types, defs: Env) {
    forall s <- defs :: s in sig && ValueType(sig, defs[s]) == Some(sig[s])
  }

  /** Variables have values of their types, constants their declared types. */
  predicate TypedEnv(sig: Types, env: Env, types: Types) {
    forall s <- types ::
      if s in env then ValueType(sig, env[s]) == Some(types[s]) else s in sig && types[s] == sig[s]
  }

  /** What an outcome of type-correct code can be: a value of its type, a failure that is
      not about number classes (given that numbers are literals), a division by zero, or
      no outcome yet. */
  ghost predicate Sound(sig: Types, o: Outcome<Value>, t: Ty) {
    match o
    case Val(v) => ValueType(sig, v) == Some(t)
    case Failed(why) => NumbersAreLiterals(sig) ==> !OfClasses(why)
    case Undefined(what) => what.DivisionByZero?
    case OutOfFuel => true
  }

  /** Failures that are about number classes. */
  predicate OfClasses(why: Reason) {
    why.MixedClasses? || why.NotANumber?
  }

  // ----- lemmas about values -----

  lemma {:induction false} FollowKeepsType(sig: Types, defs: Env, v: Value)
    requires TypedDefs(sig, defs)
    ensures ValueType(sig, Follow(defs, v)) == ValueType(sig, v)
    decreases defs.Keys
  {
    if v.Symbol? && v.s in defs {
      assert (defs - {v.s}).Keys == defs.Keys - {v.s};
      FollowKeepsType(sig, defs - {v.s}, defs[v.s]);
    }
  }

  lemma {:induction false} SpineCodomain(sig: Types, t: Ty, args: seq<Value>)
    requires Spine(sig, t, args).Some?
    ensures Codomain(Spine(sig, t, args).value) == Codomain(t)
    ensures Arity(t) == |args| + Arity(Spine(sig, t, args).value)
    ensures Domains(t, |args|).Some? && HaveTypes(sig, args, Domains(t, |args|).value)
    decreases args
  {
    if args != [] {
      SpineCodomain(sig, t.cod, args[1..]);
    }
  }

  lemma {:induction false} SpineApplicable(sig: Types, t: Ty, args: seq<Value>)
    requires Spine(sig, t, args).Some? && Applicable(sig, Spine(sig, t, args).value)
    ensures Applicable(sig, t)
    decreases args
  {
    if args != [] {
      SpineApplicable(sig, t.cod, args[1..]);
    }
  }

  /** A value that is not a literal is built by a constant. */
  lemma {:induction false} HeadConstant(sig: Types, v: Value) returns (s: Sym)
    requires ValueType(sig, v).Some? && !v.Int? && !v.Rat?
    ensures s in sig && Codomain(sig[s]) == Codomain(ValueType(sig, v).value)
    ensures Applicable(sig, ValueType(sig, v).value) ==> Applicable(sig, sig[s])
  {
    if v.App? {
      var t := ValueType(sig, v.head).value;
      SpineCodomain(sig, t, v.args);
      s := HeadConstant(sig, v.head);
      if Applicable(sig, ValueType(sig, v).value) {
        SpineApplicable(sig, t, v.args);
      }
    } else {
      s := v.s;
    }
  }

  /** A value of number type is a literal. */
  lemma CanonicalNumber(sig: Types, v: Value)
    requires NumbersAreLiterals(sig) && ValueType(sig, v).Some?
    ensures ValueType(sig, v) == Some(Mpz) ==> v.Int?
    ensures ValueType(sig, v) == Some(Mpq) ==> v.Rat?
  {
    if Numeric(ValueType(sig, v).value) && !v.Int? && !v.Rat? {
      var s := HeadConstant(sig, v);
    }
  }

  lemma {:induction false} AppliedIsSpine(sig: Types, t: Ty, tys: seq<Ty>, vs: seq<Value>)
    requires Applied(t, tys).Some? && HaveTypes(sig, vs, tys)
    ensures Spine(sig, t, vs) == Applied(t, tys)
    ensures Applied(t, tys).value == Codomain(t) && |tys| == Arity(t)
    ensures Domains(t, |tys|) == Some(tys)
    decreases tys
  {
    if t.Pi? {
      AppliedIsSpine(sig, t.cod, tys[1..], vs[1..]);
      assert tys == [tys[0]] + tys[1..];
    }
  }

  lemma BindTyped(sig: Types, env: Env, types: Types, xs: seq<Sym>, vs: seq<Value>, ts: seq<Ty>)
    requires TypedEnv(sig, env, types) && Distinct(xs)
    requires |xs| == |ts| <= |vs| && HaveTypes(sig, vs[..|xs|], ts)
    ensures TypedEnv(sig, Bind(env, xs, vs, |xs|), Bind(types, xs, ts, |xs|))
  {
    var n := |xs|;
    var env', types' := Bind(env, xs, vs, n), Bind(types, xs, ts, n);
    forall s | s in types'
      ensures if s in env' then ValueType(sig, env'[s]) == Some(types'[s]) else s in sig && types'[s] == sig[s]
    {
      BindGet(env, xs, vs, n, s);
      BindGet(types, xs, ts, n, s);
      assert xs[..n] == xs;
      if s in xs {
        var i :| 0 <= i < n && xs[i] == s;
        assert vs[..n][i] == vs[i];
      }
    }
  }

  // ----- type preservation -----

  /** What typed code runs in: declared constants, typed programs and definitions, and the
      symbols that code may bind. */
  datatype Setting = Setting(sig: Types, progTys: Types, w: World, binders: set<Sym>) {
    predicate Typed() {
      && w.progs.Keys == progTys.Keys
      && (forall p <- w.progs :: TypedProgram(sig, progTys, w.progs[p], progTys[p]))
      && ScopedTable(w.progs, binders) && TypedDefs(sig, w.defs)
    }

    /** The environment and the types of symbols fit together. */
    predicate Fits(env: Env, types: Types) {
      TypedEnv(sig, env, types) && env.Keys <= binders
    }

    predicate Proper(e: Code, scope: set<Sym>) {
      Scoped(e, scope, binders) && AllCases(e, FullyApplied(sig))
    }

    /** Code that the checker accepts, and that is run in an environment of the right types. */
    predicate Accepts(env: Env, types: Types, e: Code) {
      Typed() && Fits(env, types) && Proper(e, env.Keys) && TypeOf(types, progTys, e).Some?
    }

    predicate ProperCase(c: Case, scope: set<Sym>) {
      && ScopedCase(c, scope, binders) && AllCases(c.body, FullyApplied(sig))
      && (c.Arm? ==> c.ctor in sig && |c.vars| == Arity(sig[c.ctor]))
    }

    /** The arguments of a matched value are those its head constructor takes. */
    predicate FullHead(head: Value, args: seq<Value>) {
      head.Symbol? && head.s in sig ==>
        && Arity(sig[head.s]) == |args| && Domains(sig[head.s], |args|).Some?
        && HaveTypes(sig, args, Domains(sig[head.s], |args|).value)
    }
  }

  /** Code accepted by the checker yields, if anything, a value of its type.  It never reads
      past the variables of a pattern or the arguments of a call and, where numbers are
      literals, never applies arithmetic to operands of the wrong class. */
  lemma {:induction false} Preservation(st: Setting, fuel: nat, env: Env, types: Types, e: Code, marks: MarkSet)
    requires st.Accepts(env, types, e)
    ensures Sound(st.sig, Eval(fuel, st.w, env, e, marks).out, TypeOf(types, st.progTys, e).value)
    decreases fuel, 2, e, 1
  {
    match e
    case IntLit(_) =>
    case RatLit(_, _) =>
    case Var(s) => FollowKeepsType(st.sig, st.w.defs, if s in env then env[s] else Symbol(s));
    case Apply(_, _) => PreservationApply(st, fuel, env, types, e, marks);
    case Call(_, _) => PreservationCallCode(st, fuel, env, types, e, marks);
    case Do(_, _) => PreservationDo(st, fuel, env, types, e, marks);
    case Let(_, _, _) => PreservationLet(st, fuel, env, types, e, marks);
    case Arith(_, _, _) => PreservationArith(st, fuel, env, types, e, marks);
    case Negate(_) => PreservationNegate(st, fuel, env, types, e, marks);
    case IfSign(_, _, _, _) => PreservationIfSign(st, fuel, env, types, e, marks);
    case FailOf(_) =>
    case MarkVar(_, arg) => Preservation(st, fuel, env, types, arg, marks);
    case IfMarked(_, _, _, _) => PreservationIfMarked(st, fuel, env, types, e, marks);
    case Compare(_, _, _, _) => PreservationCompare(st, fuel, env, types, e, marks);
    case Match(_, _) => PreservationMatch(st, fuel, env, types, e, marks);
  }

  lemma LiteralNumber(sig: Types, o: Outcome<Value>, t: Ty)
    ensures NumbersAreLiterals(sig) && o.Val? && Sound(sig, o, t) ==> (t.Mpz? ==> o.v.Int?) && (t.Mpq? ==> o.v.Rat?)
  {
    if NumbersAreLiterals(sig) && o.Val? && Sound(sig, o, t) {
      CanonicalNumber(sig, o.v);
    }
  }

  lemma {:induction false} PreservationApply(st: Setting, fuel: nat, env: Env, types: Types, e: Code, marks: MarkSet)
    requires st.Accepts(env, types, e)
    requires e.Apply?
    ensures Sound(st.sig, Eval(fuel, st.w, env, e, marks).out, TypeOf(types, st.progTys, e).value)
    decreases fuel, 2, e, 0
  {
    PreservationArgs(st, fuel, env, types, e.args, [], [], marks);
    var r := EvalArgs(fuel, st.w, env, e.args, [], marks);
    if r.out.Val? {
      BuiltType(st, env, types, e.head, TypesOf(types, st.progTys, e.args, []).value, r.out.v);
    }
  }

  /** Applying a symbol to arguments of the right types. */
  lemma BuiltType(st: Setting, env: Env, types: Types, head: Sym, tys: seq<Ty>, vs: seq<Value>)
    requires TypedDefs(st.sig, st.w.defs) && TypedEnv(st.sig, env, types) && head in types && types[head].Pi?
    requires Applied(types[head], tys).Some? && HaveTypes(st.sig, vs, tys)
    ensures ValueType(st.sig, BuildApp(Lookup(st.w.defs, env, head), vs)) == Applied(types[head], tys)
  {
    FollowKeepsType(st.sig, st.w.defs, if head in env then env[head] else Symbol(head));
    AppliedIsSpine(st.sig, types[head], tys, vs);
  }

  lemma {:induction false} PreservationArith(st: Setting, fuel: nat, env: Env, types: Types, e: Code, marks: MarkSet)
    requires st.Accepts(env, types, e)
    requires e.Arith?
    ensures Sound(st.sig, Eval(fuel, st.w, env, e, marks).out, TypeOf(types, st.progTys, e).value)
    decreases fuel, 2, e, 0
  {
    Preservation(st, fuel, env, types, e.left, marks);
    var r := Eval(fuel, st.w, env, e.left, marks);
    var t := TypeOf(types, st.progTys, e).value;
    if r.out.Val? {
      Preservation(st, fuel, env, types, e.right, r.marks);
      var r' := Eval(fuel, st.w, env, e.right, r.marks);
      if r'.out.Val? {
        ComputeSound(st.sig, st.w, e.op, r.out.v, r'.out.v, t);
      }
    }
  }

  /** Arithmetic on values of one number type. */
  lemma ComputeSound(sig: Types, w: World, op: ArithOp, v: Value, v': Value, t: Ty)
    requires Numeric(t) && ValueType(sig, v) == Some(t) && ValueType(sig, v') == Some(t)
    ensures Sound(sig, w.Compute(op, v, v'), t)
  {
    LiteralNumber(sig, Val(v), t);
    LiteralNumber(sig, Val(v'), t);
  }

  lemma {:induction false} PreservationNegate(st: Setting, fuel: nat, env: Env, types: Types, e: Code, marks: MarkSet)
    requires st.Accepts(env, types, e)
    requires e.Negate?
    ensures Sound(st.sig, Eval(fuel, st.w, env, e, marks).out, TypeOf(types, st.progTys, e).value)
    decreases fuel, 2, e, 0
  {
    Preservation(st, fuel, env, types, e.arg, marks);
    LiteralNumber(st.sig, Eval(fuel, st.w, env, e.arg, marks).out, TypeOf(types, st.progTys, e.arg).value);
  }

  lemma {:induction false} PreservationIfSign(st: Setting, fuel: nat, env: Env, types: Types, e: Code, marks: MarkSet)
    requires st.Accepts(env, types, e)
    requires e.IfSign?
    ensures Sound(st.sig, Eval(fuel, st.w, env, e, marks).out, TypeOf(types, st.progTys, e).value)
    decreases fuel, 2, e, 0
  {
    Preservation(st, fuel, env, types, e.arg, marks);
    var r := Eval(fuel, st.w, env, e.arg, marks);
    LiteralNumber(st.sig, r.out, TypeOf(types, st.progTys, e.arg).value);
    if r.out.Val? {
      Preservation(st, fuel, env, types, e.thn, r.marks);
      Preservation(st, fuel, env, types, e.els, r.marks);
    }
  }

  lemma {:induction false} PreservationIfMarked(st: Setting, fuel: nat, env: Env, types: Types, e: Code, marks: MarkSet)
    requires st.Accepts(env, types, e)
    requires e.IfMarked?
    ensures Sound(st.sig, Eval(fuel, st.w, env, e, marks).out, TypeOf(types, st.progTys, e).value)
    decreases fuel, 2, e, 0
  {
    Preservation(st, fuel, env, types, e.arg, marks);
    var r := Eval(fuel, st.w, env, e.arg, marks);
    if r.out.Val? {
      Preservation(st, fuel, env, types, e.thn, r.marks);
      Preservation(st, fuel, env, types, e.els, r.marks);
    }
  }

  lemma {:induction false} PreservationDo(st: Setting, fuel: nat, env: Env, types: Types, e: Code, marks: MarkSet)
    requires st.Accepts(env, types, e)
    requires e.Do?
    ensures Sound(st.sig, Eval(fuel, st.w, env, e, marks).out, TypeOf(types, st.progTys, e).value)
    decreases fuel, 2, e, 0
  {
    Preservation(st, fuel, env, types, e.first, marks);
    var r := Eval(fuel, st.w, env, e.first, marks);
    if r.out.Val? { Preservation(st, fuel, env, types, e.second, r.marks); }
  }

  lemma {:induction false} PreservationCompare(st: Setting, fuel: nat, env: Env, types: Types, e: Code, marks: MarkSet)
    requires st.Accepts(env, types, e)
    requires e.Compare?
    ensures Sound(st.sig, Eval(fuel, st.w, env, e, marks).out, TypeOf(types, st.progTys, e).value)
    decreases fuel, 2, e, 0
  {
    Preservation(st, fuel, env, types, e.left, marks);
    var r := Eval(fuel, st.w, env, e.left, marks);
    if r.out.Val? {
      Preservation(st, fuel, env, types, e.right, r.marks);
      var r' := Eval(fuel, st.w, env, e.right, r.marks);
      if r'.out.Val? {
        Preservation(st, fuel, env, types, e.thn, r'.marks);
        Preservation(st, fuel, env, types, e.els, r'.marks);
      }
    }
  }

  lemma {:induction false} PreservationLet(st: Setting, fuel: nat, env: Env, types: Types, e: Code, marks: MarkSet)
    requires st.Accepts(env, types, e)
    requires e.Let?
    ensures Sound(st.sig, Eval(fuel, st.w, env, e, marks).out, TypeOf(types, st.progTys, e).value)
    decreases fuel, 2, e, 0
  {
    Preservation(st, fuel, env, types, e.bound, marks);
    var r := Eval(fuel, st.w, env, e.bound, marks);
    if r.out.Val? {
      var t := TypeOf(types, st.progTys, e.bound).value;
      assert env[e.x := r.out.v].Keys == env.Keys + {e.x};
      Preservation(st, fuel, env[e.x := r.out.v], types[e.x := t], e.body, r.marks);
    }
  }

  lemma {:induction false} PreservationCallCode(st: Setting, fuel: nat, env: Env, types: Types, e: Code, marks: MarkSet)
    requires st.Accepts(env, types, e)
    requires e.Call?
    ensures Sound(st.sig, Eval(fuel, st.w, env, e, marks).out, TypeOf(types, st.progTys, e).value)
    decreases fuel, 2, e, 0
  {
    PreservationArgs(st, fuel, env, types, e.args, [], [], marks);
    var r := EvalArgs(fuel, st.w, env, e.args, [], marks);
    if r.out.Val? {
      AppliedIsSpine(st.sig, st.progTys[e.prog], TypesOf(types, st.progTys, e.args, []).value, r.out.v);
      PreservationCall(st, fuel, e.prog, r.out.v, r.marks);
    }
  }

  lemma {:induction false} PreservationMatch(st: Setting, fuel: nat, env: Env, types: Types, e: Code, marks: MarkSet)
    requires st.Accepts(env, types, e)
    requires e.Match?
    ensures Sound(st.sig, Eval(fuel, st.w, env, e, marks).out, TypeOf(types, st.progTys, e).value)
    decreases fuel, 2, e, 0
  {
    Preservation(st, fuel, env, types, e.scrut, marks);
    var r := Eval(fuel, st.w, env, e.scrut, marks);
    if r.out.Val? {
      MatchedHead(st, r.out.v, TypeOf(types, st.progTys, e.scrut).value);
      PreservationCases(st, fuel, env, types, e.cases, None, Head(st.w.defs, r.out.v), Arguments(r.out.v), r.marks);
    }
  }

  lemma MatchedHead(st: Setting, v: Value, t: Ty)
    requires TypedDefs(st.sig, st.w.defs) && ValueType(st.sig, v) == Some(t) && t.Data?
    ensures st.FullHead(Head(st.w.defs, v), Arguments(v))
  {
    FollowKeepsType(st.sig, st.w.defs, if v.App? then v.head else v);
    if v.App? {
      SpineCodomain(st.sig, ValueType(st.sig, v.head).value, v.args);
    }
  }

  lemma {:induction false} PreservationArgs(st: Setting, fuel: nat, env: Env, types: Types, args: seq<Code>,
                                            done: seq<Value>, doneTys: seq<Ty>, marks: MarkSet)
    requires st.Typed() && st.Fits(env, types) && forall i :: 0 <= i < |args| ==> st.Proper(args[i], env.Keys)
    requires TypesOf(types, st.progTys, args, doneTys).Some? && HaveTypes(st.sig, done, doneTys)
    ensures var o := EvalArgs(fuel, st.w, env, args, done, marks).out;
            if o.Val? then HaveTypes(st.sig, o.v, TypesOf(types, st.progTys, args, doneTys).value)
            else Sound(st.sig, Stop(o), Mpz)
    decreases fuel, 2, args, 1
  {
    if args != [] {
      Preservation(st, fuel, env, types, args[0], marks);
      var r := Eval(fuel, st.w, env, args[0], marks);
      if r.out.Val? {
        var t := TypeOf(types, st.progTys, args[0]).value;
        PreservationArgs(st, fuel, env, types, args[1..], done + [r.out.v], doneTys + [t], r.marks);
      }
    }
  }

  lemma {:induction false} PreservationCall(st: Setting, fuel: nat, prog: Sym, vals: seq<Value>, marks: MarkSet)
    requires st.Typed() && prog in st.progTys
    requires |vals| == Arity(st.progTys[prog]) && Domains(st.progTys[prog], |vals|).Some?
    requires HaveTypes(st.sig, vals, Domains(st.progTys[prog], |vals|).value)
    ensures Sound(st.sig, EvalCall(fuel, st.w, prog, vals, marks).out, Codomain(st.progTys[prog]))
    decreases fuel, 0
  {
    if fuel > 0 {
      var p := st.w.progs[prog];
      var env, types := CallBound(st, prog, vals);
      Preservation(st, fuel - 1, env, types, p.body, marks);
    }
  }

  /** The parameters of a program, bound to arguments of their types, fit its body. */
  lemma CallBound(st: Setting, prog: Sym, vals: seq<Value>) returns (env: Env, types: Types)
    requires st.Typed() && prog in st.progTys
    requires |vals| == Arity(st.progTys[prog]) && Domains(st.progTys[prog], |vals|).Some?
    requires HaveTypes(st.sig, vals, Domains(st.progTys[prog], |vals|).value)
    ensures var p := st.w.progs[prog];
            && |p.params| == |vals| && env == Bind(map[], p.params, vals, |p.params|)
            && types == Bind(st.sig, p.params, Domains(st.progTys[prog], |vals|).value, |p.params|)
            && st.Fits(env, types) && st.Proper(p.body, env.Keys)
            && TypeOf(types, st.progTys, p.body) == Some(Codomain(st.progTys[prog]))
  {
    var p, tys := st.w.progs[prog], Domains(st.progTys[prog], |vals|).value;
    var none: Env := map[];
    assert TypedProgram(st.sig, st.progTys, p, st.progTys[prog]);
    assert vals[..|p.params|] == vals;
    BindTyped(st.sig, none, st.sig, p.params, vals, tys);
    BindKeys(none, p.params, vals);
    assert none.Keys + Elements(p.params) == Elements(p.params);
    env, types := Bind(none, p.params, vals, |p.params|), Bind(st.sig, p.params, tys, |p.params|);
  }

  lemma BindKeys<T>(m: map<Sym, T>, xs: seq<Sym>, vs: seq<T>)
    requires |xs| <= |vs|
    ensures Bind(m, xs, vs, |xs|).Keys == m.Keys + Elements(xs)
  {
    forall s: Sym
      ensures s in Bind(m, xs, vs, |xs|) <==> s in m || s in xs
    {
      BindGet(m, xs, vs, |xs|, s);
      assert xs[..|xs|] == xs;
    }
  }

  /** Once a case's type is known, the result has that type. */
  lemma {:induction false} KnownType(types: Types, progTys: Types, cases: seq<Case>, known: Option<Ty>)
    requires known.Some? && TypeOfCases(types, progTys, cases, known).Some?
    ensures TypeOfCases(types, progTys, cases, known) == known
    decreases cases
  {
    if cases != [] {
      KnownType(types, progTys, cases[1..], TypeOfCase(types, progTys, cases[0]));
    }
  }

  lemma {:induction false} PreservationCases(st: Setting, fuel: nat, env: Env, types: Types, cases: seq<Case>,
                                             known: Option<Ty>, head: Value, args: seq<Value>, marks: MarkSet)
    requires st.Typed() && st.Fits(env, types) && forall i :: 0 <= i < |cases| ==> st.ProperCase(cases[i], env.Keys)
    requires TypeOfCases(types, st.progTys, cases, known).Some? && st.FullHead(head, args)
    ensures Sound(st.sig, EvalCases(fuel, st.w, env, cases, head, args, marks).out,
                  TypeOfCases(types, st.progTys, cases, known).value)
    decreases fuel, 2, cases, 1
  {
    if cases != [] {
      KnownType(types, st.progTys, cases[1..], TypeOfCase(types, st.progTys, cases[0]));
      if cases[0].Arm? && head != Symbol(cases[0].ctor) {
        PreservationCases(st, fuel, env, types, cases[1..], TypeOfCase(types, st.progTys, cases[0]), head, args, marks);
      } else {
        PreservationCase(st, fuel, env, types, cases, head, args, marks);
      }
    }
  }

  /** The case that is taken. */
  lemma {:induction false} PreservationCase(st: Setting, fuel: nat, env: Env, types: Types, cases: seq<Case>,
                                            head: Value, args: seq<Value>, marks: MarkSet)
    requires st.Typed() && st.Fits(env, types) && cases != [] && st.ProperCase(cases[0], env.Keys)
    requires TypeOfCase(types, st.progTys, cases[0]).Some? && st.FullHead(head, args)
    requires cases[0].Arm? ==> head == Symbol(cases[0].ctor)
    ensures Sound(st.sig, EvalCases(fuel, st.w, env, cases, head, args, marks).out,
                  TypeOfCase(types, st.progTys, cases[0]).value)
    decreases fuel, 2, cases, 0
  {
    var c := cases[0];
    assert c.body < c;
    if c.Default? {
      Preservation(st, fuel, env, types, c.body, marks);
    } else {
      ArmFits(st, env, types, c, args);
      Preservation(st, fuel, Bind(env, c.vars, args, |args|), ArmTypes(types, c), c.body, marks);
    }
  }

  /** Types in the body of a case. */
  function ArmTypes(types: Types, c: Case): Types
    requires c.Arm?
  {
    var doms := if c.ctor in types then Domains(types[c.ctor], |c.vars|) else None;
    if doms.None? then types else Bind(types, c.vars, doms.value, |c.vars|)
  }

  /** The variables of a pattern, bound to the arguments of a value that it matches, fit the
      body of the case. */
  lemma ArmFits(st: Setting, env: Env, types: Types, c: Case, args: seq<Value>)
    requires st.Typed() && st.Fits(env, types) && c.Arm? && st.ProperCase(c, env.Keys)
    requires TypeOfCase(types, st.progTys, c).Some? && st.FullHead(Symbol(c.ctor), args)
    ensures |args| == |c.vars| && TypeOf(ArmTypes(types, c), st.progTys, c.body) == TypeOfCase(types, st.progTys, c)
    ensures st.Accepts(Bind(env, c.vars, args, |args|), ArmTypes(types, c), c.body)
  {
    var tys := Domains(st.sig[c.ctor], |c.vars|).value;
    assert args[..|c.vars|] == args;
    BindTyped(st.sig, env, types, c.vars, args, tys);
    BindKeys(env, c.vars, args);
  }

  // ----- number classes -----

  /** A constant of number type that has no definition is accepted as an operand, and fails. */
  lemma ConstantFails(st: Setting, fuel: nat, env: Env, types: Types, s: Sym, op: ArithOp, marks: MarkSet)
    requires st.Typed() && st.Fits(env, types) && s in types && Numeric(types[s])
    requires s !in env && s !in st.binders && s !in st.w.defs
    ensures var e := Arith(op, Var(s), if types[s].Mpz? then IntLit(0) else RatLit(0, 1));
            st.Accepts(env, types, e) && Eval(fuel, st.w, env, e, marks).out == Failed(MixedClasses)
  {
    var zero := if types[s].Mpz? then IntLit(0) else RatLit(0, 1);
    ConstantRead(st, fuel, env, types, s, marks);
    assert Eval(fuel, st.w, env, zero, marks).out.Val?;
    assert Scoped(Arith(op, Var(s), zero), env.Keys, st.binders);
    assert AllCases(Arith(op, Var(s), zero), FullyApplied(st.sig));
  }

  lemma ConstantNotNegated(st: Setting, fuel: nat, env: Env, types: Types, s: Sym, marks: MarkSet)
    requires st.Typed() && st.Fits(env, types) && s in types && Numeric(types[s])
    requires s !in env && s !in st.binders && s !in st.w.defs
    ensures st.Accepts(env, types, Negate(Var(s)))
    ensures Eval(fuel, st.w, env, Negate(Var(s)), marks).out == Failed(NotANumber)
  {
    ConstantRead(st, fuel, env, types, s, marks);
  }

  lemma ConstantRead(st: Setting, fuel: nat, env: Env, types: Types, s: Sym, marks: MarkSet)
    requires st.Typed() && st.Fits(env, types) && s in types
    requires s !in env && s !in st.binders && s !in st.w.defs
    ensures st.Accepts(env, types, Var(s)) && TypeOf(types, st.progTys, Var(s)) == Some(types[s])
    ensures Eval(fuel, st.w, env, Var(s), marks) == Result(Val(Symbol(s)), marks)
  {
    assert Lookup(st.w.defs, env, s) == Symbol(s);
  }

  /** No code that is accepted over the constants sig fails for reasons of number classes. */
  ghost predicate ClassSafe(sig: Types) {
    forall st: Setting, fuel, env, types, e, marks ::
      st.sig == sig && st.Accepts(env, types, e) ==>
        var o := Eval(fuel, st.w, env, e, marks).out;
        o.Failed? ==> !OfClasses(o.why)
  }

  /** Acceptance rules out failures of number classes exactly if numbers are literals. */
  lemma ClassesExact(sig: Types)
    ensures ClassSafe(sig) <==> NumbersAreLiterals(sig)
  {
    if NumbersAreLiterals(sig) {
      forall st: Setting, fuel, env, types, e, marks | st.sig == sig && st.Accepts(env, types, e)
        ensures var o := Eval(fuel, st.w, env, e, marks).out; o.Failed? ==> !OfClasses(o.why)
      {
        Preservation(st, fuel, env, types, e, marks);
      }
    } else {
      var s :| s in sig && Numeric(Codomain(sig[s])) && Applicable(sig, sig[s]);
      BuiltNumber(sig, s);
    }
  }

  /** Values for all arguments of a function. */
  lemma {:induction false} ArgumentsExist(sig: Types, t: Ty) returns (vs: seq<Value>)
    requires Applicable(sig, t)
    ensures Spine(sig, t, vs) == Some(Codomain(t))
  {
    if t.Pi? {
      var v :| ValueType(sig, v) == Some(t.dom);
      var rest := ArgumentsExist(sig, t.cod);
      vs := [v] + rest;
    } else {
      vs := [];
    }
  }

  /** A constant that computes a number makes a term that is no number: the variable of a
      program that holds it is accepted where a number is wanted. */
  lemma BuiltNumber(sig: Types, s: Sym)
    requires s in sig && Numeric(Codomain(sig[s])) && Applicable(sig, sig[s])
    ensures !ClassSafe(sig)
  {
    var vs := ArgumentsExist(sig, sig[s]);
    var v, t := BuildApp(Symbol(s), vs), Codomain(sig[s]);
    var st := Setting(sig, map[], World(map[], map[], (_, _) => false, true), {"z"});
    var env: Env, types: Types := map["z" := v], map["z" := t];
    assert ValueType(sig, v) == Some(t);
    assert st.Typed();
    assert st.Fits(env, types);
    assert st.Proper(Var("z"), env.Keys) && st.Proper(Negate(Var("z")), env.Keys);
    assert TypeOf(types, st.progTys, Var("z")) == Some(t);
    assert st.Accepts(env, types, Negate(Var("z")));
    assert Lookup(st.w.defs, env, "z") == v;
    assert Eval(0, st.w, env, Negate(Var("z")), {}).out == Failed(NotANumber);
  }
}
