/** The side-condition language: its terms, and its meaning in terms of environments. */
module SideCode {
  import opened Marks
  import opened Slots
  import opened Quotients

  /** Types that code may have: the two kinds of numbers, declared datatypes and, for
      constructors and programs, non-dependent function types.  `TypeK` is the type of
      datatypes themselves. */
  datatype Ty = TypeK | Mpz | Mpq | Data(d: Sym) | Pi(dom: Ty, cod: Ty)

  datatype ArithOp = Add | Mul | Div
  datatype SignTest = IsNeg | IsZero

  /** Denominators. */
  type Positive = n: int | n > 0 witness 1

  datatype Code =
    | IntLit(n: int)
    | RatLit(num: int, den: Positive)
    | Var(s: Sym)
    | Apply(head: Sym, args: seq<Code>)
    | Call(prog: Sym, args: seq<Code>)
    | Do(first: Code, second: Code)
    | Let(x: Sym, bound: Code, body: Code)
    | Arith(op: ArithOp, left: Code, right: Code)
    | Negate(arg: Code)
    | IfSign(test: SignTest, arg: Code, thn: Code, els: Code)
    | FailOf(ty: Ty)
    | MarkVar(i: Bit, arg: Code)
    | IfMarked(i: Bit, arg: Code, thn: Code, els: Code)
    | Compare(left: Code, right: Code, thn: Code, els: Code)
    | Match(scrut: Code, cases: seq<Case>)

  datatype Case = Arm(ctor: Sym, vars: seq<Sym>, body: Code) | Default(body: Code)

  datatype Program = Program(params: seq<Sym>, body: Code)

  type Table = map<Sym, Program>

  /** Terms that code computes with.  An application is flat: a head and its arguments. */
  datatype Value = Int(n: int) | Rat(q: real) | Symbol(s: Sym) | App(head: Value, args: seq<Value>)

  type Env = map<Sym, Value>

  /** Why code fails.  The checker only reports failure; the reasons are told apart here to
      state which of them typing rules out. */
  datatype Reason = Explicit | MixedClasses | NotANumber | NotASymbol | NoCase

  /** Where the checker's behaviour is undefined, or depends on more than the environment:
      a variable of a pattern for which there is no argument keeps what its slot holds. */
  datatype Misuse = DivisionByZero | PatternArity | CallArity | UnknownProgram

  datatype Outcome<+T> = Val(v: T) | Failed(why: Reason) | Undefined(what: Misuse) | OutOfFuel

  datatype Result<+T> = Result(out: Outcome<T>, marks: MarkSet)

  /** Stops with the same outcome at another type. */
  function Stop<T, U>(o: Outcome<T>): Outcome<U>
    requires !o.Val?
  {
    match o
    case Failed(why) => Failed(why)
    case Undefined(what) => Undefined(what)
    case OutOfFuel => OutOfFuel
  }

  // ----- operations on values -----

  /** Follows the definitions of a symbol to their end. */
  function Follow(slots: Env, v: Value): Value
    decreases slots.Keys
  {
    if v.Symbol? && v.s in slots then
      assert (slots - {v.s}).Keys == slots.Keys - {v.s};
      Follow(slots - {v.s}, slots[v.s])
    else v
  }

  function BuildApp(head: Value, args: seq<Value>): Value {
    if args == [] then head else App(head, args)
  }

  function ArithValue(op: ArithOp, v: Value, w: Value): Outcome<Value> {
    if v.Int? && w.Int? then
      match op
      case Add => Val(Int(v.n + w.n))
      case Mul => Val(Int(v.n * w.n))
      case Div => if w.n == 0 then Undefined(DivisionByZero) else Val(Int(CeilDiv(v.n, w.n)))
    else if v.Rat? && w.Rat? then
      match op
      case Add => Val(Rat(v.q + w.q))
      case Mul => Val(Rat(v.q * w.q))
      case Div => if w.q == 0.0 then Undefined(DivisionByZero) else Val(Rat(v.q / w.q))
    else Failed(MixedClasses)
  }

  /** The operation that compiled code applies to integers. */
  function OnIntegers(op: ArithOp): ArithOp {
    if op.Add? then Add else Mul
  }

  function NegateValue(v: Value): Outcome<Value> {
    match v
    case Int(a) => Val(Int(-a))
    case Rat(a) => Val(Rat(-a))
    case _ => Failed(NotANumber)
  }

  function SignValue(test: SignTest, v: Value): Outcome<bool> {
    match v
    case Int(a) => Val(if test.IsNeg? then a < 0 else a == 0)
    case Rat(a) => Val(if test.IsNeg? then a < 0.0 else a == 0.0)
    case _ => Failed(NotANumber)
  }

  /** Head and arguments of a value that is being matched. */
  function Head(slots: Env, v: Value): Value {
    Follow(slots, if v.App? then v.head else v)
  }

  function Arguments(v: Value): seq<Value> {
    if v.App? then v.args else []
  }

  // ----- evaluation with environments -----

  /** What evaluation depends on besides the environment: programs, definitions and the
      order of symbols by address.  The checker divides integers; `divides` is false for code
      whose integer quotients are products, as those of compiled code are. */
  datatype World = World(progs: Table, defs: Env, before: (Sym, Sym) -> bool, divides: bool) {
    function Compute(op: ArithOp, v: Value, w: Value): Outcome<Value> {
      ArithValue(if divides || !v.Int? then op else OnIntegers(op), v, w)
    }
  }

  function Lookup(defs: Env, env: Env, s: Sym): Value {
    Follow(defs, if s in env then env[s] else Symbol(s))
  }

  function Eval(fuel: nat, w: World, env: Env, e: Code, marks: MarkSet): Result<Value>
    decreases fuel, 2, e
  {
    match e
    case IntLit(n) => Result(Val(Int(n)), marks)
    case RatLit(num, den) => Result(Val(Rat(num as real / den as real)), marks)
    case Var(s) => Result(Val(Lookup(w.defs, env, s)), marks)
    case Apply(head, args) =>
      var r := EvalArgs(fuel, w, env, args, [], marks);
      if r.out.Val? then Result(Val(BuildApp(Lookup(w.defs, env, head), r.out.v)), r.marks)
      else Result(Stop(r.out), r.marks)
    case Call(prog, args) =>
      var r := EvalArgs(fuel, w, env, args, [], marks);
      if !r.out.Val? then Result(Stop(r.out), r.marks)
      else EvalCall(fuel, w, prog, r.out.v, r.marks)
    case Do(first, second) =>
      var r := Eval(fuel, w, env, first, marks);
      if r.out.Val? then Eval(fuel, w, env, second, r.marks) else r
    case Let(x, bound, body) =>
      var r := Eval(fuel, w, env, bound, marks);
      if r.out.Val? then Eval(fuel, w, env[x := r.out.v], body, r.marks) else r
    case Arith(op, left, right) =>
      var r := Eval(fuel, w, env, left, marks);
      if !r.out.Val? then r else
      var r' := Eval(fuel, w, env, right, r.marks);
      if !r'.out.Val? then r' else Result(w.Compute(op, r.out.v, r'.out.v), r'.marks)
    case Negate(arg) =>
      var r := Eval(fuel, w, env, arg, marks);
      if r.out.Val? then Result(NegateValue(r.out.v), r.marks) else r
    case IfSign(test, arg, thn, els) =>
      var r := Eval(fuel, w, env, arg, marks);
      if !r.out.Val? then r else
      var b := SignValue(test, r.out.v);
      if !b.Val? then Result(Stop(b), r.marks)
      else if b.v then Eval(fuel, w, env, thn, r.marks) else Eval(fuel, w, env, els, r.marks)
    case FailOf(_) => Result(Failed(Explicit), marks)
    case MarkVar(i, arg) =>
      var r := Eval(fuel, w, env, arg, marks);
      if !r.out.Val? then r
      else if !r.out.v.Symbol? then Result(Failed(NotASymbol), r.marks)
      else Result(r.out, Flip(r.marks, r.out.v.s, i))
    case IfMarked(i, arg, thn, els) =>
      var r := Eval(fuel, w, env, arg, marks);
      if !r.out.Val? then r
      else if !r.out.v.Symbol? then Result(Failed(NotASymbol), r.marks)
      else if (r.out.v.s, i) in r.marks then Eval(fuel, w, env, thn, r.marks)
      else Eval(fuel, w, env, els, r.marks)
    case Compare(left, right, thn, els) =>
      var r := Eval(fuel, w, env, left, marks);
      if !r.out.Val? then r
      else if !r.out.v.Symbol? then Result(Failed(NotASymbol), r.marks)
      else
        var r' := Eval(fuel, w, env, right, r.marks);
        if !r'.out.Val? then r'
        else if !r'.out.v.Symbol? then Result(Failed(NotASymbol), r'.marks)
        else if w.before(r.out.v.s, r'.out.v.s) then Eval(fuel, w, env, thn, r'.marks)
        else Eval(fuel, w, env, els, r'.marks)
    case Match(scrut, cases) =>
      var r := Eval(fuel, w, env, scrut, marks);
      if !r.out.Val? then r
      else EvalCases(fuel, w, env, cases, Head(w.defs, r.out.v), Arguments(r.out.v), r.marks)
  }

  /** Evaluates arguments from left to right, after the values already computed. */
  function EvalArgs(fuel: nat, w: World, env: Env, args: seq<Code>, done: seq<Value>, marks: MarkSet)
    : (r: Result<seq<Value>>)
    ensures r.out.Val? ==> |r.out.v| == |done| + |args|
    decreases fuel, 2, args
  {
    if args == [] then Result(Val(done), marks)
    else
      var r := Eval(fuel, w, env, args[0], marks);
      if !r.out.Val? then Result(Stop(r.out), r.marks)
      else EvalArgs(fuel, w, env, args[1..], done + [r.out.v], r.marks)
  }

  /** Runs a program on evaluated arguments; its body sees its parameters only. */
  function EvalCall(fuel: nat, w: World, prog: Sym, vals: seq<Value>, marks: MarkSet): Result<Value>
    decreases fuel, 0
  {
    if prog !in w.progs then Result(Undefined(UnknownProgram), marks)
    else
      var p := w.progs[prog];
      if |vals| < |p.params| then Result(Undefined(CallArity), marks)
      else if fuel == 0 then Result(OutOfFuel, marks)
      else Eval(fuel - 1, w, Bind(map[], p.params, vals, |p.params|), p.body, marks)
  }

  /** Runs the first case that matches the head. */
  function EvalCases(fuel: nat, w: World, env: Env, cases: seq<Case>, head: Value, args: seq<Value>, marks: MarkSet)
    : Result<Value>
    decreases fuel, 2, cases
  {
    if cases == [] then Result(Failed(NoCase), marks)
    else match cases[0]
      case Default(body) => assert body < cases[0]; Eval(fuel, w, env, body, marks)
      case Arm(ctor, vars, body) =>
        if head != Symbol(ctor) then EvalCases(fuel, w, env, cases[1..], head, args, marks)
        else if |vars| != |args| then Result(Undefined(PatternArity), marks)
        else assert body < cases[0]; Eval(fuel, w, Bind(env, vars, args, |vars|), body, marks)
  }

  // ----- evaluation does not depend on the amount of fuel -----

  lemma {:induction false} MoreFuel(fuel: nat, more: nat, w: World, env: Env, e: Code, marks: MarkSet)
    requires fuel <= more && Eval(fuel, w, env, e, marks).out != OutOfFuel
    ensures Eval(more, w, env, e, marks) == Eval(fuel, w, env, e, marks)
    decreases fuel, 2, e, 1
  {
    match e
    case IntLit(_) =>
    case RatLit(_, _) =>
    case Var(_) =>
    case Apply(_, args) => MoreFuelArgs(fuel, more, w, env, args, [], marks);
    case Call(prog, args) =>
      MoreFuelArgs(fuel, more, w, env, args, [], marks);
      var r := EvalArgs(fuel, w, env, args, [], marks);
      if r.out.Val? { MoreFuelCall(fuel, more, w, prog, r.out.v, r.marks); }
    case Do(first, second) =>
      MoreFuel(fuel, more, w, env, first, marks);
      var r := Eval(fuel, w, env, first, marks);
      if r.out.Val? { MoreFuel(fuel, more, w, env, second, r.marks); }
    case Let(x, bound, body) =>
      MoreFuel(fuel, more, w, env, bound, marks);
      var r := Eval(fuel, w, env, bound, marks);
      if r.out.Val? { MoreFuel(fuel, more, w, env[x := r.out.v], body, r.marks); }
    case Arith(_, left, right) =>
      MoreFuel(fuel, more, w, env, left, marks);
      var r := Eval(fuel, w, env, left, marks);
      if r.out.Val? { MoreFuel(fuel, more, w, env, right, r.marks); }
    case Negate(arg) => MoreFuel(fuel, more, w, env, arg, marks);
    case IfSign(_, _, _, _) => MoreFuelBranch(fuel, more, w, env, e, marks);
    case FailOf(_) =>
    case MarkVar(_, arg) => MoreFuel(fuel, more, w, env, arg, marks);
    case IfMarked(_, _, _, _) => MoreFuelBranch(fuel, more, w, env, e, marks);
    case Compare(_, _, _, _) => MoreFuelCompare(fuel, more, w, env, e, marks);
    case Match(scrut, cases) =>
      MoreFuel(fuel, more, w, env, scrut, marks);
      var r := Eval(fuel, w, env, scrut, marks);
      if r.out.Val? {
        MoreFuelCases(fuel, more, w, env, cases, Head(w.defs, r.out.v), Arguments(r.out.v), r.marks);
      }
  }

  lemma {:induction false} MoreFuelBranch(fuel: nat, more: nat, w: World, env: Env, e: Code, marks: MarkSet)
    requires (e.IfSign? || e.IfMarked?) && fuel <= more && Eval(fuel, w, env, e, marks).out != OutOfFuel
    ensures Eval(more, w, env, e, marks) == Eval(fuel, w, env, e, marks)
    decreases fuel, 2, e, 0
  {
    MoreFuel(fuel, more, w, env, e.arg, marks);
    var r := Eval(fuel, w, env, e.arg, marks);
    if r.out.Val? && if e.IfSign? then SignValue(e.test, r.out.v).Val? else r.out.v.Symbol? {
      var first := if e.IfSign? then SignValue(e.test, r.out.v).v else (r.out.v.s, e.i) in r.marks;
      MoreFuel(fuel, more, w, env, if first then e.thn else e.els, r.marks);
    }
  }

  lemma {:induction false} MoreFuelCompare(fuel: nat, more: nat, w: World, env: Env, e: Code, marks: MarkSet)
    requires e.Compare? && fuel <= more && Eval(fuel, w, env, e, marks).out != OutOfFuel
    ensures Eval(more, w, env, e, marks) == Eval(fuel, w, env, e, marks)
    decreases fuel, 2, e, 0
  {
    MoreFuel(fuel, more, w, env, e.left, marks);
    var r := Eval(fuel, w, env, e.left, marks);
    if r.out.Val? && r.out.v.Symbol? {
      MoreFuel(fuel, more, w, env, e.right, r.marks);
      var r' := Eval(fuel, w, env, e.right, r.marks);
      if r'.out.Val? && r'.out.v.Symbol? {
        MoreFuel(fuel, more, w, env, if w.before(r.out.v.s, r'.out.v.s) then e.thn else e.els, r'.marks);
      }
    }
  }

  lemma {:induction false} MoreFuelCall(fuel: nat, more: nat, w: World, prog: Sym, vals: seq<Value>, marks: MarkSet)
    requires fuel <= more && EvalCall(fuel, w, prog, vals, marks).out != OutOfFuel
    ensures EvalCall(more, w, prog, vals, marks) == EvalCall(fuel, w, prog, vals, marks)
    decreases fuel, 0
  {
    if prog in w.progs && |w.progs[prog].params| <= |vals| && fuel > 0 {
      var p := w.progs[prog];
      MoreFuel(fuel - 1, more - 1, w, Bind(map[], p.params, vals, |p.params|), p.body, marks);
    }
  }

  lemma {:induction false} MoreFuelArgs(fuel: nat, more: nat, w: World, env: Env, args: seq<Code>, done: seq<Value>,
                                        marks: MarkSet)
    requires fuel <= more && EvalArgs(fuel, w, env, args, done, marks).out != OutOfFuel
    ensures EvalArgs(more, w, env, args, done, marks) == EvalArgs(fuel, w, env, args, done, marks)
    decreases fuel, 2, args
  {
    if args != [] {
      MoreFuel(fuel, more, w, env, args[0], marks);
      var r := Eval(fuel, w, env, args[0], marks);
      if r.out.Val? { MoreFuelArgs(fuel, more, w, env, args[1..], done + [r.out.v], r.marks); }
    }
  }

  lemma {:induction false} MoreFuelCases(fuel: nat, more: nat, w: World, env: Env, cases: seq<Case>, head: Value,
                                         args: seq<Value>, marks: MarkSet)
    requires fuel <= more && EvalCases(fuel, w, env, cases, head, args, marks).out != OutOfFuel
    ensures EvalCases(more, w, env, cases, head, args, marks) == EvalCases(fuel, w, env, cases, head, args, marks)
    decreases fuel, 2, cases
  {
    if cases != [] {
      assert cases[0].body < cases[0];
      match cases[0]
      case Default(body) => MoreFuel(fuel, more, w, env, body, marks);
      case Arm(ctor, vars, body) =>
        if head != Symbol(ctor) {
          MoreFuelCases(fuel, more, w, env, cases[1..], head, args, marks);
        } else if |vars| == |args| {
          MoreFuel(fuel, more, w, Bind(env, vars, args, |vars|), body, marks);
        }
    }
  }
}
