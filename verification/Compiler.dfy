/** The compiler from side-condition code to C++, and the statements that it emits. */
module Compiler {
  import opened Marks
  import opened Options
  import opened SideCode
  import opened Identifiers

  // ----- emitted statements -----

  /** Emitted statements; of reference counting only those releases are kept that may be the
      first to read a name: after a match, after the first of two pieces of code, and of the
      variable of a LET after its body.  `Null` stores a null pointer: the name is then unset.
      `GetHead` and `GetKid` declare the variable that they set.  `Constant` reads a global.
      `Malformed` is text that is not C++. */
  datatype Stmt =
    | Declare(x: Name)
    | NewInt(x: Name, n: int)
    | NewRat(x: Name, num: int, den: int)
    | Copy(x: Name, y: Name)
    | Constant(x: Name, c: string)
    | Null(x: Name)
    | NewApp(x: Name, head: Name, args: seq<Name>)
    | CallFn(x: Name, f: Sym, args: seq<Name>)
    | GetHead(x: Name, y: Name)
    | GetKid(x: Name, y: Name, k: nat)
    | IfClass(y: Name, ints: seq<Stmt>, rats: seq<Stmt>)
    | Compute(x: Name, op: ArithOp, y: Name, z: Name)
    | ComputeNeg(x: Name, y: Name)
    | IfSgn(test: SignTest, y: Name, thn: seq<Stmt>, els: seq<Stmt>)
    | IfMark(y: Name, i: Bit, thn: seq<Stmt>, els: seq<Stmt>)
    | SetMark(y: Name, i: Bit)
    | ClearMark(y: Name, i: Bit)
    | IfSame(y: Name, z: Name, thn: seq<Stmt>, els: seq<Stmt>)
    | IfBefore(y: Name, z: Name, thn: seq<Stmt>, els: seq<Stmt>)
    | Block(body: seq<Stmt>)
    | Release(x: Name)
    | Exit
    | Malformed

  /** An emitted function: its parameters, its statements and the variable it returns. */
  datatype Function = Function(params: seq<Sym>, body: seq<Stmt>, result: Name)

  function DeclaredBy(s: Stmt): set<Name> {
    if s.Declare? || s.GetHead? || s.GetKid? then {s.x} else {}
  }

  /** Names declared in a block, not counting the blocks within it. */
  function Declared(ss: seq<Stmt>): set<Name> {
    if ss == [] then {} else DeclaredBy(ss[0]) + Declared(ss[1..])
  }

  // ----- the compiler -----

  /** `mpz_get_si`: numbers that do not fit a long lose their high bits. */
  function GetSi(n: int): int {
    if n >= 0 then n % 0x8000_0000_0000_0000 else -((-n - 1) % 0x8000_0000_0000_0000) - 1
  }

  lemma GetSiExact(n: int)
    ensures GetSi(n) == n <==> -0x8000_0000_0000_0000 <= n < 0x8000_0000_0000_0000
  {
  }

  /** What the writer has produced: statements, the names it takes for variables from now
      on, and the number of the next temporary. */
  datatype Out = Out(code: seq<Stmt>, vars: set<Name>, count: nat)

  /** As Out, with the names that hold the values of the expressions written. */
  datatype NamedOut = NamedOut(code: seq<Stmt>, names: seq<Name>, vars: set<Name>, count: nat)

  /** Writes statements that store the value of e in the variable ret. */
  function WriteCode(e: Code, ret: Name, vars: set<Name>, count: nat): (o: Out)
    ensures o.count >= count && vars <= o.vars
    decreases e, 0
  {
    match e
    case IntLit(n) => Out([NewInt(ret, GetSi(n))], vars, count)
    case RatLit(num, den) => Out([NewRat(ret, GetSi(num), GetSi(den))], vars, count)
    case Var(s) => Out([WriteVar(s, ret, vars)], vars, count)
    case Apply(head, args) =>
      var a := WriteExprs(args, vars, count);
      var h := WriteSymbol(head, a.vars, a.count);
      Out(a.code + h.code + [NewApp(ret, h.names[0], a.names)], h.vars, h.count)
    case Call(prog, args) =>
      var a := WriteExprs(args, vars, count);
      Out(a.code + [CallFn(ret, prog, a.names)], a.vars, a.count)
    case Do(first, second) =>
      var a := WriteExpr(first, vars, count);
      var b := WriteCode(second, ret, a.vars, a.count);
      Out(a.code + [Release(a.names[0])] + b.code, b.vars, b.count)
    case Let(x, bound, body) =>
      var a := WriteCode(bound, Called(x), vars, count);
      var b := WriteCode(body, ret, a.vars + {Key(x)}, a.count);
      Out([Declare(Called(x))] + a.code + b.code + [Release(Called(x))], b.vars, b.count)
    case Arith(op, left, right) =>
      var a := WriteExpr(left, vars, count);
      var b := WriteExpr(right, a.vars, a.count);
      var y, z := a.names[0], b.names[0];
      Out(a.code + b.code + [IfClass(y, [Compute(ret, OnIntegers(op), y, z)], [Compute(ret, op, y, z)])],
          b.vars, b.count)
    case Negate(arg) =>
      var a := WriteExpr(arg, vars, count);
      var y := a.names[0];
      Out(a.code + [IfClass(y, [ComputeNeg(ret, y)], [ComputeNeg(ret, y)])], a.vars, a.count)
    case IfSign(test, arg, thn, els) =>
      var a := WriteExpr(arg, vars, count);
      var y := a.names[0];
      var t := WriteCode(thn, ret, a.vars, a.count);
      var f := WriteCode(els, ret, t.vars, t.count);
      var t' := WriteCode(thn, ret, f.vars, f.count);
      var f' := WriteCode(els, ret, t'.vars, t'.count);
      Out(a.code + [IfClass(y, [IfSgn(test, y, t.code, f.code)], [IfSgn(test, y, t'.code, f'.code)])], f'.vars,
          f'.count)
    case FailOf(_) => Out([Null(ret)], vars, count)
    case MarkVar(i, arg) =>
      var a := WriteSymExpr(arg, vars, count);
      var y := a.names[0];
      Out(a.code + [IfMark(y, i, [ClearMark(y, i)], [SetMark(y, i)]), Copy(ret, y)], a.vars, a.count)
    case IfMarked(i, arg, thn, els) =>
      var a := WriteSymExpr(arg, vars, count);
      var t := WriteCode(thn, ret, a.vars, a.count);
      var f := WriteCode(els, ret, t.vars, t.count);
      Out(a.code + [IfMark(a.names[0], i, t.code, f.code)], f.vars, f.count)
    case Compare(left, right, thn, els) =>
      var a := WriteSymExpr(left, vars, count);
      var b := WriteSymExpr(right, a.vars, a.count);
      var t := WriteCode(thn, ret, b.vars, b.count);
      var f := WriteCode(els, ret, t.vars, t.count);
      Out(a.code + b.code + [IfBefore(a.names[0], b.names[0], t.code, f.code)], f.vars, f.count)
    case Match(scrut, cases) =>
      var a := WriteExpr(scrut, vars, count);
      var h := Temp(a.count);
      var p := WriteArgs(cases, false, a.vars, a.count + 1);
      var b := WriteCases(cases, p.names, a.names[0], h, ret, p.vars, p.count);
      Out(a.code + [GetHead(h, a.names[0])] + p.code + b.code + Releases(a.names + p.names), b.vars, b.count)
  }

  /** A symbol whose string is among the variables is one; another is a constant, which is
      looked up under the name that its variable would have. */
  function WriteVar(s: Sym, ret: Name, vars: set<Name>): Stmt {
    if Key(s) in vars then Copy(ret, Called(s)) else Constant(ret, Mangle(s))
  }

  function Releases(names: seq<Name>): seq<Stmt> {
    seq(|names|, i requires 0 <= i < |names| => Release(names[i]))
  }

  lemma MatchCode(e: Code, ret: Name, vars: set<Name>, count: nat)
    requires e.Match?
    ensures var a := WriteExpr(e.scrut, vars, count);
            var y, h, p := a.names[0], Temp(a.count), WriteArgs(e.cases, false, a.vars, a.count + 1);
            var b := WriteCases(e.cases, p.names, y, h, ret, p.vars, p.count);
            WriteCode(e, ret, vars, count) ==
            Out(a.code + [GetHead(h, y)] + p.code + b.code + Releases(a.names + p.names), b.vars, b.count)
  {
  }

  /** Writes code for an expression and names the variable that holds its value: the
      variable itself if the expression is one, else a new temporary. */
  function WriteExpr(e: Code, vars: set<Name>, count: nat): (o: NamedOut)
    ensures o.count >= count && vars <= o.vars && |o.names| == 1
    decreases e, 1
  {
    if e.Var? && Key(e.s) in vars then NamedOut([], [Called(e.s)], vars, count)
    else
      var t := Temp(count);
      var o := WriteCode(e, t, vars, count + 1);
      NamedOut([Declare(t)] + o.code, [t], o.vars + {t}, o.count)
  }

  /** As WriteExpr, for an expression that must be a symbol: the test that is written for
      other expressions than variables lacks its operand. */
  function WriteSymExpr(e: Code, vars: set<Name>, count: nat): (o: NamedOut)
    ensures o.count >= count && vars <= o.vars && |o.names| == 1
    decreases e, 2
  {
    var o := WriteExpr(e, vars, count);
    if e.Var? && Key(e.s) in vars then o else o.(code := o.code + [Malformed])
  }

  function WriteSymbol(s: Sym, vars: set<Name>, count: nat): (o: NamedOut)
    ensures o.count >= count && vars <= o.vars && |o.names| == 1
  {
    var t := Temp(count);
    if Key(s) in vars then NamedOut([], [Called(s)], vars, count)
    else NamedOut([Declare(t), Constant(t, Mangle(s))], [t], vars + {t}, count + 1)
  }

  /** A constructor to compare with is always put in a temporary. */
  function WriteCtor(s: Sym, vars: set<Name>, count: nat): (o: NamedOut)
    ensures o.count >= count && vars <= o.vars && |o.names| == 1
  {
    var t := Temp(count);
    NamedOut([Declare(t), WriteVar(s, t, vars)], [t], vars + {t}, count + 1)
  }

  function WriteExprs(es: seq<Code>, vars: set<Name>, count: nat): (o: NamedOut)
    ensures o.count >= count && vars <= o.vars && |o.names| == |es|
    decreases es, 0
  {
    if es == [] then NamedOut([], [], vars, count)
    else
      var a := WriteExpr(es[0], vars, count);
      var b := WriteExprs(es[1..], a.vars, a.count);
      NamedOut(a.code + b.code, a.names + b.names, b.vars, b.count)
  }

  /** Writes what the cases of a match are compared with.  The writer stops at a default
      only after it has met a pattern: a default that comes first is written out as well,
      unless it is a symbol. */
  function WriteArgs(cases: seq<Case>, met: bool, vars: set<Name>, count: nat): (o: NamedOut)
    ensures o.count >= count && vars <= o.vars
    decreases cases, 0
  {
    if cases == [] || (met && cases[0].Default?) then NamedOut([], [], vars, count)
    else
      var a := WriteArg(cases[0], vars, count);
      var b := WriteArgs(cases[1..], met || cases[0].Arm?, a.vars, a.count);
      NamedOut(a.code + b.code, a.names + b.names, b.vars, b.count)
  }

  /** The name of a symbol is released as it is, without its replaced characters. */
  function WriteArg(c: Case, vars: set<Name>, count: nat): (o: NamedOut)
    ensures o.count >= count && vars <= o.vars && |o.names| == 1
    decreases c, 0
  {
    match c
    case Arm(ctor, _, _) => WriteCtor(ctor, vars, count)
    case Default(body) =>
      if body.Var? then NamedOut([], [Key(body.s)], vars, count) else WriteExpr(body, vars, count)
  }

  /** Sets pattern variables to the arguments of the matched term y. */
  function WriteKids(xs: seq<Sym>, y: Name, n: nat): seq<Stmt>
    requires n <= |xs|
  {
    if n == 0 then [] else WriteKids(xs, y, n - 1) + [GetKid(Called(xs[n - 1]), y, n - 1)]
  }

  function Keys(xs: seq<Sym>): set<Name> {
    set x | x in xs :: Key(x)
  }

  /** Writes the chain of comparisons.  After a default comes the end of the match; what is
      written for further cases has no matching brace. */
  function WriteCases(cases: seq<Case>, ctors: seq<Name>, y: Name, h: Name, ret: Name, vars: set<Name>, count: nat)
    : (o: Out)
    ensures o.count >= count && vars <= o.vars
    decreases cases, 0
  {
    if cases == [] then Out([Exit], vars, count)
    else match cases[0]
      case Default(body) =>
        assert body < cases[0];
        var a := WriteCode(body, ret, vars, count);
        Out([Block(a.code)] + if |cases| == 1 then [] else [Malformed], a.vars, a.count)
      case Arm(_, xs, body) =>
        if ctors == [] then Out([Malformed], vars, count) else
        assert body < cases[0];
        var a := WriteCode(body, ret, vars + Keys(xs), count);
        var b := WriteCases(cases[1..], ctors[1..], y, h, ret, a.vars, a.count);
        Out([IfSame(h, ctors[0], WriteKids(xs, y, |xs|) + a.code, b.code)], b.vars, b.count)
  }

  function CompileProgram(p: Program): Function {
    var o := WriteExpr(p.body, Keys(p.params), 0);
    Function(p.params, o.code, o.names[0])
  }

  // ----- running emitted statements -----

  type Locals = map<Name, Value>

  datatype Store = Store(locals: Locals, marks: MarkSet)

  /** The innermost head of a term. */
  function InnerHead(v: Value): Value {
    if v.App? then InnerHead(v.head) else v
  }

  function Values(locals: Locals, names: seq<Name>): Option<seq<Value>> {
    if names == [] then Some([])
    else if names[0] !in locals then None
    else
      var rest := Values(locals, names[1..]);
      if rest.None? then None else Some([locals[names[0]]] + rest.value)
  }

  function Find(locals: Locals, q: Name): Option<Value> {
    if q in locals then Some(locals[q]) else None
  }

  /** What locals are after a block that declares names: those have again what they had. */
  function Leave(before: Locals, after: Locals, names: set<Name>): Locals {
    (after - names) + (map q | q in before && q in names :: before[q])
  }

  /** What the calls of GMP compute that are written for an operation: of integers only sums and
      products. */
  function Computed(op: ArithOp, v: Value, w: Value): Option<Value> {
    if v.Int? && w.Int? then
      match op
      case Add => Some(Int(v.n + w.n))
      case Mul => Some(Int(v.n * w.n))
      case Div => None
    else if v.Rat? && w.Rat? then
      match op
      case Add => Some(Rat(v.q + w.q))
      case Mul => Some(Rat(v.q * w.q))
      case Div => if w.q == 0.0 then None else Some(Rat(v.q / w.q))
    else None
  }

  function Negated(v: Value): Option<Value> {
    if v.Int? then Some(Int(0 - v.n)) else if v.Rat? then Some(Rat(0.0 - v.q)) else None
  }

  /** The sign of a number: negative, zero or positive. */
  function Sgn(v: Value): Option<int> {
    match v
    case Int(n) => Some(if n < 0 then -1 else if n == 0 then 0 else 1)
    case Rat(q) => Some(if q < 0.0 then -1 else if q == 0.0 then 0 else 1)
    case _ => None
  }

  /** Calls of GMP compute what evaluation does, except for quotients of integers. */
  lemma ComputedRight(op: ArithOp, v: Value, w: Value)
    requires v.Int? ==> !op.Div?
    ensures Computed(op, v, w) == if ArithValue(op, v, w).Val? then Some(ArithValue(op, v, w).v) else None
  {
  }

  lemma NegatedRight(v: Value)
    ensures Negated(v) == if NegateValue(v).Val? then Some(NegateValue(v).v) else None
  {
  }

  lemma SgnRight(test: SignTest, v: Value)
    ensures Sgn(v).Some? <==> SignValue(test, v).Val?
    ensures Sgn(v).Some? ==> SignValue(test, v).v == if test.IsNeg? then Sgn(v).value < 0 else Sgn(v).value == 0
  {
  }

  /** What a function returns: a value or a null pointer, and the marks left. */
  datatype Return = Return(v: Option<Value>, marks: MarkSet)

  /** None: the run exits, reads a variable that is not set, misuses a value, is out of fuel,
      or the text does not compile. */
  function ExecStmt(fuel: nat, w: World, st: Store, s: Stmt): Option<Store>
    decreases fuel, 2, s, 0
  {
    match s
    case Declare(x) => Some(st.(locals := st.locals - {x}))
    case NewInt(x, n) => if n == 0 then None else Some(st.(locals := st.locals[x := Int(n)]))
    case NewRat(x, num, den) =>
      if den <= 0 then None else Some(st.(locals := st.locals[x := Rat(num as real / den as real)]))
    case Copy(x, y) => if y !in st.locals then None else Some(st.(locals := st.locals[x := st.locals[y]]))
    case Constant(x, c) =>
      var v := if Global(c) in st.locals then st.locals[Global(c)] else Symbol(c);
      Some(st.(locals := st.locals[x := v]))
    case Null(x) => Some(st.(locals := st.locals - {x}))
    case NewApp(x, head, args) =>
      var vs := Values(st.locals, args);
      if head !in st.locals || vs.None? then None
      else Some(st.(locals := st.locals[x := App(st.locals[head], vs.value)]))
    case CallFn(x, f, args) =>
      var vs := Values(st.locals, args);
      if vs.None? then None else
      var r := ExecCall(fuel, w, f, vs.value, st.marks);
      if r.None? then None
      else if r.value.v.None? then Some(Store(st.locals - {x}, r.value.marks))
      else Some(Store(st.locals[x := r.value.v.value], r.value.marks))
    case GetHead(x, y) =>
      if y !in st.locals then None else Some(st.(locals := st.locals[x := InnerHead(st.locals[y])]))
    case GetKid(x, y, k) =>
      if y !in st.locals || !st.locals[y].App? || k >= |st.locals[y].args| then None
      else Some(st.(locals := st.locals[x := st.locals[y].args[k]]))
    case IfClass(y, ints, rats) =>
      if y !in st.locals then None
      else if st.locals[y].Int? then ExecBlock(fuel, w, st, ints)
      else if st.locals[y].Rat? then ExecBlock(fuel, w, st, rats)
      else Some(st)
    case Compute(x, op, y, z) =>
      if y !in st.locals || z !in st.locals then None else
      var v := Computed(op, st.locals[y], st.locals[z]);
      if v.None? then None else Some(st.(locals := st.locals[x := v.value]))
    case ComputeNeg(x, y) =>
      if y !in st.locals then None else
      var v := Negated(st.locals[y]);
      if v.None? then None else Some(st.(locals := st.locals[x := v.value]))
    case IfSgn(test, y, thn, els) =>
      if y !in st.locals then None else
      var sgn := Sgn(st.locals[y]);
      if sgn.None? then None
      else ExecBlock(fuel, w, st, if (if test.IsNeg? then sgn.value < 0 else sgn.value == 0) then thn else els)
    case IfMark(y, i, thn, els) =>
      if y !in st.locals || !st.locals[y].Symbol? then None
      else ExecBlock(fuel, w, st, if (st.locals[y].s, i) in st.marks then thn else els)
    case SetMark(y, i) =>
      if y !in st.locals || !st.locals[y].Symbol? then None
      else Some(st.(marks := st.marks + {(st.locals[y].s, i)}))
    case ClearMark(y, i) =>
      if y !in st.locals || !st.locals[y].Symbol? then None
      else Some(st.(marks := st.marks - {(st.locals[y].s, i)}))
    case IfSame(y, z, thn, els) =>
      if y !in st.locals || z !in st.locals then None
      else ExecBlock(fuel, w, st, if st.locals[y] == st.locals[z] then thn else els)
    case IfBefore(y, z, thn, els) =>
      if y !in st.locals || z !in st.locals || !st.locals[y].Symbol? || !st.locals[z].Symbol? then None
      else ExecBlock(fuel, w, st, if w.before(st.locals[y].s, st.locals[z].s) then thn else els)
    case Block(body) => ExecBlock(fuel, w, st, body)
    case Release(x) => if x !in st.locals then None else Some(st)
    case Exit => None
    case Malformed => None
  }

  function Exec(fuel: nat, w: World, st: Store, ss: seq<Stmt>): Option<Store>
    decreases fuel, 2, ss, 0
  {
    if ss == [] then Some(st)
    else
      var r := ExecStmt(fuel, w, st, ss[0]);
      if r.None? then None else Exec(fuel, w, r.value, ss[1..])
  }

  /** Runs a block within others. */
  function ExecBlock(fuel: nat, w: World, st: Store, ss: seq<Stmt>): Option<Store>
    decreases fuel, 2, ss, 1
  {
    var r := Exec(fuel, w, st, ss);
    if r.None? then None else Some(Store(Leave(st.locals, r.value.locals, Declared(ss)), r.value.marks))
  }

  /** Runs the function compiled from a program. */
  function ExecCall(fuel: nat, w: World, f: Sym, args: seq<Value>, marks: MarkSet): Option<Return>
    decreases fuel, 0
  {
    if f !in w.progs || fuel == 0 then None else RunFunction(fuel - 1, w, CompileProgram(w.progs[f]), args, marks)
  }

  /** Runs an emitted function. */
  function RunFunction(fuel: nat, w: World, fn: Function, args: seq<Value>, marks: MarkSet): Option<Return>
    decreases fuel, 3
  {
    if |args| != |fn.params| then None
    else
      var r := Exec(fuel, w, Store(BindLocals(fn.params, args, |args|), marks), fn.body);
      if r.None? then None else Some(Return(Find(r.value.locals, fn.result), r.value.marks))
  }

  function BindLocals(xs: seq<Sym>, vs: seq<Value>, n: nat): Locals
    requires n <= |xs| && n <= |vs|
  {
    if n == 0 then map[] else BindLocals(xs, vs, n - 1)[Called(xs[n - 1]) := vs[n - 1]]
  }
}
