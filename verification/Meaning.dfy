/** What formulas and S-expressions mean, and that printing preserves it. */
module Meaning {
  import opened Printer

  /** An interpretation: which values are true, how functions apply, and what the other symbols
      and operators stand for. */
  datatype Model<!V> = Model(truth: V -> bool, ofBool: bool -> V, apply: (V, V) -> V,
                             op: (string, seq<V>) -> V, isOp: string -> bool, sym: string -> V)

  ghost predicate Sound<V>(m: Model<V>) {
    forall b :: m.truth(m.ofBool(b)) == b
  }

  function Conj<V>(m: Model<V>): (V, V) -> V {
    (x, y) => m.ofBool(m.truth(x) && m.truth(y))
  }

  function Disj<V>(m: Model<V>): (V, V) -> V {
    (x, y) => m.ofBool(m.truth(x) || m.truth(y))
  }

  function Imp<V>(m: Model<V>, x: V, y: V): V {
    m.ofBool(m.truth(x) ==> m.truth(y))
  }

  /** Names that S-expressions give a meaning of their own. */
  predicate Keyword(n: string) {
    n == "and" || n == "or" || n == "=>" || n == "=" || n == "distinct"
  }

  // ----- formulas -----

  /** Symbols are neither keywords nor operators; other heads are operators. */
  predicate Proper<V>(m: Model<V>, t: Term)
    requires Arity(t)
    decreases t
  {
    match t
    case Sym(n) => !Keyword(n) && !m.isOp(n)
    case Defined(v) => Proper(m, v)
    case App(h, args) =>
      if IsPoly(h) then Proper(m, args[1]) && Proper(m, args[2])
      else if ModeOf(h).Apply? then Proper(m, args[2]) && Proper(m, args[3])
      else (ModeOf(h).Plain? ==> m.isOp(h) && !Keyword(h)) && forall i :: 0 <= i < |args| ==> Proper(m, args[i])
  }

  function Value<V(==)>(m: Model<V>, t: Term): V
    requires Arity(t)
    decreases t
  {
    match t
    case Sym(n) => m.sym(n)
    case Defined(v) => Value(m, v)
    case App(h, args) =>
      if h == "=" then m.ofBool(Value(m, args[1]) == Value(m, args[2]))
      else if h == "distinct" then m.ofBool(Value(m, args[1]) != Value(m, args[2]))
      else match ModeOf(h)
        case And => Conj(m)(Value(m, args[0]), Value(m, args[1]))
        case Or => Disj(m)(Value(m, args[0]), Value(m, args[1]))
        case Impl => Imp(m, Value(m, args[0]), Value(m, args[1]))
        case Apply => m.apply(Value(m, args[2]), Value(m, args[3]))
        case Plain => m.op(h, ValuesOf(m, args))
  }

  function ValuesOf<V(==)>(m: Model<V>, args: seq<Term>): (vs: seq<V>)
    requires forall i :: 0 <= i < |args| ==> Arity(args[i])
    ensures |vs| == |args|
    decreases args
  {
    if args == [] then [] else ValuesOf(m, args[..|args| - 1]) + [Value(m, args[|args| - 1])]
  }

  // ----- S-expressions -----

  /** From the left, as SMT-LIB reads connectives and applications of more than two. */
  function Fold<V>(f: (V, V) -> V, vs: seq<V>): V
    requires vs != []
  {
    if |vs| == 1 then vs[0] else f(Fold(f, vs[..|vs| - 1]), vs[|vs| - 1])
  }

  function Eval<V(==)>(m: Model<V>, x: Sexp): V
    decreases x
  {
    match x
    case Atom(n) => m.sym(n)
    case List(xs) =>
      var vs := EvalAll(m, xs);
      if |xs| > 1 && xs[0].Atom? && (Keyword(xs[0].name) || m.isOp(xs[0].name)) then Operate(m, xs[0].name, vs[1..])
      else if xs == [] then m.sym("")
      else Fold(m.apply, vs)
  }

  function EvalAll<V(==)>(m: Model<V>, xs: seq<Sexp>): (vs: seq<V>)
    ensures |vs| == |xs|
    decreases xs
  {
    if xs == [] then [] else EvalAll(m, xs[..|xs| - 1]) + [Eval(m, xs[|xs| - 1])]
  }

  function Operate<V(==)>(m: Model<V>, n: string, vs: seq<V>): V
    requires vs != []
  {
    if n == "and" then Fold(Conj(m), vs)
    else if n == "or" then Fold(Disj(m), vs)
    else if n == "=>" && |vs| == 2 then Imp(m, vs[0], vs[1])
    else if n == "=" && |vs| == 2 then m.ofBool(vs[0] == vs[1])
    else if n == "distinct" && |vs| == 2 then m.ofBool(vs[0] != vs[1])
    else m.op(n, vs)
  }

  // ----- folding and flattening -----

  ghost predicate Associative<V(!new)>(f: (V, V) -> V) {
    forall x, y, z :: f(f(x, y), z) == f(x, f(y, z))
  }

  lemma {:induction false} FoldAppend<V(!new)>(f: (V, V) -> V, xs: seq<V>, ys: seq<V>)
    requires Associative(f) && xs != [] && ys != []
    ensures Fold(f, xs + ys) == f(Fold(f, xs), Fold(f, ys))
    decreases |ys|
  {
    var n := |ys| - 1;
    assert (xs + ys)[..|xs| + n] == xs + ys[..n];
    if n == 0 {
      assert xs + ys[..n] == xs;
    } else {
      FoldAppend(f, xs, ys[..n]);
    }
  }

  lemma {:induction false} EvalAppend<V>(m: Model<V>, xs: seq<Sexp>, ys: seq<Sexp>)
    ensures EvalAll(m, xs + ys) == EvalAll(m, xs) + EvalAll(m, ys)
    decreases |ys|
  {
    if ys == [] {
      assert xs + ys == xs;
    } else {
      var n := |ys| - 1;
      assert (xs + ys)[..|xs| + n] == xs + ys[..n];
      EvalAppend(m, xs, ys[..n]);
    }
  }

  /** The value of the S-expressions that a term is printed as, inside of a mode. */
  function Together<V(==)>(m: Model<V>, mode: Mode, xs: seq<Sexp>): V
    requires xs != []
  {
    var vs := EvalAll(m, xs);
    match mode
    case And => Fold(Conj(m), vs)
    case Or => Fold(Disj(m), vs)
    case Apply => Fold(m.apply, vs)
    case _ => vs[0]
  }

  /** What is printed is one S-expression unless it is flattened, does not look like an
      operator, and has the value of the term. */
  ghost predicate Faithful<V>(m: Model<V>, t: Term, mode: Mode)
    requires Arity(t)
  {
    var xs := Items(t, mode);
    && (mode.Plain? || mode.Impl? ==> |xs| == 1)
    && (xs[0].Atom? ==> !Keyword(xs[0].name) && !m.isOp(xs[0].name))
    && Together(m, mode, xs) == Value(m, t)
  }

  lemma Single<V>(m: Model<V>, mode: Mode, x: Sexp)
    ensures EvalAll(m, [x]) == [Eval(m, x)] && Together(m, mode, [x]) == Eval(m, x)
  {
    assert [x][..0] == [];
  }

  lemma Associated<V(!new)>(m: Model<V>)
    requires Sound(m)
    ensures Associative(Conj(m)) && Associative(Disj(m))
  {
  }

  lemma FoldLast<V>(f: (V, V) -> V, vs: seq<V>, v: V)
    requires vs != []
    ensures Fold(f, vs + [v]) == f(Fold(f, vs), v)
  {
    assert (vs + [v])[..|vs|] == vs;
  }

  /** Two groups of a connective together. */
  lemma TogetherAppend<V(!new)>(m: Model<V>, mode: Mode, xs: seq<Sexp>, ys: seq<Sexp>)
    requires Sound(m) && xs != [] && ys != [] && (mode.And? || mode.Or?)
    ensures mode.And? ==> Together(m, mode, xs + ys) == Conj(m)(Together(m, mode, xs), Together(m, mode, ys))
    ensures mode.Or? ==> Together(m, mode, xs + ys) == Disj(m)(Together(m, mode, xs), Together(m, mode, ys))
  {
    EvalAppend(m, xs, ys);
    Associated(m);
    if mode.And? {
      FoldAppend(Conj(m), EvalAll(m, xs), EvalAll(m, ys));
    } else {
      FoldAppend(Disj(m), EvalAll(m, xs), EvalAll(m, ys));
    }
  }

  /** A list that starts with a keyword or an operator. */
  lemma OperatorList<V>(m: Model<V>, n: string, xs: seq<Sexp>)
    requires xs != [] && (Keyword(n) || m.isOp(n))
    ensures Eval(m, List([Atom(n)] + xs)) == Operate(m, n, EvalAll(m, xs))
  {
    EvalAppend(m, [Atom(n)], xs);
    Single(m, Plain, Atom(n));
    var all := [Atom(n)] + xs;
    assert EvalAll(m, all)[1..] == EvalAll(m, xs);
  }

  lemma ApplyList<V>(m: Model<V>, xs: seq<Sexp>, y: Sexp)
    requires xs != [] && (xs[0].Atom? ==> !Keyword(xs[0].name) && !m.isOp(xs[0].name))
    ensures Eval(m, List(xs + [y])) == m.apply(Together(m, Apply, xs), Eval(m, y))
    ensures Together(m, Apply, xs + [y]) == m.apply(Together(m, Apply, xs), Eval(m, y))
  {
    EvalAppend(m, xs, [y]);
    Single(m, Plain, y);
    FoldLast(m.apply, EvalAll(m, xs), Eval(m, y));
  }

  // ----- printing preserves meaning -----

  lemma ListFaithful<V>(m: Model<V>, t: Term, mode: Mode, x: Sexp)
    requires Arity(t) && Items(t, mode) == [x] && x.List? && Eval(m, x) == Value(m, t)
    ensures Faithful(m, t, mode)
  {
    Single(m, mode, x);
  }

  lemma {:induction false} PrintFaithful<V(!new)>(m: Model<V>, t: Term, mode: Mode)
    requires Sound(m) && Arity(t) && Proper(m, t)
    ensures Faithful(m, t, mode)
    decreases t, 1
  {
    match t
    case Sym(n) =>
      Single(m, mode, Atom(n));
    case Defined(v) =>
      PrintFaithful(m, v, mode);
    case App(h, args) =>
      if IsPoly(h) {
        PolyFaithful(m, t, mode);
      } else if ModeOf(h).And? || ModeOf(h).Or? {
        ConnectiveFaithful(m, t, mode);
      } else if ModeOf(h).Apply? {
        ApplyFaithful(m, t, mode);
      } else if ModeOf(h).Impl? {
        ImplFaithful(m, t, mode);
      } else {
        OperatorFaithful(m, t, mode);
      }
  }

  /** Two arguments printed inside of modes. */
  lemma {:induction false} PartsFaithful<V(!new)>(m: Model<V>, t: Term, i: nat, imode: Mode, j: nat, jmode: Mode)
    requires Sound(m) && Arity(t) && t.App? && i < |t.args| && j < |t.args| && Proper(m, t.args[i]) &&
             Proper(m, t.args[j])
    ensures Faithful(m, t.args[i], imode) && Faithful(m, t.args[j], jmode)
    decreases t, 0, 0
  {
    PrintFaithful(m, t.args[i], imode);
    PrintFaithful(m, t.args[j], jmode);
  }

  lemma {:induction false} PolyFaithful<V(!new)>(m: Model<V>, t: Term, mode: Mode)
    requires Sound(m) && Arity(t) && Proper(m, t) && t.App? && IsPoly(t.head)
    ensures Faithful(m, t, mode)
    decreases t, 0
  {
    var a, b := t.args[1], t.args[2];
    PartsFaithful(m, t, 1, Plain, 2, Plain);
    var x, y := Items(a, Plain)[0], Items(b, Plain)[0];
    assert Items(a, Plain) == [x] && Items(b, Plain) == [y];
    assert [Atom(t.head)] + [x] + [y] == [Atom(t.head)] + [x, y];
    Pair(m, x, y);
    OperatorList(m, t.head, [x, y]);
    ListFaithful(m, t, mode, List([Atom(t.head)] + [x, y]));
  }

  lemma Pair<V>(m: Model<V>, x: Sexp, y: Sexp)
    ensures EvalAll(m, [x, y]) == [Eval(m, x), Eval(m, y)]
  {
    EvalAppend(m, [x], [y]);
    Single(m, Plain, x);
    Single(m, Plain, y);
    assert [x] + [y] == [x, y];
  }

  lemma {:induction false} ConnectiveFaithful<V(!new)>(m: Model<V>, t: Term, mode: Mode)
    requires Sound(m) && Arity(t) && Proper(m, t) && t.App? && (t.head == "and" || t.head == "or")
    ensures Faithful(m, t, mode)
    decreases t, 0
  {
    var inner := ModeOf(t.head);
    PartsFaithful(m, t, 0, inner, 1, inner);
    var xs, ys := Items(t.args[0], inner), Items(t.args[1], inner);
    TogetherAppend(m, inner, xs, ys);
    ConnectiveAssembled(m, t, mode, xs, ys);
  }

  lemma ConnectiveAssembled<V>(m: Model<V>, t: Term, mode: Mode, xs: seq<Sexp>, ys: seq<Sexp>)
    requires Arity(t) && t.App? && (t.head == "and" || t.head == "or")
    requires Items(t.args[0], ModeOf(t.head)) == xs && Items(t.args[1], ModeOf(t.head)) == ys
    requires xs[0].Atom? ==> !Keyword(xs[0].name) && !m.isOp(xs[0].name)
    requires Together(m, ModeOf(t.head), xs + ys) == Value(m, t)
    ensures Faithful(m, t, mode)
  {
    if mode == ModeOf(t.head) {
      assert Items(t, mode) == xs + ys && (xs + ys)[0] == xs[0];
    } else {
      ItemsOfTwo(t.args, ModeOf(t.head));
      OperatorList(m, t.head, xs + ys);
      ListFaithful(m, t, mode, List([Atom(t.head)] + (xs + ys)));
    }
  }

  lemma ItemsOfTwo(args: seq<Term>, mode: Mode)
    requires |args| == 2 && Arity(args[0]) && Arity(args[1])
    ensures ItemsOf(args, mode) == Items(args[0], mode) + Items(args[1], mode)
  {
    assert args[..1][..0] == [] && args[..1][0] == args[0];
    assert ItemsOf(args[..1], mode) == Items(args[0], mode);
  }

  lemma {:induction false} ApplyFaithful<V(!new)>(m: Model<V>, t: Term, mode: Mode)
    requires Sound(m) && Arity(t) && Proper(m, t) && t.App? && t.head == "apply"
    ensures Faithful(m, t, mode)
    decreases t, 0
  {
    PartsFaithful(m, t, 2, Apply, 3, Plain);
    var xs, y := Items(t.args[2], Apply), Items(t.args[3], Plain)[0];
    assert Items(t.args[3], Plain) == [y];
    Single(m, Plain, y);
    ApplyList(m, xs, y);
    ApplyAssembled(m, t, mode, xs, y);
  }

  lemma ApplyAssembled<V>(m: Model<V>, t: Term, mode: Mode, xs: seq<Sexp>, y: Sexp)
    requires Arity(t) && t.App? && t.head == "apply" && Items(t.args[2], Apply) == xs && Items(t.args[3], Plain) == [y]
    requires xs[0].Atom? ==> !Keyword(xs[0].name) && !m.isOp(xs[0].name)
    requires Eval(m, List(xs + [y])) == Value(m, t) && Together(m, Apply, xs + [y]) == Value(m, t)
    ensures Faithful(m, t, mode)
  {
    if mode.Apply? {
      assert Items(t, mode) == xs + [y] && (xs + [y])[0] == xs[0];
    } else {
      ListFaithful(m, t, mode, List(xs + [y]));
    }
  }

  lemma {:induction false} ImplFaithful<V(!new)>(m: Model<V>, t: Term, mode: Mode)
    requires Sound(m) && Arity(t) && Proper(m, t) && t.App? && t.head == "impl"
    ensures Faithful(m, t, mode)
    decreases t, 0
  {
    var a, b := t.args[0], t.args[1];
    PartsFaithful(m, t, 0, Impl, 1, Impl);
    var x, y := Items(a, Impl)[0], Items(b, Impl)[0];
    assert Items(a, Impl) == [x] && Items(b, Impl) == [y];
    ItemsOfTwo(t.args, Impl);
    assert [x] + [y] == [x, y];
    Pair(m, x, y);
    OperatorList(m, "=>", [x, y]);
    ListFaithful(m, t, mode, List([Atom("=>")] + [x, y]));
  }

  lemma {:induction false} OperatorFaithful<V(!new)>(m: Model<V>, t: Term, mode: Mode)
    requires Sound(m) && Arity(t) && Proper(m, t) && t.App? && !IsPoly(t.head) && ModeOf(t.head).Plain?
    ensures Faithful(m, t, mode)
    decreases t, 0
  {
    ArgsFaithful(m, t.args);
    OperatorAssembled(m, t, mode);
  }

  lemma OperatorAssembled<V>(m: Model<V>, t: Term, mode: Mode)
    requires Arity(t) && t.App? && !IsPoly(t.head) && ModeOf(t.head).Plain? && m.isOp(t.head) && !Keyword(t.head)
    requires EvalAll(m, ItemsOf(t.args, Plain)) == ValuesOf(m, t.args)
    ensures Faithful(m, t, mode)
  {
    OperatorList(m, t.head, ItemsOf(t.args, Plain));
    ListFaithful(m, t, mode, List([Atom(t.head)] + ItemsOf(t.args, Plain)));
  }

  lemma {:induction false} ArgsFaithful<V(!new)>(m: Model<V>, args: seq<Term>)
    requires Sound(m) && forall i :: 0 <= i < |args| ==> Arity(args[i]) && Proper(m, args[i])
    ensures EvalAll(m, ItemsOf(args, Plain)) == ValuesOf(m, args)
    decreases args, 0
  {
    if args != [] {
      var n := |args| - 1;
      ArgsFaithful(m, args[..n]);
      PrintFaithful(m, args[n], Plain);
      var x := Items(args[n], Plain)[0];
      assert Items(args[n], Plain) == [x];
      Single(m, Plain, x);
      EvalAppend(m, ItemsOf(args[..n], Plain), [x]);
    }
  }

  /** The printed text can be read, and means what the formula means. */
  lemma PrintedMeaning<V(!new)>(m: Model<V>, t: Term)
    requires Sound(m) && Arity(t) && Proper(m, t)
    ensures var r := Read(RenderAll(Items(t, Plain)));
            r.Some? && r.value.rest == [] && Eval(m, r.value.value) == Value(m, t)
  {
    PrintFaithful(m, t, Plain);
    var x := Items(t, Plain)[0];
    assert Items(t, Plain) == [x];
    Single(m, Plain, x);
    ReadRender(x, []);
    assert Render(x) + [] == Render(x) == RenderAll([x]);
  }
}
