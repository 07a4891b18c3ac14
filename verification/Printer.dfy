/** Printing formulas as SMT-LIB 2 S-expressions, with nested conjunctions, disjunctions and
    curried applications flattened, and why the text means what the formula means. */
module Printer {
  import opened Options

  /** A symbol or hole with a value stands for the value. */
  datatype Term = Sym(name: string) | Defined(value: Term) | App(head: string, args: seq<Term>)

  /** What the printer is inside of. */
  datatype Mode = Plain | Apply | And | Or | Impl

  function ModeOf(head: string): Mode {
    if head == "apply" then Apply else if head == "and" then And else if head == "or" then Or
    else if head == "impl" then Impl else Plain
  }

  predicate IsPoly(head: string) {
    head == "=" || head == "distinct"
  }

  /** Connectives have two arguments; equations a sort and two terms; applications two sorts, a
      function and an argument. */
  predicate Arity(t: Term)
    decreases t
  {
    match t
    case Sym(_) => true
    case Defined(v) => Arity(v)
    case App(h, args) =>
      && (forall i :: 0 <= i < |args| ==> Arity(args[i]))
      && (if IsPoly(h) then |args| == 3 else if ModeOf(h).Apply? then |args| == 4
          else if ModeOf(h).Plain? then |args| > 0 else |args| == 2)
  }

  // ----- S-expressions -----

  datatype Sexp = Atom(name: string) | List(items: seq<Sexp>)
  datatype Token = Open | Close | Gap | Name(name: string)

  function Render(x: Sexp): (ts: seq<Token>)
    ensures ts != [] && !ts[0].Gap? && !ts[0].Close?
    decreases x
  {
    match x
    case Atom(n) => [Name(n)]
    case List(xs) => [Open] + RenderAll(xs) + [Close]
  }

  /** S-expressions separated by gaps. */
  function RenderAll(xs: seq<Sexp>): seq<Token>
    decreases xs
  {
    if xs == [] then [] else if |xs| == 1 then Render(xs[0])
    else RenderAll(xs[..|xs| - 1]) + [Gap] + Render(xs[|xs| - 1])
  }

  function SymbolFor(head: string): string {
    if head == "impl" then "=>" else head
  }

  /** The S-expressions that a term is printed as, inside of a mode. */
  function Items(t: Term, mode: Mode): (xs: seq<Sexp>)
    requires Arity(t)
    ensures xs != []
    decreases t
  {
    match t
    case Sym(n) => [Atom(n)]
    case Defined(v) => Items(v, mode)
    case App(h, args) =>
      var m := ModeOf(h);
      if IsPoly(h) then [List([Atom(h)] + Items(args[1], m) + Items(args[2], m))]
      else if (mode.And? || mode.Or?) && mode == m then Items(args[0], m) + Items(args[1], m)
      else if m.Apply? then
        var xs := Items(args[2], m) + Items(args[3], Plain);
        if mode.Apply? then xs else [List(xs)]
      else [List([Atom(SymbolFor(h))] + ItemsOf(args, m))]
  }

  function ItemsOf(args: seq<Term>, mode: Mode): (xs: seq<Sexp>)
    requires forall i :: 0 <= i < |args| ==> Arity(args[i])
    ensures args != [] ==> xs != []
    decreases args
  {
    if args == [] then [] else ItemsOf(args[..|args| - 1], mode) + Items(args[|args| - 1], mode)
  }

  // ----- what is flattened -----

  predicate IsConnective(name: string) {
    name == "and" || name == "or"
  }

  /** No symbol is named like a connective that is flattened. */
  predicate Unlike(t: Term)
    decreases t
  {
    match t
    case Sym(n) => !IsConnective(n)
    case Defined(v) => Unlike(v)
    case App(_, args) => forall i :: 0 <= i < |args| ==> Unlike(args[i])
  }

  predicate Names(x: Sexp) {
    x.Atom? && IsConnective(x.name)
  }

  /** A list that starts with a name. */
  predicate Starts(x: Sexp, name: string) {
    x.List? && x.items != [] && x.items[0] == Atom(name)
  }

  /** No conjunction is an argument of a conjunction, and no disjunction one of a disjunction. */
  predicate Flat(x: Sexp)
    decreases x
  {
    match x
    case Atom(_) => true
    case List(xs) =>
      && (forall i :: 0 <= i < |xs| ==> Flat(xs[i]))
      && (xs != [] && Names(xs[0]) ==> forall i :: 0 < i < |xs| ==> !Starts(xs[i], xs[0].name))
  }

  predicate AllFlat(xs: seq<Sexp>) {
    forall i :: 0 <= i < |xs| ==> Flat(xs[i])
  }

  predicate NoneStarts(xs: seq<Sexp>, mode: Mode) {
    forall i :: 0 <= i < |xs| ==> (mode.And? ==> !Starts(xs[i], "and")) && (mode.Or? ==> !Starts(xs[i], "or"))
  }

  /** What a term is printed as is flat; inside of a connective it has no list of that
      connective. */
  lemma {:induction false} ItemsFlat(t: Term, mode: Mode)
    requires Arity(t) && Unlike(t)
    ensures AllFlat(Items(t, mode)) && NoneStarts(Items(t, mode), mode)
    ensures forall i :: 0 <= i < |Items(t, mode)| ==> !Names(Items(t, mode)[i])
    decreases t, 1
  {
    match t
    case Sym(_) =>
    case Defined(v) => ItemsFlat(v, mode);
    case App(h, args) =>
      if IsPoly(h) {
        PolyFlat(t, mode);
      } else if (mode.And? || mode.Or?) && mode == ModeOf(h) {
        ItemsFlat(args[0], mode);
        ItemsFlat(args[1], mode);
      } else if ModeOf(h).Apply? {
        ApplyFlat(t, mode);
      } else {
        OtherFlat(t, mode);
      }
  }

  lemma {:induction false} PolyFlat(t: Term, mode: Mode)
    requires Arity(t) && Unlike(t) && t.App? && IsPoly(t.head)
    ensures AllFlat(Items(t, mode)) && NoneStarts(Items(t, mode), mode)
    ensures forall i :: 0 <= i < |Items(t, mode)| ==> !Names(Items(t, mode)[i])
    decreases t, 0
  {
    ItemsFlat(t.args[1], Plain);
    ItemsFlat(t.args[2], Plain);
  }

  lemma {:induction false} ApplyFlat(t: Term, mode: Mode)
    requires Arity(t) && Unlike(t) && t.App? && ModeOf(t.head).Apply?
    ensures AllFlat(Items(t, mode)) && NoneStarts(Items(t, mode), mode)
    ensures forall i :: 0 <= i < |Items(t, mode)| ==> !Names(Items(t, mode)[i])
    decreases t, 0
  {
    ItemsFlat(t.args[2], Apply);
    ItemsFlat(t.args[3], Plain);
  }

  lemma {:induction false} OtherFlat(t: Term, mode: Mode)
    requires Arity(t) && Unlike(t) && t.App? && !IsPoly(t.head) && !ModeOf(t.head).Apply?
    requires !((mode.And? || mode.Or?) && mode == ModeOf(t.head))
    ensures AllFlat(Items(t, mode)) && NoneStarts(Items(t, mode), mode)
    ensures forall i :: 0 <= i < |Items(t, mode)| ==> !Names(Items(t, mode)[i])
    decreases t, 0
  {
    var m := ModeOf(t.head);
    ItemsOfFlat(t.args, m);
    var xs := [Atom(SymbolFor(t.head))] + ItemsOf(t.args, m);
    assert Items(t, mode) == [List(xs)];
    assert forall i :: 0 < i < |xs| ==> xs[i] == ItemsOf(t.args, m)[i - 1];
  }

  lemma {:induction false} ItemsOfFlat(args: seq<Term>, mode: Mode)
    requires forall i :: 0 <= i < |args| ==> Arity(args[i]) && Unlike(args[i])
    ensures AllFlat(ItemsOf(args, mode)) && NoneStarts(ItemsOf(args, mode), mode)
    decreases args
  {
    if args != [] {
      ItemsOfFlat(args[..|args| - 1], mode);
      ItemsFlat(args[|args| - 1], mode);
    }
  }

  lemma {:induction false} RenderAppend(xs: seq<Sexp>, ys: seq<Sexp>)
    requires xs != [] && ys != []
    ensures RenderAll(xs + ys) == RenderAll(xs) + [Gap] + RenderAll(ys)
    decreases |ys|
  {
    var n := |ys| - 1;
    assert (xs + ys)[..|xs| + n] == xs + ys[..n];
    if n == 0 {
      assert xs + ys[..n] == xs;
    } else {
      RenderAppend(xs, ys[..n]);
    }
  }

  // ----- the printer -----

  class Printer {
    var out: seq<Token>

    method Emit(ts: seq<Token>)
      modifies this
      ensures out == old(out) + ts
    {
      out := out + ts;
    }

    /** Prints a term inside of a mode. */
    method Print(t: Term, mode: Mode)
      requires Arity(t)
      modifies this
      ensures out == old(out) + RenderAll(Items(t, mode))
      decreases t, 1
    {
      match t
      case Sym(n) =>
        Emit([Name(n)]);
      case Defined(v) =>
        Print(v, mode);
      case App(h, args) =>
        var m := ModeOf(h);
        if IsPoly(h) {
          PrintPoly(t, mode);
        } else if (mode.And? || mode.Or?) && mode == m {
          PrintPair(args[0], m, args[1], m, t);
        } else if m.Apply? {
          PrintApply(t, mode);
        } else {
          PrintOther(t, mode);
        }
    }

    method PrintPoly(t: Term, mode: Mode)
      requires Arity(t) && t.App? && IsPoly(t.head)
      modifies this
      ensures out == old(out) + RenderAll(Items(t, mode))
      decreases t, 0
    {
      var x, y := t.args[1], t.args[2];
      Emit([Open, Name(t.head), Gap]);
      PrintPair(x, Plain, y, Plain, t);
      Emit([Close]);
      ListRendered(t.head, Items(x, Plain) + Items(y, Plain));
      assert [Atom(t.head)] + Items(x, Plain) + Items(y, Plain) == [Atom(t.head)] + (Items(x, Plain) + Items(y, Plain));
      Assoc(old(out), [Open, Name(t.head), Gap], RenderAll(Items(x, Plain) + Items(y, Plain)), [Close]);
    }

    method PrintOther(t: Term, mode: Mode)
      requires Arity(t) && t.App? && !IsPoly(t.head) && t.head != "apply"
      requires !((mode.And? || mode.Or?) && mode == ModeOf(t.head))
      modifies this
      ensures out == old(out) + RenderAll(Items(t, mode))
      decreases t, 0
    {
      var m, name := ModeOf(t.head), SymbolFor(t.head);
      Emit([Open, Name(name), Gap]);
      PrintAll(t.args, m);
      Emit([Close]);
      ListRendered(name, ItemsOf(t.args, m));
      Assoc(old(out), [Open, Name(name), Gap], RenderAll(ItemsOf(t.args, m)), [Close]);
    }

    method PrintApply(t: Term, mode: Mode)
      requires Arity(t) && t.App? && t.head == "apply"
      modifies this
      ensures out == old(out) + RenderAll(Items(t, mode))
      decreases t, 0
    {
      if !mode.Apply? {
        Emit([Open]);
      }
      PrintPair(t.args[2], Apply, t.args[3], Plain, t);
      if !mode.Apply? {
        Emit([Close]);
      }
    }

    /** Prints two parts of a term, with a gap between them. */
    method PrintPair(s: Term, smode: Mode, t: Term, tmode: Mode, ghost whole: Term)
      requires Arity(s) && Arity(t) && s < whole && t < whole
      modifies this
      ensures out == old(out) + RenderAll(Items(s, smode) + Items(t, tmode))
      decreases whole, 0, 0
    {
      Print(s, smode);
      Emit([Gap]);
      Print(t, tmode);
      RenderAppend(Items(s, smode), Items(t, tmode));
    }

    method PrintAll(args: seq<Term>, mode: Mode)
      requires args != [] && forall i :: 0 <= i < |args| ==> Arity(args[i])
      modifies this
      ensures out == old(out) + RenderAll(ItemsOf(args, mode))
      decreases args, 0
    {
      var a := 0;
      while a < |args|
        invariant a <= |args| && out == old(out) + Progress(args, a, mode)
      {
        PrintArg(args, a, mode, old(out));
        a := a + 1;
      }
      assert args[..a] == args;
    }

    /** Prints an argument, and a gap unless it is the last. */
    method PrintArg(args: seq<Term>, a: nat, mode: Mode, ghost before: seq<Token>)
      requires a < |args| && (forall i :: 0 <= i < |args| ==> Arity(args[i])) && out == before + Progress(args, a, mode)
      modifies this
      ensures out == before + Progress(args, a + 1, mode)
      decreases args, 0, 0
    {
      Print(args[a], mode);
      ProgressStep(args, a, mode);
      Assoc(before, Progress(args, a, mode), RenderAll(Items(args[a], mode)), []);
      if a + 1 != |args| {
        Emit([Gap]);
      }
    }
  }

  lemma Assoc<T>(a: seq<T>, b: seq<T>, c: seq<T>, d: seq<T>)
    ensures a + b + c + d == a + (b + c + d) && a + b + c == a + (b + c)
  {
  }

  /** What has been printed of the arguments: with a gap after it, unless it is all. */
  ghost function Progress(args: seq<Term>, a: nat, mode: Mode): seq<Token>
    requires a <= |args| && forall i :: 0 <= i < |args| ==> Arity(args[i])
  {
    if a == 0 then [] else RenderAll(ItemsOf(args[..a], mode)) + (if a == |args| then [] else [Gap])
  }

  lemma ProgressStep(args: seq<Term>, a: nat, mode: Mode)
    requires a < |args| && forall i :: 0 <= i < |args| ==> Arity(args[i])
    ensures Progress(args, a, mode) + RenderAll(Items(args[a], mode)) == RenderAll(ItemsOf(args[..a + 1], mode))
  {
    assert args[..a + 1][..a] == args[..a];
    if a == 0 {
      assert ItemsOf(args[..1], mode) == Items(args[0], mode);
    } else {
      RenderAppend(ItemsOf(args[..a], mode), Items(args[a], mode));
    }
  }

  lemma ListRendered(h: string, xs: seq<Sexp>)
    requires xs != []
    ensures RenderAll([List([Atom(h)] + xs)]) == [Open, Name(h), Gap] + RenderAll(xs) + [Close]
  {
    RenderAppend([Atom(h)], xs);
    assert RenderAll([Atom(h)]) == [Name(h)];
  }

  // ----- reading -----

  datatype Parsed<T> = Parsed(value: T, rest: seq<Token>)

  /** Reads one S-expression from the front of the tokens. */
  function Read(ts: seq<Token>): (r: Option<Parsed<Sexp>>)
    ensures r.Some? ==> |r.value.rest| < |ts|
    decreases |ts|, 0
  {
    if ts == [] || ts[0].Gap? || ts[0].Close? then None
    else if ts[0].Name? then Some(Parsed(Atom(ts[0].name), ts[1..]))
    else
      var r := ReadUpToClose(ts[1..]);
      if r.None? then None else Some(Parsed(List(r.value.value), r.value.rest))
  }

  /** Reads S-expressions, with gaps between them, up to the closing parenthesis. */
  function ReadUpToClose(ts: seq<Token>): (r: Option<Parsed<seq<Sexp>>>)
    ensures r.Some? ==> |r.value.rest| < |ts|
    decreases |ts|, 1
  {
    if ts != [] && ts[0].Close? then Some(Parsed([], ts[1..]))
    else
      var first := Read(ts);
      if first.None? then None else
      var rest := first.value.rest;
      var more := ReadUpToClose(if rest != [] && rest[0].Gap? then rest[1..] else rest);
      if more.None? then None else Some(Parsed([first.value.value] + more.value.value, more.value.rest))
  }

  lemma {:induction false} ReadRender(x: Sexp, rest: seq<Token>)
    ensures Read(Render(x) + rest) == Some(Parsed(x, rest))
    decreases x, 0
  {
    match x
    case Atom(n) =>
      assert ([Name(n)] + rest)[1..] == rest;
    case List(xs) =>
      ReadRenderAll(xs, rest);
      assert (Render(x) + rest)[1..] == RenderAll(xs) + [Close] + rest;
  }

  lemma {:induction false} ReadRenderAll(xs: seq<Sexp>, rest: seq<Token>)
    ensures ReadUpToClose(RenderAll(xs) + [Close] + rest) == Some(Parsed(xs, rest))
    decreases xs, |xs|
  {
    if xs == [] {
      assert RenderAll(xs) + [Close] + rest == [Close] + rest && ([Close] + rest)[1..] == rest;
    } else if |xs| == 1 {
      ReadRender(xs[0], [Close] + rest);
      ReadLast(xs[0], rest);
      assert xs == [xs[0]];
    } else {
      var more := RenderAll(xs[1..]) + [Close] + rest;
      ReadRender(xs[0], [Gap] + more);
      ReadRenderAll(xs[1..], rest);
      ReadMore(xs[0], xs[1..], rest, more);
      RenderMore(xs[0], xs[1..], rest);
      assert [xs[0]] + xs[1..] == xs;
    }
  }

  lemma ReadStep(ts: seq<Token>, x: Sexp, left: seq<Token>, xs: seq<Sexp>, rest: seq<Token>)
    requires ts != [] && !ts[0].Close? && Read(ts) == Some(Parsed(x, left))
    requires ReadUpToClose(if left != [] && left[0].Gap? then left[1..] else left) == Some(Parsed(xs, rest))
    ensures ReadUpToClose(ts) == Some(Parsed([x] + xs, rest))
  {
  }

  lemma ReadLast(x: Sexp, rest: seq<Token>)
    requires Read(Render(x) + ([Close] + rest)) == Some(Parsed(x, [Close] + rest))
    ensures ReadUpToClose(RenderAll([x]) + [Close] + rest) == Some(Parsed([x], rest))
  {
    var left := [Close] + rest;
    assert RenderAll([x]) + [Close] + rest == Render(x) + left;
    assert left[1..] == rest;
    assert ReadUpToClose(left) == Some(Parsed([], rest));
    ReadStep(Render(x) + left, x, left, [], rest);
    assert [x] + [] == [x];
  }

  lemma ReadMore(x: Sexp, xs: seq<Sexp>, rest: seq<Token>, more: seq<Token>)
    requires Read(Render(x) + ([Gap] + more)) == Some(Parsed(x, [Gap] + more))
    requires ReadUpToClose(more) == Some(Parsed(xs, rest))
    ensures ReadUpToClose(Render(x) + ([Gap] + more)) == Some(Parsed([x] + xs, rest))
  {
    var left := [Gap] + more;
    assert left[1..] == more;
    ReadStep(Render(x) + left, x, left, xs, rest);
  }

  lemma RenderMore(x: Sexp, xs: seq<Sexp>, rest: seq<Token>)
    requires xs != []
    ensures RenderAll([x] + xs) + [Close] + rest == Render(x) + ([Gap] + (RenderAll(xs) + [Close] + rest))
  {
    RenderAppend([x], xs);
    assert RenderAll([x]) == Render(x);
  }
}
