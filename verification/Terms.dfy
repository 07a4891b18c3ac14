/** LF terms with binders that are objects: a bound variable is the object of its binder,
    and a variable's `val` slot may point to the term it stands for. */
module Terms {
  import opened Options
  import opened Collections

  /** Identity of a symbol object. */
  type Obj = nat

  datatype Op = AppOp | TypeOp | KindOp | OtherOp(code: nat)

  datatype Term =
    | Var(s: Obj)
    | Num(n: int)
    | Prog(p: nat)
    | Lam(x: Obj, body: Term)
    | Pi(x: Obj, ty: Term, body: Term)
    | Node(op: Op, kids: seq<Term>)

  type Slots = map<Obj, Term>

  function Peek(slots: Slots, x: Obj): Option<Term> {
    if x in slots then Some(slots[x]) else None
  }

  /** What a variable's slot points to, or the variable itself. */
  function Pointee(slots: Slots, x: Obj): Term {
    if x in slots then slots[x] else Var(x)
  }

  function Reset(slots: Slots, x: Obj, prev: Option<Term>): Slots {
    if prev.Some? then slots[x := prev.value] else slots - {x}
  }

  lemma ResetUndoes(slots: Slots, x: Obj, t: Term)
    ensures Reset(slots[x := t], x, Peek(slots, x)) == slots
  {
  }

  /** Terms up to the names of bound variables (de Bruijn's notation). */
  datatype Nameless =
    | Free(s: Obj)
    | Bound(i: nat)
    | NumN(n: int)
    | ProgN(p: nat)
    | LamN(body: Nameless)
    | PiN(ty: Nameless, body: Nameless)
    | NodeN(op: Op, kids: seq<Nameless>)

  /** Position of the innermost binder s. */
  function IndexOf(ctx: seq<Obj>, s: Obj): (i: nat)
    requires s in ctx
    ensures i < |ctx| && ctx[i] == s && s !in ctx[..i]
  {
    if ctx[0] == s then 0 else 1 + IndexOf(ctx[1..], s)
  }

  /** Reads a term under the binders ctx, innermost first, ignoring slots. */
  function Alpha(t: Term, ctx: seq<Obj>): Nameless
    decreases t
  {
    match t
    case Var(s) => if s in ctx then Bound(IndexOf(ctx, s)) else Free(s)
    case Num(n) => NumN(n)
    case Prog(p) => ProgN(p)
    case Lam(x, body) => LamN(Alpha(body, [x] + ctx))
    case Pi(x, ty, body) => PiN(Alpha(ty, ctx), Alpha(body, [x] + ctx))
    case Node(op, kids) => NodeN(op, AlphaAll(kids, ctx))
  }

  function AlphaAll(ts: seq<Term>, ctx: seq<Obj>): (ns: seq<Nameless>)
    ensures |ns| == |ts|
    decreases ts
  {
    if ts == [] then [] else AlphaAll(ts[..|ts| - 1], ctx) + [Alpha(ts[|ts| - 1], ctx)]
  }

  // ----- reading through slots -----

  /** The largest rank of an object in a term. */
  function Height(t: Term, rank: Obj -> nat): nat
    decreases t
  {
    match t
    case Var(s) => rank(s)
    case Num(_) => 0
    case Prog(_) => 0
    case Lam(x, body) => Max(rank(x), Height(body, rank))
    case Pi(x, ty, body) => Max(rank(x), Max(Height(ty, rank), Height(body, rank)))
    case Node(_, kids) => HeightAll(kids, rank)
  }

  function HeightAll(ts: seq<Term>, rank: Obj -> nat): nat
    decreases ts
  {
    if ts == [] then 0 else Max(HeightAll(ts[..|ts| - 1], rank), Height(ts[|ts| - 1], rank))
  }

  /** Slots are acyclic: what a symbol stands for is of lower rank. */
  ghost predicate Ranked(slots: Slots, rank: Obj -> nat) {
    forall s <- slots :: Height(slots[s], rank) < rank(s)
  }

  /** Reads a term under ctx with all slots followed, except those that hold programs. */
  ghost function Resolve(t: Term, slots: Slots, rank: Obj -> nat, ctx: seq<Obj>): Nameless
    requires Ranked(slots, rank)
    decreases Height(t, rank), t
  {
    match t
    case Var(s) =>
      if s in ctx then Bound(IndexOf(ctx, s))
      else if s in slots && !slots[s].Prog? then Resolve(slots[s], slots, rank, ctx)
      else Free(s)
    case Num(n) => NumN(n)
    case Prog(p) => ProgN(p)
    case Lam(x, body) => LamN(Resolve(body, slots - {x}, rank, [x] + ctx))
    case Pi(x, ty, body) => PiN(Resolve(ty, slots, rank, ctx), Resolve(body, slots - {x}, rank, [x] + ctx))
    case Node(op, kids) => NodeN(op, ResolveAll(kids, slots, rank, ctx))
  }

  ghost function ResolveAll(ts: seq<Term>, slots: Slots, rank: Obj -> nat, ctx: seq<Obj>): (ns: seq<Nameless>)
    requires Ranked(slots, rank)
    ensures |ns| == |ts|
    decreases HeightAll(ts, rank), ts
  {
    if ts == [] then []
    else ResolveAll(ts[..|ts| - 1], slots, rank, ctx) + [Resolve(ts[|ts| - 1], slots, rank, ctx)]
  }

  // ----- objects of a term -----

  function Objs(t: Term): set<Obj>
    decreases t
  {
    match t
    case Var(s) => {s}
    case Num(_) => {}
    case Prog(_) => {}
    case Lam(x, body) => {x} + Objs(body)
    case Pi(x, ty, body) => {x} + Objs(ty) + Objs(body)
    case Node(_, kids) => ObjsAll(kids)
  }

  function ObjsAll(ts: seq<Term>): set<Obj>
    decreases ts
  {
    if ts == [] then {} else ObjsAll(ts[..|ts| - 1]) + Objs(ts[|ts| - 1])
  }

  function Binders(t: Term): set<Obj>
    decreases t
  {
    match t
    case Lam(x, body) => {x} + Binders(body)
    case Pi(x, ty, body) => {x} + Binders(ty) + Binders(body)
    case Node(_, kids) => BindersAll(kids)
    case _ => {}
  }

  function BindersAll(ts: seq<Term>): set<Obj>
    decreases ts
  {
    if ts == [] then {} else BindersAll(ts[..|ts| - 1]) + Binders(ts[|ts| - 1])
  }

  /** Every binder of the term is a different object. */
  predicate UniqueBinders(t: Term)
    decreases t
  {
    match t
    case Lam(x, body) => x !in Binders(body) && UniqueBinders(body)
    case Pi(x, ty, body) =>
      && x !in Binders(ty) && x !in Binders(body) && Binders(ty) !! Binders(body)
      && UniqueBinders(ty) && UniqueBinders(body)
    case Node(_, kids) => UniqueAll(kids)
    case _ => true
  }

  predicate UniqueAll(ts: seq<Term>)
    decreases ts
  {
    ts == [] ||
    (var ts', t := ts[..|ts| - 1], ts[|ts| - 1];
     UniqueAll(ts') && UniqueBinders(t) && BindersAll(ts') !! Binders(t))
  }

  // ----- reading terms without slots -----

  /** A term none of whose objects has a slot reads as it is. */
  lemma {:induction false} ResolvePlain(t: Term, slots: Slots, rank: Obj -> nat, ctx: seq<Obj>)
    requires Ranked(slots, rank) && Objs(t) !! slots.Keys
    ensures Resolve(t, slots, rank, ctx) == Alpha(t, ctx)
    decreases t
  {
    match t
    case Var(_) =>
    case Num(_) =>
    case Prog(_) =>
    case Lam(x, body) =>
      assert slots - {x} == slots;
      ResolvePlain(body, slots, rank, [x] + ctx);
    case Pi(x, ty, body) =>
      assert slots - {x} == slots;
      ResolvePlain(ty, slots, rank, ctx);
      ResolvePlain(body, slots, rank, [x] + ctx);
    case Node(_, kids) => ResolvePlainAll(kids, slots, rank, ctx);
  }

  lemma {:induction false} ResolvePlainAll(ts: seq<Term>, slots: Slots, rank: Obj -> nat, ctx: seq<Obj>)
    requires Ranked(slots, rank) && ObjsAll(ts) !! slots.Keys
    ensures ResolveAll(ts, slots, rank, ctx) == AlphaAll(ts, ctx)
    decreases ts
  {
    if ts != [] {
      ResolvePlainAll(ts[..|ts| - 1], slots, rank, ctx);
      ResolvePlain(ts[|ts| - 1], slots, rank, ctx);
    }
  }

  lemma IndexOfAt(xs: seq<Obj>, i: nat)
    requires i < |xs| && Distinct(xs)
    ensures IndexOf(xs, xs[i]) == i
  {
    var j := IndexOf(xs, xs[i]);
    assert xs[j] == xs[i];
  }
}
