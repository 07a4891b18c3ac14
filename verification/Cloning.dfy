/** Copying LF terms in place: while the body of an abstraction is copied, the slot of its
    variable points to the variable of the copy. */
module Cloning {
  import opened Collections
  import opened Terms

  /** The setting of a copy in progress.  Objects from base on are new: ctx are the binders
      passed so far, innermost first, and news their copies; g are the slots as they were,
      without those of ctx. */
  datatype Copying = Copying(g: Slots, rank: Obj -> nat, base: nat, ctx: seq<Obj>, news: seq<Obj>) {

    ghost predicate Valid(slots: Slots, next: nat) {
      && base <= next && |ctx| == |news| && Ranked(g, rank)
      && (forall o: Obj :: rank(o) == 0 <==> o >= base)
      && (forall s <- g :: s < base && Old(g[s]))
      && (forall i :: 0 <= i < |ctx| ==> ctx[i] < base)
      && (forall i :: 0 <= i < |news| ==> base <= news[i] < next)
      && Distinct(news)
      && forall s: Obj :: SlotFits(slots, s)
    }

    /** A binder passed points to its copy; every other slot is as it was. */
    ghost predicate SlotFits(slots: Slots, s: Obj)
      requires |ctx| == |news|
    {
      if s in ctx then s in slots && slots[s] == Var(news[IndexOf(ctx, s)]) && s !in g
      else (s in slots <==> s in g) && (s in g ==> slots[s] == g[s])
    }

    /** All objects of t existed before. */
    predicate Old(t: Term) {
      forall o <- Objs(t) :: o < base
    }

    predicate IsNew(t: Term) {
      t.Var? && t.s in news
    }

    /** Under one more binder, x, copied to n. */
    function Under(x: Obj, n: Obj): Copying {
      Copying(g - {x}, rank, base, [x] + ctx, [n] + news)
    }
  }

  /** c is a copy of t with binders of its own, allocated between lo and hi. */
  ghost predicate IsCopy(k: Copying, t: Term, c: Term, lo: nat, hi: nat)
    requires Ranked(k.g, k.rank)
  {
    && Alpha(c, k.news) == Resolve(t, k.g, k.rank, k.ctx)
    && UniqueBinders(c) && forall o <- Binders(c) :: lo <= o < hi
  }

  ghost predicate AreCopies(k: Copying, ts: seq<Term>, cs: seq<Term>, lo: nat, hi: nat)
    requires Ranked(k.g, k.rank)
  {
    && AlphaAll(cs, k.news) == ResolveAll(ts, k.g, k.rank, k.ctx)
    && UniqueAll(cs) && forall o <- BindersAll(cs) :: lo <= o < hi
  }

  lemma IndexUnder(ctx: seq<Obj>, x: Obj, s: Obj)
    ensures s == x ==> IndexOf([x] + ctx, s) == 0
    ensures s != x && s in ctx ==> IndexOf([x] + ctx, s) == 1 + IndexOf(ctx, s)
  {
    assert ([x] + ctx)[1..] == ctx;
  }

  lemma EnterBinder(k: Copying, slots: Slots, next: nat, x: Obj, n: Obj)
    requires k.Valid(slots, next) && x < k.base && k.base <= n < next && n !in k.news
    ensures k.Under(x, n).Valid(slots[x := Var(n)], next)
  {
    var k', slots' := k.Under(x, n), slots[x := Var(n)];
    forall s: Obj
      ensures k'.SlotFits(slots', s)
    {
      assert k.SlotFits(slots, s);
      IndexUnder(k.ctx, x, s);
    }
    assert forall i :: 0 < i < |k'.news| ==> k'.news[i] == k.news[i - 1];
  }

  lemma {:induction false} SlotOfVar(k: Copying, slots: Slots, next: nat, s: Obj)
    requires k.Valid(slots, next) && s < k.base && s in slots
    ensures k.IsNew(slots[s]) || k.Old(slots[s])
    ensures Height(slots[s], k.rank) < k.rank(s)
    ensures s in k.ctx ==> k.IsNew(slots[s]) && Alpha(slots[s], k.news) == Bound(IndexOf(k.ctx, s))
    ensures s !in k.ctx ==> k.Old(slots[s]) && !k.IsNew(slots[s]) && s in k.g && slots[s] == k.g[s]
  {
    assert k.SlotFits(slots, s);
    if s in k.ctx {
      var i := IndexOf(k.ctx, s);
      assert slots[s] == Var(k.news[i]);
      IndexOfAt(k.news, i);
    } else if k.IsNew(slots[s]) {
      assert slots[s].s in Objs(slots[s]);
    }
  }

  /** Variables without a slot, or with a program in it, are their own copies. */
  lemma UnslottedCopy(k: Copying, slots: Slots, next: nat, s: Obj, lo: nat, hi: nat)
    requires k.Valid(slots, next) && (s in slots ==> slots[s].Prog?) && s < k.base
    ensures IsCopy(k, Var(s), Var(s), lo, hi)
  {
    assert k.SlotFits(slots, s);
  }

  lemma NewUnslotted(k: Copying, slots: Slots, next: nat, t: Term)
    requires k.Valid(slots, next) && k.IsNew(t)
    ensures t.s !in slots
  {
    assert k.SlotFits(slots, t.s);
  }

  lemma OldNotNew(k: Copying, slots: Slots, next: nat, t: Term)
    requires k.Valid(slots, next) && k.Old(t)
    ensures !k.IsNew(t)
    ensures t.Var? ==> t.s < k.base
  {
    if t.Var? {
      assert t.s in Objs(t);
    }
  }

  lemma LamCopy(k: Copying, t: Term, n: Obj, c: Term, lo: nat, hi: nat)
    requires Ranked(k.g, k.rank) && t.Lam? && lo <= n < hi
    requires Ranked(k.g - {t.x}, k.rank) && IsCopy(k.Under(t.x, n), t.body, c, n + 1, hi)
    ensures IsCopy(k, t, Lam(n, c), lo, hi)
  {
  }

  lemma PiCopy(k: Copying, t: Term, n: Obj, c: Term, c': Term, lo: nat, mid: nat, hi: nat)
    requires Ranked(k.g, k.rank) && t.Pi? && lo <= n < mid <= hi && IsCopy(k, t.ty, c, n + 1, mid)
    requires Ranked(k.g - {t.x}, k.rank) && IsCopy(k.Under(t.x, n), t.body, c', mid, hi)
    ensures IsCopy(k, t, Pi(n, c, c'), lo, hi)
  {
  }

  lemma {:induction false} OldParts(k: Copying, t: Term)
    requires k.Old(t)
    ensures t.Lam? ==> t.x < k.base && k.Old(t.body)
    ensures t.Pi? ==> t.x < k.base && k.Old(t.ty) && k.Old(t.body)
    ensures t.Node? ==>
              forall i :: 0 <= i < |t.kids| ==> k.Old(t.kids[i]) && Height(t.kids[i], k.rank) <= Height(t, k.rank)
  {
    if t.Lam? {
      assert t.x in Objs(t) && Objs(t.body) <= Objs(t);
    } else if t.Pi? {
      assert t.x in Objs(t) && Objs(t.ty) <= Objs(t) && Objs(t.body) <= Objs(t);
    } else if t.Node? {
      forall i | 0 <= i < |t.kids|
        ensures k.Old(t.kids[i]) && Height(t.kids[i], k.rank) <= Height(t, k.rank)
      {
        PartOfAll(t.kids, i, k.rank);
        assert Objs(t.kids[i]) <= Objs(t);
      }
    }
  }

  lemma {:induction false} PartOfAll(ts: seq<Term>, i: nat, rank: Obj -> nat)
    requires i < |ts|
    ensures Objs(ts[i]) <= ObjsAll(ts) && Height(ts[i], rank) <= HeightAll(ts, rank)
    decreases ts
  {
    if i < |ts| - 1 {
      PartOfAll(ts[..|ts| - 1], i, rank);
    }
  }

  class TermStore {
    var slots: Slots
    var next: Obj

    constructor ()
      ensures slots == map[] && next == 0
    {
      slots, next := map[], 0;
    }

    /** All objects that terms and slots mention exist. */
    ghost predicate Allocated(t: Term)
      reads this
    {
      (forall o <- Objs(t) :: o < next) && forall s <- slots :: s < next && forall o <- Objs(slots[s]) :: o < next
    }

    /** Copies a term for any acyclic slots. */
    method Clone(t: Term, ghost rank: Obj -> nat) returns (c: Term)
      requires Allocated(t) && Ranked(slots, rank)
      modifies this
      ensures slots == old(slots) && next >= old(next)
      ensures Alpha(c, []) == Resolve(t, slots, rank, [])
      ensures Objs(t) !! slots.Keys ==> Alpha(c, []) == Alpha(t, [])
      ensures UniqueBinders(c) && forall o <- Binders(c) :: old(next) <= o < next
    {
      ghost var rank' := Bumped(rank, next);
      BumpedRanked(slots, rank, next);
      ghost var k := Copying(slots, rank', next, [], []);
      assert forall s: Obj :: k.SlotFits(slots, s);
      c := CloneIn(t, k);
      RankIrrelevant(t, slots, rank, rank', []);
      if Objs(t) !! slots.Keys {
        ResolvePlain(t, slots, rank, []);
      }
    }

    /** Copies t: the copy reads, without slots, as t does with slots followed; its binders
        are new objects, each used once; every slot is as found. */
    method CloneIn(t: Term, ghost k: Copying) returns (c: Term)
      requires k.Valid(slots, next) && (k.IsNew(t) || k.Old(t))
      modifies this
      ensures slots == old(slots) && next >= old(next) && k.Valid(slots, next)
      ensures if k.IsNew(t) then c == t else IsCopy(k, t, c, old(next), next)
      decreases Height(t, k.rank), t, 1
    {
      if k.IsNew(t) {
        NewUnslotted(k, slots, next, t);
      } else {
        OldNotNew(k, slots, next, t);
        OldParts(k, t);
      }
      match t
      case Var(s) =>
        if s in slots && !slots[s].Prog? {
          SlotOfVar(k, slots, next, s);
          c := CloneIn(slots[s], k);
        } else {
          if !k.IsNew(t) { UnslottedCopy(k, slots, next, s, next, next); }
          c := t;
        }
      case Num(_) => c := t;
      case Prog(_) => c := t;
      case Lam(x, _) =>
        var newvar := next;
        next := next + 1;
        var bod := CloneBody(t, newvar, k);
        c := Lam(newvar, bod);
        LamCopy(k, t, newvar, bod, old(next), next);
      case Pi(x, ty, _) =>
        var newvar := next;
        next := next + 1;
        OldNotNew(k, slots, next, ty);
        var ty' := CloneIn(ty, k);
        ghost var mid := next;
        var bod := CloneBody(t, newvar, k);
        c := Pi(newvar, ty', bod);
        PiCopy(k, t, newvar, ty', bod, old(next), mid, next);
      case Node(op, kids) =>
        var kids' := CloneAll(t, k);
        c := Node(op, kids');
    }

    /** Copies the body of an abstraction while its variable points to newvar. */
    method CloneBody(t: Term, newvar: Obj, ghost k: Copying) returns (c: Term)
      requires (t.Lam? || t.Pi?) && k.Valid(slots, next) && k.Old(t)
      requires k.base <= newvar < next && newvar !in k.news
      modifies this
      ensures slots == old(slots) && next >= old(next) && k.Valid(slots, next)
      ensures Ranked(k.g - {t.x}, k.rank) && IsCopy(k.Under(t.x, newvar), t.body, c, old(next), next)
      decreases Height(t, k.rank), t, 0
    {
      OldParts(k, t);
      EnterBinder(k, slots, next, t.x, newvar);
      ghost var k' := k.Under(t.x, newvar);
      var prev := Peek(slots, t.x);
      ResetUndoes(slots, t.x, Var(newvar));
      slots := slots[t.x := Var(newvar)];
      OldNotNew(k', slots, next, t.body);
      c := CloneIn(t.body, k');
      slots := Reset(slots, t.x, prev);
    }

    method CloneAll(t: Term, ghost k: Copying) returns (cs: seq<Term>)
      requires t.Node? && k.Valid(slots, next) && k.Old(t)
      modifies this
      ensures slots == old(slots) && next >= old(next) && k.Valid(slots, next)
      ensures AreCopies(k, t.kids, cs, old(next), next)
      decreases Height(t, k.rank), t, 0
    {
      OldParts(k, t);
      cs := [];
      for i := 0 to |t.kids|
        invariant slots == old(slots) && next >= old(next) && k.Valid(slots, next)
        invariant AreCopies(k, t.kids[..i], cs, old(next), next)
      {
        ghost var mid := next;
        OldNotNew(k, slots, next, t.kids[i]);
        var c := CloneIn(t.kids[i], k);
        OneMoreCopy(k, t.kids[..i], cs, t.kids[i], c, old(next), mid, next);
        assert t.kids[..i] + [t.kids[i]] == t.kids[..i + 1];
        cs := cs + [c];
      }
      assert t.kids[..|t.kids|] == t.kids;
    }
  }

  lemma OneMoreCopy(k: Copying, ts: seq<Term>, cs: seq<Term>, t: Term, c: Term, lo: nat, mid: nat, hi: nat)
    requires Ranked(k.g, k.rank) && lo <= mid <= hi && AreCopies(k, ts, cs, lo, mid) && IsCopy(k, t, c, mid, hi)
    ensures AreCopies(k, ts + [t], cs + [c], lo, hi)
  {
    assert (ts + [t])[..|ts|] == ts && (cs + [c])[..|cs|] == cs;
  }

  /** Ranks that are positive exactly for the objects below base. */
  ghost function Bumped(rank: Obj -> nat, base: nat): Obj -> nat {
    (o: Obj) => if o < base then rank(o) + 1 else 0
  }

  lemma {:induction false} BumpedHeight(t: Term, rank: Obj -> nat, base: nat)
    ensures Height(t, Bumped(rank, base)) <= Height(t, rank) + 1
    decreases t
  {
    match t
    case Var(_) =>
    case Num(_) =>
    case Prog(_) =>
    case Lam(x, body) => BumpedHeight(body, rank, base);
    case Pi(x, ty, body) =>
      BumpedHeight(ty, rank, base);
      BumpedHeight(body, rank, base);
    case Node(_, kids) => BumpedHeightAll(kids, rank, base);
  }

  lemma {:induction false} BumpedHeightAll(ts: seq<Term>, rank: Obj -> nat, base: nat)
    ensures HeightAll(ts, Bumped(rank, base)) <= HeightAll(ts, rank) + 1
    decreases ts
  {
    if ts != [] {
      BumpedHeightAll(ts[..|ts| - 1], rank, base);
      BumpedHeight(ts[|ts| - 1], rank, base);
    }
  }

  lemma BumpedRanked(slots: Slots, rank: Obj -> nat, base: nat)
    requires Ranked(slots, rank) && forall s <- slots :: s < base
    ensures Ranked(slots, Bumped(rank, base))
  {
    forall s | s in slots
      ensures Height(slots[s], Bumped(rank, base)) < Bumped(rank, base)(s)
    {
      BumpedHeight(slots[s], rank, base);
    }
  }

  /** Any ranking that shows the slots acyclic gives the same reading. */
  lemma {:induction false} RankIrrelevant(t: Term, slots: Slots, r1: Obj -> nat, r2: Obj -> nat, ctx: seq<Obj>)
    requires Ranked(slots, r1) && Ranked(slots, r2)
    ensures Resolve(t, slots, r1, ctx) == Resolve(t, slots, r2, ctx)
    decreases Height(t, r1), t
  {
    match t
    case Var(s) =>
      if s !in ctx && s in slots && !slots[s].Prog? {
        RankIrrelevant(slots[s], slots, r1, r2, ctx);
      }
    case Num(_) =>
    case Prog(_) =>
    case Lam(x, body) => RankIrrelevant(body, slots - {x}, r1, r2, [x] + ctx);
    case Pi(x, ty, body) =>
      RankIrrelevant(ty, slots, r1, r2, ctx);
      RankIrrelevant(body, slots - {x}, r1, r2, [x] + ctx);
    case Node(_, kids) => RankIrrelevantAll(kids, slots, r1, r2, ctx);
  }

  lemma {:induction false} RankIrrelevantAll(ts: seq<Term>, slots: Slots, r1: Obj -> nat, r2: Obj -> nat, ctx: seq<Obj>)
    requires Ranked(slots, r1) && Ranked(slots, r2)
    ensures ResolveAll(ts, slots, r1, ctx) == ResolveAll(ts, slots, r2, ctx)
    decreases HeightAll(ts, r1), ts
  {
    if ts != [] {
      RankIrrelevantAll(ts[..|ts| - 1], slots, r1, r2, ctx);
      RankIrrelevant(ts[|ts| - 1], slots, r1, r2, ctx);
    }
  }
}
