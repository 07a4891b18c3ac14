/** Definitional equality of LF terms without holes, definitions and redexes: two
    abstractions are compared by pointing the variable of the first to that of the second
    while their bodies are compared. */
module DefEq {
  import opened Collections
  import opened Terms

  /** Terms compared here: symbols, abstractions, products, `type`, `kind` and flat
      applications whose head is neither an abstraction nor an application. */
  predicate Simple(t: Term)
    decreases t
  {
    match t
    case Var(_) => true
    case Num(_) => false
    case Prog(_) => false
    case Lam(_, body) => Simple(body)
    case Pi(_, ty, body) => Simple(ty) && Simple(body)
    case Node(op, kids) =>
      match op
      case AppOp => |kids| > 0 && !kids[0].Lam? && !(kids[0].Node? && kids[0].op.AppOp?) && SimpleAll(kids)
      case TypeOp => kids == []
      case KindOp => kids == []
      case OtherOp(_) => false
  }

  predicate SimpleAll(ts: seq<Term>)
    decreases ts
  {
    ts == [] || (SimpleAll(ts[..|ts| - 1]) && Simple(ts[|ts| - 1]))
  }

  /** No binder object is bound again below itself, or below one of those in over. */
  predicate NoRebinding(t: Term, over: set<Obj>)
    decreases t
  {
    match t
    case Lam(x, body) => x !in over && NoRebinding(body, over + {x})
    case Pi(x, ty, body) => x !in over && NoRebinding(ty, over) && NoRebinding(body, over + {x})
    case Node(_, kids) => NoRebindingAll(kids, over)
    case _ => true
  }

  predicate NoRebindingAll(ts: seq<Term>, over: set<Obj>)
    decreases ts
  {
    ts == [] || (NoRebindingAll(ts[..|ts| - 1], over) && NoRebinding(ts[|ts| - 1], over))
  }

  /** Terms under the binders ctx1 and ctx2 whose binder objects are apart. */
  predicate Apart(t1: Term, ctx1: seq<Obj>, t2: Term, ctx2: seq<Obj>) {
    && |ctx1| == |ctx2| && Distinct(ctx2)
    && (Elements(ctx1) + Binders(t1)) !! (Elements(ctx2) + Objs(t2))
    && (Elements(ctx2) + Binders(t2)) !! (Elements(ctx1) + Objs(t1))
    && NoRebinding(t2, Elements(ctx2))
  }

  /** Slots of the variables passed point across; no other variable has a slot. */
  ghost predicate Linked(slots: Slots, t1: Term, ctx1: seq<Obj>, t2: Term, ctx2: seq<Obj>)
    requires |ctx1| == |ctx2|
  {
    && (forall s <- ctx1 :: s in slots && slots[s] == Var(ctx2[IndexOf(ctx1, s)]))
    && forall s <- slots :: s in Objs(t1) + Objs(t2) + Elements(ctx1) + Elements(ctx2) ==> s in ctx1
  }

  // ----- facts about readings -----

  lemma {:induction false} BindersAreObjs(t: Term)
    ensures Binders(t) <= Objs(t)
    decreases t
  {
    match t
    case Lam(_, body) => BindersAreObjs(body);
    case Pi(_, ty, body) =>
      BindersAreObjs(ty);
      BindersAreObjs(body);
    case Node(_, kids) => BindersAreObjsAll(kids);
    case _ =>
  }

  lemma {:induction false} BindersAreObjsAll(ts: seq<Term>)
    ensures BindersAll(ts) <= ObjsAll(ts)
    decreases ts
  {
    if ts != [] {
      BindersAreObjsAll(ts[..|ts| - 1]);
      BindersAreObjs(ts[|ts| - 1]);
    }
  }

  /** A term none of whose objects is bound reads the same under any binders. */
  lemma {:induction false} SameUnder(t: Term, ctx1: seq<Obj>, ctx2: seq<Obj>)
    requires Binders(t) == {} && Objs(t) !! Elements(ctx1) && Objs(t) !! Elements(ctx2)
    ensures Alpha(t, ctx1) == Alpha(t, ctx2)
    decreases t
  {
    match t
    case Var(s) => assert s in Objs(t);
    case Num(_) =>
    case Prog(_) =>
    case Lam(_, _) => assert false;
    case Pi(_, _, _) => assert false;
    case Node(_, kids) => SameUnderAll(kids, ctx1, ctx2);
  }

  lemma {:induction false} SameUnderAll(ts: seq<Term>, ctx1: seq<Obj>, ctx2: seq<Obj>)
    requires BindersAll(ts) == {} && ObjsAll(ts) !! Elements(ctx1) && ObjsAll(ts) !! Elements(ctx2)
    ensures AlphaAll(ts, ctx1) == AlphaAll(ts, ctx2)
    decreases ts
  {
    if ts != [] {
      SameUnderAll(ts[..|ts| - 1], ctx1, ctx2);
      SameUnder(ts[|ts| - 1], ctx1, ctx2);
    }
  }

  /** One object compared with itself: it cannot contain binders, being apart from itself. */
  lemma SameObject(t: Term, ctx1: seq<Obj>, ctx2: seq<Obj>)
    requires Apart(t, ctx1, t, ctx2)
    ensures Alpha(t, ctx1) == Alpha(t, ctx2)
  {
    BindersAreObjs(t);
    assert Binders(t) == {};
    SameUnder(t, ctx1, ctx2);
  }

  lemma {:induction false} AlphaAt(ts: seq<Term>, ctx: seq<Obj>, i: nat)
    requires i < |ts|
    ensures AlphaAll(ts, ctx)[i] == Alpha(ts[i], ctx)
    decreases ts
  {
    if i < |ts| - 1 {
      AlphaAt(ts[..|ts| - 1], ctx, i);
    }
  }

  lemma {:induction false} KidFacts(ts: seq<Term>, i: nat, over: set<Obj>)
    requires i < |ts|
    ensures Objs(ts[i]) <= ObjsAll(ts) && Binders(ts[i]) <= BindersAll(ts)
    ensures SimpleAll(ts) ==> Simple(ts[i])
    ensures NoRebindingAll(ts, over) ==> NoRebinding(ts[i], over)
    decreases ts
  {
    if i < |ts| - 1 {
      KidFacts(ts[..|ts| - 1], i, over);
    }
  }

  // ----- one step of the comparison -----

  /** Comparison of a symbol, after following its slot, with a term. */
  lemma SymbolCompared(slots: Slots, s: Obj, ctx1: seq<Obj>, t2: Term, ctx2: seq<Obj>)
    requires Apart(Var(s), ctx1, t2, ctx2) && Linked(slots, Var(s), ctx1, t2, ctx2)
    ensures Pointee(slots, s).Var? && Pointee(slots, s).s !in slots - {s} && (t2.Var? ==> t2.s !in slots)
    ensures t2 == Pointee(slots, s) <==> Alpha(Var(s), ctx1) == Alpha(t2, ctx2)
  {
    assert s in Objs(Var(s));
    assert s in slots <==> s in ctx1;
    if t2.Var? {
      assert t2.s in Objs(t2);
      assert t2.s !in Elements(ctx1);
    }
    if s in ctx1 {
      var i := IndexOf(ctx1, s);
      if t2.Var? && t2.s in ctx2 {
        var j := IndexOf(ctx2, t2.s);
      }
      assert ctx2[i] in ctx2;
      IndexOfAt(ctx2, i);
    } else {
      assert s in ctx2 ==> s in Elements(ctx2);
    }
  }

  lemma ElementsCons(x: Obj, xs: seq<Obj>)
    ensures Elements([x] + xs) == Elements(xs) + {x}
  {
  }

  /** Passing a pair of binders ... */
  lemma PassApart(t1: Term, ctx1: seq<Obj>, t2: Term, ctx2: seq<Obj>)
    requires Apart(t1, ctx1, t2, ctx2) && ((t1.Lam? && t2.Lam?) || (t1.Pi? && t2.Pi?))
    ensures Apart(t1.body, [t1.x] + ctx1, t2.body, [t2.x] + ctx2)
  {
    ElementsCons(t1.x, ctx1);
    ElementsCons(t2.x, ctx2);
    assert t1.x in Objs(t1) && t2.x in Objs(t2);
    assert t2.x !in Elements(ctx2);
  }

  /** ... of which the first is pointed to the second. */
  lemma PassLinked(slots: Slots, t1: Term, ctx1: seq<Obj>, t2: Term, ctx2: seq<Obj>)
    requires Apart(t1, ctx1, t2, ctx2) && Linked(slots, t1, ctx1, t2, ctx2)
    requires (t1.Lam? && t2.Lam?) || (t1.Pi? && t2.Pi?)
    ensures t2.x !in slots
    ensures Linked(slots[t1.x := Var(t2.x)], t1.body, [t1.x] + ctx1, t2.body, [t2.x] + ctx2)
  {
    var c1, c2, slots' := [t1.x] + ctx1, [t2.x] + ctx2, slots[t1.x := Var(t2.x)];
    assert t2.x !in ctx1 by { assert t2.x !in Elements(ctx1); }
    PassPointed(slots, t1.x, ctx1, t2.x, ctx2);
    ElementsCons(t1.x, ctx1);
    ElementsCons(t2.x, ctx2);
    assert Objs(t1.body) <= Objs(t1) && Objs(t2.body) <= Objs(t2) && t1.x in Objs(t1) && t2.x in Objs(t2);
    forall s | s in slots' && s in Objs(t1.body) + Objs(t2.body) + Elements(c1) + Elements(c2)
      ensures s in c1
    {
      if s != t1.x { assert s in ctx1; }
    }
  }

  lemma PassPointed(slots: Slots, x: Obj, ctx1: seq<Obj>, y: Obj, ctx2: seq<Obj>)
    requires |ctx1| == |ctx2| && forall s <- ctx1 :: s in slots && slots[s] == Var(ctx2[IndexOf(ctx1, s)])
    ensures var c1, c2, slots' := [x] + ctx1, [y] + ctx2, slots[x := Var(y)];
            forall s <- c1 :: s in slots' && slots'[s] == Var(c2[IndexOf(c1, s)])
  {
    var c1, c2, slots' := [x] + ctx1, [y] + ctx2, slots[x := Var(y)];
    forall s | s in c1
      ensures s in slots' && slots'[s] == Var(c2[IndexOf(c1, s)])
    {
      assert c1[1..] == ctx1;
      if s != x { assert s in ctx1; }
    }
  }

  /** The types of two products, and corresponding kids of two nodes, are compared under
      the same binders. */
  lemma SameLevel(slots: Slots, t1: Term, ctx1: seq<Obj>, t2: Term, ctx2: seq<Obj>, s1: Term, s2: Term)
    requires Apart(t1, ctx1, t2, ctx2) && Linked(slots, t1, ctx1, t2, ctx2)
    requires Objs(s1) <= Objs(t1) && Objs(s2) <= Objs(t2) && Binders(s1) <= Binders(t1) && Binders(s2) <= Binders(t2)
    requires NoRebinding(s2, Elements(ctx2))
    ensures Apart(s1, ctx1, s2, ctx2) && Linked(slots, s1, ctx1, s2, ctx2)
  {
  }

  class Comparer {
    var slots: Slots

    constructor (slots: Slots)
      ensures this.slots == slots
    {
      this.slots := slots;
    }

    /** Decides whether two terms read the same.  Terms that happen to be one object are
        equal at once; which terms are is up to how they were built. */
    method DefEq(t1: Term, t2: Term, ghost ctx1: seq<Obj>, ghost ctx2: seq<Obj>) returns (eq: bool)
      requires Simple(t1) && Simple(t2) && Apart(t1, ctx1, t2, ctx2) && Linked(slots, t1, ctx1, t2, ctx2)
      modifies this
      ensures slots == old(slots)
      ensures eq <==> Alpha(t1, ctx1) == Alpha(t2, ctx2)
      decreases t1, 1
    {
      var oneObject: bool := *;
      if oneObject && t1 == t2 {
        SameObject(t1, ctx1, ctx2);
        return true;
      }
      match t1
      case Var(s) =>
        SymbolCompared(slots, s, ctx1, t2, ctx2);
        eq := t2 == Pointee(slots, s);
      case Lam(_, _) =>
        if !t2.Lam? { return false; }
        eq := DefEqBodies(t1, t2, ctx1, ctx2);
      case Pi(_, ty, _) =>
        if !t2.Pi? { return false; }
        SameLevel(slots, t1, ctx1, t2, ctx2, ty, t2.ty);
        eq := DefEq(ty, t2.ty, ctx1, ctx2);
        if !eq { return false; }
        eq := DefEqBodies(t1, t2, ctx1, ctx2);
      case Node(op, _) =>
        if !t2.Node? || op != t2.op { return false; }
        if op.AppOp? {
          eq := DefEqKids(t1, t2, ctx1, ctx2);
        } else {
          eq := true;
        }
    }

    method DefEqBodies(t1: Term, t2: Term, ghost ctx1: seq<Obj>, ghost ctx2: seq<Obj>) returns (eq: bool)
      requires (t1.Lam? && t2.Lam?) || (t1.Pi? && t2.Pi?)
      requires Simple(t1) && Simple(t2) && Apart(t1, ctx1, t2, ctx2) && Linked(slots, t1, ctx1, t2, ctx2)
      modifies this
      ensures slots == old(slots)
      ensures eq <==> Alpha(t1.body, [t1.x] + ctx1) == Alpha(t2.body, [t2.x] + ctx2)
      decreases t1, 0
    {
      PassApart(t1, ctx1, t2, ctx2);
      PassLinked(slots, t1, ctx1, t2, ctx2);
      var v1 := t1.x;
      var v2 := Pointee(slots, t2.x);
      var prev := Peek(slots, v1);
      ResetUndoes(slots, v1, v2);
      slots := slots[v1 := v2];
      eq := DefEq(t1.body, t2.body, [v1] + ctx1, [t2.x] + ctx2);
      slots := Reset(slots, v1, prev);
    }

    method DefEqKids(t1: Term, t2: Term, ghost ctx1: seq<Obj>, ghost ctx2: seq<Obj>) returns (eq: bool)
      requires t1.Node? && t2.Node? && t1.op.AppOp? && t2.op.AppOp?
      requires Simple(t1) && Simple(t2) && Apart(t1, ctx1, t2, ctx2) && Linked(slots, t1, ctx1, t2, ctx2)
      modifies this
      ensures slots == old(slots)
      ensures eq <==> AlphaAll(t1.kids, ctx1) == AlphaAll(t2.kids, ctx2)
      decreases t1, 0
    {
      ghost var a1, a2 := AlphaAll(t1.kids, ctx1), AlphaAll(t2.kids, ctx2);
      for i := 0 to |t1.kids|
        invariant slots == old(slots) && i <= |t2.kids|
        invariant forall j :: 0 <= j < i ==> a1[j] == a2[j]
      {
        if i >= |t2.kids| { return false; }
        KidFacts(t1.kids, i, Elements(ctx2));
        KidFacts(t2.kids, i, Elements(ctx2));
        SameLevel(slots, t1, ctx1, t2, ctx2, t1.kids[i], t2.kids[i]);
        AlphaAt(t1.kids, ctx1, i);
        AlphaAt(t2.kids, ctx2, i);
        var same := DefEq(t1.kids[i], t2.kids[i], ctx1, ctx2);
        if !same { return false; }
      }
      eq := |t1.kids| == |t2.kids|;
    }
  }
}
