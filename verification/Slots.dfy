/** Tables that are updated in place for the duration of a scope and then restored: the
    `val` slots of symbols while code runs, and the symbol table while code is checked.
    Several symbols are bound one after the other, remembering what each slot held, and
    restored in the same order.  Each variable is an object with a slot of its own, so slots
    are never bound twice; the symbol table is keyed by names, which a pattern may repeat. */
module Slots {
  import opened Marks
  import opened Options
  import opened Collections

  function Get<T>(m: map<Sym, T>, s: Sym): Option<T> {
    if s in m then Some(m[s]) else None
  }

  function Put<T>(m: map<Sym, T>, s: Sym, o: Option<T>): map<Sym, T> {
    if o.Some? then m[s := o.value] else m - {s}
  }

  lemma PutBack<T>(m: map<Sym, T>, x: Sym, v: T)
    ensures Put(m[x := v], x, Get(m, x)) == m
  {
  }

  /** Binds the first n symbols of xs, in order. */
  function Bind<T>(m: map<Sym, T>, xs: seq<Sym>, vs: seq<T>, n: nat): map<Sym, T>
    requires n <= |xs| && n <= |vs|
  {
    if n == 0 then m else Bind(m, xs, vs, n - 1)[xs[n - 1] := vs[n - 1]]
  }

  /** What the slots held when each was about to be bound. */
  function Saved<T>(m: map<Sym, T>, xs: seq<Sym>, vs: seq<T>, n: nat): (olds: seq<Option<T>>)
    requires n <= |xs| && n <= |vs|
    ensures |olds| == n
  {
    if n == 0 then []
    else Saved(m, xs, vs, n - 1) + [Get(Bind(m, xs, vs, n - 1), xs[n - 1])]
  }

  /** Puts the first n remembered contents back, in order. */
  function Restore<T>(m: map<Sym, T>, xs: seq<Sym>, olds: seq<Option<T>>, n: nat): map<Sym, T>
    requires n <= |xs| && n <= |olds|
  {
    if n == 0 then m else Put(Restore(m, xs, olds, n - 1), xs[n - 1], olds[n - 1])
  }

  lemma {:induction false} BindGet<T>(m: map<Sym, T>, xs: seq<Sym>, vs: seq<T>, n: nat, s: Sym)
    requires n <= |xs| && n <= |vs|
    ensures s !in xs[..n] ==> Get(Bind(m, xs, vs, n), s) == Get(m, s)
    ensures s in xs[..n] ==> s in Bind(m, xs, vs, n)
    ensures Distinct(xs) ==> forall i :: 0 <= i < n && xs[i] == s ==> Get(Bind(m, xs, vs, n), s) == Some(vs[i])
    decreases n
  {
    if n > 0 {
      BindGet(m, xs, vs, n - 1, s);
      assert xs[..n] == xs[..n - 1] + [xs[n - 1]];
    }
  }

  /** Bindings depend on the first n values only. */
  lemma {:induction false} BindPrefix<T>(m: map<Sym, T>, xs: seq<Sym>, vs: seq<T>, ws: seq<T>, n: nat)
    requires n <= |xs| && n <= |vs| <= |ws| && vs == ws[..|vs|]
    ensures Bind(m, xs, vs, n) == Bind(m, xs, ws, n)
    ensures Saved(m, xs, vs, n) == Saved(m, xs, ws, n)
    decreases n
  {
    if n > 0 {
      BindPrefix(m, xs, vs, ws, n - 1);
    }
  }

  lemma {:induction false} SavedAt<T>(m: map<Sym, T>, xs: seq<Sym>, vs: seq<T>, n: nat, i: nat)
    requires i < n <= |xs| && n <= |vs|
    ensures Saved(m, xs, vs, n)[i] == Get(Bind(m, xs, vs, i), xs[i])
    decreases n
  {
    if i < n - 1 {
      SavedAt(m, xs, vs, n - 1, i);
    }
  }

  lemma {:induction false} RestoreGet<T>(m: map<Sym, T>, xs: seq<Sym>, olds: seq<Option<T>>, n: nat, s: Sym)
    requires n <= |xs| && n <= |olds|
    ensures s !in xs[..n] ==> Get(Restore(m, xs, olds, n), s) == Get(m, s)
    ensures n > 0 && xs[n - 1] == s ==> Get(Restore(m, xs, olds, n), s) == olds[n - 1]
    ensures Distinct(xs) ==> forall i :: 0 <= i < n && xs[i] == s ==> Get(Restore(m, xs, olds, n), s) == olds[i]
    decreases n
  {
    if n > 0 {
      RestoreGet(m, xs, olds, n - 1, s);
      assert xs[..n] == xs[..n - 1] + [xs[n - 1]];
    }
  }

  lemma SameSlots<T>(m: map<Sym, T>, m': map<Sym, T>)
    requires forall s: Sym :: Get(m, s) == Get(m', s)
    ensures m == m'
  {
    forall s: Sym
      ensures s in m <==> s in m'
      ensures s in m ==> s in m' && m[s] == m'[s]
    {
      assert Get(m, s) == Get(m', s);
    }
  }

  /** Restoring in binding order undoes the bindings when the symbols are distinct. */
  lemma RestoreUndoes<T>(m: map<Sym, T>, xs: seq<Sym>, vs: seq<T>, n: nat)
    requires n <= |xs| && n <= |vs| && Distinct(xs)
    ensures Restore(Bind(m, xs, vs, n), xs, Saved(m, xs, vs, n), n) == m
  {
    var bound, olds := Bind(m, xs, vs, n), Saved(m, xs, vs, n);
    var back := Restore(bound, xs, olds, n);
    forall s: Sym
      ensures Get(back, s) == Get(m, s)
    {
      RestoreGet(bound, xs, olds, n, s);
      BindGet(m, xs, vs, n, s);
      if s in xs[..n] {
        var i :| 0 <= i < n && xs[i] == s;
        SavedAt(m, xs, vs, n, i);
        BindGet(m, xs, vs, i, s);
      }
    }
    SameSlots(back, m);
  }

  /** ... and only then: with a repeated symbol some table is left changed. */
  lemma RestoreNeedsDistinct<T(!new)>(xs: seq<Sym>, a: T)
    ensures Distinct(xs) <==>
            forall m: map<Sym, T>, vs: seq<T> :: |vs| == |xs| ==>
              Restore(Bind(m, xs, vs, |xs|), xs, Saved(m, xs, vs, |xs|), |xs|) == m
  {
    if Distinct(xs) {
      forall m: map<Sym, T>, vs: seq<T> | |vs| == |xs|
        ensures Restore(Bind(m, xs, vs, |xs|), xs, Saved(m, xs, vs, |xs|), |xs|) == m
      {
        RestoreUndoes(m, xs, vs, |xs|);
      }
    } else {
      var m, vs := RepeatedNotRestored(xs, a);
    }
  }

  lemma RepeatedNotRestored<T>(xs: seq<Sym>, a: T) returns (m: map<Sym, T>, vs: seq<T>)
    requires !Distinct(xs)
    ensures |vs| == |xs|
    ensures Restore(Bind(m, xs, vs, |xs|), xs, Saved(m, xs, vs, |xs|), |xs|) != m
  {
    m, vs := map[], seq(|xs|, _ => a);
    var i, j :| 0 <= i < j < |xs| && xs[i] == xs[j];
    KeepsBound(m, xs, vs, |xs|, |xs|, i, j);
  }

  /** Each restoration of a repeated symbol but the first puts back one of the new values. */
  lemma {:induction false} KeepsBound<T>(m: map<Sym, T>, xs: seq<Sym>, vs: seq<T>, n: nat, k: nat, i: nat, j: nat)
    requires i < j < k <= n == |xs| == |vs| && xs[i] == xs[j]
    ensures xs[j] in Restore(Bind(m, xs, vs, n), xs, Saved(m, xs, vs, n), k)
    decreases k
  {
    var bound, olds := Bind(m, xs, vs, n), Saved(m, xs, vs, n);
    if xs[k - 1] == xs[j] {
      SavedAt(m, xs, vs, n, k - 1);
      BindGet(m, xs, vs, k - 1, xs[j]);
      assert xs[i] in xs[..k - 1];
      RestoreGet(bound, xs, olds, k, xs[j]);
    } else {
      KeepsBound(m, xs, vs, n, k - 1, i, j);
    }
  }

  /** The last two of the first n places that have a symbol. */
  predicate LastTwo(xs: seq<Sym>, n: nat, i: nat, j: nat)
    requires n <= |xs|
  {
    i < j < n && xs[i] == xs[j] && forall k :: i < k < n && k != j ==> xs[k] != xs[i]
  }

  lemma {:induction false} BindLast<T>(m: map<Sym, T>, xs: seq<Sym>, vs: seq<T>, n: nat, i: nat)
    requires i < n <= |xs| && n <= |vs| && forall k :: i < k < n ==> xs[k] != xs[i]
    ensures Get(Bind(m, xs, vs, n), xs[i]) == Some(vs[i])
    decreases n
  {
    if i < n - 1 {
      BindLast(m, xs, vs, n - 1, i);
    }
  }

  lemma {:induction false} RestoreLast<T>(m: map<Sym, T>, xs: seq<Sym>, olds: seq<Option<T>>, n: nat, j: nat)
    requires j < n <= |xs| && n <= |olds| && forall k :: j < k < n ==> xs[k] != xs[j]
    ensures Get(Restore(m, xs, olds, n), xs[j]) == olds[j]
    decreases n
  {
    if j < n - 1 {
      RestoreLast(m, xs, olds, n - 1, j);
    }
  }

  /** The last place before n that has a symbol. */
  lemma {:induction false} LastPlace(xs: seq<Sym>, n: nat, s: Sym) returns (j: nat)
    requires n <= |xs| && s in xs[..n]
    ensures j < n && xs[j] == s && forall k :: j < k < n ==> xs[k] != s
    decreases n
  {
    if xs[n - 1] == s {
      j := n - 1;
    } else {
      assert xs[..n] == xs[..n - 1] + [xs[n - 1]];
      j := LastPlace(xs, n - 1, s);
    }
  }

  /** Restoring in the order of binding gives a table back exactly if each repeated symbol
      already had the value that it is given at its last place but one. */
  lemma RestoreExact<T>(m: map<Sym, T>, xs: seq<Sym>, vs: seq<T>, n: nat)
    requires n <= |xs| && n <= |vs|
    ensures Restore(Bind(m, xs, vs, n), xs, Saved(m, xs, vs, n), n) == m <==>
            forall i: nat, j: nat :: LastTwo(xs, n, i, j) ==> Get(m, xs[i]) == Some(vs[i])
  {
    var bound, olds := Bind(m, xs, vs, n), Saved(m, xs, vs, n);
    var back := Restore(bound, xs, olds, n);
    forall i: nat, j: nat | LastTwo(xs, n, i, j)
      ensures Get(back, xs[i]) == Some(vs[i])
    {
      RestoreLast(bound, xs, olds, n, j);
      SavedAt(m, xs, vs, n, j);
      BindLast(m, xs, vs, j, i);
    }
    if forall i: nat, j: nat :: LastTwo(xs, n, i, j) ==> Get(m, xs[i]) == Some(vs[i]) {
      forall s: Sym
        ensures Get(back, s) == Get(m, s)
      {
        RestoredAt(m, xs, vs, n, s);
      }
      SameSlots(back, m);
    }
  }

  lemma RestoredAt<T>(m: map<Sym, T>, xs: seq<Sym>, vs: seq<T>, n: nat, s: Sym)
    requires n <= |xs| && n <= |vs|
    requires forall i: nat, j: nat :: LastTwo(xs, n, i, j) ==> Get(m, xs[i]) == Some(vs[i])
    ensures Get(Restore(Bind(m, xs, vs, n), xs, Saved(m, xs, vs, n), n), s) == Get(m, s)
  {
    var bound, olds := Bind(m, xs, vs, n), Saved(m, xs, vs, n);
    if s in xs[..n] {
      var j := LastPlace(xs, n, s);
      RestoreLast(bound, xs, olds, n, j);
      SavedAt(m, xs, vs, n, j);
      if s in xs[..j] {
        var i := LastPlace(xs, j, s);
        BindLast(m, xs, vs, j, i);
        assert LastTwo(xs, n, i, j);
      } else {
        BindGet(m, xs, vs, j, s);
      }
    } else {
      RestoreGet(bound, xs, olds, n, s);
      BindGet(m, xs, vs, n, s);
    }
  }
}
