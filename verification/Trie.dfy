/** The symbol table: a trie that keeps a key at the first free node on its path and pushes
    it down when another key needs to pass. */
module Trie {
  import opened Options
  import opened Collections
  import S = Slots

  type Key = s: string | forall i :: 0 <= i < |s| ==> 0 < s[i] as int < 128

  /** The value of a key, with a default for keys that have none. */
  function At<D>(m: map<string, D>, k: string, blank: D): D {
    if k in m then m[k] else blank
  }

  class Trie<D(0)> {
    const blank: D
    var str: Option<Key>
    var d: D
    var usingNext: bool
    var next: seq<Trie?<D>>

    ghost var Repr: set<object>
    /** What is stored below this node. */
    ghost var below: map<string, D>
    /** No key stored from this node on is longer. */
    ghost var depth: nat

    ghost predicate Valid()
      reads this, Repr
      ensures Valid() ==> this in Repr
      decreases Repr, 1
    {
      && Linked()
      && (usingNext <==> next != [])
      && (str.None? ==> d == blank)
      && (str.Some? ==> |str.value| <= depth && (str.value != "" ==> next == []))
    }

    /** The children are tries of their own that hold what is below. */
    ghost predicate Linked()
      reads this, Repr
      ensures Linked() ==> this in Repr
      decreases Repr, 0
    {
      && this in Repr
      && (forall c :: 0 <= c < |next| && next[c] != null ==> ChildValid(next[c]))
      && (forall b, c :: 0 <= b < |next| && 0 <= c < |next| && b != c && next[b] != null && next[c] != null ==>
            next[b].Repr !! next[c].Repr)
      && forall k: string :: BelowFits(k)
    }

    ghost predicate ChildValid(n: Trie<D>)
      reads this, Repr
      requires this in Repr
      decreases Repr, 0, 0
    {
      n in Repr && n.Repr <= Repr && this !in n.Repr && n.blank == blank && n.depth < depth && n.Valid()
    }

    ghost predicate HasChild(k: string)
      reads this
    {
      k != "" && k[0] as int < |next| && next[k[0] as int] != null
    }

    ghost predicate BelowFits(k: string)
      reads this, Repr
    {
      if HasChild(k) && next[k[0] as int] in Repr then
        var m := next[k[0] as int].Contents();
        (k in below <==> k[1..] in m) && (k in below ==> below[k] == m[k[1..]])
      else k !in below
    }

    ghost function Contents(): map<string, D>
      reads this
    {
      if str.Some? then below[str.value := d] else below
    }

    constructor (blank: D)
      ensures Valid() && fresh(Repr) && this.blank == blank && Contents() == map[] && depth == 0
    {
      this.blank, str, d, usingNext, next := blank, None, blank, false, [];
      Repr, below, depth := {this}, map[], 0;
    }

    /** The value stored under s, or the default value. */
    method Get(s: Key) returns (r: D)
      requires Valid()
      ensures r == At(Contents(), s, blank)
      decreases |s|, 1
    {
      if s == "" && (str.None? || str.value == "") {
        assert BelowFits(s);
        return d;
      }
      if str == Some(s) {
        return d;
      }
      if usingNext {
        r := GetNext(s);
      } else {
        assert BelowFits(s);
        r := blank;
      }
    }

    method GetNext(s: Key) returns (r: D)
      requires Valid() && s != ""
      ensures r == At(below, s, blank)
      decreases |s|, 0
    {
      assert BelowFits(s);
      var c := s[0] as int;
      if c >= |next| {
        return blank;
      }
      var n := next[c];
      if n == null {
        return blank;
      }
      assert ChildValid(n);
      r := n.Get(s[1..]);
    }

    /** Stores x under s and returns what was stored there before. */
    method Insert(s: Key, x: D) returns (r: D)
      requires Valid()
      modifies Repr
      ensures Valid() && fresh(Repr - old(Repr))
      ensures Contents() == old(Contents())[s := x]
      ensures r == At(old(Contents()), s, blank)
      ensures depth <= Max(old(depth), |s|)
      decreases Max(|s|, depth), 1
    {
      if s == "" {
        if str.Some? {
          if str.value == "" {
            r := d;
            d := x;
            KeptLinked();
            return;
          }
          var _ := InsertNext(str.value, d);
        }
        label pushed:
        str, d := Some(""), x;
        KeptLinked@pushed();
        assert BelowFits("");
        return blank;
      }
      if str.Some? {
        if str.value != "" {
          var _ := InsertNext(str.value, d);
          label moved:
          str, d := None, blank;
          KeptLinked@moved();
        }
        r := InsertNext(s, x);
        return;
      }
      if usingNext {
        r := InsertNext(s, x);
        return;
      }
      str, d, depth := Some(s), x, Max(depth, |s|);
      KeptLinked();
      r := blank;
      assert BelowFits(s);
    }

    /** Stores x under s in the child for its first character. */
    method InsertNext(s: Key, x: D) returns (r: D)
      requires Linked() && (usingNext <==> next != []) && s != ""
      modifies Repr
      ensures Linked() && fresh(Repr - old(Repr)) && usingNext && next != []
      ensures below == old(below)[s := x] && str == old(str) && d == old(d)
      ensures r == At(old(below), s, blank)
      ensures depth == Max(old(depth), |s|)
      decreases Max(|s|, depth), 0
    {
      var c := s[0] as int;
      EnsureChild(c, |s|);
      var n := next[c];
      assert ChildValid(n) && BelowFits(s);
      label before:
      r := n.Insert(s[1..], x);
      assert next == old@before(next) && below == old@before(below);
      Repr := Repr + n.Repr;
      below := below[s := x];
      assert ChildValid(n);
      forall i | 0 <= i < |next| && next[i] != null && i != c
        ensures ChildValid(next[i]) && next[i].Repr !! n.Repr
        ensures next[i].Repr == old@before(next[i].Repr) && next[i].Contents() == old@before(next[i].Contents())
      {
        assert old@before(ChildValid(next[i])) && old@before(next[i] in next[i].Repr) &&
               old@before(next[i].Repr !! n.Repr);
      }
      forall k: string
        ensures BelowFits(k)
      {
        assert old@before(BelowFits(k));
        if HasChild(k) && k[0] as int == c {
          assert k == s <==> k[1..] == s[1..];
        }
      }
    }

    /** Makes sure that there is a child for character c, for keys of length len. */
    method EnsureChild(c: nat, ghost len: nat)
      requires Linked() && (usingNext <==> next != []) && len > 0
      modifies this
      ensures Linked() && fresh(Repr - old(Repr)) && old(Repr) <= Repr
      ensures usingNext && c < |next| && next[c] != null
      ensures below == old(below) && str == old(str) && d == old(d) && depth == Max(old(depth), len)
    {
      depth := Max(depth, len);
      if c >= |next| {
        usingNext := true;
        next := next + seq(c + 1 - |next|, _ => null);
      }
      assert forall i :: 0 <= i < |next| ==> next[i] == if i < |old(next)| then old(next)[i] else null;
      KeptLinked();
      if next[c] == null {
        AddChild(c);
      }
    }

    method AddChild(c: nat)
      requires Linked() && usingNext && c < |next| && next[c] == null && depth > 0
      modifies this
      ensures Linked() && fresh(Repr - old(Repr)) && old(Repr) <= Repr
      ensures usingNext && c < |next| && next[c] != null
      ensures below == old(below) && str == old(str) && d == old(d) && depth == old(depth)
    {
      var n := new Trie<D>(blank);
      next := next[c := n];
      Repr := Repr + n.Repr;
      forall i | 0 <= i < |next| && next[i] != null && i != c
        ensures ChildValid(next[i]) && next[i].Repr !! n.Repr
      {
        assert old(ChildValid(next[i]));
      }
      forall k: string
        ensures BelowFits(k)
      {
        assert old(BelowFits(k));
      }
    }

    /** Neither a deeper bound nor more places for children changes what is below. */
    twostate lemma KeptLinked()
      requires old(Linked()) && Repr == old(Repr) && below == old(below) && depth >= old(depth)
      requires forall o <- Repr :: o != this ==> unchanged(o)
      requires |next| >= |old(next)|
      requires forall i :: 0 <= i < |next| ==> next[i] == if i < |old(next)| then old(next)[i] else null
      ensures Linked()
    {
      forall i | 0 <= i < |next| && next[i] != null
        ensures ChildValid(next[i])
      {
        assert old(ChildValid(next[i]));
      }
      forall k: string
        ensures BelowFits(k)
      {
        assert old(BelowFits(k));
      }
    }
  }

  // ----- entering and leaving a scope -----

  /** What was stored under each key when it was about to be inserted. */
  ghost predicate Previous<D>(m: map<string, D>, keys: seq<Key>, values: seq<D>, prevs: seq<D>, n: nat, blank: D)
    requires n <= |keys| && n <= |values| && n <= |prevs|
  {
    forall i {:trigger prevs[i]} :: 0 <= i < n ==> prevs[i] == At(S.Bind(m, keys, values, i), keys[i], blank)
  }

  /** Inserts the keys in order and returns what each of them had. */
  method InsertAll<D(0)>(t: Trie<D>, keys: seq<Key>, values: seq<D>) returns (prevs: seq<D>)
    requires t.Valid() && |keys| == |values|
    modifies t.Repr
    ensures t.Valid() && fresh(t.Repr - old(t.Repr)) && |prevs| == |keys|
    ensures t.Contents() == S.Bind(old(t.Contents()), keys, values, |keys|)
    ensures Previous(old(t.Contents()), keys, values, prevs, |keys|, t.blank)
  {
    prevs := [];
    var i := 0;
    ghost var m := t.Contents();
    while i < |keys|
      invariant i <= |keys| && |prevs| == i && t.Valid() && fresh(t.Repr - old(t.Repr))
      invariant t.Contents() == S.Bind(m, keys, values, i) && Previous(m, keys, values, prevs, i, t.blank)
    {
      var prev := t.Insert(keys[i], values[i]);
      prevs := prevs + [prev];
      i := i + 1;
    }
  }

  /** Inserting what was returned restores every lookup, if no key is repeated. */
  lemma ScopeRestored<D>(m: map<string, D>, keys: seq<Key>, values: seq<D>, prevs: seq<D>, blank: D, k: string)
    requires |keys| == |values| == |prevs| && Distinct(keys) && Previous(m, keys, values, prevs, |keys|, blank)
    ensures At(S.Bind(S.Bind(m, keys, values, |keys|), keys, prevs, |keys|), k, blank) == At(m, k, blank)
  {
    var inside := S.Bind(m, keys, values, |keys|);
    S.BindGet(m, keys, values, |keys|, k);
    S.BindGet(inside, keys, prevs, |keys|, k);
    if k in keys {
      var i :| 0 <= i < |keys| && keys[i] == k;
      S.BindGet(m, keys, values, i, k);
      assert S.Get(S.Bind(inside, keys, prevs, |keys|), k) == Some(prevs[i]);
    } else {
      assert keys[..|keys|] == keys;
    }
  }

  /** Enters a scope and leaves it again. */
  method Scope<D(0)>(t: Trie<D>, keys: seq<Key>, values: seq<D>)
    requires t.Valid() && |keys| == |values|
    modifies t.Repr
    ensures t.Valid() && fresh(t.Repr - old(t.Repr))
    ensures Distinct(keys) ==> forall k: string :: At(t.Contents(), k, t.blank) == At(old(t.Contents()), k, t.blank)
  {
    ghost var m := t.Contents();
    var prevs := InsertAll(t, keys, values);
    var _ := InsertAll(t, keys, prevs);
    if Distinct(keys) {
      forall k: string
        ensures At(t.Contents(), k, t.blank) == At(m, k, t.blank)
      {
        ScopeRestored(m, keys, values, prevs, t.blank, k);
      }
    }
  }
}
