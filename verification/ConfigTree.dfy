/** Configuration trees: finding an item by its path, and inserting or updating one. */
module ConfigTree {
  import opened Options
  import opened Strings

  /** An item: its name, its value if any, its comments if any, and its children in order.
      Siblings may share a name. */
  datatype Tree = Tree(name: string, value: Option<string>, comments: Option<seq<string>>, kids: seq<Tree>)

  function Item(name: string): Tree {
    Tree(name, None, None, [])
  }

  /** Index of the first child called name from i on, or the number of children. */
  function FindFrom(kids: seq<Tree>, name: string, i: nat): (k: nat)
    requires i <= |kids|
    ensures i <= k <= |kids| && (k < |kids| ==> kids[k].name == name) && forall j :: i <= j < k ==> kids[j].name != name
    decreases |kids| - i
  {
    if i == |kids| || kids[i].name == name then i else FindFrom(kids, name, i + 1)
  }

  function FindKid(kids: seq<Tree>, name: string): (k: nat)
    ensures k <= |kids| && (k < |kids| ==> kids[k].name == name) && forall j :: 0 <= j < k ==> kids[j].name != name
  {
    FindFrom(kids, name, 0)
  }

  // ----- paths -----

  /** A leading slash is ignored. */
  function Skip(path: string): string {
    if path != "" && path[0] == '/' then path[1..] else path
  }

  /** Position of the first slash, or the length of the path. */
  function SlashAt(path: string): (i: nat)
    ensures i <= |path| && '/' !in path[..i] && (i < |path| ==> path[i] == '/')
  {
    IndexFrom(path, '/', 0)
  }

  /** The segments of a path, between slashes. */
  function Split(path: string): (segs: seq<string>)
    ensures segs != []
    decreases |path|
  {
    var i := SlashAt(path);
    if i == |path| then [path] else [path[..i]] + Split(path[i + 1..])
  }

  // ----- the operations on path strings -----

  function Locate(t: Tree, path: string): Option<Tree>
    decreases |path|
  {
    var p := Skip(path);
    var i := SlashAt(p);
    var k := FindKid(t.kids, p[..i]);
    if k == |t.kids| then None
    else if i == |p| then Some(t.kids[k])
    else Locate(t.kids[k], p[i..])
  }

  /** Inserts or updates an item.  The rest of the path is passed on without its slash to a
      child that exists, but with its slash to one that is created. */
  function Put(t: Tree, path: string, v: string): Tree
    decreases |path|
  {
    var p := Skip(path);
    var i := SlashAt(p);
    var k := FindKid(t.kids, p[..i]);
    if k < |t.kids| then
      var kid := if i == |p| then t.kids[k].(value := Some(v)) else Put(t.kids[k], p[i + 1..], v);
      t.(kids := t.kids[k := kid])
    else
      var made := Item(p[..i]);
      var kid := if i == |p| then made.(value := Some(v)) else Put(made, p[i..], v);
      t.(kids := t.kids + [kid])
  }

  // ----- the operations on segments -----

  function LocateAt(t: Tree, segs: seq<string>): Option<Tree> {
    if segs == [] then Some(t)
    else
      var k := FindKid(t.kids, segs[0]);
      if k == |t.kids| then None else LocateAt(t.kids[k], segs[1..])
  }

  function PutAt(t: Tree, segs: seq<string>, v: string): (t': Tree)
    ensures t'.name == t.name
    decreases segs
  {
    if segs == [] then t.(value := Some(v))
    else
      var k := FindKid(t.kids, segs[0]);
      if k < |t.kids| then t.(kids := t.kids[k := PutAt(t.kids[k], segs[1..], v)])
      else t.(kids := t.kids + [PutAt(Item(segs[0]), segs[1..], v)])
  }

  /** Segments with those that `Put` loses: an empty one after an item that exists. */
  function Effective(t: Tree, segs: seq<string>): (e: seq<string>)
    requires segs != []
    ensures e != [] && |e| <= |segs|
    decreases |segs|
  {
    var k := FindKid(t.kids, segs[0]);
    if |segs| == 1 then segs
    else if k < |t.kids| then
      var rest := if segs[1] == "" && |segs| > 2 then segs[2..] else segs[1..];
      [segs[0]] + Effective(t.kids[k], rest)
    else segs
  }

  // ----- relation of strings and segments -----

  /** The first segment of a path without its leading slash, and the others. */
  lemma SplitFirst(p: string)
    ensures var i, segs := SlashAt(p), Split(p);
            segs[0] == p[..i] && (i == |p| <==> |segs| == 1) && (i < |p| ==> segs[1..] == Split(p[i + 1..]))
  {
    var i := SlashAt(p);
    if i == |p| { assert p[..i] == p; }
  }

  /** Locating is uniform: one slash between two segments. */
  lemma {:induction false} LocateSegments(t: Tree, path: string)
    ensures Locate(t, path) == LocateAt(t, Split(Skip(path)))
    decreases |path|
  {
    var p := Skip(path);
    var i := SlashAt(p);
    var k := FindKid(t.kids, p[..i]);
    SplitFirst(p);
    if i < |p| && k < |t.kids| {
      assert Skip(p[i..]) == p[i + 1..];
      LocateSegments(t.kids[k], p[i..]);
    }
  }

  /** Ignoring a leading slash is losing an empty first segment. */
  lemma SplitSkip(path: string)
    ensures var segs := Split(path); Split(Skip(path)) == if segs[0] == "" && |segs| > 1 then segs[1..] else segs
  {
    SplitFirst(path);
    if path != "" && path[0] != '/' {
      assert SlashAt(path) > 0;
    }
  }

  /** The segments that take effect, below a child that exists and below one that is made. */
  lemma EffectiveStep(t: Tree, p: string)
    requires SlashAt(p) < |p|
    ensures var i, e := SlashAt(p), Effective(t, Split(p));
            var k := FindKid(t.kids, p[..i]);
            e == [p[..i]] + (if k < |t.kids| then Effective(t.kids[k], Split(Skip(p[i + 1..]))) else Split(p[i + 1..]))
  {
    SplitFirst(p);
    SplitSkip(p[SlashAt(p) + 1..]);
    var segs := Split(p);
    assert segs == [segs[0]] + segs[1..];
    assert |segs| > 2 ==> segs[1..][1..] == segs[2..];
  }

  /** Putting is not: an empty segment after an existing item is lost. */
  lemma {:induction false} PutSegments(t: Tree, path: string, v: string)
    ensures Put(t, path, v) == PutAt(t, Effective(t, Split(Skip(path))), v)
    decreases |path|
  {
    var p := Skip(path);
    var i := SlashAt(p);
    var k := FindKid(t.kids, p[..i]);
    if i == |p| {
      SplitFirst(p);
    } else {
      EffectiveStep(t, p);
      if k < |t.kids| {
        PutSegments(t.kids[k], p[i + 1..], v);
      } else {
        assert Skip(p[i..]) == p[i + 1..];
        PutSegments(Item(p[..i]), p[i..], v);
      }
    }
  }

  // ----- laws -----

  lemma FindKidIs(kids: seq<Tree>, name: string, i: nat)
    requires i <= |kids| && (i < |kids| ==> kids[i].name == name) && forall j :: 0 <= j < i ==> kids[j].name != name
    ensures FindKid(kids, name) == i
  {
    var k := FindKid(kids, name);
    assert k < |kids| ==> kids[k].name == name;
  }

  lemma FindKidUpdated(kids: seq<Tree>, k: nat, kid: Tree, name: string)
    requires k < |kids| && kid.name == kids[k].name
    ensures FindKid(kids[k := kid], name) == FindKid(kids, name)
  {
    FindKidIs(kids[k := kid], name, FindKid(kids, name));
  }

  lemma FindKidAdded(kids: seq<Tree>, kid: Tree, name: string)
    ensures FindKid(kids + [kid], name) ==
            if FindKid(kids, name) < |kids| then FindKid(kids, name)
            else if kid.name == name then |kids| else |kids| + 1
  {
    var i := FindKid(kids, name);
    FindKidIs(kids + [kid], name, if i < |kids| then i else if kid.name == name then |kids| else |kids| + 1);
  }

  /** Whether there is an item at a path, and its value. */
  function ValueAt(t: Tree, segs: seq<string>): Option<Option<string>> {
    var item := LocateAt(t, segs);
    if item.None? then None else Some(item.value.value)
  }

  lemma ValueAtStep(t: Tree, segs: seq<string>)
    requires segs != []
    ensures var k := FindKid(t.kids, segs[0]);
            ValueAt(t, segs) == if k == |t.kids| then None else ValueAt(t.kids[k], segs[1..])
  {
  }

  /** After putting v at a path that path has the value v; every other path has what it
      had, except that missing items on the way now exist without a value. */
  lemma {:induction false} PutThenLocate(t: Tree, segs: seq<string>, v: string, other: seq<string>)
    ensures ValueAt(PutAt(t, segs, v), other) == Updated(segs, v, other, ValueAt(t, other))
    decreases segs
  {
    if segs != [] && other != [] {
      var k, t' := FindKid(t.kids, segs[0]), PutAt(t, segs, v);
      var kid := if k < |t.kids| then t.kids[k] else Item(segs[0]);
      var kid' := PutAt(kid, segs[1..], v);
      ValueAtStep(t, other);
      ValueAtStep(t', other);
      if k < |t.kids| {
        FindKidUpdated(t.kids, k, kid', other[0]);
      } else {
        FindKidAdded(t.kids, kid', other[0]);
      }
      UpdatedStep(segs, v, other, ValueAt(t, other));
      if other[0] == segs[0] {
        PutThenLocate(kid, segs[1..], v, other[1..]);
        if other[1..] != [] { ValueAtStep(kid, other[1..]); }
      }
    }
  }

  /** What a path has after v was put at segs, given what it had. */
  function Updated(segs: seq<string>, v: string, other: seq<string>,
                   was: Option<Option<string>>): Option<Option<string>> {
    if other == segs then Some(Some(v))
    else if was.None? && other <= segs then Some(None)
    else was
  }

  lemma UpdatedStep(segs: seq<string>, v: string, other: seq<string>, was: Option<Option<string>>)
    requires segs != [] && other != []
    ensures other[0] != segs[0] ==> Updated(segs, v, other, was) == was
    ensures other[0] == segs[0] ==> Updated(segs, v, other, was) == Updated(segs[1..], v, other[1..], was)
  {
    assert other <= segs <==> other[0] == segs[0] && other[1..] <= segs[1..];
    assert other == segs <==> other[0] == segs[0] && other[1..] == segs[1..];
  }

  /** No empty segment, unless it is the last, follows an item that exists. */
  predicate KeepsSegments(t: Tree, segs: seq<string>)
    requires segs != []
    decreases |segs|
  {
    var k := FindKid(t.kids, segs[0]);
    |segs| == 1 || k == |t.kids| ||
    ((segs[1] != "" || |segs| == 2) && KeepsSegments(t.kids[k], segs[1..]))
  }

  lemma {:induction false} KeepsAll(t: Tree, segs: seq<string>)
    requires segs != []
    ensures KeepsSegments(t, segs) <==> Effective(t, segs) == segs
    ensures (forall i :: 0 <= i < |segs| ==> segs[i] != "") ==> KeepsSegments(t, segs)
    decreases |segs|
  {
    var k := FindKid(t.kids, segs[0]);
    if |segs| > 1 && k < |t.kids| && (segs[1] != "" || |segs| == 2) {
      KeepsAll(t.kids[k], segs[1..]);
    }
  }

  /** What is put can be located again, for every value, exactly when no segment is lost;
      paths without empty segments are of that kind. */
  lemma PutLocateLaw(t: Tree, path: string)
    ensures (forall v: string :: var item := Locate(Put(t, path, v), path); item.Some? && item.value.value == Some(v))
            <==> KeepsSegments(t, Split(Skip(path)))
    ensures var segs := Split(Skip(path));
            (forall i :: 0 <= i < |segs| ==> segs[i] != "") ==> KeepsSegments(t, segs)
  {
    var segs := Split(Skip(path));
    var e := Effective(t, segs);
    forall v: string
      ensures var item := Locate(Put(t, path, v), path);
              (item.Some? && item.value.value == Some(v)) == (ValueAt(PutAt(t, e, v), segs) == Some(Some(v)))
    {
      PutSegments(t, path, v);
      LocateSegments(Put(t, path, v), path);
    }
    KeepsAll(t, segs);
    if KeepsSegments(t, segs) {
      forall v: string
        ensures ValueAt(PutAt(t, e, v), segs) == Some(Some(v))
      {
        PutThenLocate(t, e, v, segs);
      }
    } else {
      var was := ValueAt(t, segs);
      var v := if was == Some(Some("")) then "x" else "";
      PutThenLocate(t, e, v, segs);
      assert ValueAt(PutAt(t, e, v), segs) != Some(Some(v));
    }
  }

  lemma {:induction false} EffectiveShorter(t: Tree, segs: seq<string>)
    requires segs != [] && !KeepsSegments(t, segs)
    ensures |Effective(t, segs)| < |segs|
    decreases |segs|
  {
    if segs[1] != "" || |segs| == 2 {
      EffectiveShorter(t.kids[FindKid(t.kids, segs[0])], segs[1..]);
    }
  }

  /** Where a segment is lost, the path has after the put what it had before. */
  lemma PutLost(t: Tree, path: string, v: string)
    requires !KeepsSegments(t, Split(Skip(path)))
    ensures ValueAt(Put(t, path, v), Split(Skip(path))) == ValueAt(t, Split(Skip(path)))
  {
    var segs := Split(Skip(path));
    EffectiveShorter(t, segs);
    PutSegments(t, path, v);
    PutThenLocate(t, Effective(t, segs), v, segs);
  }

  /** An empty segment after an item that exists is lost: a value put there is not found. */
  lemma EmptySegmentLost(t: Tree, a: string, b: string, v: string)
    requires a != "" && '/' !in a && FindKid(t.kids, a) < |t.kids|
    ensures var path := a + "/" + ("/" + b);
            var item := Locate(Put(t, path, v), path);
            ValueAt(t, [a, ""] + Split(b)) != Some(Some(v)) ==> item.None? || item.value.value != Some(v)
  {
    var path, segs := a + "/" + ("/" + b), [a, ""] + Split(b);
    EmptySegment(a, b);
    NotKept(t, segs);
    PutLost(t, path, v);
    LocateSegments(Put(t, path, v), path);
  }

  /** For example, at "a//b" below a root with an item "a". */
  lemma LostBelowItem(v: string)
    ensures var item := Locate(Put(Tree("root", None, None, [Item("a")]), "a//b", v), "a//b");
            item.None? || item.value.value != Some(v)
  {
    var t := Tree("root", None, None, [Item("a")]);
    FindKidIs(t.kids, "a", 0);
    ValueAtStep(t, ["a", ""] + Split("b"));
    ValueAtStep(Item("a"), (["a", ""] + Split("b"))[1..]);
    EmptySegmentLost(t, "a", "b", v);
    assert "a//b" == "a" + "/" + ("/" + "b");
  }

  lemma EmptySegment(a: string, b: string)
    requires a != "" && '/' !in a
    ensures Split(Skip(a + "/" + ("/" + b))) == [a, ""] + Split(b)
  {
    SplitAt(a, "/" + b);
    assert "" + "/" + b == "/" + b;
    SplitAt("", b);
    assert [a] + ([""] + Split(b)) == [a, ""] + Split(b);
  }

  lemma NotKept(t: Tree, segs: seq<string>)
    requires |segs| > 2 && segs[1] == "" && FindKid(t.kids, segs[0]) < |t.kids|
    ensures !KeepsSegments(t, segs)
  {
  }

  lemma SplitAt(a: string, b: string)
    requires '/' !in a
    ensures Split(a + "/" + b) == [a] + Split(b)
  {
    var p := a + "/" + b;
    IndexFromIs(p, '/', 0, |a|);
    assert p[..|a|] == a && p[|a| + 1..] == b;
  }
}
