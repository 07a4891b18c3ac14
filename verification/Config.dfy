/** Configuration items as linked objects: the operations that update, save and load them in
    place, each against its meaning on trees. */
module Config {
  import opened Options
  import opened Strings
  import opened ConfigTree
  import opened ConfigText

  // ----- the text buffer -----

  /** What is left of s in a buffer of n characters. */
  function Fit(s: string, n: nat): string {
    if |s| <= n then s else s[..n]
  }

  lemma FitAgain(a: string, b: string, n: nat)
    ensures Fit(Fit(a, n) + b, n) == Fit(a + b, n)
  {
    if |a| > n {
      assert (a[..n] + b)[..n] == a[..n];
    }
  }

  class Chunk {
    const data: array<char>
    var size: nat

    ghost predicate Valid()
      reads this
    {
      size <= data.Length
    }

    ghost function Contents(): string
      reads this, data
      requires Valid()
    {
      data[..size]
    }

    constructor (max: nat)
      ensures Valid() && fresh(data) && data.Length == max && Contents() == ""
    {
      data, size := new char[max], 0;
    }

    /** Appends text; what does not fit is dropped. */
    method Append(text: string)
      requires Valid()
      modifies this, data
      ensures Valid() && Contents() == Fit(old(Contents()) + text, data.Length)
    {
      var n := if size + |text| > data.Length then data.Length - size else |text|;
      var i := 0;
      while i < n
        invariant 0 <= i <= n && size == old(size)
        invariant data[..size] == old(data[..size]) && data[size..size + i] == text[..i]
      {
        data[size + i] := text[i];
        i := i + 1;
      }
      assert data[..size + n] == data[..size] + data[size..size + n];
      size := size + n;
    }
  }

  lemma {:induction false} TextAppend(xs: seq<string>, ys: seq<string>)
    ensures Text(xs + ys) == Text(xs) + Text(ys)
  {
    if xs == [] {
      assert xs + ys == ys;
    } else {
      TextAppend(xs[1..], ys);
      assert (xs + ys)[1..] == xs[1..] + ys;
    }
  }

  function Frame(chunk: Chunk?): set<object> {
    if chunk == null then {} else {chunk, chunk.data}
  }

  /** A chunk, if there is one, has the text as far as it fits. */
  ghost predicate Holds(chunk: Chunk?, text: string)
    reads Frame(chunk)
  {
    chunk != null ==> chunk.Valid() && chunk.Contents() == Fit(text, chunk.data.Length)
  }

  /** Stores text, if there is a chunk, and returns its length. */
  method Printf(chunk: Chunk?, text: string, ghost before: string) returns (size: nat)
    requires Holds(chunk, before)
    modifies Frame(chunk)
    ensures Holds(chunk, before + text) && size == |text|
  {
    if chunk != null {
      chunk.Append(text);
      FitAgain(before, text, chunk.data.Length);
    }
    size := |text|;
  }

  // ----- items -----

  class Config {
    var name: string
    var value: Option<string>
    var comments: Option<seq<string>>
    var children: seq<Config>

    ghost var Repr: set<Config>
    /** The tree that this item stands for. */
    ghost var tree: Tree

    ghost predicate Valid()
      reads this, Repr
      ensures Valid() ==> this in Repr
      decreases Repr, 1
    {
      && this in Repr
      && (forall i :: 0 <= i < |children| ==> ChildValid(children[i]))
      && (forall i, j :: 0 <= i < |children| && 0 <= j < |children| && i != j ==> children[i].Repr !! children[j].Repr)
      && tree.name == name && tree.value == value && tree.comments == comments && |tree.kids| == |children|
      && forall i :: 0 <= i < |children| ==> tree.kids[i] == children[i].tree
    }

    ghost predicate ChildValid(c: Config)
      reads this, Repr
      requires this in Repr
      decreases Repr, 0
    {
      c in Repr && c.Repr <= Repr && this !in c.Repr && c.Valid()
    }

    constructor (name: string)
      ensures Valid() && fresh(Repr) && tree == Item(name)
    {
      this.name, value, comments, children := name, None, None, [];
      Repr, tree := {this}, Item(name);
    }

    method SetValue(v: string)
      requires Valid()
      modifies this
      ensures Valid() && Repr == old(Repr) && tree == old(tree).(value := Some(v))
    {
      value := Some(v);
      tree := tree.(value := Some(v));
      KeptChildren();
    }

    method AddComment(comment: string)
      requires Valid()
      modifies this
      ensures Valid() && Repr == old(Repr) && tree == ConfigText.AddComment(old(tree), comment)
    {
      if comments.None? {
        comments := Some([]);
      }
      comments := Some(comments.value + [comment]);
      tree := ConfigText.AddComment(tree, comment);
      KeptChildren();
    }

    /** Changing other fields leaves the children as they are. */
    twostate lemma KeptChildren()
      requires old(Valid()) && Repr == old(Repr) && children == old(children) && tree.kids == old(tree).kids
      requires forall o <- Repr :: o != this ==> unchanged(o)
      requires tree.name == name && tree.value == value && tree.comments == comments
      ensures Valid()
    {
      forall i | 0 <= i < |children|
        ensures ChildValid(children[i])
      {
        assert old(ChildValid(children[i]));
      }
    }

    method FindChild(key: string) returns (k: nat)
      requires Valid()
      ensures k == FindKid(tree.kids, key)
    {
      k := 0;
      while k < |children|
        invariant k <= |children| && FindFrom(tree.kids, key, 0) == FindFrom(tree.kids, key, k)
      {
        assert ChildValid(children[k]) && children[k].Valid();
        assert tree.kids[k].name == children[k].name;
        if children[k].name == key {
          return;
        }
        k := k + 1;
      }
    }

    /** Finds an item along a path. */
    method Locate(path: string) returns (item: Config?)
      requires Valid()
      ensures item == null <==> ConfigTree.Locate(tree, path).None?
      ensures item != null ==> item in Repr && item.Valid() && ConfigTree.Locate(tree, path) == Some(item.tree)
      decreases |path|
    {
      var p := Skip(path);
      var i := SlashAt(p);
      var k := FindChild(p[..i]);
      if k == |children| {
        return null;
      }
      assert ChildValid(children[k]);
      if i < |p| {
        item := children[k].Locate(p[i..]);
      } else {
        item := children[k];
      }
    }

    /** Inserts or updates the item at a path. */
    method Put(path: string, v: string)
      requires Valid()
      modifies Repr
      ensures Valid() && fresh(Repr - old(Repr)) && tree == ConfigTree.Put(old(tree), path, v)
      decreases |path|, 1
    {
      var p := Skip(path);
      var i := SlashAt(p);
      var k := FindChild(p[..i]);
      if k == |children| {
        PutMissing(path, v);
      } else if i == |p| {
        SetChild(k, v);
      } else {
        PutInChild(k, p[i + 1..], v);
      }
    }

    /** The first segment of the path does not exist: creates it. */
    method PutMissing(path: string, v: string)
      requires Valid() && FindKid(tree.kids, Skip(path)[..SlashAt(Skip(path))]) == |tree.kids|
      modifies Repr
      ensures Valid() && fresh(Repr - old(Repr)) && tree == ConfigTree.Put(old(tree), path, v)
      decreases |path|, 0
    {
      var p := Skip(path);
      var i := SlashAt(p);
      if i < |p| {
        PutInNew(p[..i], p[i..], v);
      } else {
        AddValued(p[..i], v);
      }
    }

    method PutInChild(k: nat, path: string, v: string)
      requires Valid() && k < |children|
      modifies Repr
      ensures Valid() && fresh(Repr - old(Repr))
      ensures tree == old(tree).(kids := old(tree).kids[k := ConfigTree.Put(old(tree).kids[k], path, v)])
      decreases |path|, 2
    {
      assert ChildValid(children[k]);
      children[k].Put(path, v);
      ChildChanged(k);
      Absorb(k);
    }

    method PutInNew(key: string, path: string, v: string)
      requires Valid()
      modifies Repr
      ensures Valid() && fresh(Repr - old(Repr))
      ensures tree == old(tree).(kids := old(tree).kids + [ConfigTree.Put(Item(key), path, v)])
      decreases |path|, 2
    {
      var child := new Config(key);
      child.Put(path, v);
      Attach(child);
    }

    /** Adds a new item with a value as the last child. */
    method AddValued(key: string, v: string)
      requires Valid()
      modifies Repr
      ensures Valid() && fresh(Repr - old(Repr))
      ensures tree == old(tree).(kids := old(tree).kids + [Item(key).(value := Some(v))])
    {
      var child := new Config(key);
      child.SetValue(v);
      Attach(child);
    }

    method SetChild(k: nat, v: string)
      requires Valid() && k < |children|
      modifies Repr
      ensures Valid() && Repr == old(Repr)
      ensures tree == old(tree).(kids := old(tree).kids[k := old(tree).kids[k].(value := Some(v))])
    {
      assert ChildValid(children[k]);
      children[k].SetValue(v);
      ChildChanged(k);
      Absorb(k);
    }

    /** One child has changed on its own; the others are as they were. */
    twostate lemma ChildChanged(k: nat)
      requires old(Valid()) && unchanged(this) && k < |children| && children[k].Valid()
      requires forall o <- Repr :: o !in old(children[k].Repr) ==> unchanged(o)
      requires fresh(children[k].Repr - old(children[k].Repr))
      ensures this !in children[k].Repr
      ensures forall i :: 0 <= i < |children| && i != k ==>
        ChildValid(children[i]) && children[i].Repr !! children[k].Repr && children[i].tree == tree.kids[i]
      ensures forall i, j :: 0 <= i < |children| && 0 <= j < |children| && i != j && i != k && j != k ==>
        children[i].Repr !! children[j].Repr
    {
      forall i | 0 <= i < |children| && i != k
        ensures ChildValid(children[i]) && children[i].Repr == old(children[i].Repr) && children[i].tree == tree.kids[i]
      {
        assert old(ChildValid(children[i])) && old(children[i].Repr !! children[k].Repr);
      }
      assert old(ChildValid(children[k]));
    }

    /** Takes in what a child has become. */
    ghost method Absorb(k: nat)
      requires this in Repr && k < |children| && |tree.kids| == |children|
      requires tree.name == name && tree.value == value && tree.comments == comments
      requires children[k].Valid() && this !in children[k].Repr
      requires forall i :: 0 <= i < |children| && i != k ==>
        ChildValid(children[i]) && children[i].Repr !! children[k].Repr && children[i].tree == tree.kids[i]
      requires forall i, j :: 0 <= i < |children| && 0 <= j < |children| && i != j && i != k && j != k ==>
        children[i].Repr !! children[j].Repr
      modifies this
      ensures Valid() && Repr == old(Repr) + children[k].Repr
      ensures tree == old(tree).(kids := old(tree).kids[k := children[k].tree])
      ensures children == old(children)
    {
      Repr := Repr + children[k].Repr;
      tree := tree.(kids := tree.kids[k := children[k].tree]);
      forall i | 0 <= i < |children|
        ensures ChildValid(children[i])
      {
        assert i != k ==> old(ChildValid(children[i]));
      }
    }

    /** Adds a new item as the last child. */
    method Attach(child: Config)
      requires Valid() && child.Valid() && child.Repr !! Repr
      modifies this
      ensures Valid() && Repr == old(Repr) + child.Repr
      ensures tree == old(tree).(kids := old(tree).kids + [child.tree])
    {
      children := children + [child];
      Repr := Repr + child.Repr;
      tree := tree.(kids := tree.kids + [child.tree]);
      forall i | 0 <= i < |children|
        ensures ChildValid(children[i])
      {
        assert i < |old(children)| ==> old(ChildValid(children[i]));
      }
    }

    // ----- loading -----

    /** Adds an item below the latest item at the given depth, if there is one. */
    method AddAtDepth(depth: nat, key: string, v: string) returns (ok: bool)
      requires Valid()
      modifies Repr
      ensures Valid() && fresh(Repr - old(Repr))
      ensures ok == AppendAt(old(tree), depth, Item(key).(value := Some(v))).Some?
      ensures ok ==> AppendAt(old(tree), depth, Item(key).(value := Some(v))) == Some(tree)
      decreases depth
    {
      if depth == 0 {
        AddValued(key, v);
        return true;
      }
      if children == [] {
        return false;
      }
      var k := |children| - 1;
      assert ChildValid(children[k]);
      ok := children[k].AddAtDepth(depth - 1, key, v);
      ChildChanged(k);
      Absorb(k);
    }

    /** Processes one line of text. */
    method AddLine(line: string, ghost step: (Tree, string) -> Option<Tree>) returns (ok: bool)
      requires Valid() && IsLoader(step)
      modifies Repr
      ensures Valid() && fresh(Repr - old(Repr))
      ensures ok == step(old(tree), line).Some?
      ensures ok ==> step(old(tree), line) == Some(tree)
    {
      assert AddsLine(step, tree, line);
      var s := TrimLine(line);
      if s != "" && s[0] == '#' {
        AddComment(s[1..]);
      }
      var parsed := Scan(s);
      match parsed
      case Malformed =>
        ok := false;
      case Empty =>
        ok := true;
      case Entry(level, key, v) =>
        ok := AddAtDepth(level, key, v);
    }

    /** Processes text line by line; gives no item if a line is not valid. */
    static method LoadAll(text: string, ghost step: (Tree, string) -> Option<Tree>, ghost rest: Rest)
      returns (overrun: bool, root: Config?)
      requires IsLoader(step) && IsRest(rest, step, text)
      ensures var result := rest(0, false, Item("root"));
              && (overrun <==> result.Overrun?) && (root != null <==> result.Loaded?)
              && (root != null ==> root.Valid() && fresh(root.Repr) && result == Loaded(root.tree))
    {
      var self := new Config("root");
      overrun := false;
      var pos, remaining := 0, |text|;
      ghost var result := rest(0, false, Item("root"));
      while remaining > 0
        invariant pos <= |text| <= pos + remaining && self.Valid() && fresh(self.Repr)
        invariant result == rest(pos, pos + remaining > |text|, self.tree)
        decreases remaining
      {
        var eoln := IndexFrom(text, '\n', pos);
        assert StepsAt(rest, step, text, pos, pos + remaining > |text|, self.tree);
        if eoln == |text| && pos + remaining > |text| {
          return true, null;
        }
        var size, last := if eoln - pos > 1024 then 1024 else eoln - pos, if eoln < |text| then 1 else 0;
        var ok := self.AddLine(text[pos..pos + size], step);
        if !ok {
          return false, null;
        }
        pos, remaining := eoln + last, remaining - size - last;
      }
      root := self;
    }

    /** Loads a configuration from text. */
    static method ChunkLoad(text: string) returns (overrun: bool, root: Config?)
      ensures overrun <==> Load(text).Overrun?
      ensures root != null <==> Load(text).Loaded?
      ensures root != null ==> root.Valid() && fresh(root.Repr) && Load(text) == Loaded(root.tree)
    {
      assert forall t: Tree, line: string :: AddsLine(ConfigText.AddLine, t, line);
      ghost var rest := RestOf(ConfigText.AddLine, text);
      RestSteps(ConfigText.AddLine, text);
      overrun, root := LoadAll(text, ConfigText.AddLine, rest);
    }

    // ----- saving -----

    /** Saves the item without its children, after text that was saved already. */
    method Save(chunk: Chunk?, level: nat, ghost t: Tree, ghost before: string) returns (size: nat)
      requires Valid() && tree == t && Holds(chunk, before)
      modifies Frame(chunk)
      ensures size == |Text(OwnLines(t, level))| && Holds(chunk, before + Text(OwnLines(t, level)))
    {
      size := 0;
      ghost var done := before;
      if comments.Some? {
        size := SaveComments(chunk, comments.value, before);
        done := before + Text(CommentLines(comments.value));
        var more := Printf(chunk, "\n", done);
        done := done + "\n";
        size := size + more;
      }
      assert size == |CommentText(t)| && done == before + CommentText(t);
      if level > 0 {
        var line := Spaces((level - 1) * 4) + name + (if value.Some? then " = \"" + value.value + "\"" else "");
        var more := Printf(chunk, line + "\n", done);
        done := done + (line + "\n");
        size := size + more;
      }
      Assoc(before, CommentText(t), ItemText(t, level));
      OwnText(t, level);
    }

    /** Saves the item and all items below it; returns the length of their text. */
    method Execute(chunk: Chunk?, level: nat, ghost t: Tree, ghost before: string) returns (size: nat)
      requires Valid() && tree == t && Holds(chunk, before)
      modifies Frame(chunk)
      ensures size == |Text(Lines(t, level))| && Holds(chunk, before + Text(Lines(t, level)))
      decreases Repr, 1
    {
      size := Save(chunk, level, t, before);
      StaysValid();
      ghost var texts := KidTexts(t.kids, level + 1);
      forall i | 0 <= i < |children|
        ensures children[i].Valid() && children[i].Repr < Repr && Text(Lines(children[i].tree, level + 1)) == texts[i]
      {
        assert ChildValid(children[i]);
      }
      var more := ExecuteAll(children, chunk, level + 1, texts, before + Text(OwnLines(t, level)), Repr);
      size := size + more;
      LinesText(before, t, level);
    }

    /** Saves items one after the other, as a list. */
    static method ExecuteAll(items: seq<Config>, chunk: Chunk?, level: nat, ghost texts: seq<string>,
                             ghost before: string,
                             ghost bound: set<Config>)
      returns (size: nat)
      requires |texts| == |items| && Holds(chunk, before)
      requires forall i :: 0 <= i < |items| ==>
        items[i].Valid() && items[i].Repr < bound && Text(Lines(items[i].tree, level)) == texts[i]
      modifies Frame(chunk)
      ensures size == |Concat(texts)| && Holds(chunk, before + Concat(texts))
      decreases bound, 0
    {
      size := 0;
      ghost var done := before;
      var i := 0;
      while i < |items|
        invariant i <= |items| && Holds(chunk, done)
        invariant done == before + Concat(texts[..i]) && size == |Concat(texts[..i])|
      {
        items[i].StaysValid();
        var more := items[i].Execute(chunk, level, items[i].tree, done);
        ConcatStep(before, texts, i);
        done := done + texts[i];
        size := size + more;
        i := i + 1;
      }
      assert texts[..i] == texts;
    }

    /** Saving changes no item. */
    twostate lemma StaysValid()
      requires old(Valid()) && forall o <- old(Repr) :: unchanged(o)
      ensures Valid() && unchanged(this)
    {
    }

    /** Saves the tree to a new chunk, in two passes. */
    method ChunkSave() returns (chunk: Chunk)
      requires Valid()
      ensures fresh(chunk) && chunk.Valid() && chunk.Contents() == Text(Lines(tree, 0))
      ensures chunk.data.Length == chunk.size + 1 && chunk.data[chunk.size] == '\0'
    {
      var size := Execute(null, 0, tree, "");
      chunk := new Chunk(size + 1);
      var _ := Execute(chunk, 0, tree, "");
      assert "" + Text(Lines(tree, 0)) == Text(Lines(tree, 0));
      chunk.data[chunk.size] := '\0';
    }
  }

  ghost predicate AddsLine(step: (Tree, string) -> Option<Tree>, t: Tree, line: string) {
    step(t, line) == ConfigText.AddLine(t, line)
  }

  ghost predicate IsLoader(step: (Tree, string) -> Option<Tree>) {
    forall t: Tree, line: string :: AddsLine(step, t, line)
  }

  // ----- the parts of a line -----

  method TrimLine(line: string) returns (s: string)
    ensures s == Trim(CString(line))
  {
    s := CString(line);
    while s != "" && IsSpace(s[|s| - 1])
      invariant Trim(s) == Trim(CString(line))
      decreases |s|
    {
      s := s[..|s| - 1];
    }
  }

  /** The level of indentation, or -1, and where it ends. */
  method CollectLevel(s: string) returns (level: int, i: nat)
    ensures i == SkipWhile(s, IsBlank, 0) && level == if i % 4 == 0 then i / 4 else -1
  {
    i := 0;
    while i < |s| && s[i] == ' '
      invariant i <= |s| && SkipWhile(s, IsBlank, i) == SkipWhile(s, IsBlank, 0)
    {
      i := i + 1;
    }
    level := i / 4;
    if level * 4 != i {
      level := -1;
    }
  }

  /** The name that starts at i, and where it ends; none if it starts or ends with a slash. */
  method CollectName(s: string, i: nat) returns (key: Option<string>, j: nat)
    requires i <= |s|
    ensures j == SkipWhile(s, IsNameChar, i)
    ensures key == if i < j && (s[i] == '/' || s[j - 1] == '/') then None else Some(s[i..j])
  {
    j := i;
    while j < |s| && IsNameChar(s[j])
      invariant i <= j <= |s| && SkipWhile(s, IsNameChar, j) == SkipWhile(s, IsNameChar, i)
    {
      j := j + 1;
    }
    key := if j > i && (s[i] == '/' || s[j - 1] == '/') then None else Some(s[i..j]);
  }

  method VerifyEoln(s: string, i: nat) returns (ok: bool)
    requires i <= |s|
    ensures ok == CleanEnd(s, i)
  {
    var j := i;
    while j < |s|
      invariant i <= j <= |s| && SkipWhile(s, IsSpace, j) == SkipWhile(s, IsSpace, i)
    {
      if IsSpace(s[j]) {
        j := j + 1;
      } else {
        return s[j] == '#';
      }
    }
    ok := true;
  }

  /** The value after a name that ends at i; none if the line is not valid. */
  method CollectValue(s: string, i: nat) returns (v: Option<string>)
    requires i <= |s|
    ensures v == ValueFrom(s, i)
  {
    var j := SkipSpaces(s, i);
    if j < |s| && s[j] == '=' {
      j := SkipSpaces(s, j + 1);
      if j < |s| && (s[j] == '"' || s[j] == '\'') {
        v := CollectQuoted(s, j);
      } else {
        var value := CollectUnquoted(s, j);
        v := Some(value);
      }
    } else {
      var ok := VerifyEoln(s, j);
      v := if ok then Some("") else None;
    }
  }

  /** A value up to a comment, without the blanks before it. */
  method CollectUnquoted(s: string, j: nat) returns (value: string)
    requires j <= |s|
    ensures value == Unquoted(s, j)
  {
    var comment := IndexFrom(s, '#', j);
    if comment == |s| {
      return s[j..];
    }
    var e := comment;
    while e > 0 && IsSpace(s[e - 1])
      invariant 0 <= e <= comment && BackOver(s, e) == BackOver(s, comment)
    {
      e := e - 1;
    }
    value := if e >= j then s[j..e] else s[j..];
  }

  method CollectQuoted(s: string, j: nat) returns (v: Option<string>)
    requires j < |s|
    ensures v == Quoted(s, j)
  {
    var e := IndexFrom(s, s[j], j + 1);
    if e == |s| {
      return None;
    }
    var ok := VerifyEoln(s, e + 1);
    v := if ok then Some(s[j + 1..e]) else None;
  }

  /** Splits a line into its parts. */
  method Scan(s: string) returns (line: Line)
    ensures line == ParseLine(s)
  {
    var level, i := CollectLevel(s);
    if level == -1 {
      return Malformed;
    }
    var key, j := CollectName(s, i);
    if key.None? {
      return Malformed;
    }
    if key.value != "" {
      var v := CollectValue(s, j);
      line := if v.None? then Malformed else Entry(level, key.value, v.value);
    } else {
      var ok := VerifyEoln(s, j);
      line := if ok then Empty else Malformed;
    }
  }

  method SkipSpaces(s: string, i: nat) returns (j: nat)
    requires i <= |s|
    ensures j == SkipWhile(s, IsSpace, i)
  {
    j := i;
    while j < |s| && IsSpace(s[j])
      invariant i <= j <= |s| && SkipWhile(s, IsSpace, j) == SkipWhile(s, IsSpace, i)
    {
      j := j + 1;
    }
  }

  // ----- loading from a position -----

  /** The result of loading what is left from a position, whether or not the loader has lost
      count, into a tree. */
  type Rest = (nat, bool, Tree) -> LoadResult

  ghost function RestOf(step: (Tree, string) -> Option<Tree>, text: string): Rest {
    (pos: nat, off: bool, t: Tree) =>
      if pos <= |text| then LoadText(step, SplitText(text, pos), Ended(text), off, t) else Overrun
  }

  /** The effect of the line that starts at pos, and what is left to load after it. */
  ghost predicate StepsAt(rest: Rest, step: (Tree, string) -> Option<Tree>, text: string, pos: nat, off: bool, t: Tree)
  {
    pos < |text| || (pos == |text| && off) ==>
      var e := IndexFrom(text, '\n', pos);
      var size := if e - pos > 1024 then 1024 else e - pos;
      var t' := step(t, text[pos..pos + size]);
      rest(pos, off, t) ==
      if e == |text| && off then Overrun
      else if t'.None? then Invalid
      else rest(if e < |text| then e + 1 else e, off || e - pos > 1024, t'.value)
  }

  ghost predicate IsRest(rest: Rest, step: (Tree, string) -> Option<Tree>, text: string) {
    && (forall t :: rest(|text|, false, t) == Loaded(t))
    && forall pos: nat, off: bool, t: Tree {:trigger StepsAt(rest, step, text, pos, off, t)} ::
      StepsAt(rest, step, text, pos, off, t)
  }

  lemma RestSteps(step: (Tree, string) -> Option<Tree>, text: string)
    ensures IsRest(RestOf(step, text), step, text)
  {
    forall pos: nat, off: bool, t: Tree
      ensures StepsAt(RestOf(step, text), step, text, pos, off, t)
    {
      RestStep(step, text, pos, off, t);
    }
  }

  lemma RestStep(step: (Tree, string) -> Option<Tree>, text: string, pos: nat, off: bool, t: Tree)
    ensures StepsAt(RestOf(step, text), step, text, pos, off, t)
  {
    if pos < |text| {
      var e := LineAt(text, pos);
      var next, size := if e < |text| then e + 1 else e, if e - pos > 1024 then 1024 else e - pos;
      assert Cut(text[pos..e]) == text[pos..pos + size];
      FirstLine(step, text[pos..e], SplitText(text, next), Ended(text), off, t);
    }
  }

  lemma LineAt(text: string, pos: nat) returns (e: nat)
    requires pos < |text|
    ensures e == IndexFrom(text, '\n', pos) && pos <= e <= |text|
    ensures var next := if e < |text| then e + 1 else e;
            && SplitText(text, pos) == [text[pos..e]] + SplitText(text, next)
            && (SplitText(text, next) == [] <==> next == |text|) && (next == |text| ==> (e < |text| <==> Ended(text)))
  {
    e := IndexFrom(text, '\n', pos);
    if e == |text| {
      assert text[pos..e][|text| - 1 - pos] == text[|text| - 1];
    }
  }

  lemma FirstLine(step: (Tree, string) -> Option<Tree>, line: string, lines: seq<string>, ended: bool, off: bool,
                  t: Tree)
    ensures LoadText(step, [line] + lines, ended, off, t) ==
            if off && !ended && lines == [] then Overrun
            else if step(t, Cut(line)).None? then Invalid
            else LoadText(step, lines, ended, off || |line| > 1024, step(t, Cut(line)).value)
  {
    assert ([line] + lines)[1..] == lines;
  }

  method SaveComments(chunk: Chunk?, comments: seq<string>, ghost before: string) returns (size: nat)
    requires Holds(chunk, before)
    modifies Frame(chunk)
    ensures size == |Text(CommentLines(comments))| && Holds(chunk, before + Text(CommentLines(comments)))
  {
    size := 0;
    var i := 0;
    ghost var text := "";
    assert before + text == before;
    while i < |comments|
      invariant i <= |comments| && text == Text(CommentLines(comments[..i])) && size == |text| &&
                Holds(chunk, before + text)
    {
      var line := "#" + comments[i];
      var more := Printf(chunk, line + "\n", before + text);
      CommentsText(comments, i);
      assert before + text + (line + "\n") == before + (text + (line + "\n"));
      text := text + (line + "\n");
      size := size + more;
      i := i + 1;
    }
    assert comments[..i] == comments;
  }

  // ----- the text of lines, part by part -----

  lemma LineText(line: string)
    ensures Text([line]) == line + "\n"
  {
  }

  lemma CommentsText(comments: seq<string>, i: nat)
    requires i < |comments|
    ensures Text(CommentLines(comments[..i + 1])) == Text(CommentLines(comments[..i])) + ("#" + comments[i] + "\n")
  {
    assert comments[..i + 1][..i] == comments[..i];
    TextAppend(CommentLines(comments[..i]), ["#" + comments[i]]);
    LineText("#" + comments[i]);
  }

  lemma Assoc(a: string, b: string, c: string)
    ensures a + b + c == a + (b + c)
  {
  }

  ghost function CommentText(t: Tree): string {
    if t.comments.None? then "" else Text(CommentLines(t.comments.value)) + "\n"
  }

  ghost function ItemText(t: Tree, level: nat): string {
    if level == 0 then "" else ItemLine(t, level) + "\n"
  }

  lemma OwnText(t: Tree, level: nat)
    ensures Text(OwnLines(t, level)) == CommentText(t) + ItemText(t, level)
  {
    var first := if t.comments.None? then [] else CommentLines(t.comments.value) + [""];
    var second := if level == 0 then [] else [ItemLine(t, level)];
    TextAppend(first, second);
    assert Text(first) == CommentText(t) by {
      if t.comments.Some? {
        TextAppend(CommentLines(t.comments.value), [""]);
        LineText("");
      }
    }
    assert Text(second) == ItemText(t, level) by {
      if level > 0 { LineText(ItemLine(t, level)); }
    }
  }

  function Concat(texts: seq<string>): string {
    if texts == [] then "" else Concat(texts[..|texts| - 1]) + texts[|texts| - 1]
  }

  lemma ConcatStep(before: string, texts: seq<string>, i: nat)
    requires i < |texts|
    ensures Concat(texts[..i + 1]) == Concat(texts[..i]) + texts[i]
    ensures before + Concat(texts[..i]) + texts[i] == before + Concat(texts[..i + 1])
  {
    assert texts[..i + 1][..i] == texts[..i];
  }

  ghost function KidTexts(kids: seq<Tree>, level: nat): (texts: seq<string>)
    ensures |texts| == |kids| && forall i :: 0 <= i < |kids| ==> texts[i] == Text(Lines(kids[i], level))
  {
    seq(|kids|, i requires 0 <= i < |kids| => Text(Lines(kids[i], level)))
  }

  lemma {:induction false} KidText(kids: seq<Tree>, level: nat)
    ensures Concat(KidTexts(kids, level)) == Text(KidLines(kids, level))
  {
    var n := |kids| - 1;
    if kids != [] {
      KidText(kids[..n], level);
      assert KidTexts(kids, level)[..n] == KidTexts(kids[..n], level);
      TextAppend(KidLines(kids[..n], level), Lines(kids[n], level));
    }
  }

  lemma LinesText(before: string, t: Tree, level: nat)
    ensures var own, kids := Text(OwnLines(t, level)), Concat(KidTexts(t.kids, level + 1));
            Text(Lines(t, level)) == own + kids && before + own + kids == before + (own + kids)
  {
    TextAppend(OwnLines(t, level), KidLines(t.kids, level + 1));
    KidText(t.kids, level + 1);
    Assoc(before, Text(OwnLines(t, level)), Text(KidLines(t.kids, level + 1)));
  }
}
