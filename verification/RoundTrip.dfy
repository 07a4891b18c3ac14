/** Saving and loading configuration trees: which trees are read back. */
module RoundTrip {
  import opened Options
  import opened Strings
  import opened ConfigTree
  import opened ConfigText

  // ----- trees that survive -----

  predicate LegalName(name: string) {
    && name != "" && (forall i :: 0 <= i < |name| ==> IsNameChar(name[i]))
    && name[0] != '/' && name[|name| - 1] != '/'
  }

  /** No character that ends a line or a string. */
  predicate OneLine(s: string) {
    '\n' !in s && '\0' !in s
  }

  predicate LegalValue(v: string) {
    '"' !in v && OneLine(v)
  }

  predicate LegalComment(c: string) {
    OneLine(c) && (c != "" ==> !IsSpace(c[|c| - 1])) && |c| < 1024
  }

  predicate NoComments(t: Tree) {
    t.comments.None? || t.comments.value == []
  }

  /** An item that is saved in one line that can be read back. */
  predicate Legal(t: Tree, level: nat)
    requires level > 0
    decreases t
  {
    && LegalName(t.name) && (t.value.Some? ==> LegalValue(t.value.value)) && NoComments(t)
    && |ItemLine(t, level)| <= 1024 && LegalAll(t.kids, level + 1)
  }

  predicate LegalAll(kids: seq<Tree>, level: nat)
    requires level > 0
    decreases kids
  {
    kids == [] || (LegalAll(kids[..|kids| - 1], level) && Legal(kids[|kids| - 1], level))
  }

  predicate LegalComments(t: Tree) {
    t.comments.Some? ==> forall i :: 0 <= i < |t.comments.value| ==> LegalComment(t.comments.value[i])
  }

  predicate LegalRoot(t: Tree) {
    LegalAll(t.kids, 1) && LegalComments(t)
  }

  function ValueRead(t: Tree): string {
    if t.value.None? then "" else t.value.value
  }

  /** The item as it should be read back: an absent value is read as an empty one. */
  function ReadBack(t: Tree): Tree
    decreases t
  {
    Tree(t.name, Some(ValueRead(t)), None, ReadBackAll(t.kids))
  }

  function ReadBackAll(kids: seq<Tree>): (ks: seq<Tree>)
    ensures |ks| == |kids|
    decreases kids
  {
    if kids == [] then [] else ReadBackAll(kids[..|kids| - 1]) + [ReadBack(kids[|kids| - 1])]
  }

  function CommentsRead(t: Tree): Option<seq<string>> {
    if t.comments == Some([]) then None else t.comments
  }

  /** The root is called "root" and has no value; an empty list of comments is none. */
  function ReadBackRoot(t: Tree): Tree {
    Tree("root", None, CommentsRead(t), ReadBackAll(t.kids))
  }

  // ----- what is read from the lines of a tree -----

  predicate Readable(line: string) {
    '\n' !in line && |line| <= 1024
  }

  type Step = (Tree, string) -> Option<Tree>

  /** How a line is read: the value it gives to an item of the given level and name. */
  type Reader = (string, nat, string) -> Option<string>

  /** A line that is read attaches its item. */
  predicate LineAdds(step: Step, read: Reader, s: string, level: nat, name: string, root: Tree) {
    var v := read(s, level, name);
    v.Some? ==> Readable(s) && step(root, s) == AppendAt(root, level, Tree(name, v, None, []))
  }

  /** The loader reads lines so, and skips empty ones. */
  ghost predicate LoadsBy(step: Step, read: Reader) {
    && (forall root :: step(root, "") == Some(root))
    && forall s, level, name, root :: LineAdds(step, read, s, level, name, root)
  }

  /** The value that is read from the line of an item. */
  function OwnValue(read: Reader, t: Tree, level: nat): Option<string>
    requires level > 0
  {
    read(ItemLine(t, level), level - 1, t.name)
  }

  predicate ReadsTree(read: Reader, t: Tree, level: nat)
    requires level > 0
    decreases t, 0
  {
    OwnValue(read, t, level).Some? && NoComments(t) && ReadsAll(read, t.kids, level + 1)
  }

  predicate ReadsAll(read: Reader, kids: seq<Tree>, level: nat)
    requires level > 0
    decreases kids, 0
  {
    kids == [] || (ReadsAll(read, kids[..|kids| - 1], level) && ReadsTree(read, kids[|kids| - 1], level))
  }

  /** The item that is read. */
  function ReadAs(read: Reader, t: Tree, level: nat): Tree
    requires level > 0
    decreases t, 0
  {
    Tree(t.name, OwnValue(read, t, level), None, ReadAsAll(read, t.kids, level + 1))
  }

  function ReadAsAll(read: Reader, kids: seq<Tree>, level: nat): (ks: seq<Tree>)
    requires level > 0
    ensures |ks| == |kids|
    decreases kids, 0
  {
    if kids == [] then [] else ReadAsAll(read, kids[..|kids| - 1], level) + [ReadAs(read, kids[|kids| - 1], level)]
  }

  /** How lines of a configuration are read. */
  function EntryValue(s: string, level: nat, name: string): Option<string> {
    if s == "" || s[0] == '#' || !Readable(s) || Trim(CString(s)) != s then None else
    var p := ParseLine(s);
    if p.Entry? && p.level == level && p.name == name then Some(p.value) else None
  }

  lemma AddLineLoads()
    ensures LoadsBy(AddLine, EntryValue)
  {
    forall root
      ensures AddLine(root, "") == Some(root)
    {
      EmptyLineBack(root);
    }
    forall s, level, name, root
      ensures LineAdds(AddLine, EntryValue, s, level, name, root)
    {
      EntryAdded(s, level, name, root);
    }
  }

  lemma EntryAdded(s: string, level: nat, name: string, root: Tree)
    ensures LineAdds(AddLine, EntryValue, s, level, name, root)
  {
  }

  // ----- reading one line back -----

  lemma SkipWhileIs(s: string, p: char -> bool, i: nat, j: nat)
    requires i <= j <= |s| && (j < |s| ==> !p(s[j])) && forall k :: i <= k < j ==> p(s[k])
    ensures SkipWhile(s, p, i) == j
  {
    var e := SkipWhile(s, p, i);
    assert e < |s| ==> !p(s[e]);
  }

  lemma NoZero(s: string)
    requires '\0' !in s
    ensures CString(s) == s
  {
    IndexFromIs(s, '\0', 0, |s|);
  }

  /** The value part of a line, from the end e of the name, is in quotes. */
  lemma ValueQuoted(s: string, e: nat, v: string)
    requires e <= |s| && s[e..] == " = \"" + v + "\""
    ensures |s| == e + 5 + |v| && s[e + 3] == '"' && ValueFrom(s, e) == Quoted(s, e + 3)
  {
    assert forall i :: 0 <= i < |s[e..]| ==> s[e..][i] == s[e + i];
    assert s[e] == ' ' && s[e + 1] == '=' && s[e + 2] == ' ' && s[e + 3] == '"';
    SkipWhileIs(s, IsSpace, e, e + 1);
    SkipWhileIs(s, IsSpace, e + 2, e + 3);
  }

  lemma ValueBack(s: string, e: nat, v: string)
    requires e <= |s| && s[e..] == " = \"" + v + "\"" && '"' !in v
    ensures ValueFrom(s, e) == Some(v)
  {
    ValueQuoted(s, e, v);
    assert forall i :: 0 <= i < |s[e..]| ==> s[e..][i] == s[e + i];
    var q := e + 4 + |v|;
    forall k | e + 4 <= k < q
      ensures s[k] != '"'
    {
      assert s[k] == v[k - e - 4];
    }
    IndexFromIs(s, '"', e + 4, q);
    assert s[e + 4..q] == v;
  }

  lemma NameAt(s: string, n: nat, e: nat)
    requires n < e <= |s| && LegalName(s[n..e])
    ensures (forall k :: n <= k < e ==> IsNameChar(s[k])) && s[n] != '/' && s[e - 1] != '/' && s[n] != '#' &&
            s[n] != ' '
  {
    var name := s[n..e];
    assert forall k :: n <= k < e ==> s[k] == name[k - n];
  }

  /** A line of n blanks, a legal name that ends at e, and a value is read as an item. */
  lemma ItemParsed(s: string, n: nat, e: nat)
    requires n < e <= |s| && n % 4 == 0 && (forall k :: 0 <= k < n ==> s[k] == ' ') && LegalName(s[n..e])
    requires e < |s| ==> !IsNameChar(s[e])
    ensures var v := ValueFrom(s, e);
            ParseLine(s) == (if v.None? then Malformed else Entry(n / 4, s[n..e], v.value)) && s[0] != '#'
  {
    NameAt(s, n, e);
    SkipWhileIs(s, IsBlank, 0, n);
    SkipWhileIs(s, IsNameChar, n, e);
  }

  /** An item's line is read whole. */
  lemma ItemLineWhole(t: Tree, level: nat)
    requires level > 0 && LegalName(t.name) && (t.value.Some? ==> OneLine(t.value.value))
    ensures Trim(CString(ItemLine(t, level))) == ItemLine(t, level) && '\n' !in ItemLine(t, level)
  {
    var s := ItemLine(t, level);
    NameHasNoBlanks(t.name);
    assert '\0' !in Spaces((level - 1) * 4) && '\0' !in t.name && '\0' !in ValueText(t);
    assert '\n' !in Spaces((level - 1) * 4) && '\n' !in t.name && '\n' !in ValueText(t);
    NoZero(s);
    assert t.value.None? ==> s[|s| - 1] == t.name[|t.name| - 1];
    assert t.value.Some? ==> s[|s| - 1] == '"';
  }

  /** Where the name ends in the line of an item. */
  function NameEnd(t: Tree, level: nat): nat
    requires level > 0
  {
    (level - 1) * 4 + |t.name|
  }

  lemma ItemLineParsed(t: Tree, level: nat) returns (s: string, e: nat)
    requires level > 0 && LegalName(t.name)
    ensures s == ItemLine(t, level) && e == NameEnd(t, level) <= |s| && s[e..] == ValueText(t) && s != "" && s[0] != '#'
    ensures var v := ValueFrom(s, e);
            ParseLine(s) == if v.None? then Malformed else Entry(level - 1, t.name, v.value)
  {
    s, e := ItemLine(t, level), NameEnd(t, level);
    var n := (level - 1) * 4;
    assert s[n..e] == t.name && s[e..] == ValueText(t);
    assert e < |s| ==> s[e] == s[e..][0] == ' ';
    ItemParsed(s, n, e);
  }

  /** A legal item is read, and read as it is. */
  lemma LegalReads(t: Tree, level: nat)
    requires level > 0 && Legal(t, level)
    ensures OwnValue(EntryValue, t, level) == Some(ValueRead(t))
  {
    ItemLineWhole(t, level);
    var s, e := ItemLineParsed(t, level);
    if t.value.Some? {
      ValueBack(s, e, t.value.value);
    }
  }

  lemma NameHasNoBlanks(name: string)
    requires forall i :: 0 <= i < |name| ==> IsNameChar(name[i])
    ensures forall i :: 0 <= i < |name| ==> name[i] != ' ' && name[i] != '#' && name[i] != '\0' && !IsSpace(name[i])
  {
  }

  lemma CommentLineBack(root: Tree, c: string)
    requires LegalComment(c)
    ensures AddLine(root, "#" + c) == Some(AddComment(root, c))
  {
    var s := "#" + c;
    NoZero(s);
    assert Trim(s) == s;
    SkipWhileIs(s, IsBlank, 0, 0);
    SkipWhileIs(s, IsNameChar, 0, 0);
    SkipWhileIs(s, IsSpace, 0, 0);
    assert s[1..] == c;
  }

  lemma EmptyLineBack(root: Tree)
    ensures AddLine(root, "") == Some(root)
  {
  }

  // ----- the round trip -----

  lemma {:induction false} LoadAppend(step: (Tree, string) -> Option<Tree>, xs: seq<string>, ys: seq<string>, t: Tree)
    requires LoadLines(step, xs, t).Loaded?
    ensures LoadLines(step, xs + ys, t) == LoadLines(step, ys, LoadLines(step, xs, t).tree)
    decreases |xs|
  {
    if xs == [] {
      assert xs + ys == ys;
    } else {
      LoadAppend(step, xs[1..], ys, step(t, xs[0]).value);
      assert (xs + ys)[1..] == xs[1..] + ys && (xs + ys)[0] == xs[0];
    }
  }

  lemma FirstLine(text: string, pos: nat, lines: seq<string>) returns (q: nat)
    requires pos <= |text| && text[pos..] == Text(lines) && lines != []
    ensures q == pos + |lines[0]| < |text| && text[q] == '\n' && text[pos..q] == lines[0]
    ensures text[q + 1..] == Text(lines[1..])
  {
    var line, rest := lines[0], Text(lines[1..]);
    q := pos + |line|;
    var tail := text[pos..];
    assert tail == line + "\n" + rest;
    assert tail[..|line|] == line && tail[|line|] == '\n' && tail[|line| + 1..] == rest;
    assert text[pos..q] == tail[..|line|] && text[q + 1..] == tail[|line| + 1..];
  }

  /** The text from pos on consists of the lines. */
  predicate Consists(text: string, pos: nat, lines: seq<string>)
    decreases lines
  {
    if lines == [] then pos == |text|
    else
      var q := pos + |lines[0]|;
      q < |text| && text[q] == '\n' && text[pos..q] == lines[0] && Consists(text, q + 1, lines[1..])
  }

  lemma {:induction false} TextConsists(text: string, pos: nat, lines: seq<string>)
    requires pos <= |text| && text[pos..] == Text(lines)
    ensures Consists(text, pos, lines)
    decreases lines
  {
    if lines != [] {
      var q := FirstLine(text, pos, lines);
      TextConsists(text, q + 1, lines[1..]);
    }
  }

  /** Text is split back into the lines it was made of. */
  lemma {:induction false} TextSplit(text: string, pos: nat, lines: seq<string>)
    requires Consists(text, pos, lines) && forall i :: 0 <= i < |lines| ==> '\n' !in lines[i]
    ensures pos <= |text| && SplitText(text, pos) == lines
    decreases lines
  {
    if lines != [] {
      var line, rest, q := lines[0], lines[1..], pos + |lines[0]|;
      assert lines == [line] + rest && '\n' !in line;
      TextSplit(text, q + 1, rest);
      LineSplit(text, pos, q, line);
    }
  }

  lemma LineSplit(text: string, pos: nat, q: nat, line: string)
    requires pos <= q < |text| && text[q] == '\n' && text[pos..q] == line && '\n' !in line
    ensures SplitText(text, pos) == [line] + SplitText(text, q + 1)
  {
    assert forall k :: pos <= k < q ==> text[k] == text[pos..q][k - pos];
    IndexFromIs(text, '\n', pos, q);
  }

  /** Appending an item and then something below it is appending the item with that below it. */
  lemma {:induction false} AppendBelow(t: Tree, depth: nat, item: Tree, kid: Tree)
    requires AppendAt(t, depth, item).Some?
    ensures AppendAt(AppendAt(t, depth, item).value, depth + 1, kid)
         == AppendAt(t, depth, item.(kids := item.kids + [kid]))
    decreases depth
  {
    var n := |t.kids|;
    if depth == 0 {
      assert (t.kids + [item])[n := item.(kids := item.kids + [kid])] == t.kids + [item.(kids := item.kids + [kid])];
    } else {
      AppendBelow(t.kids[n - 1], depth - 1, item, kid);
      var last := AppendAt(t.kids[n - 1], depth - 1, item).value;
      assert AppendAt(t, depth, item).value.kids == t.kids[n - 1 := last];
      var both := AppendAt(last, depth, kid);
      assert both.Some? ==> t.kids[n - 1 := last][n - 1 := both.value] == t.kids[n - 1 := both.value];
    }
  }

  lemma {:induction false} AppendWorks(t: Tree, depth: nat, item: Tree, other: Tree)
    ensures AppendAt(t, depth, item).Some? <==> AppendAt(t, depth, other).Some?
    decreases depth
  {
    if depth > 0 && t.kids != [] {
      AppendWorks(t.kids[|t.kids| - 1], depth - 1, item, other);
    }
  }

  /** The lines of an item attach the item, as read, to its parent. */
  lemma {:induction false} LinesBack(step: Step, read: Reader, t: Tree, level: nat, root: Tree)
    requires LoadsBy(step, read) && level > 0 && ReadsTree(read, t, level)
    requires AppendAt(root, level - 1, ReadAs(read, t, level)).Some?
    ensures LoadLines(step, Lines(t, level), root) == Loaded(AppendAt(root, level - 1, ReadAs(read, t, level)).value)
    decreases t, 0
  {
    var own := ReadAs(read, t, level).(kids := []);
    AppendWorks(root, level - 1, ReadAs(read, t, level), own);
    OwnLinesBack(step, read, t, level, root, own);
    LoadAppend(step, OwnLines(t, level), KidLines(t.kids, level + 1), root);
    KidLinesBack(step, read, t.kids, level, root, own);
  }

  lemma OwnLinesBack(step: Step, read: Reader, t: Tree, level: nat, root: Tree, own: Tree)
    requires LoadsBy(step, read) && level > 0 && ReadsTree(read, t, level)
    requires own == Tree(t.name, OwnValue(read, t, level), None, []) && AppendAt(root, level - 1, own).Some?
    ensures LoadLines(step, OwnLines(t, level), root) == Loaded(AppendAt(root, level - 1, own).value)
  {
    var line := ItemLine(t, level);
    assert LineAdds(step, read, line, level - 1, t.name, root);
    assert LoadLines(step, [line], root) == Loaded(AppendAt(root, level - 1, own).value);
    OwnLinesAre(t, level);
    assert LoadLines(step, [""], root) == Loaded(root);
    LoadAppend(step, [""], [line], root);
  }

  lemma OwnLinesAre(t: Tree, level: nat)
    requires level > 0 && NoComments(t)
    ensures OwnLines(t, level) == if t.comments.None? then [ItemLine(t, level)] else [""] + [ItemLine(t, level)]
  {
    assert CommentLines([]) + [""] == [""];
  }

  lemma {:induction false} KidLinesBack(step: Step, read: Reader, kids: seq<Tree>, level: nat, root: Tree, item: Tree)
    requires LoadsBy(step, read) && level > 0 && ReadsAll(read, kids, level + 1)
    requires item.kids == [] && AppendAt(root, level - 1, item).Some?
    ensures AppendAt(root, level - 1, item.(kids := ReadAsAll(read, kids, level + 1))).Some?
    ensures LoadLines(step, KidLines(kids, level + 1), AppendAt(root, level - 1, item).value)
         == Loaded(AppendAt(root, level - 1, item.(kids := ReadAsAll(read, kids, level + 1))).value)
    decreases kids, 1
  {
    AppendWorks(root, level - 1, item, item.(kids := ReadAsAll(read, kids, level + 1)));
    var n := |kids| - 1;
    if kids == [] {
      assert item.(kids := ReadAsAll(read, kids, level + 1)) == item;
    } else {
      var start := AppendAt(root, level - 1, item).value;
      var front := item.(kids := ReadAsAll(read, kids[..n], level + 1));
      KidLinesBack(step, read, kids[..n], level, root, item);
      LastKidBack(step, read, kids[n], level, root, front);
      LoadAppend(step, KidLines(kids[..n], level + 1), Lines(kids[n], level + 1), start);
    }
  }

  /** One more child of an item that has been attached. */
  lemma {:induction false} LastKidBack(step: Step, read: Reader, kid: Tree, level: nat, root: Tree, item: Tree)
    requires LoadsBy(step, read) && level > 0 && ReadsTree(read, kid, level + 1)
    requires AppendAt(root, level - 1, item).Some?
    ensures AppendAt(root, level - 1, item.(kids := item.kids + [ReadAs(read, kid, level + 1)])).Some?
    ensures LoadLines(step, Lines(kid, level + 1), AppendAt(root, level - 1, item).value)
         == Loaded(AppendAt(root, level - 1, item.(kids := item.kids + [ReadAs(read, kid, level + 1)])).value)
    decreases kid, 1
  {
    AppendWorks(root, level - 1, item, item.(kids := item.kids + [ReadAs(read, kid, level + 1)]));
    AppendBelow(root, level - 1, item, ReadAs(read, kid, level + 1));
    LinesBack(step, read, kid, level + 1, AppendAt(root, level - 1, item).value);
  }

  /** The children of the root are attached to the root in order. */
  lemma {:induction false} TopLinesBack(step: Step, read: Reader, kids: seq<Tree>, root: Tree)
    requires LoadsBy(step, read) && ReadsAll(read, kids, 1) && root.kids == []
    ensures LoadLines(step, KidLines(kids, 1), root) == Loaded(root.(kids := ReadAsAll(read, kids, 1)))
    decreases kids
  {
    var n := |kids| - 1;
    if kids != [] {
      TopLinesBack(step, read, kids[..n], root);
      var mid := root.(kids := ReadAsAll(read, kids[..n], 1));
      LinesBack(step, read, kids[n], 1, mid);
      LoadAppend(step, KidLines(kids[..n], 1), Lines(kids[n], 1), root);
    } else {
      assert root.(kids := ReadAsAll(read, kids, 1)) == root;
    }
  }

  lemma {:induction false} CommentLinesBack(comments: seq<string>, root: Tree)
    requires root.comments.None? && forall i :: 0 <= i < |comments| ==> LegalComment(comments[i])
    ensures LoadLines(AddLine, CommentLines(comments), root)
         == Loaded(root.(comments := if comments == [] then None else Some(comments)))
    decreases comments
  {
    var n := |comments| - 1;
    if comments != [] {
      CommentLinesBack(comments[..n], root);
      var mid := LoadLines(AddLine, CommentLines(comments[..n]), root).tree;
      LoadAppend(AddLine, CommentLines(comments[..n]), ["#" + comments[n]], root);
      CommentLineBack(mid, comments[n]);
      assert comments[..n] + [comments[n]] == comments;
    }
  }

  lemma {:induction false} LinesReadable(step: Step, read: Reader, t: Tree, level: nat)
    requires LoadsBy(step, read) && level > 0 && ReadsTree(read, t, level)
    ensures forall i :: 0 <= i < |Lines(t, level)| ==> Readable(Lines(t, level)[i])
    decreases t, 0
  {
    assert LineAdds(step, read, ItemLine(t, level), level - 1, t.name, t);
    OwnLinesAre(t, level);
    KidLinesReadable(step, read, t.kids, level + 1);
  }

  lemma {:induction false} KidLinesReadable(step: Step, read: Reader, kids: seq<Tree>, level: nat)
    requires LoadsBy(step, read) && level > 0 && ReadsAll(read, kids, level)
    ensures forall i :: 0 <= i < |KidLines(kids, level)| ==> Readable(KidLines(kids, level)[i])
    decreases kids, 1
  {
    if kids != [] {
      KidLinesReadable(step, read, kids[..|kids| - 1], level);
      LinesReadable(step, read, kids[|kids| - 1], level);
    }
  }

  lemma {:induction false} CommentLinesReadable(comments: seq<string>)
    requires forall i :: 0 <= i < |comments| ==> LegalComment(comments[i])
    ensures forall i :: 0 <= i < |CommentLines(comments)| ==> Readable(CommentLines(comments)[i])
    decreases comments
  {
    if comments != [] {
      var c := comments[|comments| - 1];
      assert LegalComment(c);
      CommentLinesReadable(comments[..|comments| - 1]);
    }
  }

  lemma RootLinesBack(t: Tree, root: Tree)
    requires LegalComments(t) && root.comments.None?
    ensures LoadLines(AddLine, OwnLines(t, 0), root) == Loaded(root.(comments := CommentsRead(t)))
    ensures forall i :: 0 <= i < |OwnLines(t, 0)| ==> Readable(OwnLines(t, 0)[i])
  {
    if t.comments.Some? {
      var lines := CommentLines(t.comments.value);
      CommentLinesBack(t.comments.value, root);
      CommentLinesReadable(t.comments.value);
      LoadAppend(AddLine, lines, [""], root);
      EmptyLineBack(LoadLines(AddLine, lines, root).tree);
      assert OwnLines(t, 0) == lines + [""];
    } else {
      assert OwnLines(t, 0) == [];
    }
  }

  lemma TextLines(t: Tree)
    requires forall i :: 0 <= i < |Lines(t, 0)| ==> '\n' !in Lines(t, 0)[i]
    ensures SplitText(Text(Lines(t, 0)), 0) == Lines(t, 0)
  {
    assert Text(Lines(t, 0))[0..] == Text(Lines(t, 0));
    TextConsists(Text(Lines(t, 0)), 0, Lines(t, 0));
    TextSplit(Text(Lines(t, 0)), 0, Lines(t, 0));
  }

  /** What is loaded from the text of a tree whose lines can be read. */
  lemma LoadSaved(t: Tree)
    requires LegalComments(t) && ReadsAll(EntryValue, t.kids, 1)
    ensures Load(Text(Lines(t, 0))) == Loaded(Tree("root", None, CommentsRead(t), ReadAsAll(EntryValue, t.kids, 1)))
  {
    var root, own := Item("root"), OwnLines(t, 0);
    AddLineLoads();
    RootLinesBack(t, root);
    LoadAppend(AddLine, own, KidLines(t.kids, 1), root);
    TopLinesBack(AddLine, EntryValue, t.kids, LoadLines(AddLine, own, root).tree);
    KidLinesReadable(AddLine, EntryValue, t.kids, 1);
    TextLines(t);
    TextLoaded(Text(Lines(t, 0)));
  }

  lemma TextLoaded(text: string)
    ensures var r, r' := Load(text), LoadLines(AddLine, SplitText(text, 0), Item("root"));
            (r.Loaded? <==> r'.Loaded?) && (r.Loaded? ==> r == r')
  {
    LoadedSame(AddLine, SplitText(text, 0), Ended(text), Item("root"));
  }

  /** Legal trees are read as they should be. */
  lemma {:induction false} LegalReadsTree(t: Tree, level: nat)
    requires level > 0 && Legal(t, level)
    ensures ReadsTree(EntryValue, t, level) && ReadAs(EntryValue, t, level) == ReadBack(t)
    decreases t, 0
  {
    LegalReads(t, level);
    LegalReadsAll(t.kids, level + 1);
  }

  lemma {:induction false} LegalReadsAll(kids: seq<Tree>, level: nat)
    requires level > 0 && LegalAll(kids, level)
    ensures ReadsAll(EntryValue, kids, level) && ReadAsAll(EntryValue, kids, level) == ReadBackAll(kids)
    decreases kids, 1
  {
    if kids != [] {
      LegalReadsAll(kids[..|kids| - 1], level);
      LegalReadsTree(kids[|kids| - 1], level);
    }
  }

  // ----- nothing else is read back -----

  lemma PartOneLine(s: string, i: nat, j: nat)
    requires OneLine(s) && i <= j <= |s|
    ensures OneLine(s[i..j])
  {
    assert forall c :: c in s[i..j] ==> c in s;
  }

  /** Items that can have been loaded. */
  predicate Loadable(t: Tree)
    decreases t, 0
  {
    LegalName(t.name) && t.value.Some? && OneLine(t.value.value) && LoadableAll(t.kids)
  }

  predicate LoadableAll(kids: seq<Tree>)
    decreases kids, 0
  {
    kids == [] || (LoadableAll(kids[..|kids| - 1]) && Loadable(kids[|kids| - 1]))
  }

  lemma {:induction false} AppendLoadable(t: Tree, depth: nat, item: Tree)
    requires LoadableAll(t.kids) && Loadable(item) && AppendAt(t, depth, item).Some?
    ensures var t' := AppendAt(t, depth, item).value;
            LoadableAll(t'.kids) && t' == t.(kids := t'.kids)
    decreases depth
  {
    var n := |t.kids|;
    if depth == 0 {
      assert (t.kids + [item])[..n] == t.kids;
    } else {
      AppendLoadable(t.kids[n - 1], depth - 1, item);
      var last := AppendAt(t.kids[n - 1], depth - 1, item).value;
      assert t.kids[n - 1 := last][..n - 1] == t.kids[..n - 1];
    }
  }

  lemma ParsedLoadable(s: string)
    requires OneLine(s) && ParseLine(s).Entry?
    ensures LegalName(ParseLine(s).name) && OneLine(ParseLine(s).value)
  {
    var i := SkipWhile(s, IsBlank, 0);
    var j := SkipWhile(s, IsNameChar, i);
    assert forall k :: 0 <= k < j - i ==> s[i..j][k] == s[i + k];
    ValueOneLine(s, j);
  }

  lemma ValueOneLine(s: string, j: nat)
    requires OneLine(s) && j <= |s| && ValueFrom(s, j).Some?
    ensures OneLine(ValueFrom(s, j).value)
  {
    var i := SkipWhile(s, IsSpace, j);
    if i < |s| && s[i] == '=' {
      var k := SkipWhile(s, IsSpace, i + 1);
      if k < |s| && (s[k] == '"' || s[k] == '\'') {
        QuotedOneLine(s, k);
      } else {
        UnquotedOneLine(s, k);
      }
    }
  }

  lemma QuotedOneLine(s: string, k: nat)
    requires OneLine(s) && k < |s| && Quoted(s, k).Some?
    ensures OneLine(Quoted(s, k).value)
  {
    PartOneLine(s, k + 1, IndexFrom(s, s[k], k + 1));
  }

  lemma UnquotedOneLine(s: string, k: nat)
    requires OneLine(s) && k <= |s|
    ensures OneLine(Unquoted(s, k))
  {
    var h := IndexFrom(s, '#', k);
    var e := if h == |s| then h else BackOver(s, h);
    PartOneLine(s, k, if e >= k then e else |s|);
  }

  /** The root keeps loadable items and legal comments. */
  lemma AddLineLoadable(t: Tree, line: string)
    requires Readable(line) && LoadableAll(t.kids) && LegalComments(t) && AddLine(t, line).Some?
    ensures LoadableAll(AddLine(t, line).value.kids) && LegalComments(AddLine(t, line).value)
  {
    var s := LineRead(line);
    var t' := if s != "" && s[0] == '#' then AddComment(t, s[1..]) else t;
    if s != "" && s[0] == '#' {
      CommentAdded(t, s);
    }
    var p := ParseLine(s);
    if p.Entry? {
      ParsedLoadable(s);
      AppendLoadable(t', p.level, Tree(p.name, Some(p.value), None, []));
    }
  }

  lemma LineRead(line: string) returns (s: string)
    requires Readable(line)
    ensures s == Trim(CString(line)) && OneLine(s) && |s| <= 1024 && (s != "" ==> !IsSpace(s[|s| - 1]))
  {
    s := Trim(CString(line));
    var c := CString(line);
    assert s == c[..|s|];
    assert forall x :: x in s ==> x in c;
    assert forall x :: x in c ==> x in line;
  }

  lemma CommentAdded(t: Tree, s: string)
    requires OneLine(s) && s != "" && |s| <= 1024 && !IsSpace(s[|s| - 1]) && LegalComments(t)
    ensures LegalComments(AddComment(t, s[1..]))
  {
    PartOneLine(s, 1, |s|);
    assert s[1..|s|] == s[1..];
    assert LegalComment(s[1..]);
  }

  lemma {:induction false} LoadLoadable(lines: seq<string>, t: Tree)
    requires LoadableAll(t.kids) && LegalComments(t) && LoadLines(AddLine, lines, t).Loaded?
    requires forall i :: 0 <= i < |lines| ==> '\n' !in lines[i]
    ensures var t' := LoadLines(AddLine, lines, t).tree; LoadableAll(t'.kids) && LegalComments(t')
    decreases lines
  {
    if lines != [] {
      AddLineLoadable(t, lines[0]);
      LoadLoadable(lines[1..], AddLine(t, lines[0]).value);
    }
  }

  lemma {:induction false} SplitLines(text: string, pos: nat)
    requires pos <= |text|
    ensures forall i :: 0 <= i < |SplitText(text, pos)| ==> '\n' !in SplitText(text, pos)[i]
    decreases |text| - pos
  {
    if pos < |text| {
      var e := IndexFrom(text, '\n', pos);
      SplitLines(text, if e < |text| then e + 1 else e);
    }
  }

  /** Items whose names and values can be loaded. */
  predicate Worded(t: Tree)
    decreases t, 0
  {
    LegalName(t.name) && (t.value.Some? ==> OneLine(t.value.value)) && WordedAll(t.kids)
  }

  predicate WordedAll(kids: seq<Tree>)
    decreases kids, 0
  {
    kids == [] || (WordedAll(kids[..|kids| - 1]) && Worded(kids[|kids| - 1]))
  }

  lemma {:induction false} WordedBack(t: Tree)
    requires Loadable(ReadBack(t))
    ensures Worded(t)
    decreases t, 0
  {
    WordedBackAll(t.kids);
  }

  lemma {:induction false} WordedBackAll(kids: seq<Tree>)
    requires LoadableAll(ReadBackAll(kids))
    ensures WordedAll(kids)
    decreases kids, 1
  {
    if kids != [] {
      var n := |kids| - 1;
      assert ReadBackAll(kids)[..n] == ReadBackAll(kids[..n]);
      WordedBackAll(kids[..n]);
      WordedBack(kids[n]);
    }
  }

  // ----- comments of items are read as comments of the root -----

  function Hash(line: string): nat {
    if line != "" && line[0] == '#' then 1 else 0
  }

  function Hashes(lines: seq<string>): nat {
    if lines == [] then 0 else Hash(lines[0]) + Hashes(lines[1..])
  }

  lemma {:induction false} HashesCat(xs: seq<string>, ys: seq<string>)
    ensures Hashes(xs + ys) == Hashes(xs) + Hashes(ys)
    decreases xs
  {
    if xs == [] {
      assert xs + ys == ys;
    } else {
      HashesCat(xs[1..], ys);
      assert (xs + ys)[0] == xs[0] && (xs + ys)[1..] == xs[1..] + ys;
    }
  }

  function Comments(t: Tree): nat {
    if t.comments.None? then 0 else |t.comments.value|
  }

  lemma HashAdds(t: Tree, line: string)
    requires AddLine(t, line).Some?
    ensures Comments(AddLine(t, line).value) >= Comments(t) + Hash(line)
  {
    var c := CString(line);
    var s := Trim(c);
    if Hash(line) == 1 {
      assert c[0] == '#';
      TrimFirst(c);
    }
    var p := ParseLine(s);
    if p.Entry? {
      var t' := if s != "" && s[0] == '#' then AddComment(t, s[1..]) else t;
      AppendComments(t', p.level, Tree(p.name, Some(p.value), None, []));
    }
  }

  lemma {:induction false} TrimFirst(s: string)
    requires s != "" && !IsSpace(s[0])
    ensures Trim(s) != "" && Trim(s)[0] == s[0]
    decreases s
  {
    if IsSpace(s[|s| - 1]) {
      TrimFirst(s[..|s| - 1]);
    }
  }

  lemma AppendComments(t: Tree, depth: nat, item: Tree)
    requires AppendAt(t, depth, item).Some?
    ensures AppendAt(t, depth, item).value.comments == t.comments
  {
  }

  lemma {:induction false} HashesAdd(lines: seq<string>, t: Tree)
    requires LoadLines(AddLine, lines, t).Loaded?
    ensures Comments(LoadLines(AddLine, lines, t).tree) >= Comments(t) + Hashes(lines)
    decreases lines
  {
    if lines != [] {
      HashAdds(t, lines[0]);
      HashesAdd(lines[1..], AddLine(t, lines[0]).value);
    }
  }

  lemma NewlineBy(text: string, pos: nat, q: nat)
    requires pos <= q < |text| && text[q] == '\n'
    ensures IndexFrom(text, '\n', pos) <= q
  {
    var e := IndexFrom(text, '\n', pos);
    assert forall k :: pos <= k < e ==> text[k] == text[pos..e][k - pos];
  }

  /** A line that starts at pos and is ended at q or before starts a line of the text. */
  lemma {:induction false} SplitHashes(text: string, pos: nat, q: nat)
    requires pos <= q < |text| && text[q] == '\n'
    ensures Hashes(SplitText(text, pos)) >= (if text[pos] == '#' then 1 else 0) + Hashes(SplitText(text, q + 1))
    decreases q - pos
  {
    NewlineBy(text, pos, q);
    var e := SplitStep(text, pos);
    if e < q {
      SplitHashes(text, e + 1, q);
    }
  }

  lemma SplitStep(text: string, pos: nat) returns (e: nat)
    requires pos < |text| && IndexFrom(text, '\n', pos) < |text|
    ensures e == IndexFrom(text, '\n', pos)
    ensures Hashes(SplitText(text, pos)) == (if text[pos] == '#' then 1 else 0) + Hashes(SplitText(text, e + 1))
  {
    e := IndexFrom(text, '\n', pos);
    HashFirst(text[pos..e], SplitText(text, e + 1));
    HashOf(text, pos, e);
  }

  lemma HashOf(text: string, pos: nat, e: nat)
    requires pos <= e < |text| && text[e] == '\n'
    ensures Hash(text[pos..e]) == if text[pos] == '#' then 1 else 0
  {
  }

  lemma HashFirst(line: string, rest: seq<string>)
    ensures Hashes([line] + rest) == Hash(line) + Hashes(rest)
  {
    assert ([line] + rest)[1..] == rest;
  }

  lemma {:induction false} TextHashes(text: string, pos: nat, lines: seq<string>)
    requires Consists(text, pos, lines)
    ensures pos <= |text| && Hashes(SplitText(text, pos)) >= Hashes(lines)
    decreases lines
  {
    if lines != [] {
      var q := pos + |lines[0]|;
      assert lines[0] != "" ==> text[pos] == lines[0][0];
      TextHashes(text, q + 1, lines[1..]);
      SplitHashes(text, pos, q);
    }
  }

  lemma {:induction false} CommentHashes(comments: seq<string>)
    ensures Hashes(CommentLines(comments)) == |comments|
    decreases comments
  {
    if comments != [] {
      var n := |comments| - 1;
      CommentHashes(comments[..n]);
      HashesCat(CommentLines(comments[..n]), ["#" + comments[n]]);
    }
  }

  lemma OwnHashes(t: Tree, level: nat)
    ensures Hashes(OwnLines(t, level)) >= Comments(t)
  {
    var own := if t.comments.None? then [] else CommentLines(t.comments.value) + [""];
    if t.comments.Some? {
      CommentHashes(t.comments.value);
      HashesCat(CommentLines(t.comments.value), [""]);
    }
    HashesCat(own, if level == 0 then [] else [ItemLine(t, level)]);
  }

  /** Names and values that can be loaded, and no comments. */
  predicate Bare(t: Tree)
    decreases t, 0
  {
    LegalName(t.name) && (t.value.Some? ==> OneLine(t.value.value)) && NoComments(t) && BareAll(t.kids)
  }

  predicate BareAll(kids: seq<Tree>)
    decreases kids, 0
  {
    kids == [] || (BareAll(kids[..|kids| - 1]) && Bare(kids[|kids| - 1]))
  }

  lemma {:induction false} NoHashes(t: Tree, level: nat)
    requires Worded(t) && Hashes(Lines(t, level)) == 0
    ensures Bare(t)
    decreases t, 0
  {
    HashesCat(OwnLines(t, level), KidLines(t.kids, level + 1));
    OwnHashes(t, level);
    NoHashesAll(t.kids, level + 1);
  }

  lemma {:induction false} NoHashesAll(kids: seq<Tree>, level: nat)
    requires WordedAll(kids) && Hashes(KidLines(kids, level)) == 0
    ensures BareAll(kids)
    decreases kids, 1
  {
    if kids != [] {
      var n := |kids| - 1;
      HashesCat(KidLines(kids[..n], level), Lines(kids[n], level));
      NoHashesAll(kids[..n], level);
      NoHashes(kids[n], level);
    }
  }

  // ----- lines that were loaded -----

  /** A line that did not stop the loader. */
  predicate Accepted(line: string) {
    |line| <= 1024 && ParseLine(Trim(CString(line))) != Malformed
  }

  lemma {:induction false} LoadedAccepted(lines: seq<string>, t: Tree)
    requires LoadLines(AddLine, lines, t).Loaded?
    ensures AllOf(Accepted, lines)
    decreases lines
  {
    if lines != [] {
      LoadedAccepted(lines[1..], AddLine(t, lines[0]).value);
    }
  }

  lemma {:induction false} BareLines(t: Tree, level: nat)
    requires level > 0 && Bare(t)
    ensures forall i :: 0 <= i < |Lines(t, level)| ==> '\n' !in Lines(t, level)[i]
    decreases t, 0
  {
    OwnLinesAre(t, level);
    ItemLineWhole(t, level);
    BareKidLines(t.kids, level + 1);
  }

  lemma {:induction false} BareKidLines(kids: seq<Tree>, level: nat)
    requires level > 0 && BareAll(kids)
    ensures forall i :: 0 <= i < |KidLines(kids, level)| ==> '\n' !in KidLines(kids, level)[i]
    decreases kids, 1
  {
    if kids != [] {
      BareKidLines(kids[..|kids| - 1], level);
      BareLines(kids[|kids| - 1], level);
    }
  }

  /** The line of a bare item, if it was accepted, was read as that item. */
  lemma ItemAccepted(t: Tree, level: nat)
    requires level > 0 && Bare(t) && Accepted(ItemLine(t, level))
    ensures OwnValue(EntryValue, t, level).Some?
  {
    var v := ItemParses(t, level);
    EntryAccepted(ItemLine(t, level), level - 1, t.name, v);
  }

  /** A line that is read whole, as an item or not at all. */
  predicate WholeLine(s: string, level: nat, name: string, v: Option<string>) {
    && Trim(CString(s)) == s && '\n' !in s && s != "" && s[0] != '#'
    && ParseLine(s) == if v.None? then Malformed else Entry(level, name, v.value)
  }

  lemma ItemParses(t: Tree, level: nat) returns (v: Option<string>)
    requires level > 0 && Bare(t)
    ensures WholeLine(ItemLine(t, level), level - 1, t.name, v)
  {
    ItemLineWhole(t, level);
    var s, e := ItemLineParsed(t, level);
    v := ValueFrom(s, e);
  }

  lemma EntryAccepted(s: string, level: nat, name: string, v: Option<string>)
    requires WholeLine(s, level, name, v) && Accepted(s)
    ensures EntryValue(s, level, name) == v && v.Some?
  {
  }

  predicate AllOf(ok: string -> bool, lines: seq<string>) {
    forall i :: 0 <= i < |lines| ==> ok(lines[i])
  }

  lemma AllOfParts(ok: string -> bool, xs: seq<string>, ys: seq<string>)
    requires AllOf(ok, xs + ys)
    ensures AllOf(ok, xs) && AllOf(ok, ys)
  {
    assert forall i :: 0 <= i < |xs| ==> xs[i] == (xs + ys)[i];
    assert forall i :: 0 <= i < |ys| ==> ys[i] == (xs + ys)[|xs| + i];
  }

  /** Lines of bare items that are accepted are read. */
  ghost predicate Tells(ok: string -> bool, read: Reader) {
    forall t, level: nat :: level > 0 && Bare(t) && ok(ItemLine(t, level)) ==> OwnValue(read, t, level).Some?
  }

  lemma AcceptedTells()
    ensures Tells(Accepted, EntryValue)
  {
    forall t, level: nat | level > 0 && Bare(t) && Accepted(ItemLine(t, level))
      ensures OwnValue(EntryValue, t, level).Some?
    {
      ItemAccepted(t, level);
    }
  }

  lemma {:induction false} TreeAccepted(ok: string -> bool, read: Reader, t: Tree, level: nat)
    requires Tells(ok, read) && level > 0 && Bare(t) && AllOf(ok, Lines(t, level))
    ensures ReadsTree(read, t, level)
    decreases t, 0
  {
    AllOfParts(ok, OwnLines(t, level), KidLines(t.kids, level + 1));
    OwnAccepted(ok, read, t, level);
    KidsAccepted(ok, read, t.kids, level + 1);
  }

  lemma OwnAccepted(ok: string -> bool, read: Reader, t: Tree, level: nat)
    requires Tells(ok, read) && level > 0 && Bare(t) && AllOf(ok, OwnLines(t, level))
    ensures OwnValue(read, t, level).Some?
  {
    var own := OwnLines(t, level);
    OwnLinesAre(t, level);
    assert own[|own| - 1] == ItemLine(t, level);
  }

  lemma {:induction false} KidsAccepted(ok: string -> bool, read: Reader, kids: seq<Tree>, level: nat)
    requires Tells(ok, read) && level > 0 && BareAll(kids) && AllOf(ok, KidLines(kids, level))
    ensures ReadsAll(read, kids, level)
    decreases kids, 1
  {
    if kids != [] {
      var n := |kids| - 1;
      AllOfParts(ok, KidLines(kids[..n], level), Lines(kids[n], level));
      KidsAccepted(ok, read, kids[..n], level);
      TreeAccepted(ok, read, kids[n], level);
    }
  }

  /** A value in quotes is read up to the first quotation mark. */
  lemma NoQuote(t: Tree, level: nat)
    requires level > 0 && LegalName(t.name) && t.value.Some? && OwnValue(EntryValue, t, level).Some?
    ensures '"' !in OwnValue(EntryValue, t, level).value
  {
    var s, e := ItemLineParsed(t, level);
    ValueQuoted(s, e, t.value.value);
  }

  lemma {:induction false} ReadIsLegal(t: Tree, level: nat)
    requires level > 0 && Bare(t) && ReadsTree(EntryValue, t, level) && ReadAs(EntryValue, t, level) == ReadBack(t)
    ensures Legal(t, level)
    decreases t, 0
  {
    if t.value.Some? {
      NoQuote(t, level);
    }
    ReadAreLegal(t.kids, level + 1);
  }

  lemma {:induction false} ReadAreLegal(kids: seq<Tree>, level: nat)
    requires level > 0 && BareAll(kids) && ReadsAll(EntryValue, kids, level)
    requires ReadAsAll(EntryValue, kids, level) == ReadBackAll(kids)
    ensures LegalAll(kids, level)
    decreases kids, 1
  {
    if kids != [] {
      var n := |kids| - 1;
      assert ReadAsAll(EntryValue, kids, level)[..n] == ReadAsAll(EntryValue, kids[..n], level);
      assert ReadBackAll(kids)[..n] == ReadBackAll(kids[..n]);
      assert ReadAsAll(EntryValue, kids, level)[n] == ReadBackAll(kids)[n];
      ReadAreLegal(kids[..n], level);
      ReadIsLegal(kids[n], level);
    }
  }

  // ----- the law -----

  /** What was loaded from the text of a tree as it should be has bare items. */
  lemma LoadedBare(t: Tree)
    requires Load(Text(Lines(t, 0))) == Loaded(ReadBackRoot(t))
    ensures LegalComments(t) && BareAll(t.kids)
  {
    var text := Text(Lines(t, 0));
    TextLoaded(text);
    SplitLines(text, 0);
    LoadLoadable(SplitText(text, 0), Item("root"));
    WordedBackAll(t.kids);
    HashesAdd(SplitText(text, 0), Item("root"));
    assert text[0..] == text;
    TextConsists(text, 0, Lines(t, 0));
    TextHashes(text, 0, Lines(t, 0));
    HashesCat(OwnLines(t, 0), KidLines(t.kids, 1));
    OwnHashes(t, 0);
    NoHashesAll(t.kids, 1);
  }

  /** The lines of bare items that were loaded were read. */
  lemma LoadedReads(t: Tree)
    requires Load(Text(Lines(t, 0))).Loaded? && LegalComments(t) && BareAll(t.kids)
    ensures ReadsAll(EntryValue, t.kids, 1)
  {
    var own, kids := OwnLines(t, 0), KidLines(t.kids, 1);
    RootLinesBack(t, Item("root"));
    BareKidLines(t.kids, 1);
    TextLines(t);
    TextLoaded(Text(Lines(t, 0)));
    LoadedAccepted(own + kids, Item("root"));
    AllOfParts(Accepted, own, kids);
    AcceptedTells();
    KidsAccepted(Accepted, EntryValue, t.kids, 1);
  }

  /** Loading what was saved gives back the tree exactly if it is legal. */
  lemma SaveThenLoad(t: Tree)
    ensures Load(Text(Lines(t, 0))) == Loaded(ReadBackRoot(t)) <==> LegalRoot(t)
  {
    if LegalRoot(t) {
      LegalReadsAll(t.kids, 1);
      LoadSaved(t);
    } else if Load(Text(Lines(t, 0))) == Loaded(ReadBackRoot(t)) {
      LoadedBare(t);
      LoadedReads(t);
      LoadSaved(t);
      ReadAreLegal(t.kids, 1);
    }
  }
}
