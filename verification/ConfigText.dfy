/** The text form of configuration trees (ZPL, rfc.zeromq.org/spec:4): saving, loading, and
    the round trip. */
module ConfigText {
  import opened Options
  import opened Strings
  import opened ConfigTree

  // ----- characters -----

  predicate IsSpace(c: char) {
    c == ' ' || 9 <= c as int <= 13
  }

  predicate IsBlank(c: char) {
    c == ' '
  }

  predicate IsNameChar(c: char) {
    || '0' <= c <= '9' || 'A' <= c <= 'Z' || 'a' <= c <= 'z'
    || c == '$' || c == '-' || c == '_' || c == '@' || c == '.' || c == '&' || c == '+' || c == '/'
  }

  /** Position of the first character at or after i that is not p. */
  function SkipWhile(s: string, p: char -> bool, i: nat): (j: nat)
    requires i <= |s|
    ensures i <= j <= |s| && (j < |s| ==> !p(s[j])) && forall k :: i <= k < j ==> p(s[k])
    decreases |s| - i
  {
    if i == |s| || !p(s[i]) then i else SkipWhile(s, p, i + 1)
  }

  function Trim(s: string): (r: string)
    ensures r <= s && (r != "" ==> !IsSpace(r[|r| - 1]))
  {
    if s == "" || !IsSpace(s[|s| - 1]) then s else Trim(s[..|s| - 1])
  }

  /** Characters up to a zero character, as C reads them. */
  function CString(s: string): string {
    s[..IndexFrom(s, '\0', 0)]
  }

  // ----- saving -----

  function Spaces(n: nat): (s: string)
    ensures |s| == n && forall i :: 0 <= i < n ==> s[i] == ' '
  {
    seq(n, _ => ' ')
  }

  function ValueText(t: Tree): string {
    if t.value.None? then "" else " = \"" + t.value.value + "\""
  }

  function ItemLine(t: Tree, level: nat): string
    requires level > 0
  {
    Spaces((level - 1) * 4) + t.name + ValueText(t)
  }

  function CommentLines(comments: seq<string>): seq<string> {
    if comments == [] then [] else CommentLines(comments[..|comments| - 1]) + ["#" + comments[|comments| - 1]]
  }

  /** The lines for one item without its children. */
  function OwnLines(t: Tree, level: nat): seq<string> {
    (if t.comments.None? then [] else CommentLines(t.comments.value) + [""])
    + (if level == 0 then [] else [ItemLine(t, level)])
  }

  function Lines(t: Tree, level: nat): seq<string>
    decreases t
  {
    OwnLines(t, level) + KidLines(t.kids, level + 1)
  }

  function KidLines(kids: seq<Tree>, level: nat): seq<string>
    decreases kids
  {
    if kids == [] then [] else KidLines(kids[..|kids| - 1], level) + Lines(kids[|kids| - 1], level)
  }

  function Text(lines: seq<string>): string {
    if lines == [] then "" else lines[0] + "\n" + Text(lines[1..])
  }

  // ----- loading -----

  datatype LoadResult = Loaded(tree: Tree) | Invalid | Overrun

  /** Nothing but blanks, up to a comment. */
  predicate CleanEnd(s: string, i: nat)
    requires i <= |s|
  {
    var j := SkipWhile(s, IsSpace, i);
    j == |s| || s[j] == '#'
  }

  /** Position before i to which blanks reach back. */
  function BackOver(s: string, i: nat): (j: nat)
    requires i <= |s|
    ensures j <= i && (forall k :: j <= k < i ==> IsSpace(s[k])) && (j > 0 ==> !IsSpace(s[j - 1]))
  {
    if i == 0 || !IsSpace(s[i - 1]) then i else BackOver(s, i - 1)
  }

  /** An unquoted value from k on: it extends to a comment and loses the blanks before it;
      where the comment comes at once after blanks, the comment is taken for the value. */
  function Unquoted(s: string, k: nat): string
    requires k <= |s|
  {
    var h := IndexFrom(s, '#', k);
    var e := if h == |s| then h else BackOver(s, h);
    if e >= k then s[k..e] else s[k..]
  }

  /** A value in the quotes that open at k: none if they stay open or something follows. */
  function Quoted(s: string, k: nat): Option<string>
    requires k < |s|
  {
    var e := IndexFrom(s, s[k], k + 1);
    if e == |s| || !CleanEnd(s, e + 1) then None else Some(s[k + 1..e])
  }

  /** The value after a name that ends at i: none if the line is malformed. */
  function ValueFrom(s: string, i: nat): Option<string>
    requires i <= |s|
  {
    var j := SkipWhile(s, IsSpace, i);
    if j < |s| && s[j] == '=' then
      var k := SkipWhile(s, IsSpace, j + 1);
      if k < |s| && (s[k] == '"' || s[k] == '\'') then
        Quoted(s, k)
      else
        Some(Unquoted(s, k))
    else if CleanEnd(s, j) then Some("") else None
  }

  /** Attaches an item as last child of the latest item at the given depth. */
  function AppendAt(t: Tree, depth: nat, item: Tree): Option<Tree>
    decreases depth
  {
    if depth == 0 then Some(t.(kids := t.kids + [item]))
    else if t.kids == [] then None
    else
      var n := |t.kids| - 1;
      var last := AppendAt(t.kids[n], depth - 1, item);
      if last.None? then None else Some(t.(kids := t.kids[n := last.value]))
  }

  function AddComment(t: Tree, comment: string): Tree {
    t.(comments := Some((if t.comments.None? then [] else t.comments.value) + [comment]))
  }

  datatype Line = Malformed | Empty | Entry(level: nat, name: string, value: string)

  function ParseLine(s: string): Line {
    var i := SkipWhile(s, IsBlank, 0);
    if i % 4 != 0 then Malformed else
    var j := SkipWhile(s, IsNameChar, i);
    if i == j then
      if CleanEnd(s, i) then Empty else Malformed
    else if s[i] == '/' || s[j - 1] == '/' then Malformed
    else
      var v := ValueFrom(s, j);
      if v.None? then Malformed else Entry(i / 4, s[i..j], v.value)
  }

  /** The effect of one line on the tree loaded so far; none if it is not valid. */
  function AddLine(t: Tree, line: string): Option<Tree> {
    var s := Trim(CString(line));
    var t' := if s != "" && s[0] == '#' then AddComment(t, s[1..]) else t;
    match ParseLine(s)
    case Malformed => None
    case Empty => Some(t')
    case Entry(level, name, value) => AppendAt(t', level, Tree(name, Some(value), None, []))
  }

  /** The lines of a text from pos on; a newline at the end starts no further line. */
  function SplitText(text: string, pos: nat): (lines: seq<string>)
    requires pos <= |text|
    decreases |text| - pos
  {
    if pos == |text| then [] else
    var e := IndexFrom(text, '\n', pos);
    [text[pos..e]] + SplitText(text, if e < |text| then e + 1 else e)
  }

  /** Processes lines one by one, unless one is too long. */
  function LoadLines(step: (Tree, string) -> Option<Tree>, lines: seq<string>, t: Tree): LoadResult
    decreases |lines|
  {
    if lines == [] then Loaded(t)
    else if |lines[0]| > 1024 then Overrun
    else
      var t' := step(t, lines[0]);
      if t'.None? then Invalid else LoadLines(step, lines[1..], t'.value)
  }

  function Cut(line: string): string {
    if |line| > 1024 then line[..1024] else line
  }

  /** Processes the first 1024 characters of each line.  A longer line makes the loader lose
      count of what remains: it then reads past the end of the text, unless it finds a line
      that is not valid before. */
  function LoadText(step: (Tree, string) -> Option<Tree>, lines: seq<string>, ended: bool, off: bool, t: Tree)
    : LoadResult
    decreases |lines|
  {
    if lines == [] then (if off then Overrun else Loaded(t))
    else if off && !ended && |lines| == 1 then Overrun
    else
      var t' := step(t, Cut(lines[0]));
      if t'.None? then Invalid else LoadText(step, lines[1..], ended, off || |lines[0]| > 1024, t'.value)
  }

  predicate Ended(text: string) {
    text != "" && text[|text| - 1] == '\n'
  }

  function Load(text: string): LoadResult {
    LoadText(AddLine, SplitText(text, 0), Ended(text), false, Item("root"))
  }

  lemma {:induction false} NeverLoaded(step: (Tree, string) -> Option<Tree>, lines: seq<string>, ended: bool, t: Tree)
    ensures !LoadText(step, lines, ended, true, t).Loaded?
    decreases lines
  {
    if lines != [] && !(!ended && |lines| == 1) {
      var t' := step(t, Cut(lines[0]));
      if t'.Some? { NeverLoaded(step, lines[1..], ended, t'.value); }
    }
  }

  /** Text is loaded exactly if none of its lines is too long and all are valid. */
  lemma {:induction false} LoadedSame(step: (Tree, string) -> Option<Tree>, lines: seq<string>, ended: bool, t: Tree)
    ensures var r, r' := LoadText(step, lines, ended, false, t), LoadLines(step, lines, t);
            (r.Loaded? <==> r'.Loaded?) && (r.Loaded? ==> r == r')
    decreases lines
  {
    if lines != [] {
      var t' := step(t, Cut(lines[0]));
      if t'.Some? {
        if |lines[0]| > 1024 {
          NeverLoaded(step, lines[1..], ended, t'.value);
        } else {
          LoadedSame(step, lines[1..], ended, t'.value);
        }
      }
    }
  }

  // ----- comments after values -----

  /** A comment sign is taken into an unquoted value exactly if the value would start with
      it, after a blank. */
  lemma CommentTaken(s: string, k: nat)
    requires 0 < k <= |s| && (k < |s| ==> !IsSpace(s[k]))
    ensures '#' in Unquoted(s, k) <==> k < |s| && s[k] == '#' && IsSpace(s[k - 1])
  {
    var h := IndexFrom(s, '#', k);
    if h < |s| {
      var e := BackOver(s, h);
      if e < k {
        assert s[k..][0] == s[k];
      } else {
        assert forall i :: 0 <= i < e - k ==> s[k..e][i] == s[k..h][i];
      }
    }
  }
}
