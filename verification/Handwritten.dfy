/** Configurations as people write them: properties with plain or quoted values and comments,
    and what is loaded from them. */
module Handwritten {
  import opened Options
  import opened Strings
  import opened ConfigTree
  import opened ConfigText
  import opened RoundTrip

  // ----- lines -----

  /** A property may have no value, one without quotes or one in quotes; or a comment stands where
      the value is expected. */
  datatype Form =
    | Bare
    | Nothing(gap: string)
    | Hash(gap: string, after: string, text: string)
    | Plain(gap: string, after: string, v: string)
    | InQuotes(gap: string, after: string, q: char, v: string)

  datatype Tail = End | Remark(gap: string, text: string)

  /** A line: a comment, or a property at a level; blanks may follow. */
  datatype Written =
    | Note(text: string, trail: string)
    | Property(level: nat, name: string, form: Form, tail: Tail, trail: string)

  function TailText(tail: Tail): string {
    match tail
    case End => ""
    case Remark(gap, text) => gap + "#" + text
  }

  /** What follows the name of a property. */
  function RestText(form: Form, tail: Tail): string {
    match form
    case Bare => TailText(tail)
    case Nothing(gap) => gap + "="
    case Hash(gap, after, text) => gap + ("=" + (after + ("#" + text)))
    case Plain(gap, after, v) => gap + ("=" + (after + (v + TailText(tail))))
    case InQuotes(gap, after, q, v) => gap + ("=" + (after + ([q] + v + [q] + TailText(tail))))
  }

  /** A line without the blanks that follow it. */
  function Body(w: Written): string {
    match w
    case Note(text, _) => "#" + text
    case Property(level, name, form, tail, _) => Spaces(4 * level) + name + RestText(form, tail)
  }

  function LineText(w: Written): string {
    Body(w) + w.trail
  }

  // ----- legal lines -----

  predicate Blanks(s: string) {
    forall i :: 0 <= i < |s| ==> IsSpace(s[i])
  }

  predicate NoBlankEnd(s: string) {
    s != "" ==> !IsSpace(s[|s| - 1])
  }

  /** A value that needs no quotes. */
  predicate PlainValue(v: string) {
    && v != "" && '#' !in v && !IsSpace(v[0]) && v[0] != '"' && v[0] != '\'' && !IsSpace(v[|v| - 1])
  }

  predicate LegalForm(form: Form) {
    match form
    case Bare => true
    case Nothing(gap) => Blanks(gap)
    case Hash(gap, after, text) => Blanks(gap) && Blanks(after) && NoBlankEnd(text)
    case Plain(gap, after, v) => Blanks(gap) && Blanks(after) && PlainValue(v)
    case InQuotes(gap, after, q, v) => Blanks(gap) && Blanks(after) && (q == '"' || q == '\'') && q !in v
  }

  predicate LegalTail(tail: Tail) {
    tail.Remark? ==> Blanks(tail.gap) && NoBlankEnd(tail.text)
  }

  predicate LegalLine(w: Written) {
    && OneLine(LineText(w)) && Blanks(w.trail)
    && (w.Note? ==> NoBlankEnd(w.text))
    && (w.Property? ==> LegalName(w.name) && LegalForm(w.form) && LegalTail(w.tail))
  }

  /** The value that a property has: a comment after blanks is taken for the value. */
  function ValueOf(form: Form): string {
    match form
    case Bare => ""
    case Nothing(_) => ""
    case Hash(_, after, text) => if after == "" then "" else "#" + text
    case Plain(_, _, v) => v
    case InQuotes(_, _, _, v) => v
  }

  // ----- the value of a property -----

  lemma BackOverIs(s: string, i: nat, j: nat)
    requires j <= i <= |s| && (forall k :: j <= k < i ==> IsSpace(s[k])) && (j > 0 ==> !IsSpace(s[j - 1]))
    ensures BackOver(s, i) == j
  {
    var e := BackOver(s, i);
    assert e > 0 ==> !IsSpace(s[e - 1]);
  }

  /** What follows a value, from e on, is blanks and perhaps a comment. */
  lemma TailClean(s: string, e: nat, tail: Tail)
    requires e <= |s| && s[e..] == TailText(tail) && LegalTail(tail)
    ensures CleanEnd(s, e)
  {
    assert forall i :: 0 <= i < |s[e..]| ==> s[e..][i] == s[e + i];
    if tail.Remark? {
      SkipWhileIs(s, IsSpace, e, e + |tail.gap|);
    }
  }

  lemma Parts(s: string, e: nat, a: string, b: string)
    requires e <= |s| && s[e..] == a + b
    ensures |s| == e + |a| + |b| && s[e..e + |a|] == a && s[e + |a|..] == b
    ensures forall i :: e <= i < e + |a| ==> s[i] == a[i - e]
  {
    assert s[e..][..|a|] == a && s[e..][|a|..] == b;
    forall i | e <= i < e + |a|
      ensures s[i] == a[i - e]
    {
      assert s[i] == s[e..][i - e];
    }
  }

  lemma UnquotedTo(s: string, k: nat, e: nat, h: nat)
    requires 0 < k < e <= h <= |s| && (h < |s| ==> s[h] == '#') && !IsSpace(s[e - 1])
    requires (forall i :: k <= i < h ==> s[i] != '#') && (forall i :: e <= i < h ==> IsSpace(s[i]))
    requires h == |s| ==> e == h
    ensures Unquoted(s, k) == s[k..e]
  {
    IndexFromIs(s, '#', k, h);
    BackOverIs(s, h, e);
  }

  lemma UnquotedRead(s: string, k: nat, v: string, tail: Tail)
    requires 0 < k <= |s| && s[k..] == v + TailText(tail) && PlainValue(v) && LegalTail(tail)
    ensures Unquoted(s, k) == v
  {
    var e := k + |v|;
    Parts(s, k, v, TailText(tail));
    assert s[e - 1] == v[|v| - 1];
    if tail.End? {
      UnquotedTo(s, k, e, e);
    } else {
      var h := e + |tail.gap|;
      Parts(s, e, tail.gap + "#", tail.text);
      assert s[h] == (tail.gap + "#")[|tail.gap|];
      assert forall i :: e <= i < h ==> s[i] == tail.gap[i - e];
      UnquotedTo(s, k, e, h);
    }
  }

  lemma QuotesClose(s: string, k: nat, q: char, v: string, t: string)
    requires k < |s| && s[k..] == [q] + v + [q] + t && q !in v
    ensures var e := k + 1 + |v|;
            && e < |s| && s[k] == q && IndexFrom(s, q, k + 1) == e
            && s[k + 1..e] == v && s[e + 1..] == t
  {
    var e := k + 1 + |v|;
    var quoted := [q] + v + [q];
    Parts(s, k, quoted, t);
    assert s[k] == quoted[0] && s[e] == quoted[e - k];
    assert forall i :: k + 1 <= i < e ==> s[i] == v[i - k - 1];
    IndexFromIs(s, q, k + 1, e);
    assert s[k + 1..e] == v;
  }

  lemma QuotedRead(s: string, k: nat, q: char, v: string, tail: Tail)
    requires k < |s| && s[k..] == [q] + v + [q] + TailText(tail) && q !in v && LegalTail(tail)
    ensures s[k] == q && Quoted(s, k) == Some(v)
  {
    QuotesClose(s, k, q, v, TailText(tail));
    TailClean(s, k + 2 + |v|, tail);
  }

  predicate BlankFrom(s: string, i: nat, j: nat)
    requires j <= |s|
  {
    forall k :: i <= k < j ==> IsSpace(s[k])
  }

  /** After blanks from e there is an equals sign at j and after blanks a value at k. */
  predicate Starts(s: string, e: nat, j: nat, k: nat) {
    && e <= j < k < |s| && BlankFrom(s, e, j) && s[j] == '='
    && BlankFrom(s, j + 1, k) && !IsSpace(s[k])
  }

  lemma ValueSkips(s: string, e: nat, j: nat, k: nat)
    requires Starts(s, e, j, k)
    ensures SkipWhile(s, IsSpace, e) == j && SkipWhile(s, IsSpace, j + 1) == k
  {
    SkipWhileIs(s, IsSpace, e, j);
    SkipWhileIs(s, IsSpace, j + 1, k);
  }

  lemma ValueStart(s: string, e: nat, j: nat, k: nat, v: string)
    requires Starts(s, e, j, k)
    requires if s[k] == '"' || s[k] == '\'' then Quoted(s, k) == Some(v) else Unquoted(s, k) == v
    ensures ValueFrom(s, e) == Some(v)
  {
    ValueSkips(s, e, j, k);
  }

  lemma BlanksAt(s: string, i: nat, gap: string, rest: string)
    requires i <= |s| && s[i..] == gap + rest && Blanks(gap)
    ensures i + |gap| <= |s| && s[i + |gap|..] == rest && BlankFrom(s, i, i + |gap|)
  {
    Parts(s, i, gap, rest);
  }

  lemma ValueAt(s: string, e: nat, gap: string, t: string, after: string, rest: string)
    requires e <= |s| && s[e..] == gap + t && t == "=" + (after + rest) && Blanks(gap) && Blanks(after)
    requires rest != "" && !IsSpace(rest[0])
    ensures var k := e + |gap| + 1 + |after|; Starts(s, e, e + |gap|, k) && s[k..] == rest && s[k] == rest[0]
  {
    var j, k := e + |gap|, e + |gap| + 1 + |after|;
    BlanksAt(s, e, gap, t);
    Parts(s, j, "=", after + rest);
    BlanksAt(s, j + 1, after, rest);
    assert s[j] == '=' && s[k] == s[k..][0];
  }

  lemma PlainRead(s: string, e: nat, gap: string, after: string, v: string, tail: Tail, rest: string)
    requires e <= |s| && s[e..] == gap + ("=" + (after + rest)) && Blanks(gap) && Blanks(after)
    requires rest == v + TailText(tail) && PlainValue(v) && LegalTail(tail)
    ensures ValueFrom(s, e) == Some(v)
  {
    var k := e + |gap| + 1 + |after|;
    ValueAt(s, e, gap, "=" + (after + rest), after, rest);
    UnquotedRead(s, k, v, tail);
    ValueStart(s, e, e + |gap|, k, v);
  }

  lemma InQuotesRead(s: string, e: nat, gap: string, after: string, q: char, v: string, tail: Tail, rest: string)
    requires e <= |s| && s[e..] == gap + ("=" + (after + rest)) && Blanks(gap) && Blanks(after)
    requires rest == [q] + v + [q] + TailText(tail) && (q == '"' || q == '\'') && q !in v && LegalTail(tail)
    ensures ValueFrom(s, e) == Some(v)
  {
    var k := e + |gap| + 1 + |after|;
    ValueAt(s, e, gap, "=" + (after + rest), after, rest);
    QuotedRead(s, k, q, v, tail);
    ValueStart(s, e, e + |gap|, k, v);
  }

  lemma BareRead(s: string, e: nat, tail: Tail)
    requires e <= |s| && s[e..] == TailText(tail) && LegalTail(tail)
    ensures ValueFrom(s, e) == Some("")
  {
    assert forall i :: 0 <= i < |s[e..]| ==> s[e..][i] == s[e + i];
    var j := e + if tail.End? then 0 else |tail.gap|;
    SkipWhileIs(s, IsSpace, e, j);
    SkipWhileIs(s, IsSpace, j, j);
  }

  lemma NothingRead(s: string, e: nat, gap: string)
    requires e <= |s| && s[e..] == gap + "=" && Blanks(gap)
    ensures ValueFrom(s, e) == Some("")
  {
    Parts(s, e, gap, "=");
    var j := e + |gap|;
    assert s[j] == s[j..][0];
    SkipWhileIs(s, IsSpace, e, j);
    IndexFromIs(s, '#', |s|, |s|);
  }

  lemma HashRead(s: string, e: nat, gap: string, after: string, text: string)
    requires e <= |s| && s[e..] == gap + ("=" + (after + ("#" + text))) && Blanks(gap) && Blanks(after)
    ensures ValueFrom(s, e) == Some(if after == "" then "" else "#" + text)
  {
    var k := e + |gap| + 1 + |after|;
    ValueAt(s, e, gap, "=" + (after + ("#" + text)), after, "#" + text);
    IndexFromIs(s, '#', k, k);
    assert after == "" ==> BackOver(s, k) == k;
    assert after != "" ==> IsSpace(s[k - 1]) && BackOver(s, k) < k;
    ValueStart(s, e, e + |gap|, k, if after == "" then "" else "#" + text);
  }

  lemma ValueReadFrom(s: string, e: nat, form: Form, tail: Tail)
    requires e <= |s| && s[e..] == RestText(form, tail) && LegalForm(form) && LegalTail(tail)
    ensures ValueFrom(s, e) == Some(ValueOf(form))
  {
    match form
    case Bare => BareRead(s, e, tail);
    case Nothing(gap) => NothingRead(s, e, gap);
    case Hash(gap, after, text) => HashRead(s, e, gap, after, text);
    case Plain(gap, after, v) => PlainRead(s, e, gap, after, v, tail, v + TailText(tail));
    case InQuotes(gap, after, q, v) =>
      InQuotesRead(s, e, gap, after, q, v, tail, [q] + v + [q] + TailText(tail));
  }

  // ----- lines are read as they are meant -----

  /** A property is read with its level, name and value. */
  lemma PropertyRead(w: Written)
    requires w.Property? && LegalName(w.name) && LegalForm(w.form) && LegalTail(w.tail)
    ensures ParseLine(Body(w)) == Entry(w.level, w.name, ValueOf(w.form)) && Body(w)[0] != '#'
  {
    var s, n := Body(w), 4 * w.level;
    var e := n + |w.name|;
    assert s[n..e] == w.name && s[e..] == RestText(w.form, w.tail);
    assert forall k :: 0 <= k < n ==> s[k] == ' ';
    AfterName(s, e, w.form, w.tail);
    ItemParsed(s, n, e);
    ValueReadFrom(s, e, w.form, w.tail);
  }

  lemma Regroup(before: string, v: string, tail: string)
    ensures before + " = " + v + tail == before + (" " + ("=" + (" " + (v + tail))))
  {
    assert before + " = " + v + tail == before + (" = " + (v + tail));
    assert " = " + (v + tail) == " " + ("=" + (" " + (v + tail)));
  }

  /** The usual form of a line: a name, an equals sign and a value without quotes, and perhaps a
      comment. */
  lemma UsualLine(level: nat, name: string, v: string, tail: Tail)
    requires LegalName(name) && PlainValue(v) && LegalTail(tail)
    ensures ParseLine(Spaces(4 * level) + name + " = " + v + TailText(tail)) == Entry(level, name, v)
  {
    Regroup(Spaces(4 * level) + name, v, TailText(tail));
    PropertyRead(Property(level, name, Plain(" ", " ", v), tail, ""));
  }

  lemma AfterName(s: string, e: nat, form: Form, tail: Tail)
    requires e <= |s| && s[e..] == RestText(form, tail) && LegalForm(form) && LegalTail(tail)
    ensures e < |s| ==> !IsNameChar(s[e])
  {
    if e < |s| {
      assert s[e] == s[e..][0];
    }
  }

  lemma {:induction false} TrimTo(t: string, n: nat)
    requires n <= |t| && (forall i :: n <= i < |t| ==> IsSpace(t[i])) && (n > 0 ==> !IsSpace(t[n - 1]))
    ensures Trim(t) == t[..n]
    decreases |t|
  {
    if |t| == n {
      assert t[..n] == t;
    } else {
      var m := |t| - 1;
      TrimTo(t[..m], n);
      assert t[..m][..n] == t[..n];
    }
  }

  lemma NoBlankAppend(a: string, b: string)
    requires b != "" && NoBlankEnd(b)
    ensures a + b != "" && NoBlankEnd(a + b)
  {
    assert (a + b)[|a + b| - 1] == b[|b| - 1];
  }

  lemma TailNoBlank(v: string, tail: Tail)
    requires v != "" && NoBlankEnd(v) && LegalTail(tail)
    ensures v + TailText(tail) != "" && NoBlankEnd(v + TailText(tail))
  {
    if tail.End? {
      assert v + TailText(tail) == v;
    } else {
      RemarkNoBlank(tail);
      NoBlankAppend(v, TailText(tail));
    }
  }

  lemma RemarkNoBlank(tail: Tail)
    requires tail.Remark? && LegalTail(tail)
    ensures TailText(tail) != "" && NoBlankEnd(TailText(tail))
  {
    if tail.text == "" {
      assert tail.gap + "#" + tail.text == tail.gap + "#";
      NoBlankAppend(tail.gap, "#");
    } else {
      NoBlankAppend(tail.gap + "#", tail.text);
    }
  }

  lemma NestedNoBlank(gap: string, after: string, rest: string)
    requires rest != "" && NoBlankEnd(rest)
    ensures var t := gap + ("=" + (after + rest)); t != "" && NoBlankEnd(t)
  {
    NoBlankAppend(after, rest);
    NoBlankAppend("=", after + rest);
    NoBlankAppend(gap, "=" + (after + rest));
  }

  lemma RestNoBlank(form: Form, tail: Tail)
    requires LegalForm(form) && LegalTail(tail)
    ensures NoBlankEnd(RestText(form, tail))
  {
    match form
    case Bare =>
      if tail.Remark? { RemarkNoBlank(tail); }
    case Nothing(gap) => NoBlankAppend(gap, "=");
    case Hash(gap, after, text) =>
      if text != "" { NoBlankAppend("#", text); } else { assert "#" + text == "#"; }
      NestedNoBlank(gap, after, "#" + text);
    case Plain(gap, after, v) =>
      TailNoBlank(v, tail);
      NestedNoBlank(gap, after, v + TailText(tail));
    case InQuotes(gap, after, q, v) =>
      NoBlankAppend([q] + v, [q]);
      TailNoBlank([q] + v + [q], tail);
      NestedNoBlank(gap, after, [q] + v + [q] + TailText(tail));
  }

  lemma BodyEnd(w: Written)
    requires LegalLine(w)
    ensures Body(w) != "" && NoBlankEnd(Body(w))
  {
    if w.Note? {
      if w.text != "" { NoBlankAppend("#", w.text); } else { assert "#" + w.text == "#"; }
    } else {
      NameHasNoBlanks(w.name);
      var before, rest := Spaces(4 * w.level) + w.name, RestText(w.form, w.tail);
      NoBlankAppend(Spaces(4 * w.level), w.name);
      RestNoBlank(w.form, w.tail);
      if rest != "" { NoBlankAppend(before, rest); } else { assert before + rest == before; }
    }
  }

  /** What remains of a line without zero characters. */
  lemma LineTrimmed(s: string, trail: string)
    requires OneLine(s + trail) && Blanks(trail) && NoBlankEnd(s)
    ensures Trim(CString(s + trail)) == s
  {
    NoZero(s + trail);
    TrimTo(s + trail, |s|);
    assert (s + trail)[..|s|] == s;
  }

  /** The tree after a line. */
  function Added(root: Tree, w: Written): Option<Tree> {
    match w
    case Note(text, _) => Some(AddComment(root, text))
    case Property(level, name, form, _, _) =>
      AppendAt(root, level, Tree(name, Some(ValueOf(form)), None, []))
  }

  lemma EntryTaken(root: Tree, line: string, s: string, level: nat, name: string, v: string)
    requires Trim(CString(line)) == s && s != "" && s[0] != '#' && ParseLine(s) == Entry(level, name, v)
    ensures AddLine(root, line) == AppendAt(root, level, Tree(name, Some(v), None, []))
  {
  }

  lemma NoteTaken(root: Tree, line: string, s: string)
    requires Trim(CString(line)) == s && s != "" && s[0] == '#' && ParseLine(s) == Empty
    ensures AddLine(root, line) == Some(AddComment(root, s[1..]))
  {
  }

  /** A line adds what it says, whatever was loaded before. */
  lemma LineAdded(root: Tree, w: Written)
    requires LegalLine(w)
    ensures AddLine(root, LineText(w)) == Added(root, w)
  {
    var line, s := LineText(w), Body(w);
    BodyEnd(w);
    LineTrimmed(s, w.trail);
    if w.Property? {
      PropertyRead(w);
      EntryTaken(root, line, s, w.level, w.name, ValueOf(w.form));
    } else {
      NoteRead(w);
      NoteTaken(root, line, s);
    }
  }

  lemma NoteRead(w: Written)
    requires w.Note?
    ensures ParseLine(Body(w)) == Empty && Body(w)[1..] == w.text
  {
    var s := Body(w);
    SkipWhileIs(s, IsBlank, 0, 0);
    SkipWhileIs(s, IsNameChar, 0, 0);
    SkipWhileIs(s, IsSpace, 0, 0);
  }

  // ----- lines that are not valid -----

  /** What makes a line malformed. */
  datatype Flaw =
    | Misindented(n: nat, rest: string)
    | NoName(level: nat, rest: string)
    | Slashed(level: nat, name: string, rest: string)
    | Stray(level: nat, name: string, gap: string, rest: string)
    | Unclosed(level: nat, name: string, gap: string, after: string, q: char, v: string)
    | AfterQuotes(
        level: nat, name: string, gap: string, after: string, q: char, v: string, blanks: string, rest: string)

  function FlawText(f: Flaw): string {
    match f
    case Misindented(n, rest) => Spaces(n) + rest
    case NoName(level, rest) => Spaces(4 * level) + rest
    case Slashed(level, name, rest) => Spaces(4 * level) + name + rest
    case Stray(level, name, gap, rest) => Spaces(4 * level) + name + (gap + rest)
    case Unclosed(level, name, gap, after, q, v) =>
      Spaces(4 * level) + name + (gap + ("=" + (after + ([q] + v))))
    case AfterQuotes(level, name, gap, after, q, v, blanks, rest) =>
      Spaces(4 * level) + name + (gap + ("=" + (after + ([q] + v + [q] + (blanks + rest)))))
  }

  predicate NameChars(name: string) {
    name != "" && forall i :: 0 <= i < |name| ==> IsNameChar(name[i])
  }

  predicate Flawed(f: Flaw) {
    match f
    case Misindented(n, rest) => n % 4 != 0 && rest != "" && rest[0] != ' '
    case NoName(_, rest) => rest != "" && rest[0] != '#' && !IsSpace(rest[0]) && !IsNameChar(rest[0])
    case Slashed(_, name, rest) =>
      && NameChars(name) && (name[0] == '/' || name[|name| - 1] == '/')
      && (rest != "" ==> !IsNameChar(rest[0]))
    case Stray(_, name, gap, rest) =>
      && LegalName(name) && Blanks(gap) && rest != "" && rest[0] != '#' && rest[0] != '=' && !IsSpace(rest[0])
      && (gap == "" ==> !IsNameChar(rest[0]))
    case Unclosed(_, name, gap, after, q, v) =>
      LegalName(name) && Blanks(gap) && Blanks(after) && (q == '"' || q == '\'') && q !in v
    case AfterQuotes(_, name, gap, after, q, v, blanks, rest) =>
      && LegalName(name) && Blanks(gap) && Blanks(after) && (q == '"' || q == '\'') && q !in v
      && Blanks(blanks) && rest != "" && rest[0] != '#' && !IsSpace(rest[0])
  }

  lemma MisindentedRead(s: string, n: nat)
    requires n < |s| && n % 4 != 0 && (forall k :: 0 <= k < n ==> s[k] == ' ') && s[n] != ' '
    ensures ParseLine(s) == Malformed
  {
    SkipWhileIs(s, IsBlank, 0, n);
  }

  lemma NoNameRead(s: string, n: nat)
    requires n < |s| && n % 4 == 0 && (forall k :: 0 <= k < n ==> s[k] == ' ')
    requires s[n] != '#' && !IsSpace(s[n]) && !IsNameChar(s[n])
    ensures ParseLine(s) == Malformed
  {
    SkipWhileIs(s, IsBlank, 0, n);
    SkipWhileIs(s, IsNameChar, n, n);
    SkipWhileIs(s, IsSpace, n, n);
  }

  lemma SlashedRead(s: string, n: nat, e: nat)
    requires n < e <= |s| && n % 4 == 0 && (forall k :: 0 <= k < n ==> s[k] == ' ')
    requires (forall k :: n <= k < e ==> IsNameChar(s[k])) && (e < |s| ==> !IsNameChar(s[e]))
    requires s[n] == '/' || s[e - 1] == '/'
    ensures ParseLine(s) == Malformed
  {
    SkipWhileIs(s, IsBlank, 0, n);
    SkipWhileIs(s, IsNameChar, n, e);
  }

  lemma StrayRead(s: string, e: nat, gap: string, rest: string)
    requires e <= |s| && s[e..] == gap + rest && Blanks(gap)
    requires rest != "" && rest[0] != '#' && rest[0] != '=' && !IsSpace(rest[0])
    ensures ValueFrom(s, e) == None
  {
    BlanksAt(s, e, gap, rest);
    var j := e + |gap|;
    assert s[j] == s[j..][0];
    SkipWhileIs(s, IsSpace, e, j);
    SkipWhileIs(s, IsSpace, j, j);
  }

  lemma QuotesStart(s: string, e: nat, j: nat, k: nat)
    requires Starts(s, e, j, k) && (s[k] == '"' || s[k] == '\'') && Quoted(s, k) == None
    ensures ValueFrom(s, e) == None
  {
    ValueSkips(s, e, j, k);
  }

  lemma UnclosedRead(s: string, e: nat, gap: string, after: string, q: char, v: string, rest: string)
    requires e <= |s| && s[e..] == gap + ("=" + (after + rest)) && Blanks(gap) && Blanks(after)
    requires rest == [q] + v && (q == '"' || q == '\'') && q !in v
    ensures ValueFrom(s, e) == None
  {
    var k := e + |gap| + 1 + |after|;
    ValueAt(s, e, gap, "=" + (after + rest), after, rest);
    Parts(s, k, [q], v);
    assert forall i :: k + 1 <= i < |s| ==> s[i] == s[k + 1..][i - k - 1];
    IndexFromIs(s, q, k + 1, |s|);
    QuotesStart(s, e, e + |gap|, k);
  }

  lemma AfterQuotesRead(s: string, e: nat, gap: string, after: string, q: char, v: string, blanks: string,
                        more: string, rest: string)
    requires e <= |s| && s[e..] == gap + ("=" + (after + rest)) && Blanks(gap) && Blanks(after)
    requires rest == [q] + v + [q] + (blanks + more) && (q == '"' || q == '\'') && q !in v
    requires Blanks(blanks) && more != "" && more[0] != '#' && !IsSpace(more[0])
    ensures ValueFrom(s, e) == None
  {
    var k := e + |gap| + 1 + |after|;
    ValueAt(s, e, gap, "=" + (after + rest), after, rest);
    QuotesFollowed(s, k, q, v, blanks, more);
    QuotesStart(s, e, e + |gap|, k);
  }

  lemma QuotesFollowed(s: string, k: nat, q: char, v: string, blanks: string, more: string)
    requires k < |s| && s[k..] == [q] + v + [q] + (blanks + more) && q !in v
    requires Blanks(blanks) && more != "" && more[0] != '#' && !IsSpace(more[0])
    ensures s[k] == q && Quoted(s, k) == None
  {
    var e := k + 1 + |v|;
    QuotesClose(s, k, q, v, blanks + more);
    BlanksAt(s, e + 1, blanks, more);
    var j := e + 1 + |blanks|;
    assert s[j] == s[j..][0];
    SkipWhileIs(s, IsSpace, e + 1, j);
  }

  /** A name from n to e after n blanks. */
  predicate NamedAt(s: string, n: nat, e: nat) {
    && n < e <= |s| && n % 4 == 0 && (forall k :: 0 <= k < n ==> s[k] == ' ')
    && LegalName(s[n..e]) && (e < |s| ==> !IsNameChar(s[e]))
  }

  lemma NameThen(s: string, level: nat, name: string, rest: string)
    requires s == Spaces(4 * level) + name + rest && LegalName(name) && (rest != "" ==> !IsNameChar(rest[0]))
    ensures NamedAt(s, 4 * level, 4 * level + |name|)
  {
    var e := 4 * level + |name|;
    assert s[4 * level..e] == name;
    assert e < |s| ==> s[e] == rest[0];
  }

  lemma ValueFlawRead(s: string, n: nat, e: nat)
    requires NamedAt(s, n, e) && ValueFrom(s, e) == None
    ensures ParseLine(s) == Malformed
  {
    ItemParsed(s, n, e);
  }

  lemma RestAt(level: nat, name: string, rest: string)
    ensures var s := Spaces(4 * level) + name + rest;
            s[4 * level + |name|..] == rest
  {
  }

  lemma FirstOf(a: string, b: string)
    requires a != "" || b != ""
    ensures (a + b)[0] == if a == "" then b[0] else a[0]
  {
  }

  lemma MisindentedFlaw(n: nat, rest: string)
    requires n % 4 != 0 && rest != "" && rest[0] != ' '
    ensures ParseLine(Spaces(n) + rest) == Malformed
  {
    var s := Spaces(n) + rest;
    assert s[n] == rest[0];
    MisindentedRead(s, n);
  }

  lemma NoNameFlaw(level: nat, rest: string)
    requires Flawed(NoName(level, rest))
    ensures ParseLine(Spaces(4 * level) + rest) == Malformed
  {
    var s := Spaces(4 * level) + rest;
    assert s[4 * level] == rest[0];
    NoNameRead(s, 4 * level);
  }

  lemma SlashedFlaw(level: nat, name: string, rest: string)
    requires Flawed(Slashed(level, name, rest))
    ensures ParseLine(Spaces(4 * level) + name + rest) == Malformed
  {
    var s, n := Spaces(4 * level) + name + rest, 4 * level;
    var e := n + |name|;
    assert forall k :: n <= k < e ==> s[k] == name[k - n];
    assert e < |s| ==> s[e] == rest[0];
    SlashedRead(s, n, e);
  }

  lemma StrayFlaw(level: nat, name: string, gap: string, rest: string)
    requires Flawed(Stray(level, name, gap, rest))
    ensures ParseLine(Spaces(4 * level) + name + (gap + rest)) == Malformed
  {
    var s := Spaces(4 * level) + name + (gap + rest);
    RestAt(level, name, gap + rest);
    StrayRead(s, 4 * level + |name|, gap, rest);
    FirstOf(gap, rest);
    NameThen(s, level, name, gap + rest);
    ValueFlawRead(s, 4 * level, 4 * level + |name|);
  }

  lemma AssignedName(s: string, level: nat, name: string, gap: string, t: string)
    requires LegalName(name) && Blanks(gap) && t != "" && t[0] == '=' && s == Spaces(4 * level) + name + (gap + t)
    ensures NamedAt(s, 4 * level, 4 * level + |name|)
  {
    FirstOf(gap, t);
    NameThen(s, level, name, gap + t);
  }

  lemma UnclosedFlaw(level: nat, name: string, gap: string, after: string, q: char, v: string)
    requires Flawed(Unclosed(level, name, gap, after, q, v))
    ensures ParseLine(FlawText(Unclosed(level, name, gap, after, q, v))) == Malformed
  {
    var t := "=" + (after + ([q] + v));
    var s := Spaces(4 * level) + name + (gap + t);
    RestAt(level, name, gap + t);
    UnclosedRead(s, 4 * level + |name|, gap, after, q, v, [q] + v);
    AssignedName(s, level, name, gap, t);
    ValueFlawRead(s, 4 * level, 4 * level + |name|);
  }

  lemma AfterQuotesFlaw(level: nat, name: string, gap: string, after: string, q: char, v: string, blanks: string,
                        rest: string)
    requires Flawed(AfterQuotes(level, name, gap, after, q, v, blanks, rest))
    ensures ParseLine(FlawText(AfterQuotes(level, name, gap, after, q, v, blanks, rest))) == Malformed
  {
    var all := [q] + v + [q] + (blanks + rest);
    var t := "=" + (after + all);
    var s := Spaces(4 * level) + name + (gap + t);
    RestAt(level, name, gap + t);
    AfterQuotesRead(s, 4 * level + |name|, gap, after, q, v, blanks, rest, all);
    AssignedName(s, level, name, gap, t);
    ValueFlawRead(s, 4 * level, 4 * level + |name|);
  }

  /** A line with any of these flaws is malformed. */
  lemma FlawRead(f: Flaw)
    requires Flawed(f)
    ensures ParseLine(FlawText(f)) == Malformed
  {
    match f
    case Misindented(n, rest) => MisindentedFlaw(n, rest);
    case NoName(level, rest) => NoNameFlaw(level, rest);
    case Slashed(level, name, rest) => SlashedFlaw(level, name, rest);
    case Stray(level, name, gap, rest) => StrayFlaw(level, name, gap, rest);
    case Unclosed(level, name, gap, after, q, v) => UnclosedFlaw(level, name, gap, after, q, v);
    case AfterQuotes(level, name, gap, after, q, v, blanks, rest) =>
      AfterQuotesFlaw(level, name, gap, after, q, v, blanks, rest);
  }

  /** A zero character ends a line. */
  lemma ZeroEnds(root: Tree, s: string, more: string)
    requires '\0' !in s
    ensures AddLine(root, s + ("\0" + more)) == AddLine(root, s)
  {
    var line := s + ("\0" + more);
    IndexFromIs(line, '\0', 0, |s|);
    assert line[..|s|] == s;
    NoZero(s);
  }

  // ----- whole configurations -----

  function Texts(ws: seq<Written>): (lines: seq<string>)
    ensures |lines| == |ws| && forall i :: 0 <= i < |ws| ==> lines[i] == LineText(ws[i])
  {
    seq(|ws|, i requires 0 <= i < |ws| => LineText(ws[i]))
  }

  /** The tree after lines; none if one is indented too far. */
  function AddedAll(root: Tree, ws: seq<Written>): Option<Tree>
    decreases ws
  {
    if ws == [] then Some(root)
    else
      var t := Added(root, ws[0]);
      if t.None? then None else AddedAll(t.value, ws[1..])
  }

  predicate LegalLines(ws: seq<Written>) {
    forall i :: 0 <= i < |ws| ==> LegalLine(ws[i]) && |LineText(ws[i])| <= 1024
  }

  lemma {:induction false} LinesLoaded(root: Tree, ws: seq<Written>)
    requires LegalLines(ws)
    ensures LoadText(AddLine, Texts(ws), true, false, root) ==
            if AddedAll(root, ws).None? then Invalid else Loaded(AddedAll(root, ws).value)
    decreases ws
  {
    if ws != [] {
      LineAdded(root, ws[0]);
      assert Texts(ws)[1..] == Texts(ws[1..]);
      var t := Added(root, ws[0]);
      if t.Some? { LinesLoaded(t.value, ws[1..]); }
    }
  }

  lemma LoadedText(lines: seq<string>)
    requires lines != [] && forall i :: 0 <= i < |lines| ==> '\n' !in lines[i]
    ensures Load(Text(lines)) == LoadText(AddLine, lines, true, false, Item("root"))
  {
    var text := Text(lines);
    assert text[0..] == text;
    TextConsists(text, 0, lines);
    TextSplit(text, 0, lines);
    TextEnded(lines);
  }

  /** The text of legal lines is loaded as the tree that they say, or rejected if one is
      indented too far. */
  lemma WrittenLoads(ws: seq<Written>)
    requires LegalLines(ws)
    ensures var t := AddedAll(Item("root"), ws);
            Load(Text(Texts(ws))) == if t.None? then Invalid else Loaded(t.value)
  {
    if ws != [] {
      LoadedText(Texts(ws));
      LinesLoaded(Item("root"), ws);
    }
  }

  ghost predicate Rejected(line: string) {
    && '\n' !in line && |line| <= 1024
    && forall root :: AddLine(root, line) == None
  }

  predicate FlawedLine(f: Flaw, trail: string) {
    var s := FlawText(f);
    Flawed(f) && OneLine(s + trail) && Blanks(trail) && NoBlankEnd(s) && |s + trail| <= 1024
  }

  lemma FlawRejected(f: Flaw, trail: string)
    requires FlawedLine(f, trail)
    ensures Rejected(FlawText(f) + trail)
  {
    FlawRead(f);
    LineTrimmed(FlawText(f), trail);
  }

  lemma {:induction false} RejectedLines(root: Tree, ws: seq<Written>, bad: string, more: seq<string>)
    requires LegalLines(ws) && Rejected(bad)
    ensures LoadText(AddLine, Texts(ws) + ([bad] + more), true, false, root) == Invalid
    decreases ws
  {
    var lines := Texts(ws) + ([bad] + more);
    if ws == [] {
      assert lines[0] == bad;
    } else {
      LineAdded(root, ws[0]);
      assert lines[0] == LineText(ws[0]);
      assert lines[1..] == Texts(ws[1..]) + ([bad] + more);
      var t := Added(root, ws[0]);
      if t.Some? { RejectedLines(t.value, ws[1..], bad, more); }
    }
  }

  lemma NoNewlines(lines: seq<string>, bad: string, more: seq<string>)
    requires forall i :: 0 <= i < |lines| ==> '\n' !in lines[i]
    requires '\n' !in bad && forall i :: 0 <= i < |more| ==> '\n' !in more[i]
    ensures var all := lines + ([bad] + more); forall i :: 0 <= i < |all| ==> '\n' !in all[i]
  {
  }

  lemma RejectedLoads(ws: seq<Written>, bad: string, more: seq<string>)
    requires LegalLines(ws) && Rejected(bad) && forall i :: 0 <= i < |more| ==> '\n' !in more[i]
    ensures Load(Text(Texts(ws) + ([bad] + more))) == Invalid
  {
    NoNewlines(Texts(ws), bad, more);
    LoadedText(Texts(ws) + ([bad] + more));
    RejectedLines(Item("root"), ws, bad, more);
  }

  /** Legal lines, then a flawed one: whatever comes after it, the text is rejected. */
  lemma FlawedLoads(ws: seq<Written>, f: Flaw, trail: string, more: seq<string>)
    requires LegalLines(ws) && FlawedLine(f, trail) && forall i :: 0 <= i < |more| ==> '\n' !in more[i]
    ensures Load(Text(Texts(ws) + ([FlawText(f) + trail] + more))) == Invalid
  {
    FlawRejected(f, trail);
    RejectedLoads(ws, FlawText(f) + trail, more);
  }

  lemma {:induction false} TextEnded(lines: seq<string>)
    requires lines != []
    ensures Ended(Text(lines))
    decreases lines
  {
    if |lines| > 1 {
      TextEnded(lines[1..]);
    }
  }
}
