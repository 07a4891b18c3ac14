/** Deferred resolution: clause trees and the side condition that simplifies them.

    A clause tree is a clause (`cln`, `clc`) in which resolution steps may still be
    pending: `concat` stands for the union of two clauses and `clr l` for the removal
    of the literal l, which must be present.  The simplifier removes literals by
    toggling four mark bits of each variable around its recursion. */
module Clauses {
  import opened Marks
  import opened Options

  datatype Lit = Pos(v: Sym) | Neg(v: Sym)

  datatype Clause =
    | Cln
    | Clc(l: Lit, rest: Clause)
    | Concat(c1: Clause, c2: Clause)
    | Clr(l: Lit, body: Clause)

  /** No resolution step is pending. */
  predicate Plain(c: Clause) {
    c.Cln? || (c.Clc? && Plain(c.rest))
  }

  /** The clause a tree denotes, as a set of literals. */
  function Lits(c: Clause): set<Lit> {
    match c
    case Cln => {}
    case Clc(l, rest) => {l} + Lits(rest)
    case Concat(c1, c2) => Lits(c1) + Lits(c2)
    case Clr(l, body) => Lits(body) - {l}
  }

  /** Every pending removal finds its literal. */
  predicate Resolvable(c: Clause) {
    match c
    case Cln => true
    case Clc(_, rest) => Resolvable(rest)
    case Concat(c1, c2) => Resolvable(c1) && Resolvable(c2)
    case Clr(l, body) => Resolvable(body) && l in Lits(body)
  }

  function Append(c1: Clause, c2: Clause): (c: Clause)
    requires Plain(c1) && Plain(c2)
    ensures Plain(c)
    ensures Lits(c) == Lits(c1) + Lits(c2)
  {
    if c1.Cln? then c2 else Clc(c1.l, Append(c1.rest, c2))
  }

  // ----- reference: what is to be computed, without marks -----

  /** Simplifies c while removing the literals in r. */
  ghost function Simplify(c: Clause, r: iset<Lit>): (s: Option<Clause>)
    ensures s.Some? <==> Resolvable(c)
    ensures s.Some? ==> Plain(s.value)
    ensures s.Some? ==> forall l :: l in Lits(s.value) <==> l in Lits(c) && l !in r
  {
    match c
    case Cln => Some(Cln)
    case Clc(l, rest) =>
      if l in r then Simplify(rest, r)
      else (
        var s := Simplify(rest, r + iset{l});
        if s.None? then None else Some(Clc(l, s.value)))
    case Concat(c1, c2) =>
      var s1 := Simplify(c1, r);
      var s2 := Simplify(c2, r);
      if s1.None? || s2.None? then None else Some(Append(s1.value, s2.value))
    case Clr(l, body) =>
      if l in Lits(body) then Simplify(body, r + iset{l}) else None
  }

  // ----- the order of literals -----

  /** The literals of a tree from left to right, without regard to removals. */
  function Listed(c: Clause): seq<Lit> {
    match c
    case Cln => []
    case Clc(l, rest) => [l] + Listed(rest)
    case Concat(c1, c2) => Listed(c1) + Listed(c2)
    case Clr(_, body) => Listed(body)
  }

  predicate Subsequence(a: seq<Lit>, b: seq<Lit>)
    decreases b
  {
    a == [] || (b != [] && if a[0] == b[0] then Subsequence(a[1..], b[1..]) else Subsequence(a, b[1..]))
  }

  lemma {:induction false} SubsequenceTail(a: seq<Lit>, b: seq<Lit>)
    requires a != [] && Subsequence(a, b)
    ensures Subsequence(a[1..], b)
    decreases b
  {
    if a[0] != b[0] {
      SubsequenceTail(a, b[1..]);
    }
    if |a| > 1 {
      if a[0] == b[0] {
        if a[1] == b[0] { SubsequenceTail(a[1..], b[1..]); }
      } else if a[1] == b[0] {
        SubsequenceTail(a[1..], b[1..]);
      }
    }
  }

  lemma SubsequenceMore(a: seq<Lit>, l: Lit, b: seq<Lit>)
    requires Subsequence(a, b)
    ensures Subsequence(a, [l] + b) && Subsequence([l] + a, [l] + b)
  {
    assert ([l] + b)[1..] == b && ([l] + a)[1..] == a;
    if a != [] { SubsequenceTail(a, b); }
  }

  lemma {:induction false} SubsequenceCat(a: seq<Lit>, b: seq<Lit>, c: seq<Lit>, d: seq<Lit>)
    requires Subsequence(a, b) && Subsequence(c, d)
    ensures Subsequence(a + c, b + d)
    decreases b
  {
    if b == [] {
      assert a + c == c && b + d == d;
    } else {
      assert (b + d)[1..] == b[1..] + d && b + d == [b[0]] + (b[1..] + d);
      if a != [] && a[0] == b[0] {
        SubsequenceCat(a[1..], b[1..], c, d);
        assert (a + c)[1..] == a[1..] + c;
      } else {
        SubsequenceCat(a, b[1..], c, d);
        SubsequenceMore(a + c, b[0], b[1..] + d);
      }
    }
  }

  lemma {:induction false} AppendListed(c1: Clause, c2: Clause)
    requires Plain(c1) && Plain(c2)
    ensures Listed(Append(c1, c2)) == Listed(c1) + Listed(c2)
  {
    if c1.Clc? {
      AppendListed(c1.rest, c2);
    } else {
      assert Listed(c1) + Listed(c2) == Listed(c2);
    }
  }

  /** Simplifying keeps the order of the literals, and in a clause without pending steps keeps
      each literal once. */
  lemma {:induction false} SimplifyListed(c: Clause, r: iset<Lit>)
    requires Simplify(c, r).Some?
    ensures var s := Listed(Simplify(c, r).value);
            && Subsequence(s, Listed(c))
            && (Plain(c) ==> forall i, j :: 0 <= i < j < |s| ==> s[i] != s[j])
    decreases c, 1
  {
    match c
    case Cln =>
    case Clc(l, rest) => ConsListed(c, r);
    case Concat(c1, c2) =>
      SimplifyListed(c1, r);
      SimplifyListed(c2, r);
      AppendListed(Simplify(c1, r).value, Simplify(c2, r).value);
      SubsequenceCat(Listed(Simplify(c1, r).value), Listed(c1), Listed(Simplify(c2, r).value), Listed(c2));
    case Clr(l, body) => SimplifyListed(body, r + iset{l});
  }

  lemma {:induction false} ConsListed(c: Clause, r: iset<Lit>)
    requires c.Clc? && Simplify(c, r).Some?
    ensures var s := Listed(Simplify(c, r).value);
            && Subsequence(s, Listed(c))
            && (Plain(c) ==> forall i, j :: 0 <= i < j < |s| ==> s[i] != s[j])
    decreases c, 0
  {
    var r' := if c.l in r then r else r + iset{c.l};
    SimplifyListed(c.rest, r');
    var t := Simplify(c.rest, r').value;
    SubsequenceMore(Listed(t), c.l, Listed(c.rest));
    ListedLits(t);
  }

  lemma {:induction false} ListedLits(c: Clause)
    requires Plain(c)
    ensures forall l :: l in Listed(c) <==> l in Lits(c)
  {
    if c.Clc? { ListedLits(c.rest); }
  }

  // ----- the marking algorithm -----

  /** The mark "remove l": bit 0 for positive and bit 1 for negative literals. */
  function Ask(l: Lit): (Sym, Bit) {
    (l.v, if l.Pos? then 0 else 1)
  }

  /** The mark "l was removed": bit 2 for positive and bit 3 for negative literals. */
  function Done(l: Lit): (Sym, Bit) {
    (l.v, if l.Pos? then 2 else 3)
  }

  /** Literals marked for removal. */
  ghost function ToRemove(marks: MarkSet): iset<Lit> {
    iset l: Lit | Ask(l) in marks
  }

  /** A literal recorded as removed is one that is being removed. */
  ghost predicate RemovedOnlyIfAsked(marks: MarkSet) {
    forall l: Lit :: Done(l) in marks ==> Ask(l) in marks
  }

  /** m1 is m0 plus a record of those literals of ls that m0 asks to remove. */
  ghost predicate Recorded(m0: MarkSet, m1: MarkSet, ls: set<Lit>) {
    && OtherMarksKept(m0, m1)
    && forall l: Lit ::
      && (Ask(l) in m1 <==> Ask(l) in m0)
      && (Done(l) in m1 <==> Done(l) in m0 || (l in ls && Ask(l) in m0))
  }

  ghost predicate OtherMarksKept(m0: MarkSet, m1: MarkSet) {
    forall m: (Sym, Bit) :: m.1 >= 4 ==> (m in m0 <==> m in m1)
  }

  /** State in which the scope of a literal's removal is entered. */
  ghost function Entered(marks: MarkSet, l: Lit): MarkSet {
    marks + {Ask(l)} - {Done(l)}
  }

  lemma Enter(marks: MarkSet, l: Lit)
    requires RemovedOnlyIfAsked(marks)
    ensures ToRemove(Entered(marks, l)) == ToRemove(marks) + iset{l}
    ensures RemovedOnlyIfAsked(Entered(marks, l))
    ensures OtherMarksKept(marks, Entered(marks, l))
  {
  }

  /** A literal that is to be removed anyway. */
  lemma LeaveKnown(m0: MarkSet, m1: MarkSet, l: Lit, ls: set<Lit>)
    requires Ask(l) in m0 && Recorded(m0, m1, ls)
    ensures Recorded(m0, m1 + {Done(l)}, {l} + ls)
  {
  }

  /** After the scope, the removal mark tells whether l occurred in ls; undoing what
      entering changed leaves the removals of the outer scope. */
  lemma Leave(m0: MarkSet, m1: MarkSet, l: Lit, ls: set<Lit>)
    requires RemovedOnlyIfAsked(m0) && Recorded(Entered(m0, l), m1, ls)
    ensures Done(l) in m1 <==> l in ls
    ensures Ask(l) in m1
    ensures Done(l) in m0 && l in ls ==> Recorded(m0, m1, ls - {l})
    ensures Done(l) !in m0 && Ask(l) in m0 ==> Recorded(m0, m1 - {Done(l)}, ls - {l})
    ensures Ask(l) !in m0 ==> Recorded(m0, m1 - {Done(l)} - {Ask(l)}, ls - {l})
    ensures Ask(l) !in m0 ==> Recorded(m0, m1 - {Done(l)} - {Ask(l)}, {l} + ls)
  {
  }

  /** Literals whose removal is asked for on the way to the `clr` that fails. */
  ghost function Path(c: Clause, r: iset<Lit>): set<Lit>
    requires Simplify(c, r).None?
  {
    match c
    case Clc(l, rest) =>
      assert l in r ==> r + iset{l} == r;
      {l} + Path(rest, r + iset{l})
    case Concat(c1, c2) => if Simplify(c1, r).None? then Path(c1, r) else Path(c2, r)
    case Clr(l, body) => {l} + if Simplify(body, r + iset{l}).None? then Path(body, r + iset{l}) else {}
  }

  /** m1 asks for what m0 asks for, and for the literals ls. */
  ghost predicate AlsoAsked(m0: MarkSet, m1: MarkSet, ls: set<Lit>) {
    forall l: Lit :: Ask(l) in m1 <==> Ask(l) in m0 || l in ls
  }

  /** The compiled side condition computes the reference simplification.  On success the
      removal marks are as found, exactly the literals of c that were to be removed are
      additionally recorded as removed, and every other mark of every symbol is as found.  On
      failure the removals asked for on the way remain. */
  method SimplifyClause(mm: MarkMap, c: Clause) returns (s: Option<Clause>)
    requires mm.Valid() && RemovedOnlyIfAsked(mm.marks)
    modifies mm
    ensures mm.Valid()
    ensures s == Simplify(c, ToRemove(old(mm.marks)))
    ensures s.Some? ==> Recorded(old(mm.marks), mm.marks, Lits(c))
    ensures s.None? ==> AlsoAsked(old(mm.marks), mm.marks, Path(c, ToRemove(old(mm.marks))))
    ensures OtherMarksKept(old(mm.marks), mm.marks)
    decreases c, 0
  {
    match c
    case Cln => s := Some(Cln);
    case Clc(l, rest) => s := SimplifyCons(mm, l, rest);
    case Concat(c1, c2) =>
      s := SimplifyClause(mm, c1);
      if s.None? { return; }
      assert ToRemove(mm.marks) == ToRemove(old(mm.marks));
      var s2 := SimplifyClause(mm, c2);
      if s2.None? { return None; }
      s := Some(Append(s.value, s2.value));
    case Clr(l, body) => s := SimplifyRemove(mm, l, body);
  }

  /** Asks for the removal of l; tells whether that was already asked. */
  method AskFor(mm: MarkMap, l: Lit) returns (asked: bool)
    requires mm.Valid()
    modifies mm
    ensures mm.Valid()
    ensures asked == (Ask(l) in old(mm.marks))
    ensures mm.marks == old(mm.marks) + {Ask(l)}
    ensures ToRemove(mm.marks) == ToRemove(old(mm.marks)) + iset{l}
  {
    asked := mm.GetMark(l.v, Ask(l).1);
    if !asked {
      mm.Toggle(l.v, Ask(l).1);
    }
  }

  /** Clears the mark "l was removed"; tells whether it was set. */
  method ForgetRemoval(mm: MarkMap, l: Lit) returns (was: bool)
    requires mm.Valid()
    modifies mm
    ensures mm.Valid()
    ensures was == (Done(l) in old(mm.marks))
    ensures mm.marks == old(mm.marks) - {Done(l)}
    ensures ToRemove(mm.marks) == ToRemove(old(mm.marks))
  {
    was := mm.GetMark(l.v, Done(l).1);
    if was {
      mm.Toggle(l.v, Done(l).1);
    }
  }

  method RecordRemoval(mm: MarkMap, l: Lit)
    requires mm.Valid()
    modifies mm
    ensures mm.Valid()
    ensures mm.marks == old(mm.marks) + {Done(l)}
  {
    var was := mm.GetMark(l.v, Done(l).1);
    if !was {
      mm.Toggle(l.v, Done(l).1);
    }
  }

  method SimplifyCons(mm: MarkMap, l: Lit, rest: Clause) returns (s: Option<Clause>)
    requires mm.Valid() && RemovedOnlyIfAsked(mm.marks)
    modifies mm
    ensures mm.Valid()
    ensures s == Simplify(Clc(l, rest), ToRemove(old(mm.marks)))
    ensures s.Some? ==> Recorded(old(mm.marks), mm.marks, Lits(Clc(l, rest)))
    ensures s.None? ==> AlsoAsked(old(mm.marks), mm.marks, Path(Clc(l, rest), ToRemove(old(mm.marks))))
    ensures OtherMarksKept(old(mm.marks), mm.marks)
    decreases rest, 1
  {
    ghost var m0 := mm.marks;
    Enter(m0, l);
    var asked := AskFor(mm, l);
    assert if asked then mm.marks == m0 && ToRemove(m0) == ToRemove(m0) + iset{l}
                    else mm.marks == Entered(m0, l);
    s := SimplifyClause(mm, rest);
    if s.None? { return; }
    ghost var m1 := mm.marks;
    if asked {
      RecordRemoval(mm, l);
      LeaveKnown(m0, m1, l, Lits(rest));
    } else {
      var _ := ForgetRemoval(mm, l);
      mm.Toggle(l.v, Ask(l).1);
      Leave(m0, m1, l, Lits(rest));
      s := Some(Clc(l, s.value));
    }
  }

  method SimplifyRemove(mm: MarkMap, l: Lit, body: Clause) returns (s: Option<Clause>)
    requires mm.Valid() && RemovedOnlyIfAsked(mm.marks)
    modifies mm
    ensures mm.Valid()
    ensures s == Simplify(Clr(l, body), ToRemove(old(mm.marks)))
    ensures s.Some? ==> Recorded(old(mm.marks), mm.marks, Lits(Clr(l, body)))
    ensures s.None? ==> AlsoAsked(old(mm.marks), mm.marks, Path(Clr(l, body), ToRemove(old(mm.marks))))
    ensures OtherMarksKept(old(mm.marks), mm.marks)
    decreases body, 1
  {
    ghost var m0 := mm.marks;
    Enter(m0, l);
    var asked := AskFor(mm, l);
    var wasRemoved := ForgetRemoval(mm, l);
    s := SimplifyClause(mm, body);
    if s.None? { return; }
    Leave(m0, mm.marks, l, Lits(body));
    var removed := mm.GetMark(l.v, Done(l).1);
    if !removed {
      return None;
    }
    if !wasRemoved {
      mm.Toggle(l.v, Done(l).1);
    }
    if !asked {
      mm.Toggle(l.v, Ask(l).1);
    }
  }
}
