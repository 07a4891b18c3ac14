/** Identifiers of the emitted C++.  The compiler keeps one list of strings for the variables
    of the source and for its own temporaries e0, e1, ..., and writes variables with their
    special characters replaced.  A name here is an identifier: it is a temporary exactly if
    it is spelled like one. */
module Identifiers {
  import opened Marks

  datatype Name = Source(s: string) | Temp(n: nat)

  // ----- numbers in names -----

  predicate IsDigit(c: char) {
    '0' <= c <= '9'
  }

  function Digit(d: nat): char
    requires d < 10
  {
    ('0' as int + d) as char
  }

  function DigitValue(c: char): (d: nat)
    requires IsDigit(c)
    ensures d < 10 && Digit(d) == c
  {
    c as int - '0' as int
  }

  function Decimal(n: nat): (d: string)
    ensures d != "" && (forall i :: 0 <= i < |d| ==> IsDigit(d[i])) && (|d| > 1 ==> d[0] != '0')
    decreases n
  {
    if n < 10 then [Digit(n)] else Decimal(n / 10) + [Digit(n % 10)]
  }

  function Value(d: string): nat
    requires forall i :: 0 <= i < |d| ==> IsDigit(d[i])
  {
    if d == "" then 0 else 10 * Value(d[..|d| - 1]) + DigitValue(d[|d| - 1])
  }

  /** Digits as a number is written. */
  predicate Canonical(d: string) {
    d != "" && (forall i :: 0 <= i < |d| ==> IsDigit(d[i])) && (|d| > 1 ==> d[0] != '0')
  }

  lemma {:induction false} ValueDecimal(n: nat)
    ensures Value(Decimal(n)) == n
    decreases n
  {
    if n >= 10 {
      ValueDecimal(n / 10);
      assert Decimal(n)[..|Decimal(n)| - 1] == Decimal(n / 10);
    }
  }

  lemma {:induction false} DecimalValue(d: string)
    requires Canonical(d)
    ensures Decimal(Value(d)) == d
    decreases d
  {
    var k := |d| - 1;
    if k > 0 {
      DecimalValue(d[..k]);
      PositiveValue(d[..k]);
      assert Value(d) / 10 == Value(d[..k]);
      assert d == d[..k] + [d[k]];
    } else {
      assert d[..0] == "";
      assert d == [d[0]];
    }
  }

  lemma {:induction false} PositiveValue(d: string)
    requires Canonical(d) && d[0] != '0'
    ensures Value(d) > 0
    decreases d
  {
    if |d| > 1 {
      PositiveValue(d[..|d| - 1]);
    }
  }

  // ----- spelling -----

  function TempName(n: nat): string {
    "e" + Decimal(n)
  }

  /** The identifier with a spelling. */
  function Ident(s: string): Name {
    if s != "" && s[0] == 'e' && Canonical(s[1..]) then Temp(Value(s[1..])) else Source(s)
  }

  function Spelling(q: Name): string {
    match q
    case Source(s) => s
    case Temp(n) => TempName(n)
  }

  lemma IdentOfTemp(n: nat)
    ensures Ident(TempName(n)) == Temp(n)
  {
    assert TempName(n)[1..] == Decimal(n);
    ValueDecimal(n);
  }

  lemma SpellingOfIdent(s: string)
    ensures Spelling(Ident(s)) == s
  {
    if Ident(s).Temp? {
      DecimalValue(s[1..]);
      assert s == "e" + s[1..];
    }
  }

  /** A string is taken for the temporary that it spells, and for no other. */
  lemma TakenForTemp(s: string, n: nat)
    ensures Ident(s) == Temp(n) <==> s == TempName(n)
  {
    IdentOfTemp(n);
    SpellingOfIdent(s);
  }

  /** Names are the same exactly if they are spelled alike. */
  lemma IdentApart(s: string, t: string)
    ensures Ident(s) == Ident(t) <==> s == t
  {
    SpellingOfIdent(s);
    SpellingOfIdent(t);
  }

  // ----- special characters -----

  /** How `get_var_name` replaces a character. */
  function MangleChar(c: char): char {
    var n := c as int;
    var m := if n <= 47 then n + 65 else if 58 <= n <= 64 then n + 39 else n;
    if n > 127 then c
    else if 91 <= m <= 94 || m == 96 then (m + 13) as char
    else if m >= 123 then (m - 4) as char
    else m as char
  }

  function Mangle(s: string): (r: string)
    ensures |r| == |s| && forall i :: 0 <= i < |s| ==> r[i] == MangleChar(s[i])
  {
    seq(|s|, i requires 0 <= i < |s| => MangleChar(s[i]))
  }

  predicate IsWordChar(c: char) {
    IsDigit(c) || 'A' <= c <= 'Z' || 'a' <= c <= 'z' || c == '_'
  }

  /** Letters, digits and underscores are left alone, and only they. */
  lemma MangleFixed(s: string)
    requires forall i :: 0 <= i < |s| ==> s[i] as int < 128
    ensures Mangle(s) == s <==> forall i :: 0 <= i < |s| ==> IsWordChar(s[i])
  {
    if Mangle(s) == s {
      forall i | 0 <= i < |s|
        ensures IsWordChar(s[i])
      {
        assert MangleChar(s[i]) == s[i];
      }
    }
  }

  /** Printable symbols become words. */
  lemma MangledWord(s: string)
    requires forall i :: 0 <= i < |s| ==> 32 < s[i] as int < 127
    ensures forall i :: 0 <= i < |s| ==> IsWordChar(Mangle(s)[i])
  {
  }

  /** Different symbols may become the same word. */
  lemma MangledAlike()
    ensures Mangle("a+") == Mangle("al") == "al"
  {
    assert Mangle("a+") == "al";
    assert Mangle("al") == "al";
  }

  // ----- names of source variables -----

  /** The string kept for a symbol, as a name. */
  function Key(s: Sym): Name {
    Ident(s)
  }

  /** The C++ variable written for a symbol. */
  function Called(s: Sym): Name {
    Ident(Mangle(s))
  }

  /** The global that holds a constant. */
  function Global(c: string): Name {
    Source("e_" + c)
  }

  function Names(xs: set<Sym>): set<Name> {
    set x | x in xs :: Called(x)
  }

  /** Variables that are spelled neither like temporaries nor alike. */
  predicate Distinguished(xs: set<Sym>) {
    && (forall x <- xs :: Key(x).Source? && Called(x).Source?)
    && forall x, y {:trigger Unlike(x, y)} :: x in xs && y in xs ==> Unlike(x, y)
  }

  predicate Unlike(x: Sym, y: Sym) {
    Called(x) == Called(y) ==> x == y
  }

  /** The numbered locals of arithmetic. */
  predicate IsNumber(id: string) {
    "rnum" <= id && Canonical(id[4..])
  }

  /** The emitted function for a program. */
  function FunctionName(prog: Sym): string {
    "f_" + prog
  }
}
