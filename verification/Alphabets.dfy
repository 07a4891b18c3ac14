/** The alphabets of armoured text (RFC 4648, sections 4 to 8). */
module Alphabets {
  import opened Options
  import opened Strings

  // ----- alphabets -----

  datatype Mode = Base64 | Base64Url | Base32 | Base32Hex | Base16

  const UPPER := "ABCDEFGHIJKLMNOPQRSTUVWXYZ"
  const LOWER := "abcdefghijklmnopqrstuvwxyz"
  const DECIMAL := "0123456789"

  function Alphabet(mode: Mode): (a: string)
    ensures |a| == Radix(mode)
  {
    match mode
    case Base64 => UPPER + LOWER + DECIMAL + "+/"
    case Base64Url => UPPER + LOWER + DECIMAL + "-_"
    case Base32 => UPPER + "234567"
    case Base32Hex => DECIMAL + "ABCDEFGHIJKLMNOPQRSTUV"
    case Base16 => DECIMAL + "ABCDEF"
  }

  function Radix(mode: Mode): nat {
    if mode.Base64? || mode.Base64Url? then 64 else if mode.Base16? then 16 else 32
  }

  /** Clears the bit that makes a letter lower-case. */
  function UpperCase(c: char): char {
    if c as int / 64 % 2 == 1 && c as int / 32 % 2 == 1 then (c as int - 32) as char else c
  }

  /** A character as it is looked up: letters in base32 and base16 may be lower-case. */
  function Convert(mode: Mode, c: char): char {
    if Radix(mode) == 64 then c else UpperCase(c)
  }

  /** The digit that a character stands for, if any. */
  function LookUp(mode: Mode, c: char): Option<bv8> {
    var i := IndexFrom(Alphabet(mode), Convert(mode, c), 0);
    if i < Radix(mode) then Some(i as bv8) else None
  }

  /** Consecutive characters. */
  function Range(c: char, n: nat): (s: string)
    requires c as int + n <= 128
    ensures |s| == n && forall i :: 0 <= i < n ==> s[i] as int == c as int + i
  {
    seq(n, i requires 0 <= i < n => (c as int + i) as char)
  }

  lemma Letters()
    ensures UPPER == Range('A', 26) && LOWER == Range('a', 26) && DECIMAL == Range('0', 10)
  {
  }

  lemma ShortRanges()
    ensures "ABCDEFGHIJKLMNOPQRSTUV" == Range('A', 22) && "ABCDEF" == Range('A', 6) && "234567" == Range('2', 6)
  {
  }

  /** The character of a digit, by ranges of characters. */
  function Char(mode: Mode, i: nat): char
    requires i < Radix(mode)
  {
    match mode
    case Base64 => Char64(i, '+', '/')
    case Base64Url => Char64(i, '-', '_')
    case Base32 => (if i < 26 then 65 + i else 24 + i) as char
    case _ => (if i < 10 then 48 + i else 55 + i) as char
  }

  function Char64(i: nat, c: char, d: char): char
    requires i < 64
  {
    if i < 26 then (65 + i) as char else if i < 52 then (71 + i) as char
    else if i < 62 then (i - 4) as char else if i == 62 then c else d
  }

  lemma Alphabet64(mode: Mode, i: nat)
    requires Radix(mode) == 64 && i < 64
    ensures Alphabet(mode)[i] == Char(mode, i)
  {
    Letters();
    var a := Alphabet(mode);
    assert a[..26] == UPPER && a[26..52] == LOWER && a[52..62] == DECIMAL;
  }

  /** The digits of each mode have the characters that RFC 4648 gives them. */
  lemma AlphabetIs(mode: Mode, i: nat)
    requires i < Radix(mode)
    ensures Alphabet(mode)[i] == Char(mode, i)
  {
    Letters();
    ShortRanges();
    if Radix(mode) == 64 {
      Alphabet64(mode, i);
    }
  }

  /** Different digits have different characters, none of which is changed for looking it up. */
  lemma CharsApart(mode: Mode, i: nat, k: nat)
    requires i < Radix(mode) && k < Radix(mode)
    ensures Char(mode, i) == Char(mode, k) <==> i == k
    ensures Convert(mode, Char(mode, i)) == Char(mode, i) > ' '
  {
  }

  /** The characters of an alphabet are looked up as their own positions. */
  lemma LookedUp(mode: Mode, i: nat)
    requires i < Radix(mode)
    ensures LookUp(mode, Alphabet(mode)[i]) == Some(i as bv8)
  {
    AlphabetIs(mode, i);
    CharsApart(mode, i, i);
    FoundAt(mode, i);
  }

  lemma FoundAt(mode: Mode, i: nat)
    requires i < Radix(mode)
    ensures IndexFrom(Alphabet(mode), Char(mode, i), 0) == i
  {
    var a := Alphabet(mode);
    AlphabetIs(mode, i);
    forall k | 0 <= k < i
      ensures a[k] != a[i]
    {
      AlphabetIs(mode, k);
      CharsApart(mode, i, k);
    }
    IndexFromIs(a, a[i], 0, i);
  }

  /** A letter in the other case. */
  function Lower(c: char): char {
    if 'A' <= c <= 'Z' then (c as int + 32) as char else c
  }

  /** A character is looked up as a digit exactly if it is the digit's character or, in
      base32 and base16, that character in lower case. */
  lemma LookUpExact(mode: Mode, c: char, i: nat)
    requires i < Radix(mode)
    ensures LookUp(mode, c) == Some(i as bv8) <==>
            c == Char(mode, i) || (Radix(mode) < 64 && c == Lower(Char(mode, i)))
  {
    var j := IndexFrom(Alphabet(mode), Convert(mode, c), 0);
    IndexIs(mode, Convert(mode, c), i);
    ConvertsTo(mode, c, i);
    if j < Radix(mode) { SameDigit(i, j); }
  }

  lemma IndexIs(mode: Mode, c: char, i: nat)
    requires i < Radix(mode)
    ensures IndexFrom(Alphabet(mode), c, 0) == i <==> c == Char(mode, i)
  {
    AlphabetIs(mode, i);
    if c == Char(mode, i) {
      FoundAt(mode, i);
    }
  }

  lemma SameDigit(i: nat, j: nat)
    requires i < 64 && j < 64
    ensures i as bv8 == j as bv8 <==> i == j
  {
    DigitBack(i);
    DigitBack(j);
    if i as bv8 == j as bv8 {
      assert (i as bv8) as int == (j as bv8) as int;
    }
  }

  lemma DigitBack(i: nat)
    requires i < 64
    ensures (i as bv8) as int == i
  {
  }

  lemma ConvertsTo(mode: Mode, c: char, i: nat)
    requires i < Radix(mode)
    ensures Convert(mode, c) == Char(mode, i) <==>
            c == Char(mode, i) || (Radix(mode) < 64 && c == Lower(Char(mode, i)))
  {
  }

  lemma NewlineUnknown(mode: Mode)
    ensures LookUp(mode, '\n').None?
  {
    var i := IndexFrom(Alphabet(mode), '\n', 0);
    assert Convert(mode, '\n') == '\n';
    if i < Radix(mode) {
      AlphabetIs(mode, i);
      CharsApart(mode, i, i);
    }
  }

  lemma PadUnknown()
    ensures LookUp(Base64, '=').None?
  {
    var i := IndexFrom(Alphabet(Base64), '=', 0);
    if i < 64 {
      AlphabetIs(Base64, i);
    }
  }
}
