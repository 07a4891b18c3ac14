/** Breaking text into lines, and reading the digits in it whatever breaks are between them. */
module Wrapping {
  import opened Options
  import opened Sizes

  // ----- characters and their digits -----

  /** The digit of each character, if it is known. */
  type Table<D> = char -> Option<D>

  /** The digits of the known characters of a text. */
  function Values<D>(table: Table<D>, text: string): seq<D> {
    if text == "" then []
    else if table(text[0]).None? then Values(table, text[1..])
    else [table(text[0]).value] + Values(table, text[1..])
  }

  predicate Unknown<D>(table: Table<D>, text: string) {
    forall i :: 0 <= i < |text| ==> table(text[i]).None?
  }

  lemma {:induction false} ValuesAppend<D>(table: Table<D>, s: string, t: string)
    ensures Values(table, s + t) == Values(table, s) + Values(table, t)
  {
    if s == "" {
      assert s + t == t;
    } else {
      ValuesAppend(table, s[1..], t);
      assert (s + t)[0] == s[0] && (s + t)[1..] == s[1..] + t;
    }
  }

  lemma {:induction false} ValuesUnknown<D>(table: Table<D>, s: string)
    requires Unknown(table, s)
    ensures Values(table, s) == []
  {
    if s != "" {
      ValuesUnknown(table, s[1..]);
    }
  }

  // ----- writing digits -----

  /** The character of each digit. */
  type Letters<!D> = D -> char

  function Chars<D>(letters: Letters<D>, ds: seq<D>): (s: string)
    ensures |s| == |ds|
  {
    if ds == [] then "" else [letters(ds[0])] + Chars(letters, ds[1..])
  }

  function Pads(c: char, n: nat): (p: string)
    ensures |p| == n && forall i :: 0 <= i < n ==> p[i] == c
  {
    seq(n, _ => c)
  }

  /** The table finds the digits again from their characters. */
  ghost predicate Reads<D>(table: Table<D>, letters: Letters<D>, ds: seq<D>) {
    forall i :: 0 <= i < |ds| ==> table(letters(ds[i])) == Some(ds[i])
  }

  lemma {:induction false} CharsKnown<D>(table: Table<D>, letters: Letters<D>, ds: seq<D>)
    requires Reads(table, letters, ds)
    ensures Values(table, Chars(letters, ds)) == ds
    ensures forall i :: 0 <= i < |ds| ==> table(Chars(letters, ds)[i]).Some?
    decreases ds
  {
    if ds != [] {
      assert table(letters(ds[0])) == Some(ds[0]);
      CharsKnown(table, letters, ds[1..]);
    }
  }

  // ----- line breaks -----

  /** Breaks a text into lines of the given length. */
  function Wrap(s: string, width: nat): string
    requires width > 0
  {
    if |s| <= width then s else s[..width] + "\n" + Wrap(s[width..], width)
  }

  /** The number of line breaks in a text of n characters. */
  function Breaks(n: nat, width: nat): nat
    requires width > 0
  {
    if n <= width then 0 else 1 + Breaks(n - width, width)
  }

  /** n times k. */
  function Times(n: nat, k: nat): (m: nat)
    ensures m == n * k
  {
    if n == 0 then 0 else Times(n - 1, k) + k
  }

  /** Broken text has a line break after every width characters, and the characters of the text
      in order between them. */
  lemma {:induction false} WrapAt(s: string, width: nat, line: nat, column: nat)
    requires width > 0 && column <= width && Times(line, width + 1) + column < |Wrap(s, width)|
    ensures var c := Wrap(s, width)[Times(line, width + 1) + column];
            if column == width then c == '\n'
            else Times(line, width) + column < |s| && c == s[Times(line, width) + column]
    decreases line
  {
    if line > 0 {
      LaterLine(s, width, Times(line - 1, width + 1) + column);
      WrapAt(s[width..], width, line - 1, column);
    }
  }

  lemma LaterLine(s: string, width: nat, i: nat)
    requires width > 0 && i + width + 1 < |Wrap(s, width)|
    ensures |s| > width && i < |Wrap(s[width..], width)|
    ensures Wrap(s, width)[i + width + 1] == Wrap(s[width..], width)[i]
  {
    After(s[..width] + "\n", Wrap(s[width..], width), i);
  }

  lemma After(a: string, b: string, i: nat)
    ensures i < |b| ==> (a + b)[i + |a|] == b[i]
  {
  }

  /** There is a break between lines, and none at the end. */
  lemma {:induction false} BreaksAre(n: nat, width: nat)
    requires width > 0 && n > 0
    ensures Times(Breaks(n, width), width) < n <= Times(Breaks(n, width), width) + width
    decreases n
  {
    if n > width {
      BreaksAre(n - width, width);
    }
  }

  function Newlines(s: string): nat {
    if s == "" then 0 else (if s[0] == '\n' then 1 else 0) + Newlines(s[1..])
  }

  lemma {:induction false} NewlinesAppend(s: string, t: string)
    ensures Newlines(s + t) == Newlines(s) + Newlines(t)
  {
    if s == "" {
      assert s + t == t;
    } else {
      NewlinesAppend(s[1..], t);
      assert (s + t)[1..] == s[1..] + t;
    }
  }

  lemma {:induction false} NoNewlines(s: string)
    requires '\n' !in s
    ensures Newlines(s) == 0
  {
    if s != "" {
      NoNewlines(s[1..]);
    }
  }

  lemma LineNewlines(line: string, rest: string)
    requires '\n' !in line
    ensures Newlines(line + "\n" + rest) == 1 + Newlines(rest)
  {
    NoNewlines(line);
    NewlinesAppend(line, "\n");
    NewlinesAppend(line + "\n", rest);
  }

  lemma {:induction false} WrapNewlines(s: string, width: nat)
    requires width > 0 && '\n' !in s
    ensures Newlines(Wrap(s, width)) == Breaks(|s|, width)
    decreases |s|
  {
    if |s| <= width {
      NoNewlines(s);
    } else {
      WrapNewlines(s[width..], width);
      LineNewlines(s[..width], Wrap(s[width..], width));
    }
  }

  lemma {:induction false} WrapValues<D>(table: Table<D>, s: string, width: nat)
    requires width > 0 && table('\n').None?
    ensures Values(table, Wrap(s, width)) == Values(table, s)
    decreases |s|
  {
    if |s| > width {
      var line, rest := s[..width], s[width..];
      WrapValues(table, rest, width);
      ValuesAppend(table, line, rest);
      ValuesUnknown(table, "\n");
      ValuesAppend(table, line, "\n");
      ValuesAppend(table, line + "\n", Wrap(rest, width));
      assert s == line + rest;
    }
  }

  lemma {:induction false} WrapUnknown<D>(table: Table<D>, s: string, width: nat)
    requires width > 0 && table('\n').None? && Unknown(table, s)
    ensures Unknown(table, Wrap(s, width))
    decreases |s|
  {
    if |s| > width {
      WrapUnknown(table, s[width..], width);
    }
  }

  /** Length of a text without the unknown characters at its end. */
  function Ceiling<D>(table: Table<D>, s: string): (n: nat)
    ensures n <= |s| && (n > 0 ==> table(s[n - 1]).Some?) && forall i :: n <= i < |s| ==> table(s[i]).None?
  {
    if s == "" then 0 else if table(s[|s| - 1]).Some? then |s| else Ceiling(table, s[..|s| - 1])
  }

  lemma CeilingIs<D>(table: Table<D>, s: string, n: nat)
    requires n <= |s| && (n > 0 ==> table(s[n - 1]).Some?) && forall i :: n <= i < |s| ==> table(s[i]).None?
    ensures Ceiling(table, s) == n
  {
    var e := Ceiling(table, s);
    assert e > 0 ==> table(s[e - 1]).Some?;
  }

  /** The padding, and the line breaks in it, come after all known characters. */
  lemma {:induction false} WrapCeiling<D>(table: Table<D>, a: string, p: string, width: nat)
    requires width > 0 && table('\n').None? && a != "" && (forall i :: 0 <= i < |a| ==> table(a[i]).Some?) &&
             Unknown(table, p)
    ensures Ceiling(table, Wrap(a + p, width)) == |Wrap(a, width)|
    decreases |a|
  {
    var s := a + p;
    if |s| <= width {
      CeilingIs(table, s, |a|);
    } else if |a| <= width {
      var q := p[..width - |a|];
      assert s[..width] == a + q && s[width..] == p[width - |a|..];
      WrapUnknown(table, s[width..], width);
      CeilingIs(table, a + q + "\n" + Wrap(s[width..], width), |a|);
    } else {
      var line, rest := a[..width], a[width..];
      assert s[..width] == line && s[width..] == rest + p;
      WrapCeiling(table, rest, p, width);
      CeilingAfter(table, line + "\n", Wrap(rest + p, width));
    }
  }

  lemma CeilingAfter<D>(table: Table<D>, s: string, t: string)
    requires Ceiling(table, t) > 0
    ensures Ceiling(table, s + t) == |s| + Ceiling(table, t)
  {
    CeilingIs(table, s + t, |s| + Ceiling(table, t));
  }

  lemma {:induction false} WrapLength(s: string, width: nat)
    requires width > 0
    ensures |Wrap(s, width)| == |s| + Breaks(|s|, width)
    decreases |s|
  {
    if |s| > width {
      WrapLength(s[width..], width);
    }
  }

  lemma {:induction false} BreaksBelow(n: nat, width: nat)
    requires width > 0 && n > 0
    ensures Breaks(n, width) < n
  {
    if n > width {
      BreaksBelow(n - width, width);
    }
  }

  lemma {:induction false} BreaksGrow(n: nat, more: nat, width: nat)
    requires width > 0
    ensures Breaks(n, width) <= Breaks(n + more, width) <= Breaks(n, width) + more
    decreases n
  {
    if n > width {
      BreaksGrow(n - width, more, width);
    } else if n + more > width {
      BreaksBelow(n + more - width, width);
    }
  }

  // ----- reading text back -----

  /** Where the decoder stops: if it does not trim, unknown characters at the end count. */
  function End<D>(table: Table<D>, trims: bool, text: string): (e: nat)
    ensures e <= |text|
  {
    if trims then Ceiling(table, text) else |text|
  }

  function Found<D>(table: Table<D>, trims: bool, text: string): seq<D> {
    Values(table, text[..End(table, trims, text)])
  }

  /** The length that the size of the buffer is computed from. */
  function Length<D>(table: Table<D>, trims: bool, text: string): int {
    End(table, trims, text) - Newlines(text)
  }

  /** What the decoder finds in known characters and padding that were broken into lines. */
  lemma WrapRead<D>(table: Table<D>, a: string, p: string, width: nat)
    requires width > 0 && table('\n').None? && '\n' !in p && Unknown(table, p) && (a == "" ==> p == "")
    requires forall i :: 0 <= i < |a| ==> table(a[i]).Some?
    ensures Newlines(Wrap(a + p, width)) == Breaks(|a| + |p|, width)
    ensures Ceiling(table, Wrap(a + p, width)) == |a| + Breaks(|a|, width)
  {
    assert '\n' !in a;
    WrapNewlines(a + p, width);
    if a != "" {
      WrapLength(a, width);
      WrapCeiling(table, a, p, width);
    }
  }

  lemma CeilingValues<D>(table: Table<D>, text: string)
    ensures Values(table, text[..Ceiling(table, text)]) == Values(table, text)
  {
    var e := Ceiling(table, text);
    assert text == text[..e] + text[e..];
    ValuesAppend(table, text[..e], text[e..]);
    ValuesUnknown(table, text[e..]);
  }

  lemma PaddedValues<D>(table: Table<D>, a: string, p: string, width: nat)
    requires width > 0 && table('\n').None? && Unknown(table, p)
    ensures Values(table, Wrap(a + p, width)) == Values(table, a)
  {
    WrapValues(table, a + p, width);
    ValuesAppend(table, a, p);
    ValuesUnknown(table, p);
  }

  /** Digits that were written come back. */
  lemma WrapFound<D>(table: Table<D>, trims: bool, letters: Letters<D>, ds: seq<D>, pads: string, width: nat)
    requires width > 0 && Reads(table, letters, ds) && table('\n').None? && Unknown(table, pads)
    ensures Found(table, trims, Wrap(Chars(letters, ds) + pads, width)) == ds
  {
    var text := Wrap(Chars(letters, ds) + pads, width);
    CharsKnown(table, letters, ds);
    PaddedValues(table, Chars(letters, ds), pads, width);
    CeilingValues(table, text);
    assert text[..|text|] == text;
  }

  /** The breaks that padding of p characters brings to k characters. */
  function Excess(k: nat, p: nat, width: nat): int
    requires width > 0
  {
    Breaks(k + p, width) - Breaks(k, width)
  }

  /** Their number is put off by the breaks in the padding. */
  lemma WrapLengthFound<D>(table: Table<D>, trims: bool, letters: Letters<D>, ds: seq<D>, pads: string, width: nat)
    requires width > 0 && Reads(table, letters, ds) && table('\n').None? && '\n' !in pads && Unknown(table, pads)
    requires (trims || pads == "") && (ds == [] ==> pads == "")
    ensures Length(table, trims, Wrap(Chars(letters, ds) + pads, width)) == |ds| - Excess(|ds|, |pads|, width)
  {
    var chars := Chars(letters, ds);
    CharsKnown(table, letters, ds);
    WrapRead(table, chars, pads, width);
    if !trims {
      WrapLength(chars + pads, width);
    }
  }

  // ----- decoding -----

  /** Bytes and the size of their buffer; or a buffer too small for them; or a failed assertion. */
  datatype Result<B> = Decoded(bytes: seq<B>, size: nat) | Overflow | Aborted

  /** The bytes and a zero byte after them, in a buffer of a given size. */
  function Stored<B>(bytes: seq<B>, size: Option<nat>): Result<B> {
    if size.None? then Aborted else if |bytes| < size.value then Decoded(bytes, size.value) else Overflow
  }

  function Outcome<D, B>(decode: seq<D> -> seq<B>, size: int -> Option<nat>, table: Table<D>, trims: bool,
                         text: string): Result<B> {
    Stored(decode(Found(table, trims, text)), size(Length(table, trims, text)))
  }

  /** Text in which the digits of some bytes were written gives the bytes, with a size of one
      more, exactly if padding brings no line breaks, provided that the size tells so. */
  lemma WrittenOutcome<D, B>(decode: seq<D> -> seq<B>, size: int -> Option<nat>, table: Table<D>, trims: bool,
                             letters: Letters<D>, ds: seq<D>, data: seq<B>, c: char, p: nat, width: nat)
    requires width > 0 && Reads(table, letters, ds) && table('\n').None? && (p > 0 ==> table(c).None? && c != '\n')
    requires ((!trims || ds == []) ==> p == 0) && decode(ds) == data
    requires size(|ds| - Excess(|ds|, p, width)) == Some(|data| + 1) <==> Excess(|ds|, p, width) == 0
    ensures Outcome(decode, size, table, trims, Wrap(Chars(letters, ds) + Pads(c, p), width)) ==
            Decoded(data, |data| + 1)
            <==> Excess(|ds|, p, width) == 0
  {
    WrapFound(table, trims, letters, ds, Pads(c, p), width);
    WrapLengthFound(table, trims, letters, ds, Pads(c, p), width);
  }

  lemma Trip64<D, B>(decode: seq<D> -> seq<B>, table: Table<D>, letters: Letters<D>, ds: seq<D>, data: seq<B>,
                     c: char, p: nat, width: nat)
    requires width > 0 && Reads(table, letters, ds) && table('\n').None?
    requires p == 0 || (p == Missing64(|ds|) && table(c).None? && c != '\n')
    requires decode(ds) == data && |ds| == Count64(|data|)
    ensures Outcome(decode, Size64, table, true, Wrap(Chars(letters, ds) + Pads(c, p), width)) ==
            Decoded(data, |data| + 1)
            <==> Excess(|ds|, p, width) == 0
  {
    BreaksGrow(|ds|, p, width);
    Size64Exact(|data|, Excess(|ds|, p, width));
    WrittenOutcome(decode, Size64, table, true, letters, ds, data, c, p, width);
  }

  lemma Trip32<D, B>(decode: seq<D> -> seq<B>, table: Table<D>, letters: Letters<D>, ds: seq<D>, data: seq<B>,
                     c: char, p: nat, width: nat)
    requires width > 0 && Reads(table, letters, ds) && table('\n').None?
    requires p == 0 || (p == Missing32(|ds|) && table(c).None? && c != '\n')
    requires decode(ds) == data && |ds| == Count32(|data|)
    ensures Outcome(decode, Size32, table, true, Wrap(Chars(letters, ds) + Pads(c, p), width)) ==
            Decoded(data, |data| + 1)
            <==> Excess(|ds|, p, width) == 0
  {
    BreaksGrow(|ds|, p, width);
    Size32Exact(|data|, Excess(|ds|, p, width));
    WrittenOutcome(decode, Size32, table, true, letters, ds, data, c, p, width);
  }

  lemma Trip16<D, B>(decode: seq<D> -> seq<B>, table: Table<D>, letters: Letters<D>, ds: seq<D>, data: seq<B>,
                     c: char, width: nat)
    requires width > 0 && Reads(table, letters, ds) && table('\n').None?
    requires decode(ds) == data && |ds| == 2 * |data|
    ensures Outcome(decode, Size16, table, false, Wrap(Chars(letters, ds) + Pads(c, 0), width)) ==
            Decoded(data, |data| + 1)
  {
    WrittenOutcome(decode, Size16, table, false, letters, ds, data, c, 0, width);
  }

  // ----- padding that is read as something else -----

  lemma {:induction false} ValuesPads<D>(table: Table<D>, s: string)
    requires forall i :: 0 <= i < |s| ==> table(s[i]).Some?
    ensures |Values(table, s)| == |s|
    decreases s
  {
    if s != "" {
      ValuesPads(table, s[1..]);
    }
  }

  /** Padding by a digit is read as digits. */
  lemma DigitsPadded<D>(table: Table<D>, letters: Letters<D>, ds: seq<D>, pads: string, width: nat)
    requires width > 0 && Reads(table, letters, ds) && table('\n').None?
    requires forall i :: 0 <= i < |pads| ==> table(pads[i]).Some?
    ensures |Found(table, true, Wrap(Chars(letters, ds) + pads, width))| == |ds| + |pads|
  {
    var chars := Chars(letters, ds);
    CharsKnown(table, letters, ds);
    WrapValues(table, chars + pads, width);
    ValuesAppend(table, chars, pads);
    ValuesPads(table, pads);
    CeilingValues(table, Wrap(chars + pads, width));
  }

  lemma {:induction false} WrapNewlinesMore(s: string, width: nat)
    requires width > 0
    ensures Newlines(Wrap(s, width)) == Breaks(|s|, width) + Newlines(s)
    decreases |s|
  {
    if |s| > width {
      var line, rest := s[..width], s[width..];
      WrapNewlinesMore(rest, width);
      assert s == line + rest;
      NewlinesAppend(line, rest);
      NewlinesAppend(line, "\n");
      NewlinesAppend(line + "\n", Wrap(rest, width));
    }
  }

  lemma {:induction false} AllNewlines(s: string)
    requires forall i :: 0 <= i < |s| ==> s[i] == '\n'
    ensures Newlines(s) == |s|
    decreases s
  {
    if s != "" {
      AllNewlines(s[1..]);
    }
  }

  /** Padding by newlines is counted as line breaks. */
  lemma NewlinesPadded<D>(table: Table<D>, letters: Letters<D>, ds: seq<D>, pads: string, width: nat)
    requires width > 0 && Reads(table, letters, ds) && table('\n').None? && ds != []
    requires forall i :: 0 <= i < |pads| ==> pads[i] == '\n'
    ensures Length(table, true, Wrap(Chars(letters, ds) + pads, width)) ==
            |ds| - Excess(|ds|, |pads|, width) - |pads|
  {
    CharsKnown(table, letters, ds);
    NewlinesPaddedText(table, Chars(letters, ds), pads, width);
  }

  lemma NewlinesPaddedText<D>(table: Table<D>, chars: string, pads: string, width: nat)
    requires width > 0 && table('\n').None? && chars != "" && forall i :: 0 <= i < |chars| ==> table(chars[i]).Some?
    requires forall i :: 0 <= i < |pads| ==> pads[i] == '\n'
    ensures Length(table, true, Wrap(chars + pads, width)) == |chars| - Excess(|chars|, |pads|, width) - |pads|
  {
    assert '\n' !in chars && Unknown(table, pads);
    NewlinesAfter(chars, pads, width);
    WrapLength(chars, width);
    WrapCeiling(table, chars, pads, width);
  }

  lemma NewlinesAfter(s: string, pads: string, width: nat)
    requires width > 0 && '\n' !in s && forall i :: 0 <= i < |pads| ==> pads[i] == '\n'
    ensures Newlines(Wrap(s + pads, width)) == Breaks(|s| + |pads|, width) + |pads|
  {
    WrapNewlinesMore(s + pads, width);
    NewlinesAppend(s, pads);
    NoNewlines(s);
    AllNewlines(pads);
  }

  /** As many bytes come out as whole groups give. */
  lemma DigitsTaken<D, B>(decode: seq<D> -> seq<B>, size: int -> Option<nat>, table: Table<D>, letters: Letters<D>,
                          ds: seq<D>, data: seq<B>, c: char, p: nat, width: nat, n: nat)
    requires width > 0 && Reads(table, letters, ds) && table('\n').None? && table(c).Some? && n > |data|
    requires var v := Found(table, true, Wrap(Chars(letters, ds) + Pads(c, p), width));
             |v| == |ds| + p ==> |decode(v)| == n
    ensures Outcome(decode, size, table, true, Wrap(Chars(letters, ds) + Pads(c, p), width)) !=
            Decoded(data, |data| + 1)
  {
    DigitsPadded(table, letters, ds, Pads(c, p), width);
  }

  lemma NewlinesTaken<D, B>(decode: seq<D> -> seq<B>, size: int -> Option<nat>, table: Table<D>, letters: Letters<D>,
                            ds: seq<D>, data: seq<B>, p: nat, width: nat)
    requires width > 0 && Reads(table, letters, ds) && table('\n').None? && ds != []
    requires size(|ds| - Excess(|ds|, p, width) - p) != Some(|data| + 1)
    ensures Outcome(decode, size, table, true, Wrap(Chars(letters, ds) + Pads('\n', p), width)) !=
            Decoded(data, |data| + 1)
  {
    NewlinesPadded(table, letters, ds, Pads('\n', p), width);
    OtherSize(decode, size, table, Wrap(Chars(letters, ds) + Pads('\n', p), width), data);
  }

  lemma OtherSize<D, B>(decode: seq<D> -> seq<B>, size: int -> Option<nat>, table: Table<D>, text: string,
                        data: seq<B>)
    requires size(Length(table, true, text)) != Some(|data| + 1)
    ensures Outcome(decode, size, table, true, text) != Decoded(data, |data| + 1)
  {
  }

  lemma Off64(n: nat, p: nat, width: nat)
    requires width > 0 && p == Missing64(Count64(n)) > 0
    ensures Size64(Count64(n) - Excess(Count64(n), p, width) - p) != Some(n + 1)
  {
    BreaksGrow(Count64(n), p, width);
    Size64Exact(n, Excess(Count64(n), p, width) + p);
  }

  lemma Off32(n: nat, p: nat, width: nat)
    requires width > 0 && p == Missing32(Count32(n)) > 0
    ensures Size32(Count32(n) - Excess(Count32(n), p, width) - p) != Some(n + 1)
  {
    BreaksGrow(Count32(n), p, width);
    Size32Exact(n, Excess(Count32(n), p, width) + p);
  }

  /** Padding to whole groups by a digit or by newlines is not decoded. */
  lemma Taken64<D(!new), B>(decode: seq<D> -> seq<B>, table: Table<D>, letters: Letters<D>, ds: seq<D>, data: seq<B>,
                            c: char, p: nat, width: nat)
    requires width > 0 && Reads(table, letters, ds) && table('\n').None? && (table(c).Some? || c == '\n')
    requires p == Missing64(|ds|) > 0 && |ds| == Count64(|data|)
    requires forall v: seq<D> :: |v| % 4 == 0 ==> |decode(v)| == 3 * (|v| / 4)
    ensures Outcome(decode, Size64, table, true, Wrap(Chars(letters, ds) + Pads(c, p), width)) !=
            Decoded(data, |data| + 1)
  {
    if c == '\n' {
      Off64(|data|, p, width);
      NewlinesTaken(decode, Size64, table, letters, ds, data, p, width);
    } else {
      DigitTaken64(decode, table, letters, ds, data, c, p, width);
    }
  }

  lemma DigitTaken64<D(!new), B>(decode: seq<D> -> seq<B>, table: Table<D>, letters: Letters<D>, ds: seq<D>,
                                data: seq<B>, c: char, p: nat, width: nat)
    requires width > 0 && Reads(table, letters, ds) && table('\n').None? && table(c).Some?
    requires p == Missing64(|ds|) > 0 && |ds| == Count64(|data|)
    requires forall v: seq<D> :: |v| % 4 == 0 ==> |decode(v)| == 3 * (|v| / 4)
    ensures Outcome(decode, Size64, table, true, Wrap(Chars(letters, ds) + Pads(c, p), width)) !=
            Decoded(data, |data| + 1)
  {
    Filled64(|data|);
    DigitsTaken(decode, Size64, table, letters, ds, data, c, p, width, 3 * ((|ds| + p) / 4));
  }

  lemma Taken32<D(!new), B>(decode: seq<D> -> seq<B>, table: Table<D>, letters: Letters<D>, ds: seq<D>, data: seq<B>,
                            c: char, p: nat, width: nat)
    requires width > 0 && Reads(table, letters, ds) && table('\n').None? && (table(c).Some? || c == '\n')
    requires p == Missing32(|ds|) > 0 && |ds| == Count32(|data|)
    requires forall v: seq<D> :: |v| % 8 == 0 ==> |decode(v)| == 5 * (|v| / 8)
    ensures Outcome(decode, Size32, table, true, Wrap(Chars(letters, ds) + Pads(c, p), width)) !=
            Decoded(data, |data| + 1)
  {
    if c == '\n' {
      Off32(|data|, p, width);
      NewlinesTaken(decode, Size32, table, letters, ds, data, p, width);
    } else {
      DigitTaken32(decode, table, letters, ds, data, c, p, width);
    }
  }

  lemma DigitTaken32<D(!new), B>(decode: seq<D> -> seq<B>, table: Table<D>, letters: Letters<D>, ds: seq<D>,
                                data: seq<B>, c: char, p: nat, width: nat)
    requires width > 0 && Reads(table, letters, ds) && table('\n').None? && table(c).Some?
    requires p == Missing32(|ds|) > 0 && |ds| == Count32(|data|)
    requires forall v: seq<D> :: |v| % 8 == 0 ==> |decode(v)| == 5 * (|v| / 8)
    ensures Outcome(decode, Size32, table, true, Wrap(Chars(letters, ds) + Pads(c, p), width)) !=
            Decoded(data, |data| + 1)
  {
    Filled32(|data|);
    DigitsTaken(decode, Size32, table, letters, ds, data, c, p, width, 5 * ((|ds| + p) / 8));
  }
}
