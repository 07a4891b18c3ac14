/** The armour object: encoding and decoding with loops over the data, against the functions of
    the armour module. */
module Codec {
  import opened Options
  import opened Sizes
  import opened Grouping
  import opened Digits
  import opened Alphabets
  import opened Wrapping
  import A = Armour

  lemma {:induction false} CharsAppend<D>(letters: Letters<D>, s: seq<D>, t: seq<D>)
    ensures Chars(letters, s + t) == Chars(letters, s) + Chars(letters, t)
    decreases |s|
  {
    if s == [] {
      assert s + t == t;
    } else {
      CharsAppend(letters, s[1..], t);
      assert (s + t)[0] == s[0] && (s + t)[1..] == s[1..] + t;
      assert Chars(letters, s + t) == [letters(s[0])] + (Chars(letters, s[1..]) + Chars(letters, t));
    }
  }

  /** What is done and what is due stay the same together when a part is done. */
  lemma Moved<T>(done: seq<T>, due: seq<T>, part: seq<T>, rest: seq<T>)
    requires due == part + rest
    ensures done + due == done + part + rest
  {
  }

  /** Appends padding up to a total length. */
  method Pad(text: string, c: char, total: nat) returns (padded: string)
    requires |text| <= total
    ensures padded == text + Pads(c, total - |text|)
  {
    padded := text;
    while |padded| < total
      invariant |text| <= |padded| <= total && padded == text + Pads(c, |padded| - |text|)
    {
      padded := padded + [c];
    }
  }

  // ----- base64, encoding -----

  /** The digits of up to three bytes. */
  method Group64(data: seq<Byte>) returns (ds: seq<bv8>)
    requires data != []
    ensures ds == First3(Split64, 0, data)
  {
    if |data| == 1 {
      ds := Group64Of1(data[0]);
    } else if |data| == 2 {
      ds := Group64Of2(data[0], data[1]);
    } else {
      ds := Group64Of3(data[0], data[1], data[2]);
    }
  }

  method Group64Of1(a: Byte) returns (ds: seq<bv8>)
    ensures ds == Front4(Split64(Three(a, 0, 0)), 1)
  {
    ds := [a >> 2, (a << 4) & 0x30];
  }

  method Group64Of2(a: Byte, b: Byte) returns (ds: seq<bv8>)
    ensures ds == Front4(Split64(Three(a, b, 0)), 2)
  {
    ds := [a >> 2, ((a << 4) & 0x30) | (b >> 4), (b << 2) & 0x3c];
  }

  method Group64Of3(a: Byte, b: Byte, c: Byte) returns (ds: seq<bv8>)
    ensures ds == Digits4(Split64(Three(a, b, c)))
  {
    ds := [a >> 2, ((a << 4) & 0x30) | (b >> 4), ((b << 2) & 0x3c) | (c >> 6), c & 0x3f];
  }

  /** The characters still to be written from i on. */
  ghost function Left64(letters: Letters<bv8>, data: seq<Byte>, i: nat): string {
    Chars(letters, Encode64(Rest(data, i)))
  }

  lemma Left64Step(letters: Letters<bv8>, data: seq<Byte>, i: nat)
    requires i < |data|
    ensures Left64(letters, data, i) == Chars(letters, First3(Split64, 0, data[i..])) + Left64(letters, data, i + 3)
  {
    Encode3Step(Split64, 0, data, i);
    CharsAppend(letters, First3(Split64, 0, data[i..]), Encode3(Split64, 0, Rest(data, i + 3)));
  }

  lemma Left64Ends(letters: Letters<bv8>, data: seq<Byte>, i: nat)
    ensures Left64(letters, data, 0) == Chars(letters, Encode64(data)) && |Encode64(data)| == Count64(|data|)
    ensures i >= |data| ==> Left64(letters, data, i) == ""
  {
    assert data[0..] == data;
  }

  method Characters64(data: seq<Byte>, letters: Letters<bv8>) returns (enc: string)
    ensures enc == Chars(letters, Encode64(data))
  {
    enc := "";
    var needle := 0;
    ghost var all := Chars(letters, Encode64(data));
    Left64Ends(letters, data, 0);
    while needle < |data|
      invariant enc + Left64(letters, data, needle) == all
    {
      var ds := Group64(data[needle..]);
      var group := Chars(letters, ds);
      Left64Step(letters, data, needle);
      Moved(enc, Left64(letters, data, needle), group, Left64(letters, data, needle + 3));
      enc := enc + group;
      needle := needle + 3;
    }
    Left64Ends(letters, data, needle);
  }

  /** The length of the buffer. */
  method Length64(n: nat, pad: bool) returns (strChars: nat)
    ensures strChars == Count64(n) + (if pad then Missing64(Count64(n)) else 0)
  {
    var extraChars := if n % 3 != 0 then n % 3 + 1 else 0;
    var padChars := if pad && extraChars != 0 then 4 - extraChars else 0;
    strChars := 4 * (n / 3) + extraChars + padChars;
  }

  method EncodeBase64(data: seq<Byte>, letters: Letters<bv8>, pad: bool, padChar: char) returns (str: string)
    ensures var ds := Encode64(data);
            str == Chars(letters, ds) + Pads(padChar, if pad then Missing64(|ds|) else 0)
  {
    var strChars := Length64(|data|, pad);
    var enc := Characters64(data, letters);
    str := Pad(enc, padChar, strChars);
  }

  // ----- base32, encoding -----

  /** The digits of up to five bytes. */
  method Group32(data: seq<Byte>) returns (ds: seq<bv8>)
    requires data != []
    ensures ds == First5(Split32, 0, data)
  {
    if |data| == 1 {
      ds := Group32Of1(data[0]);
    } else if |data| == 2 {
      ds := Group32Of2(data[0], data[1]);
    } else if |data| == 3 {
      ds := Group32Of3(data[0], data[1], data[2]);
    } else if |data| == 4 {
      ds := Group32Of4(data[0], data[1], data[2], data[3]);
    } else {
      ds := Group32Of5(data[0], data[1], data[2], data[3], data[4]);
    }
  }

  method Group32Of1(a: Byte) returns (ds: seq<bv8>)
    ensures ds == Front8(Split32(Five(a, 0, 0, 0, 0)), 1)
  {
    ds := [a >> 3, (a << 2) & 0x1c];
  }

  method Group32Of2(a: Byte, b: Byte) returns (ds: seq<bv8>)
    ensures ds == Front8(Split32(Five(a, b, 0, 0, 0)), 2)
  {
    ds := [a >> 3, ((a << 2) & 0x1c) | (b >> 6), (b >> 1) & 0x1f, (b << 4) & 0x10];
  }

  method Group32Of3(a: Byte, b: Byte, c: Byte) returns (ds: seq<bv8>)
    ensures ds == Front8(Split32(Five(a, b, c, 0, 0)), 3)
  {
    ds := [a >> 3, ((a << 2) & 0x1c) | (b >> 6), (b >> 1) & 0x1f, ((b << 4) & 0x10) | (c >> 4), (c << 1) & 0x1e];
  }

  method Group32Of4(a: Byte, b: Byte, c: Byte, d: Byte) returns (ds: seq<bv8>)
    ensures ds == Front8(Split32(Five(a, b, c, d, 0)), 4)
  {
    ds := [a >> 3, ((a << 2) & 0x1c) | (b >> 6), (b >> 1) & 0x1f, ((b << 4) & 0x10) | (c >> 4),
           ((c << 1) & 0x1e) | (d >> 7), (d >> 2) & 0x1f, (d << 3) & 0x18];
  }

  method Group32Of5(a: Byte, b: Byte, c: Byte, d: Byte, e: Byte) returns (ds: seq<bv8>)
    ensures ds == Digits8(Split32(Five(a, b, c, d, e)))
  {
    ds := [a >> 3, ((a << 2) & 0x1c) | (b >> 6), (b >> 1) & 0x1f, ((b << 4) & 0x10) | (c >> 4),
           ((c << 1) & 0x1e) | (d >> 7), (d >> 2) & 0x1f, ((d << 3) & 0x18) | (e >> 5), e & 0x1f];
  }

  ghost function Left32(letters: Letters<bv8>, data: seq<Byte>, i: nat): string {
    Chars(letters, Encode32(Rest(data, i)))
  }

  lemma Left32Step(letters: Letters<bv8>, data: seq<Byte>, i: nat)
    requires i < |data|
    ensures Left32(letters, data, i) == Chars(letters, First5(Split32, 0, data[i..])) + Left32(letters, data, i + 5)
  {
    Encode5Step(Split32, 0, data, i);
    CharsAppend(letters, First5(Split32, 0, data[i..]), Encode5(Split32, 0, Rest(data, i + 5)));
  }

  lemma Left32Ends(letters: Letters<bv8>, data: seq<Byte>, i: nat)
    ensures Left32(letters, data, 0) == Chars(letters, Encode32(data)) && |Encode32(data)| == Count32(|data|)
    ensures i >= |data| ==> Left32(letters, data, i) == ""
  {
    assert data[0..] == data;
  }

  method Characters32(data: seq<Byte>, letters: Letters<bv8>) returns (enc: string)
    ensures enc == Chars(letters, Encode32(data))
  {
    enc := "";
    var needle := 0;
    ghost var all := Chars(letters, Encode32(data));
    Left32Ends(letters, data, 0);
    while needle < |data|
      invariant enc + Left32(letters, data, needle) == all
    {
      var ds := Group32(data[needle..]);
      var group := Chars(letters, ds);
      Left32Step(letters, data, needle);
      Moved(enc, Left32(letters, data, needle), group, Left32(letters, data, needle + 5));
      enc := enc + group;
      needle := needle + 5;
    }
    Left32Ends(letters, data, needle);
  }

  method Length32(n: nat, pad: bool) returns (strChars: nat)
    ensures strChars == Count32(n) + (if pad then Missing32(Count32(n)) else 0)
  {
    var extraBytes, extraChars := n % 5, 0;
    if extraBytes == 1 {
      extraChars := 2;
    } else if extraBytes == 2 {
      extraChars := 4;
    } else if extraBytes == 3 {
      extraChars := 5;
    } else if extraBytes == 4 {
      extraChars := 7;
    }
    var padChars := if pad && extraChars != 0 then 8 - extraChars else 0;
    strChars := 8 * (n / 5) + extraChars + padChars;
  }

  method EncodeBase32(data: seq<Byte>, letters: Letters<bv8>, pad: bool, padChar: char) returns (str: string)
    ensures var ds := Encode32(data);
            str == Chars(letters, ds) + Pads(padChar, if pad then Missing32(|ds|) else 0)
  {
    var strChars := Length32(|data|, pad);
    var enc := Characters32(data, letters);
    str := Pad(enc, padChar, strChars);
  }

  // ----- base16, encoding -----

  /** The characters still to be written from i on. */
  ghost function Left16(letters: Letters<bv8>, data: seq<Byte>, i: nat): string {
    Chars(letters, Encode16(Rest(data, i)))
  }

  lemma Left16Step(letters: Letters<bv8>, data: seq<Byte>, i: nat)
    requires i < |data|
    ensures Left16(letters, data, i) == [letters(High(data[i])), letters(Low(data[i]))] + Left16(letters, data, i + 1)
  {
    Encode1Step(High, Low, data, i);
    CharsAppend(letters, [High(data[i]), Low(data[i])], Encode1(High, Low, Rest(data, i + 1)));
    TwoChars(letters, High(data[i]), Low(data[i]));
  }

  lemma Left16Ends(letters: Letters<bv8>, data: seq<Byte>, i: nat)
    ensures Left16(letters, data, 0) == Chars(letters, Encode16(data))
    ensures i >= |data| ==> Left16(letters, data, i) == ""
  {
    assert data[0..] == data;
  }

  method EncodeBase16(data: seq<Byte>, letters: Letters<bv8>) returns (str: string)
    ensures str == Chars(letters, Encode16(data))
  {
    str := "";
    var needle := 0;
    ghost var all := Chars(letters, Encode16(data));
    Left16Ends(letters, data, 0);
    while needle < |data|
      invariant needle <= |data| && str + Left16(letters, data, needle) == all
    {
      var b := data[needle];
      var two := [letters(b >> 4), letters(b & 0x0f)];
      Left16Step(letters, data, needle);
      Moved(str, Left16(letters, data, needle), two, Left16(letters, data, needle + 1));
      str := str + two;
      needle := needle + 1;
    }
    Left16Ends(letters, data, needle);
  }

  lemma TwoChars<D>(letters: Letters<D>, d: D, e: D)
    ensures Chars(letters, [d, e]) == [letters(d), letters(e)]
  {
    assert [d, e][1..] == [e] && [e][1..] == [];
  }

  // ----- decoding -----

  /** The characters from n up to the ceiling. */
  function Ahead(text: string, n: nat, ceiling: nat): string
    requires ceiling <= |text|
  {
    if n <= ceiling then text[n..ceiling] else ""
  }

  /** The digit of the next known character before the ceiling, if any, and where to go on. */
  method NextChar<D>(table: Table<D>, text: string, n: nat, ceiling: nat) returns (i: Option<D>, next: nat)
    requires ceiling <= |text|
    ensures var vs := Values(table, Ahead(text, n, ceiling));
            && i == (if vs == [] then None else Some(vs[0]))
            && Values(table, Ahead(text, next, ceiling)) == Rest(vs, 1)
    ensures next > n
  {
    next := n;
    while next < ceiling && table(text[next]).None?
      invariant n <= next && Values(table, Ahead(text, next, ceiling)) == Values(table, Ahead(text, n, ceiling))
    {
      assert text[next..ceiling][1..] == text[next + 1..ceiling];
      next := next + 1;
    }
    if next < ceiling {
      assert text[next..ceiling][1..] == text[next + 1..ceiling];
      i := table(text[next]);
    } else {
      assert Ahead(text, next, ceiling) == "";
      i := None;
    }
    next := next + 1;
  }

  /** Where the text ends without unknown characters at its end. */
  method FindCeiling<D>(table: Table<D>, text: string) returns (length: nat)
    ensures length == Ceiling(table, text)
  {
    length := |text|;
    while length > 0 && table(text[length - 1]).None?
      invariant length <= |text| && forall i :: length <= i < |text| ==> table(text[i]).None?
    {
      length := length - 1;
    }
    CeilingIs(table, text, length);
  }

  /** The bytes of the next four digits, as far as there are any. */
  method ReadGroup64(table: Table<bv8>, text: string, n: nat, ceiling: nat) returns (dec: seq<Byte>, next: nat)
    requires ceiling <= |text|
    ensures var vs := Values(table, Ahead(text, n, ceiling));
            && dec == Group4(Join64, 0, if |vs| < 4 then vs else vs[..4])
            && Values(table, Ahead(text, next, ceiling)) == Rest(vs, 4)
    ensures next > n
  {
    var i1, i2, i3, i4;
    i1, next := NextChar(table, text, n, ceiling);
    i2, next := NextChar(table, text, next, ceiling);
    i3, next := NextChar(table, text, next, ceiling);
    i4, next := NextChar(table, text, next, ceiling);
    dec := JoinFound64(i1, i2, i3, i4, Values(table, Ahead(text, n, ceiling)));
  }

  ghost function Nth<D>(vs: seq<D>, i: nat): Option<D> {
    if i < |vs| then Some(vs[i]) else None
  }

  ghost function Some4<D>(vs: seq<D>): Four<Option<D>> {
    Four(Nth(vs, 0), Nth(vs, 1), Nth(vs, 2), Nth(vs, 3))
  }

  method JoinFound64(i1: Option<bv8>, i2: Option<bv8>, i3: Option<bv8>, i4: Option<bv8>,
                     ghost vs: seq<bv8>) returns (dec: seq<Byte>)
    requires Four(i1, i2, i3, i4) == Some4(vs)
    ensures dec == Group4(Join64, 0, if |vs| < 4 then vs else vs[..4])
  {
    dec := [];
    if i1.Some? && i2.Some? {
      dec := [(i1.value << 2) | (i2.value >> 4)];
    }
    if i2.Some? && i3.Some? {
      dec := dec + [(i2.value << 4) | (i3.value >> 2)];
    }
    if i3.Some? && i4.Some? {
      dec := dec + [(i3.value << 6) | i4.value];
    }
  }

  /** The bytes still to be decoded from n on. */
  ghost function Due64(table: Table<bv8>, text: string, n: nat, ceiling: nat): seq<Byte>
    requires ceiling <= |text|
  {
    Decode64(Values(table, Ahead(text, n, ceiling)))
  }

  lemma Due64Step(table: Table<bv8>, text: string, n: nat, next: nat, ceiling: nat)
    requires ceiling <= |text| && Values(table, Ahead(text, next, ceiling)) ==
             Rest(Values(table, Ahead(text, n, ceiling)), 4)
    ensures var vs := Values(table, Ahead(text, n, ceiling));
            Due64(table, text, n, ceiling) ==
            Group4(Join64, 0, if |vs| < 4 then vs else vs[..4]) + Due64(table, text, next, ceiling)
  {
    Decode4Step(Join64, 0, Values(table, Ahead(text, n, ceiling)));
  }

  lemma Due64Ends(table: Table<bv8>, text: string, n: nat, ceiling: nat)
    requires ceiling <= |text|
    ensures Due64(table, text, 0, ceiling) == Decode64(Values(table, text[..ceiling]))
    ensures n >= ceiling ==> Due64(table, text, n, ceiling) == []
  {
    assert text[0..ceiling] == text[..ceiling];
    assert n >= ceiling ==> Ahead(text, n, ceiling) == "";
  }

  /** Decodes the digits up to the ceiling, group by group. */
  method Digits64(table: Table<bv8>, text: string, ceiling: nat) returns (dec: seq<Byte>)
    requires ceiling <= |text|
    ensures dec == Decode64(Values(table, text[..ceiling]))
  {
    dec := [];
    var needle := 0;
    ghost var all := Due64(table, text, 0, ceiling);
    while needle < ceiling
      invariant dec + Due64(table, text, needle, ceiling) == all
      decreases ceiling - needle
    {
      var bytes, next := ReadGroup64(table, text, needle, ceiling);
      Due64Step(table, text, needle, next, ceiling);
      Moved(dec, Due64(table, text, needle, ceiling), bytes, Due64(table, text, next, ceiling));
      dec := dec + bytes;
      needle := next;
    }
    Due64Ends(table, text, needle, ceiling);
  }

  /** Decoding a text in which so many breaks were counted. */
  ghost function DecodedWith<D, B>(decode: seq<D> -> seq<B>, size: int -> Option<nat>, table: Table<D>, trims: bool,
                                   text: string, breaks: nat): Result<B> {
    Stored(decode(Found(table, trims, text)), size(End(table, trims, text) - breaks))
  }

  /** With all breaks counted, decoding has the outcome that the armour module gives. */
  lemma Counted<D, B>(decode: seq<D> -> seq<B>, size: int -> Option<nat>, table: Table<D>, trims: bool, text: string)
    ensures Outcome(decode, size, table, trims, text) == DecodedWith(decode, size, table, trims, text, Newlines(text))
  {
  }

  method DecodeBase64(text: string, table: Table<bv8>, breaks: nat) returns (r: Result<Byte>)
    ensures r == DecodedWith(Decode64, Size64, table, true, text, breaks)
  {
    var length := FindCeiling(table, text);
    var ceiling := length;
    var size := Size64(length - breaks);
    var dec := Digits64(table, text, ceiling);
    r := Stored(dec, size);
  }

  // ----- base32, decoding -----

  ghost function Some8<D>(vs: seq<D>): Eight<Option<D>> {
    Eight(Nth(vs, 0), Nth(vs, 1), Nth(vs, 2), Nth(vs, 3), Nth(vs, 4), Nth(vs, 5), Nth(vs, 6), Nth(vs, 7))
  }

  ghost function Or<D>(o: Option<D>, zero: D): D {
    if o.None? then zero else o.value
  }

  ghost function Ors8<D>(o: Eight<Option<D>>, zero: D): Eight<D> {
    Eight(Or(o.p, zero), Or(o.q, zero), Or(o.r, zero), Or(o.s, zero),
          Or(o.t, zero), Or(o.u, zero), Or(o.v, zero), Or(o.w, zero))
  }

  /** One byte of a group, if all of its digits were found. */
  ghost function Byte8<D, B>(g: Five<B>, o: Eight<Option<D>>, k: nat): seq<B> {
    if k == 0 then if o.p.Some? && o.q.Some? then [g.a] else []
    else if k == 1 then if o.q.Some? && o.r.Some? && o.s.Some? then [g.b] else []
    else if k == 2 then if o.s.Some? && o.t.Some? then [g.c] else []
    else if k == 3 then if o.t.Some? && o.u.Some? && o.v.Some? then [g.d] else []
    else if o.v.Some? && o.w.Some? then [g.e] else []
  }

  ghost function Bytes8<D, B>(g: Five<B>, o: Eight<Option<D>>): seq<B> {
    Byte8(g, o, 0) + Byte8(g, o, 1) + Byte8(g, o, 2) + Byte8(g, o, 3) + Byte8(g, o, 4)
  }

  lemma Bytes8Are<D, B>(join: Eight<D> -> Five<B>, zero: D, vs: seq<D>)
    ensures Bytes8(join(Ors8(Some8(vs), zero)), Some8(vs)) == Group8(join, zero, if |vs| < 8 then vs else vs[..8])
  {
  }

  method JoinFound32(i1: Option<bv8>, i2: Option<bv8>, i3: Option<bv8>, i4: Option<bv8>,
                     i5: Option<bv8>, i6: Option<bv8>, i7: Option<bv8>, i8: Option<bv8>)
    returns (dec: seq<Byte>)
    ensures var o := Eight(i1, i2, i3, i4, i5, i6, i7, i8); dec == Bytes8(Join32(Ors8(o, 0)), o)
  {
    ghost var o := Eight(i1, i2, i3, i4, i5, i6, i7, i8);
    ghost var g := Join32(Ors8(o, 0));
    dec := [];
    if i1.Some? && i2.Some? {
      dec := [First32(i1.value, i2.value)];
    }
    assert dec == Byte8(g, o, 0);
    if i2.Some? && i3.Some? && i4.Some? {
      dec := dec + [Second32(i2.value, i3.value, i4.value)];
    }
    assert dec == Byte8(g, o, 0) + Byte8(g, o, 1);
    if i4.Some? && i5.Some? {
      dec := dec + [Third32(i4.value, i5.value)];
    }
    assert dec == Byte8(g, o, 0) + Byte8(g, o, 1) + Byte8(g, o, 2);
    if i5.Some? && i6.Some? && i7.Some? {
      dec := dec + [Fourth32(i5.value, i6.value, i7.value)];
    }
    assert dec == Byte8(g, o, 0) + Byte8(g, o, 1) + Byte8(g, o, 2) + Byte8(g, o, 3);
    if i7.Some? && i8.Some? {
      dec := dec + [Fifth32(i7.value, i8.value)];
    }
  }

  method ReadGroup32(table: Table<bv8>, text: string, n: nat, ceiling: nat) returns (dec: seq<Byte>, next: nat)
    requires ceiling <= |text|
    ensures var vs := Values(table, Ahead(text, n, ceiling));
            && dec == Group8(Join32, 0, if |vs| < 8 then vs else vs[..8])
            && Values(table, Ahead(text, next, ceiling)) == Rest(vs, 8)
    ensures next > n
  {
    var i1, i2, i3, i4, i5, i6, i7, i8;
    i1, next := NextChar(table, text, n, ceiling);
    i2, next := NextChar(table, text, next, ceiling);
    i3, next := NextChar(table, text, next, ceiling);
    i4, next := NextChar(table, text, next, ceiling);
    i5, next := NextChar(table, text, next, ceiling);
    i6, next := NextChar(table, text, next, ceiling);
    i7, next := NextChar(table, text, next, ceiling);
    i8, next := NextChar(table, text, next, ceiling);
    dec := JoinFound32(i1, i2, i3, i4, i5, i6, i7, i8);
    Bytes8Are(Join32, 0, Values(table, Ahead(text, n, ceiling)));
  }

  /** The bytes still to be decoded from n on. */
  ghost function Due32(table: Table<bv8>, text: string, n: nat, ceiling: nat): seq<Byte>
    requires ceiling <= |text|
  {
    Decode32(Values(table, Ahead(text, n, ceiling)))
  }

  lemma Due32Step(table: Table<bv8>, text: string, n: nat, next: nat, ceiling: nat)
    requires ceiling <= |text| && Values(table, Ahead(text, next, ceiling)) ==
             Rest(Values(table, Ahead(text, n, ceiling)), 8)
    ensures var vs := Values(table, Ahead(text, n, ceiling));
            Due32(table, text, n, ceiling) ==
            Group8(Join32, 0, if |vs| < 8 then vs else vs[..8]) + Due32(table, text, next, ceiling)
  {
    Decode8Step(Join32, 0, Values(table, Ahead(text, n, ceiling)));
  }

  lemma Due32Ends(table: Table<bv8>, text: string, n: nat, ceiling: nat)
    requires ceiling <= |text|
    ensures Due32(table, text, 0, ceiling) == Decode32(Values(table, text[..ceiling]))
    ensures n >= ceiling ==> Due32(table, text, n, ceiling) == []
  {
    assert text[0..ceiling] == text[..ceiling];
    assert n >= ceiling ==> Ahead(text, n, ceiling) == "";
  }

  /** Decodes the digits up to the ceiling, group by group. */
  method Digits32(table: Table<bv8>, text: string, ceiling: nat) returns (dec: seq<Byte>)
    requires ceiling <= |text|
    ensures dec == Decode32(Values(table, text[..ceiling]))
  {
    dec := [];
    var needle := 0;
    ghost var all := Due32(table, text, 0, ceiling);
    while needle < ceiling
      invariant dec + Due32(table, text, needle, ceiling) == all
      decreases ceiling - needle
    {
      var bytes, next := ReadGroup32(table, text, needle, ceiling);
      Due32Step(table, text, needle, next, ceiling);
      Moved(dec, Due32(table, text, needle, ceiling), bytes, Due32(table, text, next, ceiling));
      dec := dec + bytes;
      needle := next;
    }
    Due32Ends(table, text, needle, ceiling);
  }

  method DecodeBase32(text: string, table: Table<bv8>, breaks: nat) returns (r: Result<Byte>)
    ensures r == DecodedWith(Decode32, Size32, table, true, text, breaks)
  {
    var length := FindCeiling(table, text);
    var ceiling := length;
    var size := Size32(length - breaks);
    if size.None? {
      return Aborted;
    }
    var dec := Digits32(table, text, ceiling);
    r := Stored(dec, size);
  }

  // ----- base16, decoding -----

  ghost function Due16(table: Table<bv8>, text: string, n: nat): seq<Byte> {
    Decode16(Values(table, Ahead(text, n, |text|)))
  }

  lemma Due16Ends(table: Table<bv8>, text: string, n: nat)
    ensures Due16(table, text, 0) == Decode16(Values(table, text))
    ensures n >= |text| ==> Due16(table, text, n) == []
  {
    assert text[0..|text|] == text;
    assert n >= |text| ==> Ahead(text, n, |text|) == "";
  }

  method ReadGroup16(table: Table<bv8>, text: string, n: nat) returns (dec: seq<Byte>, next: nat)
    ensures Due16(table, text, n) == dec + Due16(table, text, next) && next > n
  {
    var i1, i2;
    i1, next := NextChar(table, text, n, |text|);
    i2, next := NextChar(table, text, next, |text|);
    Decode2Step(Join16, Values(table, Ahead(text, n, |text|)));
    dec := if i1.Some? && i2.Some? then [(i1.value << 4) | i2.value] else [];
  }

  method Digits16(table: Table<bv8>, text: string) returns (dec: seq<Byte>)
    ensures dec == Decode16(Values(table, text))
  {
    dec := [];
    var needle := 0;
    ghost var all := Due16(table, text, 0);
    while needle < |text|
      invariant dec + Due16(table, text, needle) == all
      decreases |text| - needle
    {
      var bytes, next := ReadGroup16(table, text, needle);
      Moved(dec, Due16(table, text, needle), bytes, Due16(table, text, next));
      dec := dec + bytes;
      needle := next;
    }
    Due16Ends(table, text, needle);
  }

  lemma Decode2Step<D, B>(join: (D, D) -> B, v: seq<D>)
    ensures Decode2(join, v) == (if |v| < 2 then [] else [join(v[0], v[1])]) + Decode2(join, Rest(v, 2))
  {
  }

  method DecodeBase16(text: string, table: Table<bv8>, breaks: nat) returns (r: Result<Byte>)
    ensures r == DecodedWith(Decode16, Size16, table, false, text, breaks)
  {
    var size := Size16(|text| - breaks);
    var dec := Digits16(table, text);
    assert text[..|text|] == text;
    r := Stored(dec, size);
  }

  // ----- lines -----

  /** Breaks the text into lines. */
  method BreakLines(text: string, width: nat) returns (dest: string)
    requires width > 0
    ensures dest == Wrap(text, width)
  {
    dest := "";
    var src := text;
    while |src| >= width
      invariant dest + Wrap(src, width) == Wrap(text, width)
      decreases |src|
    {
      dest := dest + src[..width];
      src := src[width..];
      if src != "" {
        dest := dest + "\n";
      }
    }
    dest := dest + src;
  }

  /** The buffer for the lines is large enough. */
  lemma LinesFit(text: string, width: nat)
    requires width > 0
    ensures |Wrap(text, width)| <= |text| / width * (width + 1) + |text| % width
  {
    WrapLength(text, width);
    BreaksFit(|text|, width);
  }

  /** The number of line breaks: each is found after the one before. */
  method CountBreaks(text: string) returns (count: nat)
    ensures count == Newlines(text)
  {
    count := 0;
    var pos := 0;
    assert text[0..] == text;
    while pos < |text|
      invariant pos <= |text| && count + Newlines(text[pos..]) == Newlines(text)
    {
      assert text[pos..][1..] == text[pos + 1..];
      if text[pos] == '\n' {
        count := count + 1;
      }
      pos := pos + 1;
    }
  }

  lemma {:induction false} BreaksFit(n: nat, width: nat)
    requires width > 0
    ensures n + Breaks(n, width) <= n / width * (width + 1) + n % width
  {
    BreaksBound(n, width, n / width);
    assert n == n / width * width + n % width;
    assert n / width * (width + 1) == n / width * width + n / width;
  }

  lemma {:induction false} BreaksBound(n: nat, width: nat, q: nat)
    requires width > 0 && n < (q + 1) * width
    ensures Breaks(n, width) <= q
    decreases n
  {
    if n > width {
      BreaksBound(n - width, width, q - 1);
    }
  }

  // ----- the object -----

  class Armour {
    var mode: Mode
    var pad: bool
    var padChar: char
    var lineBreaks: bool
    var lineLength: nat

    constructor ()
      ensures Settings() == A.Settings(Base64, true, '=', false, 72)
    {
      mode, pad, padChar, lineBreaks, lineLength := Base64, true, '=', false, 72;
    }

    function Settings(): A.Settings
      reads this
    {
      A.Settings(mode, pad, padChar, lineBreaks, lineLength)
    }

    method Encode(data: seq<Byte>) returns (encoded: string)
      ensures encoded == A.Encode(Settings(), data)
    {
      encoded := Body(data);
      if lineBreaks && lineLength > 0 && |encoded| > lineLength {
        encoded := BreakLines(encoded, lineLength);
      }
    }

    /** The text before it is broken into lines. */
    method Body(data: seq<Byte>) returns (encoded: string)
      ensures var ds := A.Codes(mode, data);
              encoded == Chars(A.Letter(mode), ds) + Pads(padChar, A.PadCount(Settings(), |ds|))
    {
      if mode.Base64? || mode.Base64Url? {
        encoded := EncodeBase64(data, A.Letter(mode), pad, padChar);
      } else if mode.Base32? || mode.Base32Hex? {
        encoded := EncodeBase32(data, A.Letter(mode), pad, padChar);
      } else {
        encoded := EncodeBase16(data, A.Letter(mode));
        assert encoded + Pads(padChar, 0) == encoded;
      }
    }

    method Decode(text: string) returns (r: Result<Byte>)
      ensures r == A.Decode(mode, text)
    {
      var breaks := CountBreaks(text);
      if mode.Base64? || mode.Base64Url? {
        Counted(Decode64, Size64, A.LookUps(mode), true, text);
        r := DecodeBase64(text, A.LookUps(mode), breaks);
      } else if mode.Base32? || mode.Base32Hex? {
        Counted(Decode32, Size32, A.LookUps(mode), true, text);
        r := DecodeBase32(text, A.LookUps(mode), breaks);
      } else {
        Counted(Decode16, Size16, A.LookUps(mode), false, text);
        r := DecodeBase16(text, A.LookUps(mode), breaks);
      }
    }
  }
}
