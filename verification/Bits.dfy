/** Digits as bits: the digits that are written are the bits of the data in order, most
    significant first, and zeros after them (RFC 4648, sections 4, 6 and 8). */
module Bits {
  import opened Grouping
  import opened Digits

  // ----- any bytes and digits -----

  /** Bit k of a byte or a digit, from the least significant. */
  type Tester<!T> = (T, nat) -> bool

  /** Bit j of a sequence of bytes or digits of w bits, in order. */
  predicate BitAt<T>(bit: Tester<T>, w: nat, s: seq<T>, j: nat)
    requires w > 0 && j / w < |s|
  {
    bit(s[j / w], w - 1 - j % w)
  }

  /** Bits of a group and of what follows it. */
  lemma Early<T>(bit: Tester<T>, w: nat, a: seq<T>, b: seq<T>, j: nat)
    requires w > 0 && j / w < |a|
    ensures BitAt(bit, w, a + b, j) == BitAt(bit, w, a, j)
  {
  }

  lemma Late<T>(bit: Tester<T>, w: nat, a: seq<T>, b: seq<T>, j: nat, i: nat)
    requires w > 0 && j / w == |a| + i / w < |a + b| && j % w == i % w
    ensures BitAt(bit, w, a + b, j) == BitAt(bit, w, b, i)
  {
  }

  /** The digits of a group are its bits. */
  ghost predicate Same64<B(!new), D>(split: Three<B> -> Four<D>, bit: Tester<B>, digit: Tester<D>) {
    forall g: Three<B>, j: nat :: j < 24 ==> SameBit64(split, bit, digit, g, j)
  }

  predicate SameBit64<B, D>(split: Three<B> -> Four<D>, bit: Tester<B>, digit: Tester<D>, g: Three<B>, j: nat)
    requires j < 24
  {
    BitAt(digit, 6, Digits4(split(g)), j) == BitAt(bit, 8, Bytes3(g), j)
  }

  ghost predicate NoBits<B>(bit: Tester<B>, zero: B) {
    forall k: nat :: k < 8 ==> !bit(zero, k)
  }

  /** Data that is filled up with zeros has no more bits. */
  lemma FilledBits<B>(bit: Tester<B>, zero: B, data: seq<B>, more: seq<B>, j: nat)
    requires NoBits(bit, zero) && (forall i :: 0 <= i < |more| ==> more[i] == zero) && j < 8 * |data + more|
    ensures BitAt(bit, 8, data + more, j) <==> j < 8 * |data| && BitAt(bit, 8, data, j)
  {
    if j < 8 * |data| {
      Early(bit, 8, data, more, j);
    } else {
      Late(bit, 8, data, more, j, j - 8 * |data|);
    }
  }

  lemma {:induction false} Encode3Bits<B(!new), D>(split: Three<B> -> Four<D>, zero: B, bit: Tester<B>,
                                                   digit: Tester<D>, data: seq<B>, j: nat)
    requires Same64(split, bit, digit) && NoBits(bit, zero) && j < 6 * |Encode3(split, zero, data)|
    ensures BitAt(digit, 6, Encode3(split, zero, data), j) <==> j < 8 * |data| && BitAt(bit, 8, data, j)
    decreases |data|
  {
    if |data| < 3 {
      Front3Bits(split, zero, bit, digit, data, j);
    } else {
      var g := Three(data[0], data[1], data[2]);
      assert data == Bytes3(g) + data[3..];
      if j < 24 {
        Early(digit, 6, Digits4(split(g)), Encode3(split, zero, data[3..]), j);
        Early(bit, 8, Bytes3(g), data[3..], j);
        assert SameBit64(split, bit, digit, g, j);
      } else {
        Encode3Bits(split, zero, bit, digit, data[3..], j - 24);
        Late(digit, 6, Digits4(split(g)), Encode3(split, zero, data[3..]), j, j - 24);
        if j < 8 * |data| { Late(bit, 8, Bytes3(g), data[3..], j, j - 24); }
      }
    }
  }

  lemma Front3Bits<B(!new), D>(split: Three<B> -> Four<D>, zero: B, bit: Tester<B>, digit: Tester<D>, data: seq<B>,
                               j: nat)
    requires Same64(split, bit, digit) && NoBits(bit, zero)
    requires |data| < 3 && j < 6 * |Encode3(split, zero, data)|
    ensures BitAt(digit, 6, Encode3(split, zero, data), j) <==> j < 8 * |data| && BitAt(bit, 8, data, j)
  {
    var g := Three(At(data, 0, zero), At(data, 1, zero), zero);
    var x := split(g);
    assert SameBit64(split, bit, digit, g, j);
    Front3Digits(digit, x, |data|, j);
    Filled3(zero, data, g);
    FilledBits(bit, zero, data, Bytes3(g)[|data|..], j);
  }

  lemma Front3Digits<D>(digit: Tester<D>, x: Four<D>, n: nat, j: nat)
    requires n < 3 && j < 6 * |Front4(x, n)|
    ensures BitAt(digit, 6, Front4(x, n), j) == BitAt(digit, 6, Digits4(x), j)
  {
    assert Front4(x, n) == Digits4(x)[..|Front4(x, n)|];
  }

  lemma Filled3<B>(zero: B, data: seq<B>, g: Three<B>)
    requires |data| < 3 && g == Three(At(data, 0, zero), At(data, 1, zero), zero)
    ensures Bytes3(g) == data + Bytes3(g)[|data|..]
    ensures forall i :: |data| <= i < 3 ==> Bytes3(g)[i] == zero
  {
  }

  ghost predicate Same32<B(!new), D>(split: Five<B> -> Eight<D>, bit: Tester<B>, digit: Tester<D>) {
    forall g: Five<B>, j: nat :: j < 40 ==> SameBit32(split, bit, digit, g, j)
  }

  predicate SameBit32<B, D>(split: Five<B> -> Eight<D>, bit: Tester<B>, digit: Tester<D>, g: Five<B>, j: nat)
    requires j < 40
  {
    BitAt(digit, 5, Digits8(split(g)), j) == BitAt(bit, 8, Bytes5(g), j)
  }

  lemma {:induction false} Encode5Bits<B(!new), D>(split: Five<B> -> Eight<D>, zero: B, bit: Tester<B>,
                                                   digit: Tester<D>, data: seq<B>, j: nat)
    requires Same32(split, bit, digit) && NoBits(bit, zero) && j < 5 * |Encode5(split, zero, data)|
    ensures BitAt(digit, 5, Encode5(split, zero, data), j) <==> j < 8 * |data| && BitAt(bit, 8, data, j)
    decreases |data|
  {
    if |data| < 5 {
      Front5Bits(split, zero, bit, digit, data, j);
    } else {
      var g := Five(data[0], data[1], data[2], data[3], data[4]);
      assert data == Bytes5(g) + data[5..];
      if j < 40 {
        Early(digit, 5, Digits8(split(g)), Encode5(split, zero, data[5..]), j);
        Early(bit, 8, Bytes5(g), data[5..], j);
        assert SameBit32(split, bit, digit, g, j);
      } else {
        Encode5Bits(split, zero, bit, digit, data[5..], j - 40);
        Next5Bits(bit, digit, Digits8(split(g)), Encode5(split, zero, data[5..]), Bytes5(g), data[5..], j);
      }
    }
  }

  lemma Next5Bits<B, D>(bit: Tester<B>, digit: Tester<D>, ds: seq<D>, ds': seq<D>, bs: seq<B>, bs': seq<B>, j: nat)
    requires |ds| == 8 && |bs| == 5 && 40 <= j < 40 + 5 * |ds'|
    requires BitAt(digit, 5, ds', j - 40) <==> j - 40 < 8 * |bs'| && BitAt(bit, 8, bs', j - 40)
    ensures BitAt(digit, 5, ds + ds', j) <==> j < 8 * |bs + bs'| && BitAt(bit, 8, bs + bs', j)
  {
    Late(digit, 5, ds, ds', j, j - 40);
    if j < 8 * |bs + bs'| { Late(bit, 8, bs, bs', j, j - 40); }
  }

  lemma Front5Bits<B(!new), D>(split: Five<B> -> Eight<D>, zero: B, bit: Tester<B>, digit: Tester<D>, data: seq<B>,
                               j: nat)
    requires Same32(split, bit, digit) && NoBits(bit, zero)
    requires |data| < 5 && j < 5 * |Encode5(split, zero, data)|
    ensures BitAt(digit, 5, Encode5(split, zero, data), j) <==> j < 8 * |data| && BitAt(bit, 8, data, j)
  {
    var g := Five(At(data, 0, zero), At(data, 1, zero), At(data, 2, zero), At(data, 3, zero), zero);
    var x := split(g);
    assert SameBit32(split, bit, digit, g, j);
    Front5Digits(digit, x, |data|, j);
    Filled5(zero, data, g);
    FilledBits(bit, zero, data, Bytes5(g)[|data|..], j);
  }

  lemma Front5Digits<D>(digit: Tester<D>, x: Eight<D>, n: nat, j: nat)
    requires n < 5 && j < 5 * |Front8(x, n)|
    ensures BitAt(digit, 5, Front8(x, n), j) == BitAt(digit, 5, Digits8(x), j)
  {
    assert Front8(x, n) == Digits8(x)[..|Front8(x, n)|];
  }

  lemma Filled5<B>(zero: B, data: seq<B>, g: Five<B>)
    requires |data| < 5 && g == Five(At(data, 0, zero), At(data, 1, zero), At(data, 2, zero), At(data, 3, zero), zero)
    ensures Bytes5(g) == data + Bytes5(g)[|data|..]
    ensures forall i :: |data| <= i < 5 ==> Bytes5(g)[i] == zero
  {
  }

  ghost predicate Same16<B(!new), D>(high: B -> D, low: B -> D, bit: Tester<B>, digit: Tester<D>) {
    forall b: B, k: nat :: k < 4 ==> digit(high(b), k) == bit(b, k + 4) && digit(low(b), k) == bit(b, k)
  }

  lemma {:induction false} Encode1Bits<B(!new), D>(high: B -> D, low: B -> D, bit: Tester<B>, digit: Tester<D>,
                                                   data: seq<B>, j: nat)
    requires Same16(high, low, bit, digit) && j < 8 * |data|
    ensures BitAt(digit, 4, Encode1(high, low, data), j) <==> BitAt(bit, 8, data, j)
    decreases |data|
  {
    if j >= 8 {
      Encode1Bits(high, low, bit, digit, data[1..], j - 8);
    }
  }

  // ----- bits of machine bytes -----

  predicate Nth(b: bv8, k: nat) {
    if k == 0 then b & 1 != 0 else if k == 1 then b & 2 != 0 else if k == 2 then b & 4 != 0
    else if k == 3 then b & 8 != 0 else if k == 4 then b & 16 != 0 else if k == 5 then b & 32 != 0
    else if k == 6 then b & 64 != 0 else b & 128 != 0
  }

  lemma Six1(g: Three<Byte>, j: nat)
    requires j < 6
    ensures SameBit64(Split64, Nth, Nth, g, j)
  {
  }

  lemma Six2(g: Three<Byte>, j: nat)
    requires 6 <= j < 12
    ensures SameBit64(Split64, Nth, Nth, g, j)
  {
  }

  lemma Six3(g: Three<Byte>, j: nat)
    requires 12 <= j < 18
    ensures SameBit64(Split64, Nth, Nth, g, j)
  {
  }

  lemma Six4(g: Three<Byte>, j: nat)
    requires 18 <= j < 24
    ensures SameBit64(Split64, Nth, Nth, g, j)
  {
  }

  lemma Bit64(g: Three<Byte>, j: nat)
    requires j < 24
    ensures SameBit64(Split64, Nth, Nth, g, j)
  {
    if j < 6 { Six1(g, j); } else if j < 12 { Six2(g, j); } else if j < 18 { Six3(g, j); } else { Six4(g, j); }
  }

  lemma ZeroBits()
    ensures NoBits(Nth, 0)
  {
  }

  /** The base64 digits of data are its bits, and zeros up to a whole digit. */
  lemma Encode64Bits(data: seq<Byte>, j: nat)
    requires j < 6 * |Encode64(data)|
    ensures BitAt(Nth, 6, Encode64(data), j) <==> j < 8 * |data| && BitAt(Nth, 8, data, j)
  {
    forall g: Three<Byte>, i: nat | i < 24
      ensures SameBit64(Split64, Nth, Nth, g, i)
    {
      Bit64(g, i);
    }
    ZeroBits();
    Encode3Bits(Split64, 0, Nth, Nth, data, j);
  }

  lemma Five1(g: Five<Byte>, j: nat)
    requires j < 5
    ensures SameBit32(Split32, Nth, Nth, g, j)
  {
  }

  lemma Five2(g: Five<Byte>, j: nat)
    requires 5 <= j < 10
    ensures SameBit32(Split32, Nth, Nth, g, j)
  {
  }

  lemma Five3(g: Five<Byte>, j: nat)
    requires 10 <= j < 15
    ensures SameBit32(Split32, Nth, Nth, g, j)
  {
  }

  lemma Five4(g: Five<Byte>, j: nat)
    requires 15 <= j < 20
    ensures SameBit32(Split32, Nth, Nth, g, j)
  {
  }

  lemma Five5(g: Five<Byte>, j: nat)
    requires 20 <= j < 25
    ensures SameBit32(Split32, Nth, Nth, g, j)
  {
  }

  lemma Five6(g: Five<Byte>, j: nat)
    requires 25 <= j < 30
    ensures SameBit32(Split32, Nth, Nth, g, j)
  {
  }

  lemma Five7(g: Five<Byte>, j: nat)
    requires 30 <= j < 35
    ensures SameBit32(Split32, Nth, Nth, g, j)
  {
  }

  lemma Five8(g: Five<Byte>, j: nat)
    requires 35 <= j < 40
    ensures SameBit32(Split32, Nth, Nth, g, j)
  {
  }

  lemma Bit32(g: Five<Byte>, j: nat)
    requires j < 40
    ensures SameBit32(Split32, Nth, Nth, g, j)
  {
    if j < 5 {
      Five1(g, j);
    } else if j < 10 {
      Five2(g, j);
    } else if j < 15 {
      Five3(g, j);
    } else if j < 20 {
      Five4(g, j);
    } else if j < 25 {
      Five5(g, j);
    } else if j < 30 {
      Five6(g, j);
    } else if j < 35 {
      Five7(g, j);
    } else {
      Five8(g, j);
    }
  }

  lemma Encode32Bits(data: seq<Byte>, j: nat)
    requires j < 5 * |Encode32(data)|
    ensures BitAt(Nth, 5, Encode32(data), j) <==> j < 8 * |data| && BitAt(Nth, 8, data, j)
  {
    forall g: Five<Byte>, i: nat | i < 40
      ensures SameBit32(Split32, Nth, Nth, g, i)
    {
      Bit32(g, i);
    }
    ZeroBits();
    Encode5Bits(Split32, 0, Nth, Nth, data, j);
  }

  lemma Encode16Bits(data: seq<Byte>, j: nat)
    requires j < 8 * |data|
    ensures BitAt(Nth, 4, Encode16(data), j) <==> BitAt(Nth, 8, data, j)
  {
    forall b: Byte, k: nat | k < 4
      ensures Nth(High(b), k) == Nth(b, k + 4) && Nth(Low(b), k) == Nth(b, k)
    {
    }
    Encode1Bits(High, Low, Nth, Nth, data, j);
  }
}
