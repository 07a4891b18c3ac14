/** Encoding in groups: three bytes as four digits, five as eight, one as two, with an
    incomplete group at the end, for any way to split and join groups. */
module Grouping {
  import opened Sizes

  /** The element at i, with a default after the end. */
  function At<T>(s: seq<T>, i: nat, zero: T): T {
    if i < |s| then s[i] else zero
  }

  /** What is left of s from i on. */
  function Rest<T>(s: seq<T>, i: nat): seq<T> {
    if i <= |s| then s[i..] else []
  }

  // ----- three as four -----

  datatype Three<B> = Three(a: B, b: B, c: B)
  datatype Four<D> = Four(p: D, q: D, r: D, s: D)

  function Digits4<D>(g: Four<D>): (ds: seq<D>)
    ensures |ds| == 4
  {
    [g.p, g.q, g.r, g.s]
  }

  function Bytes3<B>(g: Three<B>): (bs: seq<B>)
    ensures |bs| == 3
  {
    [g.a, g.b, g.c]
  }

  /** The digits kept of a group of n bytes. */
  function Front4<D>(g: Four<D>, n: nat): (ds: seq<D>)
    requires n < 3
    ensures |ds| == Extra64(n)
  {
    if n == 0 then [] else if n == 1 then [g.p, g.q] else [g.p, g.q, g.r]
  }

  function Encode3<B, D>(split: Three<B> -> Four<D>, zero: B, data: seq<B>): (ds: seq<D>)
    ensures |ds| == Count64(|data|)
    decreases |data|
  {
    if |data| < 3 then Front4(split(Three(At(data, 0, zero), At(data, 1, zero), zero)), |data|)
    else Digits4(split(Three(data[0], data[1], data[2]))) + Encode3(split, zero, data[3..])
  }

  /** The bytes that up to four digits hold whole. */
  function Group4<D, B>(join: Four<D> -> Three<B>, zero: D, v: seq<D>): seq<B> {
    if |v| < 2 then []
    else
      var g := join(Four(v[0], v[1], At(v, 2, zero), At(v, 3, zero)));
      if |v| < 3 then [g.a] else if |v| < 4 then [g.a, g.b] else Bytes3(g)
  }

  function Decode4<D, B>(join: Four<D> -> Three<B>, zero: D, v: seq<D>): seq<B>
    decreases |v|
  {
    if |v| <= 4 then Group4(join, zero, v) else Group4(join, zero, v[..4]) + Decode4(join, zero, v[4..])
  }

  /** A group of n bytes is found again from the digits that are kept of it. */
  ghost predicate Kept64<B, D>(split: Three<B> -> Four<D>, join: Four<D> -> Three<B>, zd: D, n: nat, g: Three<B>) {
    var x := split(g);
    var y := join(Four(x.p, x.q, if n > 1 then x.r else zd, if n > 2 then x.s else zd));
    (n > 0 ==> y.a == g.a) && (n > 1 ==> y.b == g.b) && (n > 2 ==> y.c == g.c)
  }

  ghost predicate Inverse64<B(!new), D>(split: Three<B> -> Four<D>, join: Four<D> -> Three<B>, zd: D) {
    forall n: nat, g :: n <= 3 ==> Kept64(split, join, zd, n, g)
  }

  lemma Tail64Inverts<B(!new), D>(split: Three<B> -> Four<D>, join: Four<D> -> Three<B>, zb: B, zd: D, data: seq<B>)
    requires Inverse64(split, join, zd) && |data| < 3
    ensures Group4(join, zd, Encode3(split, zb, data)) == data
  {
    var g := Three(At(data, 0, zb), At(data, 1, zb), zb);
    assert Kept64(split, join, zd, |data|, g);
  }

  lemma Decode4Append<D, B>(join: Four<D> -> Three<B>, zd: D, g: Four<D>, rest: seq<D>)
    ensures Decode4(join, zd, Digits4(g) + rest) == Bytes3(join(g)) + Decode4(join, zd, rest)
  {
    var v := Digits4(g) + rest;
    assert v[..4] == Digits4(g) && v[4..] == rest;
    if rest == [] {
      assert v == v[..4];
    }
  }

  lemma {:induction false} Decode4Inverts<B(!new), D>(split: Three<B> -> Four<D>, join: Four<D> -> Three<B>, zb: B,
                                            zd: D, data: seq<B>)
    requires Inverse64(split, join, zd)
    ensures Decode4(join, zd, Encode3(split, zb, data)) == data
    decreases |data|
  {
    if |data| < 3 {
      Tail64Inverts(split, join, zb, zd, data);
    } else {
      var g := Three(data[0], data[1], data[2]);
      assert Kept64(split, join, zd, 3, g);
      Decode4Inverts(split, join, zb, zd, data[3..]);
      Decode4Append(join, zd, split(g), Encode3(split, zb, data[3..]));
      assert data == Bytes3(g) + data[3..];
    }
  }

  // ----- five as eight -----

  datatype Five<B> = Five(a: B, b: B, c: B, d: B, e: B)
  datatype Eight<D> = Eight(p: D, q: D, r: D, s: D, t: D, u: D, v: D, w: D)

  function Digits8<D>(g: Eight<D>): (ds: seq<D>)
    ensures |ds| == 8
  {
    [g.p, g.q, g.r, g.s, g.t, g.u, g.v, g.w]
  }

  function Bytes5<B>(g: Five<B>): (bs: seq<B>)
    ensures |bs| == 5
  {
    [g.a, g.b, g.c, g.d, g.e]
  }

  function Front8<D>(g: Eight<D>, n: nat): (ds: seq<D>)
    requires n < 5
    ensures |ds| == Extra32(n)
  {
    if n == 0 then [] else if n == 1 then [g.p, g.q] else if n == 2 then [g.p, g.q, g.r, g.s]
    else if n == 3 then [g.p, g.q, g.r, g.s, g.t] else [g.p, g.q, g.r, g.s, g.t, g.u, g.v]
  }

  function Encode5<B, D>(split: Five<B> -> Eight<D>, zero: B, data: seq<B>): (ds: seq<D>)
    ensures |ds| == Count32(|data|)
    decreases |data|
  {
    if |data| < 5 then
      Front8(split(Five(At(data, 0, zero), At(data, 1, zero), At(data, 2, zero), At(data, 3, zero), zero)), |data|)
    else
      Digits8(split(Five(data[0], data[1], data[2], data[3], data[4]))) + Encode5(split, zero, data[5..])
  }

  /** The bytes that up to eight digits hold whole. */
  function Group8<D, B>(join: Eight<D> -> Five<B>, zero: D, v: seq<D>): seq<B> {
    if |v| < 2 then []
    else
      var g := join(Eight(v[0], v[1], At(v, 2, zero), At(v, 3, zero),
                          At(v, 4, zero), At(v, 5, zero), At(v, 6, zero), At(v, 7, zero)));
      if |v| < 4 then [g.a] else if |v| < 5 then [g.a, g.b] else if |v| < 7 then [g.a, g.b, g.c]
      else if |v| < 8 then [g.a, g.b, g.c, g.d] else Bytes5(g)
  }

  function Decode8<D, B>(join: Eight<D> -> Five<B>, zero: D, v: seq<D>): seq<B>
    decreases |v|
  {
    if |v| <= 8 then Group8(join, zero, v) else Group8(join, zero, v[..8]) + Decode8(join, zero, v[8..])
  }

  /** A group of which only the digits of n bytes are kept. */
  function Cut8<D>(x: Eight<D>, n: nat, zd: D): Eight<D> {
    Eight(x.p, x.q, if n > 1 then x.r else zd, if n > 1 then x.s else zd, if n > 2 then x.t else zd,
          if n > 3 then x.u else zd, if n > 3 then x.v else zd, if n > 4 then x.w else zd)
  }

  ghost predicate Kept32<B, D>(split: Five<B> -> Eight<D>, join: Eight<D> -> Five<B>, zd: D, n: nat, g: Five<B>) {
    var y := join(Cut8(split(g), n, zd));
    (n > 0 ==> y.a == g.a) && (n > 1 ==> y.b == g.b) && (n > 2 ==> y.c == g.c) && (n > 3 ==> y.d == g.d) &&
      (n > 4 ==> y.e == g.e)
  }

  ghost predicate Inverse32<B(!new), D>(split: Five<B> -> Eight<D>, join: Eight<D> -> Five<B>, zd: D) {
    forall n: nat, g :: n <= 5 ==> Kept32(split, join, zd, n, g)
  }

  lemma Tail32Inverts<B(!new), D>(split: Five<B> -> Eight<D>, join: Eight<D> -> Five<B>, zb: B, zd: D, data: seq<B>)
    requires Inverse32(split, join, zd) && |data| < 5
    ensures Group8(join, zd, Encode5(split, zb, data)) == data
  {
    var n := |data|;
    var g := Five(At(data, 0, zb), At(data, 1, zb), At(data, 2, zb), At(data, 3, zb), zb);
    assert Kept32(split, join, zd, n, g);
    Group8Front(join, zd, split(g), n);
  }

  lemma Group8Front<D, B>(join: Eight<D> -> Five<B>, zd: D, x: Eight<D>, n: nat)
    requires n < 5
    ensures Group8(join, zd, Front8(x, n)) == Bytes5(join(Cut8(x, n, zd)))[..n]
  {
  }

  lemma Decode8Append<D, B>(join: Eight<D> -> Five<B>, zd: D, g: Eight<D>, rest: seq<D>)
    ensures Decode8(join, zd, Digits8(g) + rest) == Bytes5(join(g)) + Decode8(join, zd, rest)
  {
    var v := Digits8(g) + rest;
    assert v[..8] == Digits8(g) && v[8..] == rest;
    if rest == [] {
      assert v == v[..8];
    }
  }

  lemma {:induction false} Decode8Inverts<B(!new), D>(split: Five<B> -> Eight<D>, join: Eight<D> -> Five<B>, zb: B,
                                            zd: D, data: seq<B>)
    requires Inverse32(split, join, zd)
    ensures Decode8(join, zd, Encode5(split, zb, data)) == data
    decreases |data|
  {
    if |data| < 5 {
      Tail32Inverts(split, join, zb, zd, data);
    } else {
      var g := Five(data[0], data[1], data[2], data[3], data[4]);
      assert Kept32(split, join, zd, 5, g);
      Decode8Inverts(split, join, zb, zd, data[5..]);
      Decode8Append(join, zd, split(g), Encode5(split, zb, data[5..]));
      assert data == Bytes5(g) + data[5..];
    }
  }

  // ----- one as two -----

  function Encode1<B, D>(high: B -> D, low: B -> D, data: seq<B>): (ds: seq<D>)
    ensures |ds| == 2 * |data|
  {
    if data == [] then [] else [high(data[0]), low(data[0])] + Encode1(high, low, data[1..])
  }

  /** An odd digit at the end is dropped. */
  function Decode2<D, B>(join: (D, D) -> B, v: seq<D>): seq<B> {
    if |v| < 2 then [] else [join(v[0], v[1])] + Decode2(join, v[2..])
  }

  lemma {:induction false} Decode2Inverts<B(!new), D>(high: B -> D, low: B -> D, join: (D, D) -> B, data: seq<B>)
    requires forall b :: join(high(b), low(b)) == b
    ensures Decode2(join, Encode1(high, low, data)) == data
    decreases |data|
  {
    if data != [] {
      assert Encode1(high, low, data)[2..] == Encode1(high, low, data[1..]);
      Decode2Inverts(high, low, join, data[1..]);
    }
  }

  // ----- a property of every digit -----

  lemma {:induction false} Encode3All<B(!new), D>(split: Three<B> -> Four<D>, zero: B, data: seq<B>, ok: D -> bool)
    requires forall g :: ok(split(g).p) && ok(split(g).q) && ok(split(g).r) && ok(split(g).s)
    ensures forall i :: 0 <= i < Count64(|data|) ==> ok(Encode3(split, zero, data)[i])
    decreases |data|
  {
    if |data| >= 3 {
      Encode3All(split, zero, data[3..], ok);
    }
  }

  ghost predicate All8<D>(x: Eight<D>, ok: D -> bool) {
    ok(x.p) && ok(x.q) && ok(x.r) && ok(x.s) && ok(x.t) && ok(x.u) && ok(x.v) && ok(x.w)
  }

  lemma {:induction false} Encode5All<B(!new), D>(split: Five<B> -> Eight<D>, zero: B, data: seq<B>, ok: D -> bool)
    requires forall g :: All8(split(g), ok)
    ensures forall i :: 0 <= i < Count32(|data|) ==> ok(Encode5(split, zero, data)[i])
    decreases |data|
  {
    if |data| >= 5 {
      Encode5All(split, zero, data[5..], ok);
    }
  }

  lemma {:induction false} Encode1All<B(!new), D>(high: B -> D, low: B -> D, data: seq<B>, ok: D -> bool)
    requires forall b :: ok(high(b)) && ok(low(b))
    ensures forall i :: 0 <= i < 2 * |data| ==> ok(Encode1(high, low, data)[i])
    decreases |data|
  {
    if data != [] {
      Encode1All(high, low, data[1..], ok);
    }
  }

  // ----- one group at a time -----

  /** The digits of the first group of some data. */
  function First3<B, D>(split: Three<B> -> Four<D>, zero: B, data: seq<B>): seq<D> {
    if |data| < 3 then Front4(split(Three(At(data, 0, zero), At(data, 1, zero), zero)), |data|)
    else Digits4(split(Three(data[0], data[1], data[2])))
  }

  lemma Encode3Step<B, D>(split: Three<B> -> Four<D>, zero: B, data: seq<B>, i: nat)
    requires i < |data|
    ensures Encode3(split, zero, Rest(data, i)) ==
            First3(split, zero, data[i..]) + Encode3(split, zero, Rest(data, i + 3))
  {
    assert |data| - i >= 3 ==> data[i..][3..] == data[i + 3..];
  }

  lemma Encode1Step<B, D>(high: B -> D, low: B -> D, data: seq<B>, i: nat)
    requires i < |data|
    ensures Encode1(high, low, Rest(data, i)) == [high(data[i]), low(data[i])] + Encode1(high, low, Rest(data, i + 1))
  {
    assert data[i..][1..] == data[i + 1..];
  }

  lemma Decode4Step<D, B>(join: Four<D> -> Three<B>, zero: D, v: seq<D>)
    ensures Decode4(join, zero, v) ==
            Group4(join, zero, if |v| < 4 then v else v[..4]) + Decode4(join, zero, Rest(v, 4))
  {
    if |v| == 4 {
      assert v[..4] == v && v[4..] == [];
    }
  }

  function First5<B, D>(split: Five<B> -> Eight<D>, zero: B, data: seq<B>): seq<D> {
    if |data| < 5 then
      Front8(split(Five(At(data, 0, zero), At(data, 1, zero), At(data, 2, zero), At(data, 3, zero), zero)), |data|)
    else
      Digits8(split(Five(data[0], data[1], data[2], data[3], data[4])))
  }

  lemma Encode5Step<B, D>(split: Five<B> -> Eight<D>, zero: B, data: seq<B>, i: nat)
    requires i < |data|
    ensures Encode5(split, zero, Rest(data, i)) ==
            First5(split, zero, data[i..]) + Encode5(split, zero, Rest(data, i + 5))
  {
    assert |data| - i >= 5 ==> data[i..][5..] == data[i + 5..];
  }

  lemma Decode8Step<D, B>(join: Eight<D> -> Five<B>, zero: D, v: seq<D>)
    ensures Decode8(join, zero, v) ==
            Group8(join, zero, if |v| < 8 then v else v[..8]) + Decode8(join, zero, Rest(v, 8))
  {
    if |v| == 8 {
      assert v[..8] == v && v[8..] == [];
    }
  }

  // ----- whole groups -----

  lemma {:induction false} Decode4Whole<D, B>(join: Four<D> -> Three<B>, zd: D, v: seq<D>)
    requires |v| % 4 == 0
    ensures |Decode4(join, zd, v)| == 3 * (|v| / 4)
    decreases |v|
  {
    if |v| > 4 {
      Decode4Whole(join, zd, v[4..]);
    }
  }

  lemma {:induction false} Decode8Whole<D, B>(join: Eight<D> -> Five<B>, zd: D, v: seq<D>)
    requires |v| % 8 == 0
    ensures |Decode8(join, zd, v)| == 5 * (|v| / 8)
    decreases |v|
  {
    if |v| > 8 {
      Decode8Whole(join, zd, v[8..]);
    }
  }
}
