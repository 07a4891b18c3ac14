/** Regrouping the bits of bytes into digits of six, five or four bits, and back (RFC 4648,
    sections 4, 6 and 8). */
module Digits {
  import opened Grouping

  type Byte = bv8

  // ----- six bits -----

  function Split64(g: Three<Byte>): Four<bv8> {
    Four(g.a >> 2, ((g.a << 4) & 0x30) | (g.b >> 4), ((g.b << 2) & 0x3c) | (g.c >> 6), g.c & 0x3f)
  }

  function Join64(g: Four<bv8>): Three<Byte> {
    Three((g.p << 2) | (g.q >> 4), (g.q << 4) | (g.r >> 2), (g.r << 6) | g.s)
  }

  function Encode64(data: seq<Byte>): seq<bv8> {
    Encode3(Split64, 0, data)
  }

  function Decode64(v: seq<bv8>): seq<Byte> {
    Decode4(Join64, 0, v)
  }

  /** The 24 bits of three bytes, most significant first, cut into groups of six. */
  lemma Split64Regroups(g: Three<Byte>)
    ensures var bits: bv24 := ((g.a as bv24) << 16) | ((g.b as bv24) << 8) | (g.c as bv24);
            Split64(g) == Four(((bits >> 18) & 63) as bv8, ((bits >> 12) & 63) as bv8,
                               ((bits >> 6) & 63) as bv8, (bits & 63) as bv8)
  {
  }

  lemma Join64Inverts(n: nat, g: Three<Byte>)
    requires n <= 3
    ensures Kept64(Split64, Join64, 0, n, g)
  {
  }

  lemma Decode64Inverts(data: seq<Byte>)
    ensures Decode64(Encode64(data)) == data
  {
    forall n: nat, g: Three<Byte> | n <= 3
      ensures Kept64(Split64, Join64, 0, n, g)
    {
      Join64Inverts(n, g);
    }
    Decode4Inverts(Split64, Join64, 0, 0, data);
  }

  lemma Decode64Whole()
    ensures forall v: seq<bv8> :: |v| % 4 == 0 ==> |Decode64(v)| == 3 * (|v| / 4)
  {
    forall v: seq<bv8> | |v| % 4 == 0
      ensures |Decode64(v)| == 3 * (|v| / 4)
    {
      Decode4Whole(Join64, 0, v);
    }
  }

  // ----- five bits -----

  function Split32(g: Five<Byte>): Eight<bv8> {
    Eight(g.a >> 3, ((g.a << 2) & 0x1c) | (g.b >> 6), (g.b >> 1) & 0x1f, ((g.b << 4) & 0x10) | (g.c >> 4),
          ((g.c << 1) & 0x1e) | (g.d >> 7), (g.d >> 2) & 0x1f, ((g.d << 3) & 0x18) | (g.e >> 5), g.e & 0x1f)
  }

  function First32(p: bv8, q: bv8): Byte {
    (p << 3) | (q >> 2)
  }

  function Second32(q: bv8, r: bv8, s: bv8): Byte {
    (q << 6) | (r << 1) | (s >> 4)
  }

  function Third32(s: bv8, t: bv8): Byte {
    (s << 4) | (t >> 1)
  }

  function Fourth32(t: bv8, u: bv8, v: bv8): Byte {
    (t << 7) | (u << 2) | (v >> 3)
  }

  function Fifth32(v: bv8, w: bv8): Byte {
    (v << 5) | w
  }

  function Join32(g: Eight<bv8>): Five<Byte> {
    Five(First32(g.p, g.q), Second32(g.q, g.r, g.s), Third32(g.s, g.t), Fourth32(g.t, g.u, g.v), Fifth32(g.v, g.w))
  }

  function Encode32(data: seq<Byte>): seq<bv8> {
    Encode5(Split32, 0, data)
  }

  function Decode32(v: seq<bv8>): seq<Byte> {
    Decode8(Join32, 0, v)
  }

  /** The 40 bits of five bytes, most significant first, cut into groups of five. */
  lemma Split32Regroups(g: Five<Byte>)
    ensures var bits: bv40 := ((g.a as bv40) << 32) | ((g.b as bv40) << 24) | ((g.c as bv40) << 16) |
            ((g.d as bv40) << 8) | (g.e as bv40);
            Split32(g) == Eight(((bits >> 35) & 31) as bv8, ((bits >> 30) & 31) as bv8, ((bits >> 25) & 31) as bv8,
                                ((bits >> 20) & 31) as bv8, ((bits >> 15) & 31) as bv8, ((bits >> 10) & 31) as bv8,
                                ((bits >> 5) & 31) as bv8, (bits & 31) as bv8)
  {
  }

  lemma Kept5(g: Five<Byte>)
    ensures Kept32(Split32, Join32, 0, 5, g)
  {
  }

  lemma Kept4(g: Five<Byte>)
    ensures Kept32(Split32, Join32, 0, 4, g)
  {
  }

  lemma KeptFew(n: nat, g: Five<Byte>)
    requires n <= 3
    ensures Kept32(Split32, Join32, 0, n, g)
  {
  }

  lemma Join32Inverts(n: nat, g: Five<Byte>)
    requires n <= 5
    ensures Kept32(Split32, Join32, 0, n, g)
  {
    if n == 5 {
      Kept5(g);
    } else if n == 4 {
      Kept4(g);
    } else {
      KeptFew(n, g);
    }
  }

  lemma Decode32Inverts(data: seq<Byte>)
    ensures Decode32(Encode32(data)) == data
  {
    forall n: nat, g: Five<Byte> | n <= 5
      ensures Kept32(Split32, Join32, 0, n, g)
    {
      Join32Inverts(n, g);
    }
    Decode8Inverts(Split32, Join32, 0, 0, data);
  }

  lemma Decode32Whole()
    ensures forall v: seq<bv8> :: |v| % 8 == 0 ==> |Decode32(v)| == 5 * (|v| / 8)
  {
    forall v: seq<bv8> | |v| % 8 == 0
      ensures |Decode32(v)| == 5 * (|v| / 8)
    {
      Decode8Whole(Join32, 0, v);
    }
  }

  // ----- four bits -----

  function High(b: Byte): bv8 {
    b >> 4
  }

  function Low(b: Byte): bv8 {
    b & 0x0f
  }

  function Join16(h: bv8, l: bv8): Byte {
    (h << 4) | l
  }

  function Encode16(data: seq<Byte>): seq<bv8> {
    Encode1(High, Low, data)
  }

  function Decode16(v: seq<bv8>): seq<Byte> {
    Decode2(Join16, v)
  }

  lemma Decode16Inverts(data: seq<Byte>)
    ensures Decode16(Encode16(data)) == data
  {
    forall b: Byte
      ensures Join16(High(b), Low(b)) == b
    {
    }
    Decode2Inverts(High, Low, Join16, data);
  }
}
