/** How many characters a number of bytes takes in base64 and base32, how many are missing from
    a full group, and what size the decoder computes from a length. */
module Sizes {
  import opened Options

  const SIZE := 0x1_0000_0000_0000_0000

  /** A difference of two sizes, which wraps around. */
  function Wrapped(n: int): nat {
    if n >= 0 then n else if n + SIZE >= 0 then n + SIZE else 0
  }

  // ----- base64 -----

  /** Digits for the bytes left over after blocks of three. */
  function Extra64(bytes: nat): nat {
    if bytes == 0 then 0 else bytes + 1
  }

  function Count64(n: nat): nat {
    4 * (n / 3) + Extra64(n % 3)
  }

  /** Characters missing after k characters from a full group of four. */
  function Missing64(k: nat): nat {
    if k % 4 != 0 then 4 - k % 4 else 0
  }

  function Size64(n: int): Option<nat> {
    var l := Wrapped(n);
    Some(3 * (l / 4) + (if l % 4 != 0 then l % 4 - 1 else 0) + 1)
  }

  /** The size is that of the bytes and a zero byte exactly if the length is not put off. */
  lemma Size64Exact(n: nat, d: nat)
    requires d <= 2 * Missing64(Count64(n))
    ensures Size64(Count64(n) - d) == Some(n + 1) <==> d == 0
  {
  }

  // ----- base32 -----

  /** Digits for the bytes left over after blocks of five. */
  function Extra32(bytes: nat): (n: nat)
    ensures n <= 7
  {
    if bytes == 0 then 0 else if bytes == 1 then 2 else if bytes == 2 then 4 else if bytes == 3 then 5 else 7
  }

  function Count32(n: nat): nat {
    8 * (n / 5) + Extra32(n % 5)
  }

  /** Characters missing after k characters from a full group of eight. */
  function Missing32(k: nat): nat {
    if k % 8 != 0 then 8 - k % 8 else 0
  }

  /** Bytes for the characters left over after groups of eight; none if there can be no such. */
  function Rest32(chars: nat): Option<nat> {
    if chars == 0 then Some(0) else if chars == 2 then Some(1) else if chars == 4 then Some(2)
    else if chars == 5 then Some(3) else if chars == 7 then Some(4) else None
  }

  /** None if the length is impossible. */
  function Size32(n: int): Option<nat> {
    var l := Wrapped(n);
    if Rest32(l % 8).None? then None else Some(5 * (l / 8) + Rest32(l % 8).value + 1)
  }

  lemma Eighths(q: int, e: int)
    requires 0 <= e < 8
    ensures (8 * q + e) / 8 == q && (8 * q + e) % 8 == e
  {
  }

  /** The size computed from q groups of eight and e more characters. */
  lemma Size32At(q: nat, e: nat)
    requires e < 8
    ensures Size32(8 * q + e) == if Rest32(e).None? then None else Some(5 * q + Rest32(e).value + 1)
  {
    Eighths(q, e);
  }

  lemma Size32Exact(n: nat, d: nat)
    requires d <= 2 * Missing32(Count32(n))
    ensures Size32(Count32(n) - d) == Some(n + 1) <==> d == 0
  {
    var q, r := n / 5, Extra32(n % 5);
    Eighths(q, r);
    if d <= r {
      Size32At(q, r - d);
    } else if q > 0 && d <= 8 + r {
      Size32At(q - 1, 8 + r - d);
    } else if q > 1 {
      Size32At(q - 2, 16 + r - d);
    } else {
      var below := 8 * (SIZE / 8) + Count32(n) - d;
      assert Wrapped(Count32(n) - d) == Wrapped(below);
      Size32At(below / 8, below % 8);
    }
  }

  // ----- base16 -----

  function Size16(n: int): Option<nat> {
    Some(Wrapped(n) / 2 + 1)
  }

  // ----- whole groups -----

  /** The bytes of whole groups are too many. */
  lemma Filled64(n: nat)
    requires Missing64(Count64(n)) > 0
    ensures (Count64(n) + Missing64(Count64(n))) % 4 == 0 && 3 * ((Count64(n) + Missing64(Count64(n))) / 4) > n
  {
  }

  lemma Filled32(n: nat)
    requires Missing32(Count32(n)) > 0
    ensures (Count32(n) + Missing32(Count32(n))) % 8 == 0 && 5 * ((Count32(n) + Missing32(Count32(n))) / 8) > n
  {
    Eighths(n / 5, Extra32(n % 5));
  }
}
