/** Armoured text: bytes as base64, base32 or base16 characters, with padding and line breaks
    (RFC 4648), and when it can be read back. */
module Armour {
  import opened Options
  import opened Sizes
  import opened Grouping
  import opened Digits
  import opened Alphabets
  import opened Wrapping

  // ----- encoding -----

  datatype Settings = Settings(mode: Mode, pad: bool, padChar: char, lineBreaks: bool, lineLength: nat)

  /** The digits of the bytes. */
  function Codes(mode: Mode, data: seq<Byte>): seq<bv8> {
    if Radix(mode) == 64 then Encode64(data) else if Radix(mode) == 32 then Encode32(data) else Encode16(data)
  }

  /** Characters missing after k characters from a full group; base16 has no padding. */
  function Missing(mode: Mode, k: nat): nat {
    if Radix(mode) == 64 then Missing64(k) else if Radix(mode) == 32 then Missing32(k) else 0
  }

  function PadCount(s: Settings, k: nat): nat {
    if s.pad then Missing(s.mode, k) else 0
  }

  function Letter(mode: Mode): Letters<bv8> {
    d => if d as int < Radix(mode) then Alphabet(mode)[d as int] else '?'
  }

  /** The length of lines; longer than the text if it is not to be broken. */
  function Width(s: Settings, n: nat): nat {
    if s.lineBreaks && s.lineLength > 0 then s.lineLength else n + 1
  }

  function Encode(s: Settings, data: seq<Byte>): string {
    var ds := Codes(s.mode, data);
    var p := PadCount(s, |ds|);
    Wrap(Chars(Letter(s.mode), ds) + Pads(s.padChar, p), Width(s, |ds| + p))
  }

  // ----- decoding -----

  function LookUps(mode: Mode): Table<bv8> {
    c => LookUp(mode, c)
  }

  /** Decoding in base16 does not skip unknown characters at the end. */
  function Decode(mode: Mode, text: string): Result<Byte> {
    if Radix(mode) == 64 then Outcome(Decode64, Size64, LookUps(mode), true, text)
    else if Radix(mode) == 32 then Outcome(Decode32, Size32, LookUps(mode), true, text)
    else Outcome(Decode16, Size16, LookUps(mode), false, text)
  }

  // ----- the round trip -----

  predicate InRange(radix: nat, d: bv8) {
    d as int < radix
  }

  lemma CodesInRange(mode: Mode, data: seq<Byte>)
    ensures forall i :: 0 <= i < |Codes(mode, data)| ==> InRange(Radix(mode), Codes(mode, data)[i])
  {
    var ok := d => InRange(Radix(mode), d);
    if Radix(mode) == 64 {
      Encode3All(Split64, 0, data, ok);
    } else if Radix(mode) == 32 {
      Encode5All(Split32, 0, data, ok);
    } else {
      Encode1All(High, Low, data, ok);
    }
  }

  lemma LettersRead(mode: Mode, data: seq<Byte>)
    ensures Reads(LookUps(mode), Letter(mode), Codes(mode, data)) && LookUps(mode)('\n').None?
  {
    var ds := Codes(mode, data);
    CodesInRange(mode, data);
    forall i | 0 <= i < |ds|
      ensures LookUps(mode)(Letter(mode)(ds[i])) == Some(ds[i])
    {
      LookedUp(mode, ds[i] as int);
    }
    NewlineUnknown(mode);
  }

  /** No line break comes after the last of k characters and before the end of the padding. */
  predicate Unbroken(s: Settings, k: nat) {
    Excess(k, PadCount(s, k), Width(s, k + PadCount(s, k))) == 0
  }

  /** The padding character cannot be taken for a digit or a line break. */
  predicate PadDistinct(s: Settings) {
    s.pad ==> LookUp(s.mode, s.padChar).None? && s.padChar != '\n'
  }

  /** With padding that can be told from the rest, the bytes come back exactly if no line
      break falls into it. */
  lemma RoundTripPadded(s: Settings, data: seq<Byte>)
    requires PadDistinct(s)
    ensures Decode(s.mode, Encode(s, data)) == Decoded(data, |data| + 1) <==> Unbroken(s, |Codes(s.mode, data)|)
  {
    if Radix(s.mode) == 64 {
      RoundTrip64(s, data);
    } else if Radix(s.mode) == 32 {
      RoundTrip32(s, data);
    } else {
      RoundTrip16(s, data);
    }
  }

  lemma RoundTrip64(s: Settings, data: seq<Byte>)
    requires PadDistinct(s) && Radix(s.mode) == 64
    ensures Decode(s.mode, Encode(s, data)) == Decoded(data, |data| + 1) <==> Unbroken(s, |Codes(s.mode, data)|)
  {
    var mode, ds := s.mode, Encode64(data);
    var p := PadCount(s, |ds|);
    LettersRead(mode, data);
    Decode64Inverts(data);
    Trip64(Decode64, LookUps(mode), Letter(mode), ds, data, s.padChar, p, Width(s, |ds| + p));
  }

  lemma RoundTrip32(s: Settings, data: seq<Byte>)
    requires PadDistinct(s) && Radix(s.mode) == 32
    ensures Decode(s.mode, Encode(s, data)) == Decoded(data, |data| + 1) <==> Unbroken(s, |Codes(s.mode, data)|)
  {
    var mode, ds := s.mode, Encode32(data);
    var p := PadCount(s, |ds|);
    LettersRead(mode, data);
    Decode32Inverts(data);
    Trip32(Decode32, LookUps(mode), Letter(mode), ds, data, s.padChar, p, Width(s, |ds| + p));
  }

  lemma RoundTrip16(s: Settings, data: seq<Byte>)
    requires PadDistinct(s) && Radix(s.mode) == 16
    ensures Decode(s.mode, Encode(s, data)) == Decoded(data, |data| + 1)
  {
    var mode, ds := s.mode, Encode16(data);
    LettersRead(mode, data);
    Decode16Inverts(data);
    Trip16(Decode16, LookUps(mode), Letter(mode), ds, data, s.padChar, Width(s, |ds|));
  }

  /** Padding by a digit makes the last group whole and adds bytes; padding by newlines puts
      the length off. */
  lemma PadTaken(s: Settings, data: seq<Byte>)
    requires PadCount(s, |Codes(s.mode, data)|) > 0 && !PadDistinct(s)
    ensures Decode(s.mode, Encode(s, data)) != Decoded(data, |data| + 1)
  {
    var mode, ds := s.mode, Codes(s.mode, data);
    var p := PadCount(s, |ds|);
    LettersRead(mode, data);
    if Radix(mode) == 64 {
      Decode64Whole();
      Taken64(Decode64, LookUps(mode), Letter(mode), ds, data, s.padChar, p, Width(s, |ds| + p));
    } else {
      Decode32Whole();
      Taken32(Decode32, LookUps(mode), Letter(mode), ds, data, s.padChar, p, Width(s, |ds| + p));
    }
  }

  /** The bytes come back, with a size of one more, exactly if there is no padding, or it can
      be told from digits and newlines and no line break falls into it. */
  lemma RoundTrip(s: Settings, data: seq<Byte>)
    ensures var k := |Codes(s.mode, data)|;
            Decode(s.mode, Encode(s, data)) == Decoded(data, |data| + 1) <==>
            PadCount(s, k) == 0 || (PadDistinct(s) && Unbroken(s, k))
  {
    var k := |Codes(s.mode, data)|;
    if PadCount(s, k) == 0 {
      RoundTripPadded(s.(pad := false), data);
      assert Encode(s.(pad := false), data) == Encode(s, data);
    } else if PadDistinct(s) {
      RoundTripPadded(s, data);
    } else {
      PadTaken(s, data);
    }
  }

  /** One byte, padded to four characters, in lines of three: a break falls into the padding. */
  lemma PaddingBroken(s: Settings, b: Byte)
    requires s == Settings(Base64, true, '=', true, 3)
    ensures Decode(s.mode, Encode(s, [b])) != Decoded([b], 2)
  {
    PadUnknown();
    OneByte(b);
    BrokenAfter2(s);
    RoundTrip(s, [b]);
  }

  lemma OneByte(b: Byte)
    ensures |Codes(Base64, [b])| == 2
  {
  }

  lemma BrokenAfter2(s: Settings)
    requires s == Settings(Base64, true, '=', true, 3)
    ensures !Unbroken(s, 2)
  {
    assert Breaks(4, 3) == 1 && Breaks(2, 3) == 0;
  }

  /** Line lengths of whole groups. */
  predicate Aligned(mode: Mode, width: nat) {
    (Radix(mode) == 64 ==> width % 4 == 0) && (Radix(mode) == 32 ==> width % 8 == 0)
  }

  /** Without line breaks, without padding, or with lines of whole groups, none does. */
  lemma NeverBroken(s: Settings, k: nat)
    requires !s.lineBreaks || !s.pad || Aligned(s.mode, s.lineLength)
    ensures Unbroken(s, k)
  {
    if s.lineBreaks && s.lineLength > 0 {
      if Radix(s.mode) == 64 && s.pad {
        Whole64(k, s.lineLength);
      } else if Radix(s.mode) == 32 && s.pad {
        Whole32(k, s.lineLength);
      }
    }
  }

  lemma {:induction false} Whole64(k: nat, width: nat)
    requires width > 0 && width % 4 == 0
    ensures Breaks(k + Missing64(k), width) == Breaks(k, width)
    decreases k
  {
    if k > width {
      Whole64(k - width, width);
      Shift4(k - width, width);
    }
  }

  lemma Shift4(k: nat, width: nat)
    requires width % 4 == 0
    ensures Missing64(k + width) == Missing64(k)
  {
  }

  lemma {:induction false} Whole32(k: nat, width: nat)
    requires width > 0 && width % 8 == 0
    ensures Breaks(k + Missing32(k), width) == Breaks(k, width)
    decreases k
  {
    if k > width {
      Whole32(k - width, width);
      Shift8(k - width, width);
    }
  }

  lemma Shift8(k: nat, width: nat)
    requires width % 8 == 0
    ensures Missing32(k + width) == Missing32(k)
  {
  }
}
