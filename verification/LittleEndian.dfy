/** Little-endian numbers in byte sequences. */
module LittleEndian {
  import opened Basics

  function Pow256(w: nat): (p: nat)
    ensures p > 0
  {
    if w == 0 then 1 else 256 * Pow256(w - 1)
  }

  function Encode(v: nat, w: nat): (b: Bytes)
    ensures |b| == w
  {
    if w == 0 then [] else [v % 256] + Encode(v / 256, w - 1)
  }

  function Decode(b: Bytes): nat
  {
    if b == [] then 0 else b[0] + 256 * Decode(b[1..])
  }

  lemma {:induction false} EncodeRoundTrip(v: nat, w: nat)
    requires v < Pow256(w)
    ensures Decode(Encode(v, w)) == v
  {
    if w > 0 {
      EncodeRoundTrip(v / 256, w - 1);
      assert Encode(v, w)[1..] == Encode(v / 256, w - 1);
    }
  }

  /** Every byte string is the encoding of the number it stands for. */
  lemma {:induction false} DecodeRoundTrip(b: Bytes)
    ensures Encode(Decode(b), |b|) == b
  {
    if b != [] {
      DecodeRoundTrip(b[1..]);
      assert Decode(b) % 256 == b[0] && Decode(b) / 256 == Decode(b[1..]);
    }
  }

  lemma {:induction false} DecodeBound(b: Bytes)
    ensures Decode(b) < Pow256(|b|)
  {
    if b != [] { DecodeBound(b[1..]); }
  }

  lemma Bounds()
    ensures Pow256(1) == 0x100 && Pow256(2) == 0x1_0000 && Pow256(4) == 0x1_0000_0000
  {
  }

  function U16At(bytes: Bytes, at: nat): u16
    requires at + 2 <= |bytes|
  {
    DecodeBound(bytes[at..at + 2]);
    Bounds();
    Decode(bytes[at..at + 2])
  }

  function U32At(bytes: Bytes, at: nat): u32
    requires at + 4 <= |bytes|
  {
    DecodeBound(bytes[at..at + 4]);
    Bounds();
    Decode(bytes[at..at + 4])
  }

  /** A written number reads back. */
  lemma U16Of(bytes: Bytes, at: nat, v: u16)
    requires at + 2 <= |bytes| && bytes[at..at + 2] == Encode(v, 2)
    ensures U16At(bytes, at) == v
  {
    Bounds();
    EncodeRoundTrip(v, 2);
  }

  lemma U32Of(bytes: Bytes, at: nat, v: u32)
    requires at + 4 <= |bytes| && bytes[at..at + 4] == Encode(v, 4)
    ensures U32At(bytes, at) == v
  {
    Bounds();
    EncodeRoundTrip(v, 4);
  }
}
