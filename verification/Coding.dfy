// Little-endian fixed-width integers.
module Coding {
  import opened Basics

  function EncodeFixed(v: nat, width: nat): (b: seq<Byte>)
    ensures |b| == width
  {
    if width == 0 then [] else [v % 256] + EncodeFixed(v / 256, width - 1)
  }

  function DecodeFixed(b: seq<Byte>): nat {
    if b == [] then 0 else b[0] + 256 * DecodeFixed(b[1..])
  }

  // The number of values of that many bytes.
  function Values(width: nat): nat {
    if width == 0 then 1 else 256 * Values(width - 1)
  }

  lemma {:induction false} DecodeEncode(v: nat, width: nat)
    requires v < Values(width)
    ensures DecodeFixed(EncodeFixed(v, width)) == v
  {
    if width > 0 {
      DecodeEncode(v / 256, width - 1);
      assert EncodeFixed(v, width)[1..] == EncodeFixed(v / 256, width - 1);
    }
  }

  lemma {:induction false} EncodeDecode(b: seq<Byte>)
    ensures DecodeFixed(b) < Values(|b|)
    ensures EncodeFixed(DecodeFixed(b), |b|) == b
  {
    if b != [] {
      EncodeDecode(b[1..]);
      assert DecodeFixed(b) % 256 == b[0] && DecodeFixed(b) / 256 == DecodeFixed(b[1..]);
    }
  }

  lemma ValuesOfWords()
    ensures Values(4) == 0x1_0000_0000
    ensures Values(8) == 0x1_0000_0000_0000_0000
  {
    assert Values(2) == 0x1_0000;
    assert Values(4) == 256 * 256 * Values(2);
    assert Values(6) == 256 * 256 * Values(4);
    assert Values(8) == 256 * 256 * Values(6);
  }
}
