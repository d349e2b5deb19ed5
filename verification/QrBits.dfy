// The bit level of the QR encoder: the bit buffer, packing bits into codewords, the byte-mode data
// stream (mode, length, bytes, terminator, pad codewords), and the parser that undoes it.
module QrBits {
  import opened Wrappers
  import opened Gf256

  type bit = x: nat | x < 2

  // value >>> k
  function Shr(value: nat, k: nat): nat
    decreases k
  {
    if k == 0 then value else Shr(value / 2, k - 1)
  }

  // The low `length` bits of value, most significant first.
  function BitsOf(value: nat, length: nat): (s: seq<bit>)
    ensures |s| == length
    decreases length
  {
    if length == 0 then [] else BitsOf(value / 2, length - 1) + [value % 2]
  }

  // The number a bit string writes, most significant bit first.
  function Number(s: seq<bit>): nat {
    if |s| == 0 then 0 else 2 * Number(s[..|s| - 1]) + s[|s| - 1]
  }

  lemma {:induction false} NumberBitsOf(value: nat, length: nat)
    requires value < Pow2(length)
    ensures Number(BitsOf(value, length)) == value
    decreases length
  {
    if length > 0 {
      NumberBitsOf(value / 2, length - 1);
      assert BitsOf(value, length)[..length - 1] == BitsOf(value / 2, length - 1);
    }
  }

  lemma {:induction false} ShrStep(value: nat, k: nat)
    ensures Shr(value, k) / 2 == Shr(value, k + 1)
    decreases k
  {
    if k > 0 {
      ShrStep(value / 2, k - 1);
    }
  }

  lemma {:induction false} BitsOfAt(value: nat, length: nat, i: nat)
    requires i < length
    ensures BitsOf(value, length)[i] == Shr(value, length - 1 - i) % 2
    decreases length
  {
    if i < length - 1 {
      BitsOfAt(value / 2, length - 1, i);
    }
  }

  // Bit i of a byte string, most significant bit of each byte first.
  function BitAt(bytes: seq<byte>, i: nat): bit
    requires i < 8 * |bytes|
  {
    Shr(bytes[i / 8], 7 - i % 8) % 2
  }

  function Stream(bytes: seq<byte>): (s: seq<bit>)
    ensures |s| == 8 * |bytes|
  {
    seq(8 * |bytes|, i requires 0 <= i < 8 * |bytes| => BitAt(bytes, i))
  }

  // a | (1 << q)
  function SetBit(a: nat, q: nat): nat {
    if Shr(a, q) % 2 == 1 then a else a + Pow2(q)
  }

  lemma {:induction false} SetBitEffect(a: nat, q: nat, p: nat)
    requires Shr(a, q) % 2 == 0
    ensures Shr(a + Pow2(q), p) % 2 == if p == q then 1 else Shr(a, p) % 2
    decreases q
  {
    if q == 0 {
      if p > 0 {
        assert (a + 1) / 2 == a / 2;
      }
    } else {
      assert (a + Pow2(q)) / 2 == a / 2 + Pow2(q - 1);
      assert (a + Pow2(q)) % 2 == a % 2;
      if p > 0 {
        SetBitEffect(a / 2, q - 1, p - 1);
      }
    }
  }

  lemma {:induction false} SetBitBound(a: nat, q: nat, m: nat)
    requires Shr(a, q) % 2 == 0 && a < Pow2(m) && q < m
    ensures a + Pow2(q) < Pow2(m)
    decreases q
  {
    if q == 0 {
      assert Pow2(m) == 2 * Pow2(m - 1);
    } else {
      SetBitBound(a / 2, q - 1, m - 1);
    }
  }

  class BitBuffer {
    var bits: seq<bit>

    constructor ()
      ensures bits == []
    {
      bits := [];
    }

    method Put(value: nat, length: nat)
      modifies this
      ensures bits == old(bits) + BitsOf(value, length)
    {
      var i := length;
      while i > 0
        invariant 0 <= i <= length
        invariant bits == old(bits) + BitsOf(Shr(value, i), length - i)
      {
        i := i - 1;
        ShrStep(value, i);
        bits := bits + [Shr(value, i) % 2];
      }
    }

    // Up to four terminator bits, as far as the capacity allows, then zeros up to a byte boundary.
    method Terminate(capacityBits: nat)
      requires |bits| <= capacityBits
      modifies this
      ensures |bits| % 8 == 0 && old(bits) <= bits
      ensures forall i :: |old(bits)| <= i < |bits| ==> bits[i] == 0
      ensures var end := |old(bits)| + if capacityBits - |old(bits)| < 4 then capacityBits - |old(bits)| else 4;
        end <= |bits| < end + 8
    {
      var terminator := if capacityBits - |bits| < 4 then capacityBits - |bits| else 4;
      ZeroBits(terminator);
      ZeroBits(1);
      hide BitsOf;
      Put(0, terminator);
      ghost var target := (|bits| + 7) / 8 * 8;
      while |bits| % 8 != 0
        invariant old(bits) <= bits
        invariant forall i :: |old(bits)| <= i < |bits| ==> bits[i] == 0
        invariant |old(bits)| + terminator <= |bits| <= target
        decreases target - |bits|
      {
        Put(0, 1);
      }
    }

    // Packing: bit i of the buffer becomes bit i of the bytes, and the unused tail of the last byte is zero.
    method ToBytes() returns (out: seq<byte>)
      ensures |out| == (|bits| + 7) / 8
      ensures forall i: nat :: i < |bits| ==> BitAt(out, i) == bits[i]
      ensures forall i: nat :: |bits| <= i < 8 * |out| ==> BitAt(out, i) == 0
    {
      out := seq((|bits| + 7) / 8, _ => 0);
      ClearBits(out);
      var i := 0;
      while i < |bits|
        invariant 0 <= i <= |bits|
        invariant |out| == (|bits| + 7) / 8
        invariant forall k: nat :: k < i ==> BitAt(out, k) == bits[k]
        invariant forall k: nat :: i <= k < 8 * |out| ==> BitAt(out, k) == 0
      {
        if bits[i] == 1 {
          var before := out;
          var b, q := out[i / 8], 7 - i % 8;
          assert BitAt(out, i) == Shr(b, q) % 2;
          assert Pow2(8) == 256;
          SetBitBound(b, q, 8);
          out := out[i / 8 := SetBit(b, q)];
          forall k: nat | k < 8 * |out|
            ensures BitAt(out, k) == if k == i then 1 else BitAt(before, k)
          {
            SetBitEffect(b, q, 7 - k % 8);
          }
        }
        i := i + 1;
      }
    }
  }

  lemma ClearBits(bytes: seq<byte>)
    requires forall k :: 0 <= k < |bytes| ==> bytes[k] == 0
    ensures forall i: nat :: i < 8 * |bytes| ==> BitAt(bytes, i) == 0
  {
    forall i: nat | i < 8 * |bytes|
      ensures BitAt(bytes, i) == 0
    {
      ShrZero(7 - i % 8);
    }
  }

  lemma {:induction false} ShrZero(k: nat)
    ensures Shr(0, k) == 0
  {
    if k > 0 {
      ShrZero(k - 1);
    }
  }

  lemma ZeroBits(length: nat)
    ensures forall i :: 0 <= i < length ==> BitsOf(0, length)[i] == 0
  {
    forall i | 0 <= i < length
      ensures BitsOf(0, length)[i] == 0
    {
      BitsOfAt(0, length, i);
      ShrZero(length - 1 - i);
    }
  }

  // ---- The byte-mode data stream ------------------------------------------------------------------

  function ByteBits(data: seq<byte>): (s: seq<bit>)
    ensures |s| == 8 * |data|
  {
    if |data| == 0 then [] else ByteBits(data[..|data| - 1]) + BitsOf(data[|data| - 1], 8)
  }

  // Mode indicator 0100, an 8-bit count, the bytes.
  function Payload(data: seq<byte>): (s: seq<bit>)
    ensures |s| == 12 + 8 * |data|
  {
    BitsOf(4, 4) + BitsOf(|data|, 8) + ByteBits(data)
  }

  // The reader: mode, count, bytes; whatever follows is ignored.
  function Parse(codewords: seq<byte>): Option<seq<byte>> {
    var s := Stream(codewords);
    if |s| < 12 || Number(s[..4]) != 4 then None
    else
      var count := Number(s[4..12]);
      if |s| < 12 + 8 * count then None
      else Some(seq(count, i requires 0 <= i < count => ReadByte(s, 12 + 8 * i)))
  }

  function ReadByte(s: seq<bit>, at: nat): byte
    requires at + 8 <= |s|
  {
    NumberBound(s[at..at + 8]);
    assert Pow2(8) == 256;
    Number(s[at..at + 8])
  }

  lemma {:induction false} NumberBound(s: seq<bit>)
    ensures Number(s) < Pow2(|s|)
  {
    if |s| > 0 {
      NumberBound(s[..|s| - 1]);
    }
  }

  lemma {:induction false} ByteBitsSlice(data: seq<byte>, i: nat)
    requires i < |data|
    ensures ByteBits(data)[8 * i..8 * i + 8] == BitsOf(data[i], 8)
  {
    hide BitsOf;
    var n := |data| - 1;
    var init := ByteBits(data[..n]);
    assert ByteBits(data) == init + BitsOf(data[n], 8);
    if i < n {
      ByteBitsSlice(data[..n], i);
      assert ByteBits(data)[8 * i..8 * i + 8] == init[8 * i..8 * i + 8];
    }
  }

  // Any codewords that begin with the payload of some data parse to exactly that data.
  lemma ParsePayload(codewords: seq<byte>, data: seq<byte>)
    requires |data| < 256
    requires Payload(data) <= Stream(codewords)
    ensures Parse(codewords) == Some(data)
  {
    hide *;
    var s, p := Stream(codewords), Payload(data);
    PayloadHeader(data);
    assert s[..|p|] == p;
    assert s[..4] == p[..4] && s[4..12] == p[4..12];
    forall i | 0 <= i < |data|
      ensures Number(s[12 + 8 * i..12 + 8 * i + 8]) == data[i]
    {
      PayloadByte(data, i);
      assert s[12 + 8 * i..12 + 8 * i + 8] == p[12 + 8 * i..12 + 8 * i + 8];
    }
    ParseParts(codewords, data);
  }

  lemma ParseParts(codewords: seq<byte>, data: seq<byte>)
    requires 12 + 8 * |data| <= 8 * |codewords|
    requires Number(Stream(codewords)[..4]) == 4 && Number(Stream(codewords)[4..12]) == |data|
    requires forall i :: 0 <= i < |data| ==> Number(Stream(codewords)[12 + 8 * i..12 + 8 * i + 8]) == data[i]
    ensures Parse(codewords) == Some(data)
  {
    hide Number, BitAt;
    var s, count := Stream(codewords), |data|;
    assert seq(count, i requires 0 <= i < count => ReadByte(s, 12 + 8 * i)) == data;
  }

  lemma PayloadHeader(data: seq<byte>)
    requires |data| < 256
    ensures Number(Payload(data)[..4]) == 4
    ensures Number(Payload(data)[4..12]) == |data|
  {
    hide Number, BitsOf, ByteBits;
    var p := Payload(data);
    assert p[..4] == BitsOf(4, 4);
    assert p[4..12] == BitsOf(|data|, 8);
    assert Pow2(4) == 16 && Pow2(8) == 256;
    NumberBitsOf(4, 4);
    NumberBitsOf(|data|, 8);
  }

  lemma PayloadByte(data: seq<byte>, i: nat)
    requires i < |data|
    ensures Number(Payload(data)[12 + 8 * i..12 + 8 * i + 8]) == data[i]
  {
    hide Number, BitsOf, ByteBits;
    var p := Payload(data);
    ByteBitsSlice(data, i);
    assert p[12..] == ByteBits(data);
    assert p[12 + 8 * i..12 + 8 * i + 8] == ByteBits(data)[8 * i..8 * i + 8];
    assert Pow2(8) == 256;
    NumberBitsOf(data[i], 8);
  }

  function Pad(k: nat): byte {
    if k % 2 == 0 then 0xec else 0x11
  }

  // The data codewords of one block: payload, a zero terminator up to the byte boundary, then pads.
  method DataCodewords(data: seq<byte>, dataCodewords: nat) returns (out: seq<byte>)
    requires |data| + 2 <= dataCodewords
    ensures |out| == dataCodewords
    ensures Payload(data) <= Stream(out)
    ensures forall i: nat :: 12 + 8 * |data| <= i < 16 + 8 * |data| ==> BitAt(out, i) == 0
    ensures forall k :: |data| + 2 <= k < dataCodewords ==> out[k] == Pad(k - (|data| + 2))
  {
    hide BitsOf, Shr, Pow2;
    var bb := new BitBuffer();
    bb.Put(4, 4);
    bb.Put(|data|, 8);
    var i := 0;
    while i < |data|
      invariant 0 <= i <= |data|
      invariant bb.bits == BitsOf(4, 4) + BitsOf(|data|, 8) + ByteBits(data[..i])
    {
      bb.Put(data[i], 8);
      assert data[..i + 1][..i] == data[..i];
      i := i + 1;
    }
    assert data[..|data|] == data;
    assert bb.bits == Payload(data);
    bb.Terminate(dataCodewords * 8);
    ghost var stream := bb.bits;
    var packed := bb.ToBytes();
    out := packed + seq(dataCodewords - |packed|, _ => 0);
    var k, pad := |bb.bits| / 8, 0;
    while k < dataCodewords
      invariant |packed| == |data| + 2 <= k <= dataCodewords == |out|
      invariant pad == k - |packed|
      invariant out[..|packed|] == packed
      invariant forall j :: |packed| <= j < k ==> out[j] == Pad(j - |packed|)
    {
      out := out[k := if pad % 2 == 0 then 0xec else 0x11];
      k, pad := k + 1, pad + 1;
    }
    StreamPrefix(packed, stream, out, data);
  }

  lemma StreamPrefix(packed: seq<byte>, stream: seq<bit>, out: seq<byte>, data: seq<byte>)
    requires |packed| == |data| + 2 && packed <= out && |stream| == 8 * |packed| && Payload(data) <= stream
    requires forall i: nat :: i < 8 * |packed| ==> BitAt(packed, i) == stream[i]
    ensures Payload(data) <= Stream(out)
    ensures forall i: nat :: i < |stream| ==> BitAt(out, i) == stream[i]
  {
    hide BitsOf, Shr, ByteBits, Payload;
    forall j: nat | j < 8 * |packed|
      ensures BitAt(out, j) == BitAt(packed, j)
    {
      assert out[j / 8] == packed[j / 8];
    }
  }
}
