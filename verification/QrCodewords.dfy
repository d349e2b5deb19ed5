// The codewords of a text, byte by byte.
module QrCodewords {
  import opened BitNumbers
  import opened Gf256
  import opened QrBits
  import RS = ReedSolomon

  // What follows the mode, eight bits at a time: the length, then the text.
  ghost function Unit(text: seq<byte>, j: nat): nat
    requires j <= |text|
  {
    if j == 0 then |text| else text[j - 1]
  }

  // Each data codeword has the low half of one unit and the high half of the next, after a 4 for byte mode and before
  // a zero terminator; then 0xec and 0x11 in turn fill the data codewords, and the error correction completes them.
  ghost predicate Encodes(words: seq<byte>, text: seq<byte>, dc: nat, ec: nat) {
    && |text| + 2 <= dc && |words| == dc + ec && RS.Codeword(words, ec)
    && words[0] == 4 * 16 + |text| / 16
    && (forall k :: 1 <= k <= |text| ==> words[k] == Unit(text, k - 1) % 16 * 16 + text[k - 1] / 16)
    && words[|text| + 1] == Unit(text, |text|) % 16 * 16
    && (forall k :: |text| + 2 <= k < dc ==> words[k] == if (k - |text|) % 2 == 0 then 0xec else 0x11)
  }

  // With error-correction level L, versions 1 to 5.
  ghost predicate EncodesAs(words: seq<byte>, text: seq<byte>, version: nat) {
    && 1 <= version <= 5
    && Encodes(words, text, [19, 34, 55, 80, 108][version - 1], [7, 10, 15, 20, 26][version - 1])
  }

  // A byte by its halves.
  lemma HalvesOf(bytes: seq<byte>, k: nat)
    requires k < |bytes|
    ensures var s := Stream(bytes); bytes[k] == Number(s[8 * k..8 * k + 4]) * 16 + Number(s[8 * k + 4..8 * k + 8])
  {
    var s := Stream(bytes);
    ByteSlice(bytes, k);
    Eight();
    NumberBitsOf(bytes[k], 8);
    Nibbles(s[8 * k..8 * k + 8]);
    assert s[8 * k..8 * k + 8][..4] == s[8 * k..8 * k + 4] && s[8 * k..8 * k + 8][4..] == s[8 * k + 4..8 * k + 8];
    hide Number, Stream, BitsOf;
  }

  lemma ByteSlice(bytes: seq<byte>, k: nat)
    requires k < |bytes|
    ensures Stream(bytes)[8 * k..8 * k + 8] == BitsOf(bytes[k], 8)
  {
    hide Shr, BitsOf;
    forall i | 0 <= i < 8
      ensures Stream(bytes)[8 * k + i] == BitsOf(bytes[k], 8)[i]
    {
      BitsOfAt(bytes[k], 8, i);
    }
  }

  lemma Nibbles(s: seq<bit>)
    requires |s| == 8
    ensures Number(s) == Number(s[..4]) * 16 + Number(s[4..])
    ensures Number(s) / 16 == Number(s[..4]) && Number(s) % 16 == Number(s[4..])
  {
    hide Number;
    NumberSplit(s, 4);
    NumberBound(s[4..]);
    assert Pow2(4) == 16;
    Quotient(Number(s), Number(s[..4]), 16, Number(s[4..]));
  }

  // The halves of a unit, where the payload starts a stream.
  lemma UnitHalves(text: seq<byte>, s: seq<bit>, j: nat)
    requires |text| < 256 && Payload(text) <= s && j <= |text|
    ensures Number(s[4 + 8 * j..8 + 8 * j]) == Unit(text, j) / 16
    ensures Number(s[8 + 8 * j..12 + 8 * j]) == Unit(text, j) % 16
  {
    hide *;
    var a := 4 + 8 * j;
    var u := s[a..a + 8];
    UnitBits(text, j);
    assert u == Payload(text)[a..a + 8];
    Eight();
    NumberBitsOf(Unit(text, j), 8);
    Nibbles(u);
    assert u[..4] == s[a..a + 4] && u[4..] == s[a + 4..a + 8];
  }

  lemma UnitBits(text: seq<byte>, j: nat)
    requires |text| < 256 && j <= |text|
    ensures Unit(text, j) < 256 && Payload(text)[4 + 8 * j..12 + 8 * j] == BitsOf(Unit(text, j), 8)
  {
    hide BitsOf, ByteBits;
    var p := Payload(text);
    if j == 0 {
      assert p[4..12] == BitsOf(|text|, 8);
    } else {
      ByteBitsSlice(text, j - 1);
      assert p[12..] == ByteBits(text);
      assert p[12..][8 * (j - 1)..8 * j] == p[4 + 8 * j..12 + 8 * j];
    }
  }

  // What fills the data codewords of a text is its encoding.
  lemma DataEncodes(text: seq<byte>, out: seq<byte>, ec: seq<byte>)
    requires |text| < 256 && |text| + 2 <= |out| && Payload(text) <= Stream(out) && RS.Codeword(out + ec, |ec|)
    requires forall i: nat :: 12 + 8 * |text| <= i < 16 + 8 * |text| ==> BitAt(out, i) == 0
    requires forall k :: |text| + 2 <= k < |out| ==> out[k] == Pad(k - (|text| + 2))
    ensures Encodes(out + ec, text, |out|, |ec|)
  {
    hide Number, Stream, Payload, BitAt, RS.Codeword;
    var s := Stream(out);
    ModeHalf(text, s);
    HalvesOf(out, 0);
    UnitHalves(text, s, 0);
    forall k | 1 <= k <= |text|
      ensures out[k] == Unit(text, k - 1) % 16 * 16 + text[k - 1] / 16
    {
      HalvesOf(out, k);
      UnitHalves(text, s, k - 1);
      UnitHalves(text, s, k);
    }
    HalvesOf(out, |text| + 1);
    UnitHalves(text, s, |text|);
    ZeroHalf(out, 12 + 8 * |text|);
  }

  lemma ModeHalf(text: seq<byte>, s: seq<bit>)
    requires |text| < 256 && Payload(text) <= s
    ensures Number(s[..4]) == 4
  {
    PayloadHeader(text);
    assert s[..4] == Payload(text)[..4];
    hide Number, Payload;
  }

  lemma ZeroHalf(out: seq<byte>, a: nat)
    requires a + 4 <= 8 * |out| && forall i: nat :: a <= i < a + 4 ==> BitAt(out, i) == 0
    ensures Number(Stream(out)[a..a + 4]) == 0
  {
    var u := Stream(out)[a..a + 4];
    assert u == [0, 0, 0, 0];
    assert Number([0, 0, 0, 0]) == 0 by {
      assert [0, 0, 0, 0][..3] == [0, 0, 0] && [0, 0, 0][..2] == [0, 0] && [0, 0][..1] == [0];
    }
  }
}
