// The format information of a symbol: five bits for the error-correction level and the mask, ten check bits by
// dividing by a generator polynomial, and a fixed pattern over all fifteen.
module QrFormat {
  import opened QrBits

  type word = bv16

  const GENERATOR: word := 0x537
  const PATTERN: word := 0x5412

  // One step of the division.
  function Divide(bch: word, i: nat): word
    requires 10 <= i <= 14
  {
    if (bch >> i) & 1 == 1 then bch ^ (GENERATOR << (i - 10)) else bch
  }

  // Division from bit i - 1 down to bit 10.
  function Rest(bch: word, i: nat): word
    requires i <= 15
    decreases i
  {
    if i <= 10 then bch else Rest(Divide(bch, i - 1), i - 1)
  }

  // Level L is 01.
  function Data(mask: nat): word
    requires mask < 8
  {
    (1 << 3) | (mask as word)
  }

  // The eight words of level L, by mask.
  const WORDS: seq<word> := [0x77c4, 0x72f3, 0x7daa, 0x789d, 0x662f, 0x6318, 0x6c41, 0x6976]

  method FormatBits(mask: nat) returns (bits: word)
    requires mask < 8
    ensures bits == WORDS[mask]
  {
    var data := Data(mask);
    var bch := data << 10;
    var i := 14;
    while i >= 10
      invariant 9 <= i <= 14
      invariant Rest(bch, i + 1) == Rest(data << 10, 15)
    {
      if (bch >> i) & 1 == 1 {
        bch := bch ^ (GENERATOR << (i - 10));
      }
      i := i - 1;
    }
    WordIs(mask);
    bits := ((data << 10) | bch) ^ PATTERN;
  }

  lemma WordIs(mask: nat)
    requires mask < 8
    ensures ((Data(mask) << 10) | Rest(Data(mask) << 10, 15)) ^ PATTERN == WORDS[mask]
  {
    var b := Data(mask) << 10;
    var c := Divide(b, 14);
    var d := Divide(c, 13);
    var e := Divide(d, 12);
    var f := Divide(e, 11);
    var g := Divide(f, 10);
    assert Rest(b, 15) == Rest(c, 14) && Rest(c, 14) == Rest(d, 13) && Rest(d, 13) == Rest(e, 12);
    assert Rest(e, 12) == Rest(f, 11) && Rest(f, 11) == Rest(g, 10) && Rest(g, 10) == g;
  }

  function BitOf(x: word, i: nat): bit
    requires i < 15
  {
    if (x >> i) & 1 == 1 then 1 else 0
  }

  // The word's bits, least significant first.
  function FormatOf(mask: nat): (bits: seq<bit>)
    requires mask < 8
    ensures |bits| == 15
  {
    seq(15, i requires 0 <= i < 15 => BitOf(WORDS[mask], i))
  }

  method BitsOfWord(mask: nat) returns (bits: seq<bit>)
    requires mask < 8
    ensures bits == FormatOf(mask)
  {
    var word := FormatBits(mask);
    bits := [];
    while |bits| < 15
      invariant |bits| <= 15 && bits == FormatOf(mask)[..|bits|]
    {
      bits := bits + [BitOf(word, |bits|)];
    }
  }

  function Ones(x: word, n: nat): nat
    requires n <= 15
  {
    if n == 0 then 0 else Ones(x, n - 1) + BitOf(x, n - 1)
  }

  lemma OnesIs(x: word)
    ensures Ones(x, 15)
         == BitOf(x, 0) + BitOf(x, 1) + BitOf(x, 2) + BitOf(x, 3) + BitOf(x, 4) + BitOf(x, 5) + BitOf(x, 6)
            + BitOf(x, 7) + BitOf(x, 8) + BitOf(x, 9) + BitOf(x, 10) + BitOf(x, 11) + BitOf(x, 12) + BitOf(x, 13)
            + BitOf(x, 14)
  {
    hide BitOf;
    assert Ones(x, 1) == BitOf(x, 0);
    assert Ones(x, 2) == Ones(x, 1) + BitOf(x, 1);
    assert Ones(x, 4) == Ones(x, 2) + BitOf(x, 2) + BitOf(x, 3);
    assert Ones(x, 6) == Ones(x, 4) + BitOf(x, 4) + BitOf(x, 5);
    assert Ones(x, 8) == Ones(x, 6) + BitOf(x, 6) + BitOf(x, 7);
    assert Ones(x, 10) == Ones(x, 8) + BitOf(x, 8) + BitOf(x, 9);
    assert Ones(x, 12) == Ones(x, 10) + BitOf(x, 10) + BitOf(x, 11);
    assert Ones(x, 14) == Ones(x, 12) + BitOf(x, 12) + BitOf(x, 13);
  }

  // How two words can differ.
  const DIFFERENCES: seq<word> := [0x537, 0xa6e, 0xf59, 0x11eb, 0x14dc, 0x1b85, 0x1eb2]

  lemma Difference(a: nat, b: nat)
    requires a < b < 8
    ensures WORDS[a] ^ WORDS[b] in DIFFERENCES
  {
    var x := WORDS[a] ^ WORDS[b];
    assert exists k :: 0 <= k < 7 && DIFFERENCES[k] == x by {
      assert || DIFFERENCES[0] == x || DIFFERENCES[1] == x || DIFFERENCES[2] == x || DIFFERENCES[3] == x
             || DIFFERENCES[4] == x || DIFFERENCES[5] == x || DIFFERENCES[6] == x;
    }
  }

  // Any two of the eight words differ in seven bits or more, so a reader that takes the nearest one gets the mask
  // right whatever three bits are damaged.
  lemma FormatDistance(a: nat, b: nat)
    requires a < b < 8
    ensures Ones(WORDS[a] ^ WORDS[b], 15) >= 7
  {
    Difference(a, b);
    forall k: nat | k < 7
      ensures Ones(DIFFERENCES[k], 15) >= 7
    {
      OnesIs(DIFFERENCES[k]);
    }
  }
}
