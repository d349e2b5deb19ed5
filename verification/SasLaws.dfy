// Which words a digest is shown as.
module SasLaws {
  import opened BitNumbers
  import opened Gf256
  import opened QrBits
  import opened Sas

  // The digest as one number, its first byte the most significant.
  ghost function BigEndian(d: seq<byte>): nat {
    if d == [] then 0 else 256 * BigEndian(d[..|d| - 1]) + d[|d| - 1]
  }

  lemma {:induction false} StreamNumber(d: seq<byte>)
    ensures Number(Stream(d)) == BigEndian(d)
    decreases |d|
  {
    if d == [] {
      assert Stream(d) == [];
    } else {
      StreamNumber(d[..|d| - 1]);
      StreamMore(d);
    }
  }

  lemma StreamMore(d: seq<byte>)
    requires d != []
    ensures Number(Stream(d)) == 256 * Number(Stream(d[..|d| - 1])) + d[|d| - 1]
  {
    hide *;
    var n := |d| - 1;
    StreamLast(d);
    Eight();
    NumberBitsOf(d[n], 8);
    NumberSplit(Stream(d), 8 * n);
  }

  lemma StreamLast(d: seq<byte>)
    requires d != []
    ensures Stream(d)[..8 * (|d| - 1)] == Stream(d[..|d| - 1])
    ensures Stream(d)[8 * (|d| - 1)..] == BitsOf(d[|d| - 1], 8)
  {
    hide Shr, BitsOf;
    var n := |d| - 1;
    forall i | 0 <= i < 8
      ensures Stream(d)[8 * n + i] == BitsOf(d[n], 8)[i]
    {
      BitsOfAt(d[n], 8, i);
    }
  }

  // Word i shows the i-th eleven bits of that number from the top.
  lemma GroupSays(d: seq<byte>, i: nat)
    requires 11 * i + 11 <= 8 * |d|
    ensures Pow2(8 * |d| - 11 * i - 11) > 0
    ensures Group(d, i) == BigEndian(d) / Pow2(8 * |d| - 11 * i - 11) % 2048
  {
    hide Number, Stream, BigEndian;
    var s, a, b := Stream(d), 11 * i, 11 * i + 11;
    StreamNumber(d);
    NumberSplit(s, b);
    NumberBound(s[b..]);
    PowPositive(|s| - b);
    Quotient(Number(s), Number(s[..b]), Pow2(|s| - b), Number(s[b..]));
    NumberSplit(s[..b], a);
    assert s[..b][..a] == s[..a] && s[..b][a..] == s[a..b];
    NumberBound(s[a..b]);
    Eleven();
    Quotient(Number(s[..b]), Number(s[..a]), 2048, Number(s[a..b]));
  }

  // A word is one of sixteen onsets for its top four bits, one of eight vowels for the next three and one of sixteen
  // codas for the rest.
  lemma WordSays(o: nat, v: nat, c: nat)
    requires o < 16 && v < 8 && c < 16
    ensures SasWord(128 * o + 16 * v + c)
         == ["b", "d", "f", "g", "k", "l", "m", "n", "p", "r", "s", "t", "v", "z", "br", "st"][o]
            + ["a", "e", "i", "o", "u", "ay", "ee", "oo"][v]
            + ["", "b", "d", "k", "l", "m", "n", "p", "r", "s", "t", "x", "ld", "nd", "rk", "st"][c]
  {
    Parts(o, v, c);
    OnsetIs(o);
    VowelIs(v);
    CodaIs(c);
    hide *;
  }

  lemma Parts(o: nat, v: nat, c: nat)
    requires o < 16 && v < 8 && c < 16
    ensures SasWord(128 * o + 16 * v + c) == Onset(o) + Vowel(v) + Coda(c)
  {
    hide Onset, Vowel, Coda;
    var index := 128 * o + 16 * v + c;
    assert index / 128 == o && index / 16 == 8 * o + v && index % 16 == c;
  }

  lemma OnsetIs(o: nat)
    requires o < 16
    ensures Onset(o) == ["b", "d", "f", "g", "k", "l", "m", "n", "p", "r", "s", "t", "v", "z", "br", "st"][o]
  {
  }

  lemma VowelIs(v: nat)
    requires v < 8
    ensures Vowel(v) == ["a", "e", "i", "o", "u", "ay", "ee", "oo"][v]
  {
  }

  lemma CodaIs(c: nat)
    requires c < 16
    ensures Coda(c) == ["", "b", "d", "k", "l", "m", "n", "p", "r", "s", "t", "x", "ld", "nd", "rk", "st"][c]
  {
  }

  ghost function Shown(d: seq<byte>, i: nat): string
    requires 11 * i + 11 <= 8 * |d|
  {
    PowPositive(8 * |d| - 11 * i - 11);
    SasWord(BigEndian(d) / Pow2(8 * |d| - 11 * i - 11) % 2048)
  }

  ghost function Phrase(d: seq<byte>, count: nat): string
    requires 11 * count <= 8 * |d|
  {
    if count == 0 then ""
    else if count == 1 then Shown(d, 0)
    else Phrase(d, count - 1) + " " + Shown(d, count - 1)
  }

  // So the phrase is those words in order, a space between any two.
  lemma {:induction false} PhraseSays(d: seq<byte>, count: nat)
    requires 11 * count <= 8 * |d|
    ensures Join(Words(d, count)) == Phrase(d, count)
  {
    hide *;
    if count == 0 {
      NoWords(d);
      JoinNone();
    } else {
      var words := Words(d, count - 1);
      PhraseSays(d, count - 1);
      WordsAt(d, count - 1);
      NextWord(d, count - 1);
      ShownIs(d, count - 1);
      JoinMore(words, Shown(d, count - 1));
    }
    PhraseIs(d, count);
  }

  lemma JoinNone()
    ensures Join([]) == ""
  {
  }

  lemma JoinMore(words: seq<string>, last: string)
    ensures Join(words + [last]) == if words == [] then last else Join(words) + " " + last
  {
    assert (words + [last])[..|words|] == words;
  }

  lemma PhraseIs(d: seq<byte>, count: nat)
    requires 11 * count <= 8 * |d|
    ensures Phrase(d, count) == if count == 0 then ""
                                else if count == 1 then Shown(d, 0)
                                else Phrase(d, count - 1) + " " + Shown(d, count - 1)
  {
    hide Shown;
  }

  lemma ShownIs(d: seq<byte>, i: nat)
    requires 11 * i + 11 <= 8 * |d|
    ensures SasWord(Group(d, i)) == Shown(d, i)
  {
    hide SasWord, Group, BigEndian, Pow2;
    GroupSays(d, i);
  }
}
