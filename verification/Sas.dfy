// Short authentication strings: the leading bits of a digest rendered as pronounceable words.
module Sas {
  import opened Wrappers
  import opened Gf256
  import opened QrBits

  const ONSETS: seq<string> := ["b", "d", "f", "g", "k", "l", "m", "n", "p", "r", "s", "t", "v", "z", "br", "st"]
  const VOWELS: seq<string> := ["a", "e", "i", "o", "u", "ay", "ee", "oo"]
  const CODAS: seq<string> := ["", "b", "d", "k", "l", "m", "n", "p", "r", "s", "t", "x", "ld", "nd", "rk", "st"]

  function Onset(i: nat): string
    requires i < 16
  {
    ONSETS[i]
  }

  function Vowel(i: nat): string
    requires i < 8
  {
    VOWELS[i]
  }

  function Coda(i: nat): string
    requires i < 16
  {
    CODAS[i]
  }

  // Four bits of onset, three of vowel, four of coda.
  function SasWord(index: nat): string {
    Onset(index / 128 % 16) + Vowel(index / 16 % 8) + Coda(index % 16)
  }

  // ---- Tokens are distinct -----------------------------------------------------------------------------

  predicate VowelLetter(c: char) {
    c == 'a' || c == 'e' || c == 'i' || c == 'o' || c == 'u'
  }

  // The second letter of the three two-letter vowels, with which no coda begins.
  predicate Lengthens(c: char) {
    c == 'y' || c == 'e' || c == 'o'
  }

  function FirstVowel(w: string): nat {
    if w == [] || VowelLetter(w[0]) then 0 else 1 + FirstVowel(w[1..])
  }

  function VowelLength(w: string): nat {
    if |w| >= 2 && Lengthens(w[1]) then 2 else 1
  }

  lemma OnsetShape(i: nat)
    requires i < 16
    ensures 1 <= |Onset(i)| <= 2 && forall k :: 0 <= k < |Onset(i)| ==> !VowelLetter(Onset(i)[k]) && Onset(i)[k] != ' '
  {
  }

  lemma VowelShape(i: nat)
    requires i < 8
    ensures 1 <= |Vowel(i)| <= 2 && VowelLetter(Vowel(i)[0]) && (|Vowel(i)| == 2 ==> Lengthens(Vowel(i)[1]))
    ensures forall k :: 0 <= k < |Vowel(i)| ==> Vowel(i)[k] != ' '
  {
  }

  lemma CodaShape(i: nat)
    requires i < 16
    ensures |Coda(i)| > 0 ==> !Lengthens(Coda(i)[0])
    ensures forall k :: 0 <= k < |Coda(i)| ==> Coda(i)[k] != ' '
  {
  }

  lemma OnsetsDistinct(i: nat, j: nat)
    requires i < 16 && j < 16 && Onset(i) == Onset(j)
    ensures i == j
  {
    assert |Onset(i)| == |Onset(j)| && Onset(i)[0] == Onset(j)[0];
  }

  lemma VowelsDistinct(i: nat, j: nat)
    requires i < 8 && j < 8 && Vowel(i) == Vowel(j)
    ensures i == j
  {
    assert |Vowel(i)| == |Vowel(j)| && Vowel(i)[0] == Vowel(j)[0];
  }

  lemma CodasDistinct(i: nat, j: nat)
    requires i < 16 && j < 16 && Coda(i) == Coda(j)
    ensures i == j
  {
    assert |Coda(i)| == |Coda(j)|;
    assert |Coda(i)| > 0 ==> Coda(i)[0] == Coda(j)[0];
  }

  lemma {:induction false} FirstVowelAt(onset: string, rest: string)
    requires forall k :: 0 <= k < |onset| ==> !VowelLetter(onset[k])
    requires |rest| > 0 && VowelLetter(rest[0])
    ensures FirstVowel(onset + rest) == |onset|
    decreases |onset|
  {
    if onset == [] {
      assert onset + rest == rest;
    } else {
      assert (onset + rest)[1..] == onset[1..] + rest;
      FirstVowelAt(onset[1..], rest);
    }
  }

  // A token determines its index.
  lemma SasWordInjective(a: nat, b: nat)
    requires a < 2048 && b < 2048 && SasWord(a) == SasWord(b)
    ensures a == b
  {
    hide SasWord, Onset, Vowel, Coda;
    var oa, va, ca := SplitWord(a);
    var ob, vb, cb := SplitWord(b);
    assert Onset(oa) == SasWord(a)[..FirstVowel(SasWord(a))];
    OnsetsDistinct(oa, ob);
    VowelsDistinct(va, vb);
    CodasDistinct(ca, cb);
  }

  // The three parts can be read back off a token.
  lemma SplitWord(a: nat) returns (o: nat, v: nat, c: nat)
    requires a < 2048
    ensures o < 16 && v < 8 && c < 16 && a == 128 * o + 16 * v + c
    ensures var w, n := SasWord(a), FirstVowel(SasWord(a));
      && n <= |w| && Onset(o) == w[..n]
      && VowelLength(w[n..]) <= |w[n..]| && Vowel(v) == w[n..][..VowelLength(w[n..])]
      && Coda(c) == w[n..][VowelLength(w[n..])..]
  {
    hide Onset, Vowel, Coda, FirstVowel;
    o, v, c := a / 128, a / 16 % 8, a % 16;
    assert a / 128 % 16 == o;
    OnsetShape(o);
    VowelShape(v);
    CodaShape(c);
    var rest := Vowel(v) + Coda(c);
    assert SasWord(a) == Onset(o) + rest;
    FirstVowelAt(Onset(o), rest);
    assert VowelLength(rest) == |Vowel(v)|;
    assert SasWord(a)[|Onset(o)|..] == rest;
  }

  lemma NoSpace(a: nat)
    ensures forall k :: 0 <= k < |SasWord(a)| ==> SasWord(a)[k] != ' '
  {
    hide Onset, Vowel, Coda;
    OnsetShape(a / 128 % 16);
    VowelShape(a / 16 % 8);
    CodaShape(a % 16);
  }

  // ---- Rendering ----------------------------------------------------------------------------------------

  function Join(words: seq<string>): string {
    if |words| == 0 then ""
    else if |words| == 1 then words[0]
    else Join(words[..|words| - 1]) + " " + words[|words| - 1]
  }

  // The number in the i-th group of eleven bits.
  function Group(digest: seq<byte>, i: nat): nat
    requires 11 * i + 11 <= 8 * |digest|
  {
    Number(Stream(digest)[11 * i..11 * i + 11])
  }

  function Words(digest: seq<byte>, count: nat): seq<string>
    requires 11 * count <= 8 * |digest|
  {
    if count == 0 then [] else Words(digest, count - 1) + [SasWord(Group(digest, count - 1))]
  }

  // None where the source throws: the digest has too few bits.
  method RenderSasWords(digest: seq<byte>, count: nat) returns (phrase: Option<string>)
    ensures phrase.None? <==> 8 * |digest| < 11 * count
    ensures phrase.Some? ==> phrase.value == Join(Words(digest, count))
  {
    if |digest| * 8 < count * 11 {
      return None;
    }
    var words := AllWords(digest, count);
    return Some(Join(words));
  }

  method AllWords(digest: seq<byte>, count: nat) returns (words: seq<string>)
    requires 11 * count <= 8 * |digest|
    ensures words == Words(digest, count)
  {
    hide *;
    words := [];
    NoWords(digest);
    for i := 0 to count
      invariant words == Words(digest, i)
    {
      var value := ReadGroup(digest, i);
      NextWord(digest, i);
      words := words + [SasWord(value)];
    }
  }

  lemma NoWords(digest: seq<byte>)
    ensures Words(digest, 0) == []
  {
  }

  lemma NextWord(digest: seq<byte>, i: nat)
    requires 11 * i + 11 <= 8 * |digest|
    ensures Words(digest, i + 1) == Words(digest, i) + [SasWord(Group(digest, i))]
  {
  }

  // The inner loop: the bit position runs on from one word to the next.
  method ReadGroup(digest: seq<byte>, i: nat) returns (value: nat)
    requires 11 * i + 11 <= 8 * |digest|
    ensures value == Group(digest, i)
  {
    hide Number, Shr;
    var bitpos := 11 * i;
    value := 0;
    NoBits(Stream(digest), bitpos);
    for b := 0 to 11
      invariant bitpos == 11 * i + b
      invariant value == Number(Stream(digest)[11 * i..bitpos])
    {
      var bit := Shr(digest[bitpos / 8], 7 - bitpos % 8) % 2;
      assert bit == Stream(digest)[bitpos];
      NumberMore(Stream(digest), 11 * i, bitpos);
      value := value * 2 + bit;
      bitpos := bitpos + 1;
    }
  }

  lemma NoBits(s: seq<bit>, from: nat)
    requires from <= |s|
    ensures Number(s[from..from]) == 0
  {
  }

  lemma NumberMore(s: seq<bit>, from: nat, to: nat)
    requires from <= to < |s|
    ensures Number(s[from..to + 1]) == 2 * Number(s[from..to]) + s[to]
  {
    assert s[from..to + 1][..to - from] == s[from..to];
  }

  // ---- Two phrases agree exactly when the bits they show agree ---------------------------------------------

  lemma {:induction false} NumberInjective(a: seq<bit>, b: seq<bit>)
    requires |a| == |b| && Number(a) == Number(b)
    ensures a == b
    decreases |a|
  {
    if |a| > 0 {
      var n := |a| - 1;
      NumberInjective(a[..n], b[..n]);
      assert a == a[..n] + [a[n]] && b == b[..n] + [b[n]];
    }
  }

  predicate Spaceless(w: string) {
    forall k :: 0 <= k < |w| ==> w[k] != ' '
  }

  // Where the last space is.
  function LastSpace(w: string): int {
    if w == [] then -1 else if w[|w| - 1] == ' ' then |w| - 1 else LastSpace(w[..|w| - 1])
  }

  lemma {:induction false} LastSpaceAt(x: string, u: string)
    requires Spaceless(u)
    ensures LastSpace(x + " " + u) == |x|
    decreases |u|
  {
    var s := x + " " + u;
    if u != [] {
      var n := |u| - 1;
      assert s[..|s| - 1] == x + " " + u[..n];
      assert s[|s| - 1] == u[n];
      LastSpaceAt(x, u[..n]);
    }
  }

  lemma LastWord(x: string, u: string, y: string, v: string)
    requires x + " " + u == y + " " + v && Spaceless(u) && Spaceless(v)
    ensures x == y && u == v
  {
    hide Spaceless, LastSpace;
    LastSpaceAt(x, u);
    LastSpaceAt(y, v);
    var s, t := x + " " + u, y + " " + v;
    assert x == s[..|x|] && y == t[..|y|] && u == s[|x| + 1..] && v == t[|y| + 1..];
  }

  lemma {:induction false} JoinInjective(a: seq<string>, b: seq<string>)
    requires |a| == |b| && Join(a) == Join(b)
    requires forall k :: 0 <= k < |a| ==> Spaceless(a[k]) && Spaceless(b[k])
    ensures a == b
    decreases |a|
  {
    var n := |a| - 1;
    if |a| > 1 {
      LastWord(Join(a[..n]), a[n], Join(b[..n]), b[n]);
      JoinInjective(a[..n], b[..n]);
      assert a == a[..n] + [a[n]] && b == b[..n] + [b[n]];
    }
  }

  lemma {:induction false} WordsAt(digest: seq<byte>, count: nat)
    requires 11 * count <= 8 * |digest|
    ensures |Words(digest, count)| == count
    ensures forall i :: 0 <= i < count ==>
      Words(digest, count)[i] == SasWord(Group(digest, i)) && Spaceless(Words(digest, count)[i])
    decreases count
  {
    hide SasWord, Group;
    if count > 0 {
      WordsAt(digest, count - 1);
      NoSpace(Group(digest, count - 1));
    }
  }

  lemma SamePhraseSameBits(d: seq<byte>, e: seq<byte>, count: nat)
    requires 11 * count <= 8 * |d| && 11 * count <= 8 * |e| && Join(Words(d, count)) == Join(Words(e, count))
    ensures Stream(d)[..11 * count] == Stream(e)[..11 * count]
  {
    hide Join, Words, SasWord, Number, Stream, Spaceless, Group;
    var p, q := Stream(d), Stream(e);
    WordsAt(d, count);
    WordsAt(e, count);
    JoinInjective(Words(d, count), Words(e, count));
    forall k | 0 <= k < 11 * count
      ensures p[k] == q[k]
    {
      var i, j := k / 11, k % 11;
      assert Words(d, count)[i] == Words(e, count)[i];
      SameGroup(d, e, i);
      assert p[11 * i..11 * i + 11][j] == p[k];
      assert q[11 * i..11 * i + 11][j] == q[k];
    }
  }

  lemma {:induction false} SameBitsSameWords(d: seq<byte>, e: seq<byte>, count: nat)
    requires 11 * count <= 8 * |d| && 11 * count <= 8 * |e| && Stream(d)[..11 * count] == Stream(e)[..11 * count]
    ensures Words(d, count) == Words(e, count)
    decreases count
  {
    hide SasWord, Number, Stream;
    if count > 0 {
      var p, q, n := Stream(d)[..11 * count], Stream(e)[..11 * count], 11 * (count - 1);
      assert Stream(d)[..n] == p[..n] && Stream(e)[..n] == q[..n];
      assert Stream(d)[n..n + 11] == p[n..n + 11] && Stream(e)[n..n + 11] == q[n..n + 11];
      SameBitsSameWords(d, e, count - 1);
    }
  }

  // For every word count: two digests that are long enough render alike if and only if the bits shown agree.
  lemma PhrasesAgree(d: seq<byte>, e: seq<byte>, count: nat)
    requires 11 * count <= 8 * |d| && 11 * count <= 8 * |e|
    ensures Join(Words(d, count)) == Join(Words(e, count)) <==> Stream(d)[..11 * count] == Stream(e)[..11 * count]
  {
    hide Join, Words, Stream;
    if Join(Words(d, count)) == Join(Words(e, count)) {
      SamePhraseSameBits(d, e, count);
    }
    if Stream(d)[..11 * count] == Stream(e)[..11 * count] {
      SameBitsSameWords(d, e, count);
    }
  }

  lemma SameGroup(d: seq<byte>, e: seq<byte>, i: nat)
    requires 11 * i + 11 <= 8 * |d| && 11 * i + 11 <= 8 * |e| && SasWord(Group(d, i)) == SasWord(Group(e, i))
    ensures Stream(d)[11 * i..11 * i + 11] == Stream(e)[11 * i..11 * i + 11]
  {
    hide SasWord, Number, Stream;
    var a, b := Stream(d)[11 * i..11 * i + 11], Stream(e)[11 * i..11 * i + 11];
    NumberBound(a);
    NumberBound(b);
    Eleven();
    SasWordInjective(Number(a), Number(b));
    NumberInjective(a, b);
  }

  lemma Eleven()
    ensures Pow2(11) == 2048
  {
    assert Pow2(4) == 16;
    assert Pow2(8) == 256;
  }
}
