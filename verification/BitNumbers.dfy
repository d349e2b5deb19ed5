// The number a bit string writes, in terms of the numbers its parts write.
module BitNumbers {
  import opened Gf256
  import opened QrBits

  lemma {:induction false} NumberSplit(s: seq<bit>, b: nat)
    requires b <= |s|
    ensures Number(s) == Number(s[..b]) * Pow2(|s| - b) + Number(s[b..])
    decreases |s|
  {
    if b < |s| {
      var n := |s| - 1;
      NumberSplit(s[..n], b);
      NumberLast(s);
      NumberLast(s[b..]);
      PowStep(n - b);
      hide Number, Pow2;
      assert s[..n][..b] == s[..b] && s[..n][b..] == s[b..][..n - b];
      Doubled(Number(s[..b]), Pow2(n - b));
    } else {
      assert s[..b] == s;
    }
  }

  lemma NumberLast(s: seq<bit>)
    requires s != []
    ensures Number(s) == 2 * Number(s[..|s| - 1]) + s[|s| - 1]
  {
  }

  lemma PowStep(n: nat)
    ensures Pow2(n + 1) == 2 * Pow2(n)
  {
  }

  lemma Doubled(x: nat, p: nat)
    ensures x * (2 * p) == 2 * (x * p)
  {
  }

  lemma Eight()
    ensures Pow2(8) == 256
  {
    assert Pow2(4) == 16;
  }

  lemma Quotient(x: nat, q: nat, p: nat, r: nat)
    requires x == q * p + r && r < p
    ensures x / p == q && x % p == r
  {
    Apart(x / p, q, p);
    Apart(q, x / p, p);
  }

  lemma {:induction false} Apart(a: nat, b: nat, p: nat)
    ensures a < b ==> a * p + p <= b * p
  {
    if a < b {
      assert b * p == (b - 1) * p + p;
      Apart(a, b - 1, p);
    }
  }

  lemma PowPositive(n: nat)
    ensures Pow2(n) > 0
  {
  }
}
