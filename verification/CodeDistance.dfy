// What the Reed-Solomon code is for: two codewords of one length differ in more positions than there are
// error-correction codewords, so half as many damaged ones still have a single correction.
//
// The codeword at index i of a block of n is the coefficient of the (n - 1 - i)-th power; X(n, i) is the
// value that power takes for x = 2.
module CodeDistance {
  import opened FiniteSets
  import opened Gf256
  import opened GfOrder
  import opened ReedSolomon

  // ---- Weighted sums ---------------------------------------------------------------------------------

  // The sum of d[i] * X^s * l(X) over the indices i of d.
  ghost function WeightedSum(d: seq<byte>, s: nat, l: seq<byte>): byte {
    if d == [] then 0
    else
      var n := |d| - 1;
      Plus(Mul(Mul(d[0], AlphaPow(s * n)), Eval(l, AlphaPow(n))), WeightedSum(d[1..], s, l))
  }

  lemma {:induction false} PowPow(s: nat, n: nat)
    ensures Eval([1] + Zeros(n), AlphaPow(s)) == AlphaPow(s * n)
  {
    hide Mul, Plus, Eval, AlphaPow;
    var x := AlphaPow(s);
    if n == 0 {
      assert [1] + Zeros(0) == [] + [1];
      EvalLast([], 1, x);
      EvalZeros(0, x);
      assert [] == Zeros(0);
      MulUnits(x);
      PlusLaws(1, 0, 0);
      PowZero();
    } else {
      PowPow(s, n - 1);
      assert [1] + Zeros(n) == ([1] + Zeros(n - 1)) + [0];
      EvalLast([1] + Zeros(n - 1), 0, x);
      PlusLaws(Mul(Eval([1] + Zeros(n - 1), x), x), 0, 0);
      PowAdd(s * (n - 1), s);
      assert s * (n - 1) + s == s * n;
    }
  }

  // The leading coefficient taken apart.
  lemma EvalFirst(d: seq<byte>, s: nat)
    requires d != []
    ensures Eval(d, AlphaPow(s)) == Plus(Mul(d[0], AlphaPow(s * (|d| - 1))), Eval(d[1..], AlphaPow(s)))
  {
    hide Mul, Plus, Eval, AlphaPow;
    var n, x := |d| - 1, AlphaPow(s);
    var lead, rest := Scale([1] + Zeros(n), d[0]), Zeros(1) + d[1..];
    forall i | 0 <= i < |d|
      ensures PolyPlus(lead, rest)[i] == d[i]
    {
      MulUnits(d[0]);
      PlusLaws(d[i], 0, 0);
    }
    assert PolyPlus(lead, rest) == d;
    EvalPlus(lead, rest, x);
    EvalScale([1] + Zeros(n), d[0], x);
    EvalPadLeft(1, d[1..], x);
    PowPow(s, n);
    MulCommutes(AlphaPow(s * n), d[0]);
  }

  // One more coefficient of l.
  lemma {:induction false} WeightedStep(d: seq<byte>, s: nat, l: seq<byte>, c: byte)
    ensures WeightedSum(d, s, l + [c]) == Plus(WeightedSum(d, s + 1, l), Mul(Eval(d, AlphaPow(s)), c))
    decreases |d|
  {
    hide Mul, Plus, Eval, AlphaPow;
    if d == [] {
      assert d == Zeros(0);
      EvalZeros(0, AlphaPow(s));
      MulUnits(c);
      PlusLaws(0, 0, 0);
    } else {
      var n := |d| - 1;
      var x, a := AlphaPow(n), Mul(d[0], AlphaPow(s * n));
      WeightedStep(d[1..], s, l, c);
      EvalFirst(d, s);
      EvalLast(l, c, x);
      MulLinear(a, Eval(d[1..], AlphaPow(s)), c);
      MulCommutes(a, Plus(Mul(Eval(l, x), x), c));
      WeightedTerm(d[0], s, n, Eval(l, x), c);
      PlusRegroup(Mul(Mul(d[0], AlphaPow((s + 1) * n)), Eval(l, x)), Mul(a, c), WeightedSum(d[1..], s + 1, l),
        Mul(Eval(d[1..], AlphaPow(s)), c));
    }
  }

  lemma WeightedTerm(c0: byte, s: nat, n: nat, e: byte, c: byte)
    ensures var a := Mul(c0, AlphaPow(s * n));
      Mul(a, Plus(Mul(e, AlphaPow(n)), c)) == Plus(Mul(Mul(c0, AlphaPow((s + 1) * n)), e), Mul(a, c))
  {
    hide Mul, Plus, AlphaPow;
    var x, p := AlphaPow(n), AlphaPow(s * n);
    var a := Mul(c0, p);
    MulCommutes(a, Plus(Mul(e, x), c));
    MulLinear(Mul(e, x), c, a);
    MulCommutes(c, a);
    MulCommutes(e, x);
    MulCommutes(Mul(x, e), a);
    MulAssociates(a, x, e);
    MulAssociates(c0, p, x);
    PowAdd(s * n, n);
    assert s * n + n == (s + 1) * n;
  }

  // Of a codeword every such sum is zero while the powers involved stay below its number of roots.
  lemma {:induction false} WeightedVanishes(d: seq<byte>, ec: nat, s: nat, l: seq<byte>)
    requires Codeword(d, ec) && s + |l| <= ec
    ensures WeightedSum(d, s, l) == 0
    decreases |l|
  {
    hide Mul, Plus, Eval, AlphaPow, WeightedSum;
    if l == [] {
      WeightedNothing(d, s);
    } else {
      var n := |l| - 1;
      assert l == l[..n] + [l[n]];
      WeightedStep(d, s, l[..n], l[n]);
      WeightedVanishes(d, ec, s + 1, l[..n]);
      MulUnits(l[n]);
      PlusLaws(0, 0, 0);
    }
  }

  lemma {:induction false} WeightedNothing(d: seq<byte>, s: nat)
    ensures WeightedSum(d, s, []) == 0
    decreases |d|
  {
    hide Mul, Plus, AlphaPow;
    if d != [] {
      WeightedNothing(d[1..], s);
      MulUnits(Mul(d[0], AlphaPow(s * (|d| - 1))));
      PlusLaws(0, 0, 0);
    }
  }

  // ---- The locator -----------------------------------------------------------------------------------

  function X(n: nat, i: nat): byte
    requires i < n
  {
    AlphaPow(n - 1 - i)
  }

  ghost function Others(d: seq<byte>, keep: nat, n: nat): set<nat>
    requires n <= |d|
  {
    set i | 0 <= i < n && d[i] != 0 && i != keep
  }

  // The product of (x + X) over the nonzero places of d but one.
  ghost function Locator(d: seq<byte>, keep: nat, n: nat): (l: seq<byte>)
    requires n <= |d|
  {
    if n == 0 then [1]
    else if d[n - 1] != 0 && n - 1 != keep then TimesRoot(Locator(d, keep, n - 1), X(|d|, n - 1))
    else Locator(d, keep, n - 1)
  }

  lemma {:induction false} LocatorLength(d: seq<byte>, keep: nat, n: nat)
    requires n <= |d|
    ensures |Locator(d, keep, n)| == 1 + |Others(d, keep, n)|
  {
    hide TimesRoot, X;
    if n > 0 {
      LocatorLength(d, keep, n - 1);
      var before := Others(d, keep, n - 1);
      assert Others(d, keep, n) == if d[n - 1] != 0 && n - 1 != keep then before + {n - 1} else before;
    }
  }

  lemma {:induction false} LocatorRoots(d: seq<byte>, keep: nat, n: nat, i: nat)
    requires i < n <= |d| && d[i] != 0 && i != keep
    ensures Eval(Locator(d, keep, n), X(|d|, i)) == 0
  {
    hide Mul, Plus, Eval, TimesRoot, X;
    var x := X(|d|, i);
    if d[n - 1] != 0 && n - 1 != keep {
      var before := Locator(d, keep, n - 1);
      EvalTimesRoot(before, X(|d|, n - 1), x);
      if i == n - 1 {
        PlusLaws(x, 0, 0);
        MulUnits(Eval(before, x));
      } else {
        LocatorRoots(d, keep, n - 1, i);
        MulUnits(Plus(x, X(|d|, n - 1)));
      }
    } else {
      LocatorRoots(d, keep, n - 1, i);
    }
  }

  lemma {:induction false} LocatorKeeps(d: seq<byte>, keep: nat, n: nat)
    requires n <= |d| <= 255 && keep < |d|
    ensures Eval(Locator(d, keep, n), X(|d|, keep)) != 0
  {
    hide Mul, Plus, Eval, TimesRoot, AlphaPow;
    var x := X(|d|, keep);
    if n == 0 {
      assert [1] == [] + [1] && [] == Zeros(0);
      EvalLast([], 1, x);
      EvalZeros(0, x);
      MulUnits(x);
      PlusLaws(1, 0, 0);
    } else {
      LocatorKeeps(d, keep, n - 1);
      if d[n - 1] != 0 && n - 1 != keep {
        var y := X(|d|, n - 1);
        EvalTimesRoot(Locator(d, keep, n - 1), y, x);
        var a, b := |d| - n, |d| - 1 - keep;
        PowDistinct(if a < b then a else b, if a < b then b else a);
        PlusZero(x, y);
        MulNoZeroDivisors(Eval(Locator(d, keep, n - 1), x), Plus(x, y));
      }
    }
  }

  // A weighted sum with an l that vanishes at every nonzero place but one has only that term.
  lemma {:induction false} OneTerm(d: seq<byte>, keep: nat, l: seq<byte>, from: nat)
    requires keep < |d| && from <= |d|
    requires forall i: nat :: i < |d| && d[i] != 0 && i != keep ==> Eval(l, X(|d|, i)) == 0
    ensures WeightedSum(d[from..], 0, l) == if from <= keep then Mul(d[keep], Eval(l, X(|d|, keep))) else 0
    decreases |d| - from
  {
    hide Mul, Plus, Eval, AlphaPow;
    if from < |d| {
      OneTerm(d, keep, l, from + 1);
      var n := |d| - 1 - from;
      assert d[from..][1..] == d[from + 1..] && |d[from..]| - 1 == n && d[from..][0] == d[from];
      assert X(|d|, from) == AlphaPow(n);
      assert 0 * n == 0;
      PowZero();
      MulUnits(d[from]);
      MulUnits(Eval(l, AlphaPow(n)));
      PlusLaws(Mul(d[from], Eval(l, AlphaPow(n))), 0, 0);
      PlusLaws(0, WeightedSum(d[from + 1..], 0, l), 0);
      PlusLaws(WeightedSum(d[from + 1..], 0, l), 0, 0);
    }
  }

  // ---- The distance ----------------------------------------------------------------------------------

  function Differ(p: seq<byte>, q: seq<byte>): set<nat>
    requires |p| == |q|
  {
    set i | 0 <= i < |p| && p[i] != q[i]
  }

  // A codeword that is not zero has more nonzero places than roots it is asked to have.
  lemma Weight(d: seq<byte>, ec: nat, keep: nat)
    requires |d| <= 255 && keep < |d| && d[keep] != 0 && Codeword(d, ec)
    ensures |Differ(d, Zeros(|d|))| > ec
  {
    hide Mul, Plus, Eval, AlphaPow, Locator, X, WeightedSum, Codeword;
    var n := |d|;
    var l, all := Locator(d, keep, n), Differ(d, Zeros(n));
    LocatorLength(d, keep, n);
    assert all == Others(d, keep, n) + {keep};
    if |all| <= ec {
      WeightedVanishes(d, ec, 0, l);
      forall i: nat | i < n && d[i] != 0 && i != keep
        ensures Eval(l, X(n, i)) == 0
      {
        LocatorRoots(d, keep, n, i);
      }
      OneTerm(d, keep, l, 0);
      assert d[0..] == d;
      LocatorKeeps(d, keep, n);
      MulNoZeroDivisors(d[keep], Eval(l, X(n, keep)));
    }
  }

  // Two codewords of one length differ in more than ec places.
  lemma Distance(p: seq<byte>, q: seq<byte>, ec: nat)
    requires |p| == |q| <= 255 && p != q && Codeword(p, ec) && Codeword(q, ec)
    ensures |Differ(p, q)| > ec
  {
    hide Mul, Plus, Eval, AlphaPow;
    var d := PolyPlus(p, q);
    forall j: nat | j < ec
      ensures Eval(d, AlphaPow(j)) == 0
    {
      EvalPlus(p, q, AlphaPow(j));
      PlusLaws(0, 0, 0);
    }
    forall i | 0 <= i < |p|
      ensures d[i] != 0 <==> p[i] != q[i]
    {
      PlusLaws(p[i], 0, 0);
      if p[i] != q[i] {
        PlusZero(p[i], q[i]);
      }
    }
    assert Differ(p, q) == Differ(d, Zeros(|d|));
    var keep :| 0 <= keep < |p| && p[keep] != q[keep];
    Weight(d, ec, keep);
  }

  // And no more than that can be promised: the generator itself is a codeword with ec + 1 nonzero places.
  lemma DistanceTight(k: nat, ec: nat)
    requires k + ec + 1 <= 255
    ensures var p, q := Zeros(k) + Generator(ec), Zeros(k + ec + 1);
      Codeword(p, ec) && Codeword(q, ec) && p != q && |Differ(p, q)| == ec + 1
  {
    hide Mul, Plus, Eval, AlphaPow, Generator;
    var p, q := Zeros(k) + Generator(ec), Zeros(k + ec + 1);
    forall j: nat | j < ec
      ensures Eval(p, AlphaPow(j)) == 0 && Eval(q, AlphaPow(j)) == 0
    {
      GeneratorRoots(ec, j);
      EvalPadLeft(k, Generator(ec), AlphaPow(j));
      EvalZeros(k + ec + 1, AlphaPow(j));
    }
    GeneratorMonic(ec);
    assert p[k] == 1;
    Distance(p, q, ec);
    var places := Range(k, ec + 1);
    UnionSize(Differ(p, q), places, {});
  }

  ghost function Range(k: nat, n: nat): (r: set<nat>)
    ensures |r| == n && forall i: nat :: i in r <==> k <= i < k + n
  {
    if n == 0 then {} else Range(k, n - 1) + {k + n - 1}
  }

  // So what is read with at most half of ec codewords damaged was written as one codeword only.
  lemma CorrectionUnique(read: seq<byte>, p: seq<byte>, q: seq<byte>, ec: nat)
    requires |p| == |q| == |read| <= 255 && Codeword(p, ec) && Codeword(q, ec)
    requires 2 * |Differ(read, p)| <= ec && 2 * |Differ(read, q)| <= ec
    ensures p == q
  {
    hide Codeword;
    if p != q {
      Distance(p, q, ec);
      var a, b := Differ(read, p), Differ(read, q);
      UnionSize(Differ(p, q), a, b);
    }
  }
}
