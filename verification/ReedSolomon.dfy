// The Reed-Solomon encoder of the QR code: the EXP/LOG tables, table multiplication, the generator
// polynomial and the in-place polynomial division that yields the error-correction codewords.
//
// A sequence of bytes is read as a polynomial with its highest coefficient first.
module ReedSolomon {
  import opened Gf256
  import opened GfOrder

  // ---- Polynomials over the field -----------------------------------------------------------------

  // Horner evaluation.
  function Eval(p: seq<byte>, x: byte): byte {
    if |p| == 0 then 0 else Plus(Mul(Eval(p[..|p| - 1], x), x), p[|p| - 1])
  }

  function PolyPlus(p: seq<byte>, q: seq<byte>): (r: seq<byte>)
    requires |p| == |q|
    ensures |r| == |p|
  {
    seq(|p|, i requires 0 <= i < |p| => Plus(p[i], q[i]))
  }

  function Scale(p: seq<byte>, f: byte): (r: seq<byte>)
    ensures |r| == |p|
  {
    seq(|p|, i requires 0 <= i < |p| => Mul(p[i], f))
  }

  function Zeros(n: nat): (r: seq<byte>)
    ensures |r| == n
  {
    seq(n, _ => 0)
  }

  // p(x) * (x + r)
  function TimesRoot(p: seq<byte>, r: byte): (q: seq<byte>)
    ensures |q| == |p| + 1
  {
    PolyPlus(p + [0], [0] + Scale(p, r))
  }

  lemma TimesRootAt(p: seq<byte>, r: byte, k: nat)
    requires k <= |p|
    ensures TimesRoot(p, r)[k] == Plus(if k < |p| then p[k] else 0, if k > 0 then Mul(p[k - 1], r) else 0)
  {
  }

  // (x + 1)(x + 2)(x + 4) ... with `degree` factors.
  function Generator(degree: nat): (g: seq<byte>)
    ensures |g| == degree + 1
  {
    if degree == 0 then [1] else TimesRoot(Generator(degree - 1), AlphaPow(degree - 1))
  }

  lemma GeneratorNext(d: nat)
    ensures Generator(0) == [1] && Generator(d + 1) == TimesRoot(Generator(d), AlphaPow(d))
  {
  }

  lemma EvalLast(p: seq<byte>, c: byte, x: byte)
    ensures Eval(p + [c], x) == Plus(Mul(Eval(p, x), x), c)
  {
    hide Mul, Plus;
    assert (p + [c])[..|p|] == p;
  }

  lemma {:induction false} EvalPlus(p: seq<byte>, q: seq<byte>, x: byte)
    requires |p| == |q|
    ensures Eval(PolyPlus(p, q), x) == Plus(Eval(p, x), Eval(q, x))
    decreases |p|
  {
    hide Mul, Plus;
    PlusLaws(0, 0, 0);
    if |p| > 0 {
      var n := |p| - 1;
      EvalPlus(p[..n], q[..n], x);
      assert PolyPlus(p, q)[..n] == PolyPlus(p[..n], q[..n]);
      MulLinear(Eval(p[..n], x), Eval(q[..n], x), x);
      PlusRegroup(Mul(Eval(p[..n], x), x), Mul(Eval(q[..n], x), x), p[n], q[n]);
    }
  }

  lemma {:induction false} EvalScale(p: seq<byte>, f: byte, x: byte)
    ensures Eval(Scale(p, f), x) == Mul(Eval(p, x), f)
    decreases |p|
  {
    hide Mul, Plus;
    MulUnits(f);
    if |p| > 0 {
      var n := |p| - 1;
      var e := Eval(p[..n], x);
      EvalScale(p[..n], f, x);
      assert Scale(p, f)[..n] == Scale(p[..n], f);
      MulLinear(Mul(e, x), p[n], f);
      MulAssociates(e, x, f);
      MulCommutes(x, f);
      MulAssociates(e, f, x);
    }
  }

  lemma {:induction false} EvalPadRight(p: seq<byte>, n: nat, x: byte)
    requires Eval(p, x) == 0
    ensures Eval(p + Zeros(n), x) == 0
    decreases n
  {
    hide Mul, Plus, Eval;
    if n > 0 {
      EvalPadRight(p, n - 1, x);
      EvalLast(p + Zeros(n - 1), 0, x);
      assert p + Zeros(n) == (p + Zeros(n - 1)) + [0];
      MulUnits(x);
      PlusLaws(0, 0, 0);
    } else {
      assert p + Zeros(0) == p;
    }
  }

  lemma {:induction false} EvalPadLeft(n: nat, p: seq<byte>, x: byte)
    ensures Eval(Zeros(n) + p, x) == Eval(p, x)
    decreases |p|, n
  {
    hide Mul, Plus, Eval;
    if |p| > 0 {
      var m := |p| - 1;
      EvalPadLeft(n, p[..m], x);
      EvalLast(Zeros(n) + p[..m], p[m], x);
      EvalLast(p[..m], p[m], x);
      assert Zeros(n) + p == (Zeros(n) + p[..m]) + [p[m]];
      assert p == p[..m] + [p[m]];
    } else {
      EvalZeros(n, x);
      EvalZeros(0, x);
      assert Zeros(n) + p == Zeros(n);
      assert p == Zeros(0);
    }
  }

  lemma {:induction false} EvalZeros(n: nat, x: byte)
    ensures Eval(Zeros(n), x) == 0
  {
    hide Mul, Plus;
    if n > 0 {
      EvalZeros(n - 1, x);
      assert Zeros(n)[..n - 1] == Zeros(n - 1);
      MulUnits(x);
      PlusLaws(0, 0, 0);
    }
  }

  // ---- The generator's roots ----------------------------------------------------------------------

  lemma EvalTimesRoot(p: seq<byte>, r: byte, x: byte)
    ensures Eval(TimesRoot(p, r), x) == Mul(Eval(p, x), Plus(x, r))
  {
    hide Mul, Plus, Eval;
    EvalPlus(p + [0], [0] + Scale(p, r), x);
    EvalLast(p, 0, x);
    assert [0] + Scale(p, r) == Zeros(1) + Scale(p, r);
    EvalPadLeft(1, Scale(p, r), x);
    EvalScale(p, r, x);
    PlusLaws(Mul(Eval(p, x), x), 0, 0);
    MulLinear(Eval(p, x), x, r);
  }

  lemma {:induction false} GeneratorRoots(degree: nat, j: nat)
    requires j < degree
    ensures Eval(Generator(degree), AlphaPow(j)) == 0
  {
    hide Mul, Plus, Eval, AlphaPow;
    var x, r := AlphaPow(j), AlphaPow(degree - 1);
    EvalTimesRoot(Generator(degree - 1), r, x);
    if j < degree - 1 {
      GeneratorRoots(degree - 1, j);
      MulUnits(Plus(x, r));
    } else {
      PlusLaws(x, 0, 0);
      MulUnits(Eval(Generator(degree - 1), x));
    }
  }

  lemma {:induction false} GeneratorMonic(degree: nat)
    ensures Generator(degree)[0] == 1
  {
    hide Mul, Plus, AlphaPow;
    PlusLaws(1, 0, 0);
    if degree > 0 {
      GeneratorMonic(degree - 1);
    }
  }

  // ---- Codewords ----------------------------------------------------------------------------------

  // A block is a codeword when it vanishes at the first ec powers of the generator.
  ghost predicate Codeword(block: seq<byte>, ec: nat) {
    forall j: nat :: j < ec ==> Eval(block, AlphaPow(j)) == 0
  }

  // Removing a root: the quotient of p by (x + r), computed by Horner's partial results.
  function Quotient(p: seq<byte>, r: byte): (q: seq<byte>)
    requires |p| > 0
    ensures |q| == |p| - 1
  {
    seq(|p| - 1, i requires 0 <= i < |p| - 1 => Eval(p[..i + 1], r))
  }

  lemma {:induction false} EvalQuotient(p: seq<byte>, r: byte, x: byte)
    requires |p| > 0
    ensures Eval(p, x) == Plus(Mul(Eval(Quotient(p, r), x), Plus(x, r)), Eval(p, r))
    decreases |p|
  {
    hide Mul, Plus, Eval;
    var n := |p| - 1;
    var rest := p[..n];
    assert p == rest + [p[n]];
    EvalLast(rest, p[n], x);
    EvalLast(rest, p[n], r);
    if n == 0 {
      assert rest == Zeros(0) && Quotient(p, r) == Zeros(0);
      EvalZeros(0, x);
      EvalZeros(0, r);
      MulUnits(x);
      MulUnits(r);
      MulUnits(Plus(x, r));
      PlusLaws(p[0], 0, 0);
      PlusLaws(Plus(0, p[0]), 0, 0);
    } else {
      EvalQuotient(rest, r, x);
      var q, e := Quotient(rest, r), Eval(rest, r);
      assert Quotient(p, r) == q + [e] by {
        forall i | 0 <= i < n - 1
          ensures Quotient(p, r)[i] == q[i]
        {
          assert p[..i + 1] == rest[..i + 1];
        }
        assert p[..n] == rest;
      }
      EvalLast(q, e, x);
      QuotientStep(Eval(q, x), e, x, r, p[n]);
    }
  }

  // (qx*(x+r) + e)*x + c  =  (qx*x + e)*(x+r) + (e*r + c)
  lemma QuotientStep(qx: byte, e: byte, x: byte, r: byte, c: byte)
    ensures Plus(Mul(Plus(Mul(qx, Plus(x, r)), e), x), c)
         == Plus(Mul(Plus(Mul(qx, x), e), Plus(x, r)), Plus(Mul(e, r), c))
  {
    hide Mul, Plus;
    var d := Plus(x, r);
    var a := Mul(Mul(qx, d), x);
    MulLinear(Mul(qx, d), e, x);
    MulLinear(Mul(qx, x), e, d);
    MulAssociates(qx, d, x);
    MulCommutes(d, x);
    MulAssociates(qx, x, d);
    MulLinear(e, x, r);
    var ex, er := Mul(e, x), Mul(e, r);
    PlusLaws(Plus(a, Plus(ex, er)), er, c);
    PlusLaws(a, Plus(ex, er), er);
    PlusLaws(ex, er, er);
    PlusLaws(er, 0, 0);
    PlusLaws(ex, 0, 0);
  }

  // A polynomial with at least as many distinct roots as coefficients is zero.
  lemma {:induction false} TooManyRoots(p: seq<byte>, roots: seq<byte>)
    requires |p| <= |roots|
    requires forall i, j :: 0 <= i < j < |roots| ==> roots[i] != roots[j]
    requires forall i :: 0 <= i < |roots| ==> Eval(p, roots[i]) == 0
    ensures forall i :: 0 <= i < |p| ==> p[i] == 0
    decreases |p|
  {
    hide Mul, Plus, Eval;
    if |p| > 0 {
      var r, q := roots[0], Quotient(p, roots[0]);
      forall i | 0 <= i < |roots[1..]|
        ensures Eval(q, roots[1..][i]) == 0
      {
        RootOfQuotient(p, r, roots[1 + i]);
      }
      TooManyRoots(q, roots[1..]);
      ZeroQuotient(p, r);
    }
  }

  lemma RootOfQuotient(p: seq<byte>, r: byte, x: byte)
    requires |p| > 0 && x != r && Eval(p, r) == 0 && Eval(p, x) == 0
    ensures Eval(Quotient(p, r), x) == 0
  {
    hide Mul, Plus, Eval;
    var q := Quotient(p, r);
    EvalQuotient(p, r, x);
    PlusLaws(Mul(Eval(q, x), Plus(x, r)), 0, 0);
    PlusZero(x, r);
    if Eval(q, x) != 0 {
      MulNoZeroDivisors(Eval(q, x), Plus(x, r));
    }
  }

  lemma PlusZero(x: byte, r: byte)
    requires x != r
    ensures Plus(x, r) != 0
  {
    hide Plus;
    PlusLaws(x, r, r);
    PlusLaws(r, 0, 0);
    PlusLaws(x, 0, 0);
  }

  lemma ZeroQuotient(p: seq<byte>, r: byte)
    requires |p| > 0 && Eval(p, r) == 0
    requires forall i :: 0 <= i < |p| - 1 ==> Quotient(p, r)[i] == 0
    ensures forall i :: 0 <= i < |p| ==> p[i] == 0
  {
    hide Mul, Plus, Eval;
    forall i | 0 <= i < |p|
      ensures p[i] == 0
    {
      assert p[..i + 1] == p[..i] + [p[i]];
      EvalLast(p[..i], p[i], r);
      if i == |p| - 1 {
        assert p[..i + 1] == p;
      } else {
        assert Quotient(p, r)[i] == 0;
      }
      if i > 0 {
        assert Quotient(p, r)[i - 1] == 0;
      } else {
        assert p[..0] == Zeros(0);
        EvalZeros(0, r);
      }
      MulUnits(r);
      PlusLaws(p[i], 0, 0);
    }
  }

  ghost function Roots(ec: nat): (r: seq<byte>)
    ensures |r| == ec
  {
    seq(ec, i requires 0 <= i < ec => AlphaPow(i))
  }

  // The error-correction codewords are determined by the data: a codeword has no second completion.
  lemma CompletionUnique(data: seq<byte>, e: seq<byte>, f: seq<byte>)
    requires |e| == |f| <= 255
    requires Codeword(data + e, |e|) && Codeword(data + f, |f|)
    ensures e == f
  {
    hide Mul, Plus, Eval, AlphaPow;
    var ec := |e|;
    var diff := PolyPlus(e, f);
    var both := PolyPlus(data + e, data + f);
    assert both == Zeros(|data|) + diff by {
      forall i | 0 <= i < |data| {
        PlusLaws(data[i], 0, 0);
      }
    }
    forall i: nat | i < ec
      ensures Eval(diff, Roots(ec)[i]) == 0
    {
      EvalPlus(data + e, data + f, AlphaPow(i));
      EvalPadLeft(|data|, diff, AlphaPow(i));
      PlusLaws(0, 0, 0);
    }
    forall i: nat, j: nat | i < j < ec
      ensures Roots(ec)[i] != Roots(ec)[j]
    {
      PowDistinct(i, j);
    }
    TooManyRoots(diff, Roots(ec));
    forall i | 0 <= i < ec
      ensures e[i] == f[i]
    {
      assert diff[i] == 0;
      if e[i] != f[i] {
        PlusZero(e[i], f[i]);
      }
    }
  }

  // ---- Tables -------------------------------------------------------------------------------------

  lemma ShiftReduce(x: byte)
    ensures 2 * x < 256 ==> 2 * x == Double(x)
    ensures 2 * x >= 256 ==> Xor(2 * x, 0x11d) == Double(x)
  {
    hide Xor;
    if x < 128 {
      DoubleSmall(x);
    } else {
      var low := 2 * (x % 128);
      assert Pow2(8) == 256;
      XorByte(low, 0x1d);
      assert TopBit(8, 2 * x, low) && TopBit(8, 0x11d, 0x1d);
      XorSplit(8, 2 * x, low, 0x11d, 0x1d);
    }
  }

  // What fixes the field and its generator: times one, times two, and one power to the next.
  lemma FieldSays(a: byte, i: nat)
    ensures Mul(a, 1) == a && Mul(a, 2) == if 2 * a < 256 then 2 * a else Xor(2 * a, 0x11d)
    ensures AlphaPow(0) == 1 && AlphaPow(i + 1) == Mul(AlphaPow(i), 2)
  {
    TimesTwo(a);
    TimesTwo(AlphaPow(i));
    ShiftReduce(a);
    PowStep(i);
    hide Mul, Double, Xor;
  }

  lemma TimesTwo(a: byte)
    ensures Mul(a, 1) == a && Mul(a, 2) == Double(a)
  {
    hide Double, Xor;
    MulUnits(a);
    MulUnits(Double(a));
    MulUnfold(a, 2);
    PlusLaws(Double(a), 0, 0);
  }

  lemma PowZero()
    ensures AlphaPow(0) == 1
  {
  }

  class GfTables {
    const exp: array<byte>
    const log: array<byte>

    ghost predicate Valid()
      reads exp, log
    {
      && exp.Length == 512 && log.Length == 256
      && (forall i :: 0 <= i < 512 ==> exp[i] == AlphaPow(i))
      && (forall i :: 0 <= i < 255 ==> log[AlphaPow(i)] == i)
    }

    constructor ()
      ensures Valid() && fresh(exp) && fresh(log)
    {
      hide Double, Xor, AlphaPow;
      PowZero();
      var e := new byte[512](_ => 0);
      var l := new byte[256](_ => 0);
      var x: nat := 1;
      var i := 0;
      while i < 255
        invariant 0 <= i <= 255
        invariant x == AlphaPow(i)
        invariant forall k :: 0 <= k < i ==> e[k] == AlphaPow(k) && l[AlphaPow(k)] == k
      {
        e[i] := x;
        forall k: nat | k < i
          ensures AlphaPow(k) != AlphaPow(i)
        {
          PowDistinct(k, i);
        }
        l[x] := i;
        ShiftReduce(x);
        PowStep(i);
        x := 2 * x;
        if x >= 0x100 {
          x := Xor(x, 0x11d);
        }
        i := i + 1;
      }
      PowerValues();
      while i < 512
        invariant 255 <= i <= 512
        invariant forall k :: 0 <= k < i ==> e[k] == AlphaPow(k)
        invariant forall k :: 0 <= k < 255 ==> l[AlphaPow(k)] == k
      {
        PowPeriod(255, i - 255);
        e[i] := e[i - 255];
        i := i + 1;
      }
      exp, log := e, l;
    }

    // Multiplication by table lookup is multiplication in the field.
    method GfMul(a: byte, b: byte) returns (r: byte)
      requires Valid()
      ensures r == Mul(a, b)
    {
      hide Mul, AlphaPow;
      MulUnits(a);
      MulUnits(b);
      if a == 0 || b == 0 {
        return 0;
      }
      ghost var i := LogExists(a);
      ghost var j := LogExists(b);
      PowAdd(i, j);
      assert log[a] == i && log[b] == j;
      assert exp[i + j] == AlphaPow(i + j);
      var la: nat, lb: nat := log[a], log[b];
      r := exp[la + lb];
    }

    // The roots are read from the 512-entry table.
    method RsGenerator(degree: nat) returns (poly: array<byte>)
      requires Valid() && degree <= 512
      ensures fresh(poly) && poly[..] == Generator(degree)
    {
      hide Mul, AlphaPow, Plus, TimesRoot, Generator;
      poly := new byte[1](_ => 1);
      GeneratorNext(0);
      assert poly[..] == [1];
      var d := 0;
      while d < degree
        invariant 0 <= d <= degree
        invariant fresh(poly) && poly[..] == Generator(d)
        invariant Valid()
      {
        ghost var p := poly[..];
        ghost var r: byte := AlphaPow(d);
        var next := new byte[poly.Length + 1](_ => 0);
        var i := 0;
        while i < poly.Length
          invariant 0 <= i <= poly.Length == |p| && poly[..] == p && next.Length == |p| + 1
          invariant Valid() && next != exp && next != log
          invariant forall k :: 0 <= k < i ==> next[k] == TimesRoot(p, r)[k]
          invariant next[i] == if i == 0 then 0 else Mul(p[i - 1], r)
          invariant forall k :: i < k <= |p| ==> next[k] == 0
        {
          PlusLaws(next[i], p[i], 0);
          TimesRootAt(p, r, i);
          next[i] := Plus(next[i], poly[i]);
          assert next[i] == TimesRoot(p, r)[i];
          var m := GfMul(poly[i], exp[d]);
          PlusLaws(m, 0, 0);
          next[i + 1] := Plus(next[i + 1], m);
          i := i + 1;
        }
        PlusLaws(next[|p|], 0, 0);
        TimesRootAt(p, r, |p|);
        assert next[..] == TimesRoot(p, r);
        GeneratorNext(d);
        poly := next;
        d := d + 1;
      }
    }

    // Whatever the data, data followed by the returned codewords vanishes at 2^0 .. 2^(ecCount - 1).
    method RsEncode(data: seq<byte>, ecCount: nat) returns (ec: seq<byte>)
      requires Valid() && ecCount <= 512
      ensures |ec| == ecCount
      ensures Codeword(data + ec, ecCount)
    {
      hide Mul, AlphaPow, Plus, Eval, Generator;
      var gen := RsGenerator(ecCount);
      ghost var g := gen[..];
      GeneratorMonic(ecCount);
      ghost var padded := data + Zeros(ecCount);
      var res := new byte[|data| + ecCount](i requires 0 <= i < |data| + ecCount => if i < |data| then data[i] else 0);
      assert res[..] == padded;
      var i := 0;
      while i < |data|
        invariant 0 <= i <= |data|
        invariant Valid() && gen[..] == g && res != gen
        invariant forall k :: 0 <= k < i ==> res[k] == 0
        invariant forall j: nat :: j < ecCount ==> Eval(res[..], AlphaPow(j)) == Eval(padded, AlphaPow(j))
      {
        var factor := res[i];
        if factor != 0 {
          ghost var before := res[..];
          ghost var shift := Zeros(i) + Scale(g, factor) + Zeros(|data| - 1 - i);
          var j := 0;
          while j < gen.Length
            invariant 0 <= j <= gen.Length == |g|
            invariant Valid() && gen[..] == g && res.Length == |before|
            invariant forall k :: 0 <= k < |before| ==>
              res[k] == if i <= k < i + j then Plus(before[k], shift[k]) else before[k]
          {
            var m := GfMul(gen[j], factor);
            res[i + j] := Plus(res[i + j], m);
            j := j + 1;
          }
          forall k | 0 <= k < |before|
            ensures res[k] == PolyPlus(before, shift)[k]
          {
            PlusLaws(before[k], 0, 0);
          }
          assert res[..] == PolyPlus(before, shift);
          forall j: nat | j < ecCount
            ensures Eval(res[..], AlphaPow(j)) == Eval(before, AlphaPow(j))
          {
            SubtractMultiple(before, ecCount, factor, i, |data| - 1 - i, AlphaPow(j), j);
          }
          MulUnits(factor);
          PlusLaws(factor, 0, 0);
        }
        i := i + 1;
      }
      ec := res[|data|..];
      forall j: nat | j < ecCount
        ensures Eval(data + ec, AlphaPow(j)) == 0
      {
        assert res[..] == Zeros(|data|) + ec;
        Complete(data, ec, AlphaPow(j));
      }
    }
  }

  // One division step adds a multiple of the generator, which vanishes at every root.
  lemma SubtractMultiple(before: seq<byte>, ec: nat, factor: byte, i: nat, rest: nat, x: byte, j: nat)
    requires j < ec && x == AlphaPow(j) && |before| == i + (ec + 1) + rest
    ensures Eval(PolyPlus(before, Zeros(i) + Scale(Generator(ec), factor) + Zeros(rest)), x) == Eval(before, x)
  {
    hide *;
    var g := Generator(ec);
    GeneratorRoots(ec, j);
    EvalScale(g, factor, x);
    MulUnits(factor);
    EvalPadLeft(i, Scale(g, factor), x);
    EvalPadRight(Zeros(i) + Scale(g, factor), rest, x);
    EvalPlus(before, Zeros(i) + Scale(g, factor) + Zeros(rest), x);
    PlusLaws(Eval(before, x), 0, 0);
  }

  // If the remainder evaluates like the padded data, then data + remainder evaluates to zero.
  lemma Complete(data: seq<byte>, ec: seq<byte>, x: byte)
    requires Eval(Zeros(|data|) + ec, x) == Eval(data + Zeros(|ec|), x)
    ensures Eval(data + ec, x) == 0
  {
    hide Eval, Mul, Plus;
    EvalPlus(data + Zeros(|ec|), Zeros(|data|) + ec, x);
    PlusLaws(Eval(data + Zeros(|ec|), x), 0, 0);
    forall k | 0 <= k < |data| + |ec|
      ensures PolyPlus(data + Zeros(|ec|), Zeros(|data|) + ec)[k] == (data + ec)[k]
    {
      PlusLaws((data + ec)[k], 0, 0);
    }
    assert PolyPlus(data + Zeros(|ec|), Zeros(|data|) + ec) == data + ec;
  }
}
