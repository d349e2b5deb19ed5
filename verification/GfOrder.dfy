// The generator 2 has multiplicative order 255: its powers 2^0 .. 2^254 are pairwise distinct and are
// exactly the nonzero bytes. This is what makes a logarithm table of 255 entries possible at all.
module GfOrder {
  import opened FiniteSets
  import opened Gf256

  // ---- Concrete powers, computed on eight booleans -------------------------------------------------

  datatype Oct = Oct(b0: bool, b1: bool, b2: bool, b3: bool, b4: bool, b5: bool, b6: bool, b7: bool)

  function Cons(on: bool, rest: nat): nat {
    (if on then 1 else 0) + 2 * rest
  }

  function Val(x: Oct): nat {
    Cons(x.b0, Cons(x.b1, Cons(x.b2, Cons(x.b3, Cons(x.b4, Cons(x.b5, Cons(x.b6, Cons(x.b7, 0))))))))
  }

  lemma ConsHalves(on: bool, rest: nat)
    ensures Cons(on, rest) / 2 == rest && Cons(on, rest) % 2 == if on then 1 else 0
  {
  }

  lemma XorCons(e: bool, h: nat, f: bool, g: nat)
    ensures Xor(Cons(e, h), Cons(f, g)) == Cons(e != f, Xor(h, g))
  {
    var a, b := Cons(e, h), Cons(f, g);
    ConsHalves(e, h);
    ConsHalves(f, g);
    XorBits(a, b);
    var x := Xor(a, b);
    assert x == 2 * (x / 2) + x % 2;
  }

  // Multiplication by x, on bits.
  function Next(x: Oct): Oct {
    Oct(x.b7, x.b0, x.b1 != x.b7, x.b2 != x.b7, x.b3 != x.b7, x.b4, x.b5, x.b6)
  }

  function Low(x: Oct): nat {
    Cons(x.b0, Cons(x.b1, Cons(x.b2, Cons(x.b3, Cons(x.b4, Cons(x.b5, Cons(x.b6, 0)))))))
  }

  lemma ValParts(x: Oct)
    ensures Low(x) < 128
    ensures Val(x) == Low(x) + if x.b7 then 128 else 0
  {
  }

  lemma CarryToggles(x: Oct)
    ensures Xor(2 * Low(x), if x.b7 then 0x1d else 0) == Val(Next(x))
  {
    hide Xor;
    var c := x.b7;
    var t7 := Cons(x.b6, 0);
    var t6 := Cons(x.b5, t7);
    var t5 := Cons(x.b4, t6);
    var t4 := Cons(x.b3, t5);
    var t3 := Cons(x.b2, t4);
    var t2 := Cons(x.b1, t3);
    var t1 := Cons(x.b0, t2);
    XorZero(t5);
    var r4 := Cons(c, 0);
    var r3 := Cons(c, r4);
    var r2 := Cons(c, r3);
    var r1 := Cons(false, r2);
    XorCons(x.b3, t5, c, 0);
    XorCons(x.b2, t4, c, r4);
    XorCons(x.b1, t3, c, r3);
    XorCons(x.b0, t2, false, r2);
    XorCons(false, t1, c, r1);
    assert Cons(c, r1) == if c then 0x1d else 0;
    assert Cons(false, t1) == 2 * Low(x);
  }

  lemma DoubleOct(x: Oct, v: byte)
    requires v == Val(x)
    ensures Double(v) == Val(Next(x))
  {
    ValParts(x);
    assert v % 128 == Low(x);
    CarryToggles(x);
  }

  function Next2(x: Oct): Oct { Next(Next(x)) }

  function Next4(x: Oct): Oct { Next2(Next2(x)) }

  function Next8(x: Oct): Oct { Next4(Next4(x)) }

  // Seventeen doublings.
  function Leap(x: Oct): Oct { Next(Next8(Next8(x))) }

  predicate IsPow(i: nat, x: Oct) {
    AlphaPow(i) == Val(x)
  }

  lemma IsPowNext(i: nat, x: Oct)
    requires IsPow(i, x)
    ensures IsPow(i + 1, Next(x))
  {
    DoubleOct(x, AlphaPow(i));
    PowStep(i);
  }

  lemma IsPowNext8(i: nat, x: Oct)
    requires IsPow(i, x)
    ensures IsPow(i + 8, Next8(x))
  {
    hide IsPow, Next;
    IsPowNext(i, x);
    IsPowNext(i + 1, Next(x));
    IsPowNext(i + 2, Next2(x));
    IsPowNext(i + 3, Next(Next2(x)));
    IsPowNext(i + 4, Next4(x));
    IsPowNext(i + 5, Next(Next4(x)));
    IsPowNext(i + 6, Next2(Next4(x)));
    IsPowNext(i + 7, Next(Next2(Next4(x))));
  }

  lemma IsPowLeap(i: nat, x: Oct)
    requires IsPow(i, x)
    ensures IsPow(i + 17, Leap(x))
  {
    hide IsPow, Next, Next8;
    IsPowNext8(i, x);
    IsPowNext8(i + 8, Next8(x));
    IsPowNext(i + 16, Next8(Next8(x)));
  }

  lemma LeapTo(i: nat, x: Oct, j: nat, y: Oct)
    requires IsPow(i, x) && j == i + 17 && Leap(x) == y
    ensures IsPow(j, y)
  {
    IsPowLeap(i, x);
  }

  lemma At0()
    ensures IsPow(0, Oct(true, false, false, false, false, false, false, false))
  {
  }

  lemma At17()
    ensures IsPow(17, Oct(false, false, false, true, true, false, false, true))
  {
    hide IsPow, AlphaPow;
    At0();
    LeapTo(0, Oct(true, false, false, false, false, false, false, false), 17,
      Oct(false, false, false, true, true, false, false, true));
  }

  lemma At34()
    ensures IsPow(34, Oct(false, true, true, true, false, false, true, false))
  {
    hide IsPow, AlphaPow;
    At17();
    LeapTo(17, Oct(false, false, false, true, true, false, false, true), 34,
      Oct(false, true, true, true, false, false, true, false));
  }

  lemma At51()
    ensures IsPow(51, Oct(false, true, false, true, false, false, false, false))
  {
    hide IsPow, AlphaPow;
    At34();
    LeapTo(34, Oct(false, true, true, true, false, false, true, false), 51,
      Oct(false, true, false, true, false, false, false, false));
  }

  lemma At68()
    ensures IsPow(68, Oct(true, false, false, true, true, false, false, true))
  {
    hide IsPow, AlphaPow;
    At51();
    LeapTo(51, Oct(false, true, false, true, false, false, false, false), 68,
      Oct(true, false, false, true, true, false, false, true));
  }

  lemma At85()
    ensures IsPow(85, Oct(false, true, true, false, true, false, true, true))
  {
    hide IsPow, AlphaPow;
    At68();
    LeapTo(68, Oct(true, false, false, true, true, false, false, true), 85,
      Oct(false, true, true, false, true, false, true, true));
  }

  lemma At102()
    ensures IsPow(102, Oct(false, false, true, false, false, false, true, false))
  {
    hide IsPow, AlphaPow;
    At85();
    LeapTo(85, Oct(false, true, true, false, true, false, true, true), 102,
      Oct(false, false, true, false, false, false, true, false));
  }

  lemma At119()
    ensures IsPow(119, Oct(true, true, false, false, true, false, false, true))
  {
    hide IsPow, AlphaPow;
    At102();
    LeapTo(102, Oct(false, false, true, false, false, false, true, false), 119,
      Oct(true, true, false, false, true, false, false, true));
  }

  lemma At136()
    ensures IsPow(136, Oct(true, true, true, true, false, false, true, false))
  {
    hide IsPow, AlphaPow;
    At119();
    LeapTo(119, Oct(true, true, false, false, true, false, false, true), 136,
      Oct(true, true, true, true, false, false, true, false));
  }

  lemma At153()
    ensures IsPow(153, Oct(false, true, false, false, true, false, false, true))
  {
    hide IsPow, AlphaPow;
    At136();
    LeapTo(136, Oct(true, true, true, true, false, false, true, false), 153,
      Oct(false, true, false, false, true, false, false, true));
  }

  lemma At170()
    ensures IsPow(170, Oct(true, true, true, false, true, false, true, true))
  {
    hide IsPow, AlphaPow;
    At153();
    LeapTo(153, Oct(false, true, false, false, true, false, false, true), 170,
      Oct(true, true, true, false, true, false, true, true));
  }

  lemma At187()
    ensures IsPow(187, Oct(false, false, true, true, true, false, true, true))
  {
    hide IsPow, AlphaPow;
    At170();
    LeapTo(170, Oct(true, true, true, false, true, false, true, true), 187,
      Oct(false, false, true, true, true, false, true, true));
  }

  lemma At204()
    ensures IsPow(204, Oct(true, false, true, true, true, false, true, true))
  {
    hide IsPow, AlphaPow;
    At187();
    LeapTo(187, Oct(false, false, true, true, true, false, true, true), 204,
      Oct(true, false, true, true, true, false, true, true));
  }

  lemma At221()
    ensures IsPow(221, Oct(true, false, true, false, false, false, true, false))
  {
    hide IsPow, AlphaPow;
    At204();
    LeapTo(204, Oct(true, false, true, true, true, false, true, true), 221,
      Oct(true, false, true, false, false, false, true, false));
  }

  lemma At238()
    ensures IsPow(238, Oct(true, true, false, true, false, false, false, false))
  {
    hide IsPow, AlphaPow;
    At221();
    LeapTo(221, Oct(true, false, true, false, false, false, true, false), 238,
      Oct(true, true, false, true, false, false, false, false));
  }

  lemma At255()
    ensures IsPow(255, Oct(true, false, false, false, false, false, false, false))
  {
    hide IsPow, AlphaPow;
    At238();
    LeapTo(238, Oct(true, true, false, true, false, false, false, false), 255,
      Oct(true, false, false, false, false, false, false, false));
  }

  lemma At15()
    ensures IsPow(15, Oct(false, true, true, false, false, true, false, false))
  {
    hide IsPow, AlphaPow;
    At0();
    IsPowNext8(0, Oct(true, false, false, false, false, false, false, false));
    var x8 := Oct(true, false, true, true, true, false, false, false);
    IsPowNext(8, x8);
    IsPowNext(9, Next(x8));
    IsPowNext(10, Next2(x8));
    IsPowNext(11, Next(Next2(x8)));
    IsPowNext(12, Next4(x8));
    IsPowNext(13, Next(Next4(x8)));
    IsPowNext(14, Next2(Next4(x8)));
  }

  // Powers at the divisors of 255 that matter, and the period.
  lemma PowerValues()
    ensures AlphaPow(15) == 38 && AlphaPow(17) == 152 && AlphaPow(51) == 10
    ensures AlphaPow(85) == 214 && AlphaPow(255) == 1
  {
    hide AlphaPow, Leap, Next;
    At15();
    At17();
    At51();
    At85();
    At255();
  }

  lemma SmallPowerValues()
    ensures AlphaPow(1) == 2 && AlphaPow(3) == 8 && AlphaPow(5) == 32
  {
    hide Double;
    DoubleSmall(1);
    DoubleSmall(2);
    DoubleSmall(4);
    DoubleSmall(8);
    DoubleSmall(16);
    PowStep(0);
    PowStep(1);
    PowStep(2);
    PowStep(3);
    PowStep(4);
  }

  // ---- The generator has order 255, so its powers are exactly the nonzero bytes ---------------------

  lemma {:induction false} PowCancel(i: nat, d: nat)
    requires AlphaPow(i + d) == AlphaPow(i)
    ensures AlphaPow(d) == 1
  {
    hide Double;
    if i > 0 {
      PowStep(i + d - 1);
      PowStep(i - 1);
      DoubleInjective(AlphaPow(i + d - 1), AlphaPow(i - 1));
      PowCancel(i - 1, d);
    }
  }

  lemma DoubleInjective(a: byte, b: byte)
    requires Double(a) == Double(b)
    ensures a == b
  {
    hide *;
    DoublePlus(a, b);
    PlusLaws(Double(a), 0, 0);
    if Plus(a, b) != 0 {
      DoubleNonZero(Plus(a, b));
    }
    PlusLaws(a, b, b);
    PlusLaws(b, 0, 0);
  }

  lemma DoubleNonZero(a: byte)
    requires a != 0
    ensures Double(a) != 0
  {
    if a < 128 {
      DoubleSmall(a);
    } else {
      XorBits(2 * (a % 128), 0x1d);
    }
  }

  // Removing a period d from an exponent as often as possible.
  lemma {:induction false} RemovePeriod(d: nat, e: nat) returns (q: nat, r: nat)
    requires d > 0 && AlphaPow(d) == 1
    ensures r < d && q * d + r == e && AlphaPow(e) == AlphaPow(r)
    decreases e
  {
    hide *;
    if e < d {
      q, r := 0, e;
    } else {
      var q0;
      q0, r := RemovePeriod(d, e - d);
      q := q0 + 1;
      OneMore(q0, d);
      PowPeriod(d, e - d);
    }
  }

  lemma PowPeriod(d: nat, e: nat)
    requires AlphaPow(d) == 1
    ensures AlphaPow(e + d) == AlphaPow(e)
  {
    hide *;
    PowAdd(e, d);
    MulUnits(AlphaPow(e));
  }

  lemma OneMore(q: nat, d: nat)
    ensures (q + 1) * d == q * d + d
  {
  }

  lemma DivisorsOf255(q: nat, d: nat)
    requires 0 < d < 255 && q * d == 255
    ensures d in {1, 3, 5, 15, 17, 51, 85}
  {
    assert q == 255 / d && 255 % d == 0;
  }

  lemma {:induction false} PowNotOne(d: nat)
    requires 0 < d < 255
    ensures AlphaPow(d) != 1
    decreases d
  {
    hide *;
    PowerValues();
    if AlphaPow(d) == 1 {
      var q, r := RemovePeriod(d, 255);
      if r != 0 {
        PowNotOne(r);
      } else {
        DivisorsOf255(q, d);
        SmallPowerValues();
      }
    }
  }

  lemma PowDistinct(i: nat, j: nat)
    requires i < j < 255
    ensures AlphaPow(i) != AlphaPow(j)
  {
    hide *;
    PowNotOne(j - i);
    if AlphaPow(i) == AlphaPow(j) {
      PowCancel(i, j - i);
    }
  }

  lemma {:induction false} PowNonZero(i: nat)
    ensures AlphaPow(i) != 0
  {
    if i > 0 {
      PowNonZero(i - 1);
      DoubleNonZero(AlphaPow(i - 1));
    }
  }

  // ---- Logarithms exist ---------------------------------------------------------------------------

  // The numbers 1 .. n.
  ghost function Below(n: nat): (b: set<nat>)
    ensures |b| == n
    ensures forall k :: k in b <==> 1 <= k <= n
  {
    if n == 0 then {} else Below(n - 1) + {n}
  }

  // The first n powers of the generator.
  ghost function Powers(n: nat): set<nat> {
    if n == 0 then {} else Powers(n - 1) + {AlphaPow(n - 1)}
  }

  lemma {:induction false} PowersMember(n: nat, x: nat) returns (i: nat)
    requires x in Powers(n)
    ensures i < n && AlphaPow(i) == x
  {
    hide AlphaPow;
    if x == AlphaPow(n - 1) {
      i := n - 1;
    } else {
      i := PowersMember(n - 1, x);
    }
  }

  lemma {:induction false} PowersCount(n: nat)
    requires n <= 255
    ensures |Powers(n)| == n
    ensures forall x :: x in Powers(n) ==> 1 <= x <= 255
  {
    hide AlphaPow;
    if n > 0 {
      PowersCount(n - 1);
      var last: byte := AlphaPow(n - 1);
      PowNonZero(n - 1);
      if last in Powers(n - 1) {
        var i := PowersMember(n - 1, last);
        PowDistinct(i, n - 1);
      }
    }
  }

  // Every nonzero byte is a power of the generator below 255.
  lemma LogExists(x: byte) returns (i: nat)
    requires x != 0
    ensures i < 255 && AlphaPow(i) == x
  {
    PowersCount(255);
    SameSize(Powers(255), Below(255));
    i := PowersMember(255, x);
  }

  // ---- What the field needs beyond linearity -------------------------------------------------------

  lemma MulAssociates(a: byte, b: byte, c: byte)
    ensures Mul(Mul(a, b), c) == Mul(a, Mul(b, c))
  {
    hide *;
    MulUnits(a);
    MulUnits(b);
    MulUnits(c);
    MulUnits(Mul(a, b));
    MulUnits(Mul(b, c));
    if a != 0 && b != 0 && c != 0 {
      var i := LogExists(a);
      var j := LogExists(b);
      var k := LogExists(c);
      PowAssociates(i, j, k);
    }
  }

  lemma PowAssociates(i: nat, j: nat, k: nat)
    ensures Mul(Mul(AlphaPow(i), AlphaPow(j)), AlphaPow(k)) == Mul(AlphaPow(i), Mul(AlphaPow(j), AlphaPow(k)))
  {
    hide *;
    PowAdd(i, j);
    PowAdd(j, k);
    PowAdd(i + j, k);
    PowAdd(i, j + k);
    assert i + j + k == i + (j + k);
  }

  lemma MulNoZeroDivisors(a: byte, b: byte)
    requires a != 0 && b != 0
    ensures Mul(a, b) != 0
  {
    hide *;
    var i := LogExists(a);
    var j := LogExists(b);
    PowAdd(i, j);
    PowNonZero(i + j);
  }
}
