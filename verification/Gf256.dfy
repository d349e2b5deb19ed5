// GF(256) arithmetic behind the QR encoder's Reed-Solomon code: the field with primitive polynomial
// x^8 + x^4 + x^3 + x^2 + 1 (0x11d) and generator 2, computed through logarithm tables.
//
// `Mul` is the schoolbook product of two polynomials over GF(2), reduced modulo 0x11d; it never looks at
// a table. The tables are filled by a loop, and the theorem about them is that a lookup computes `Mul`.
module Gf256 {

  type byte = x: nat | x < 256

  // ---- Bitwise exclusive or on numbers ------------------------------------------------------------

  function Xor(a: nat, b: nat): nat
    decreases a + b
  {
    if a == 0 && b == 0 then 0 else (if a % 2 == b % 2 then 0 else 1) + 2 * Xor(a / 2, b / 2)
  }

  lemma {:induction false} XorZero(a: nat)
    ensures Xor(a, 0) == a && Xor(0, a) == a
  {
    if a > 0 {
      XorZero(a / 2);
    }
  }

  lemma {:induction false} XorSelf(a: nat)
    ensures Xor(a, a) == 0
  {
    if a > 0 {
      XorSelf(a / 2);
    }
  }

  lemma {:induction false} XorCommutes(a: nat, b: nat)
    ensures Xor(a, b) == Xor(b, a)
    decreases a + b
  {
    if a > 0 || b > 0 {
      XorCommutes(a / 2, b / 2);
    }
  }

  lemma XorBits(a: nat, b: nat)
    ensures Xor(a, b) % 2 == if a % 2 == b % 2 then 0 else 1
    ensures Xor(a, b) / 2 == Xor(a / 2, b / 2)
  {
  }

  ghost function Digit(a: nat, k: nat): nat
    decreases k
  {
    if k == 0 then a % 2 else Digit(a / 2, k - 1)
  }

  // Each binary digit of the result is the sum of the two digits modulo two.
  lemma {:induction false} XorSays(a: nat, b: nat, k: nat)
    ensures Digit(Xor(a, b), k) == (Digit(a, k) + Digit(b, k)) % 2
    decreases k
  {
    XorBits(a, b);
    if k > 0 {
      XorSays(a / 2, b / 2, k - 1);
    }
  }

  lemma {:induction false} XorAssociates(a: nat, b: nat, c: nat)
    ensures Xor(Xor(a, b), c) == Xor(a, Xor(b, c))
    decreases a + b + c
  {
    if a == 0 {
      XorZero(b);
      XorZero(Xor(b, c));
    } else {
      var ab, bc := Xor(a, b), Xor(b, c);
      XorBits(a, b);
      XorBits(b, c);
      XorAssociates(a / 2, b / 2, c / 2);
      XorAssociateStep(a, b, c, ab, bc);
    }
  }

  lemma XorAssociateStep(a: nat, b: nat, c: nat, ab: nat, bc: nat)
    requires ab % 2 == (if a % 2 == b % 2 then 0 else 1) && bc % 2 == (if b % 2 == c % 2 then 0 else 1)
    requires Xor(ab / 2, c / 2) == Xor(a / 2, bc / 2)
    ensures Xor(ab, c) == Xor(a, bc)
  {
    XorBits(ab, c);
    XorBits(a, bc);
  }

  function Pow2(n: nat): (p: nat)
    ensures p > 0
  {
    if n == 0 then 1 else 2 * Pow2(n - 1)
  }

  // x is y with or without the extra bit 2^n.
  predicate TopBit(n: nat, x: nat, y: nat) {
    y < Pow2(n) && (x == y || x == Pow2(n) + y)
  }

  lemma HalfTop(n: nat, x: nat, y: nat)
    requires n > 0 && TopBit(n, x, y)
    ensures TopBit(n - 1, x / 2, y / 2) && x % 2 == y % 2 && (x == y <==> x / 2 == y / 2)
  {
  }

  // Exclusive or works on the top bit and the rest separately.
  lemma {:induction false} XorSplit(n: nat, a: nat, al: nat, b: nat, bl: nat)
    requires TopBit(n, a, al) && TopBit(n, b, bl)
    ensures TopBit(n, Xor(a, b), Xor(al, bl))
    ensures Xor(a, b) == Xor(al, bl) <==> ((a == al) <==> (b == bl))
    decreases n
  {
    if n > 0 {
      HalfTop(n, a, al);
      HalfTop(n, b, bl);
      XorSplit(n - 1, a / 2, al / 2, b / 2, bl / 2);
      XorBits(a, b);
      XorBits(al, bl);
      FromHalves(n, Xor(a, b), Xor(al, bl));
    } else {
      XorZero(0);
      XorZero(1);
      XorSelf(1);
    }
  }

  lemma FromHalves(n: nat, x: nat, y: nat)
    requires n > 0 && TopBit(n - 1, x / 2, y / 2) && x % 2 == y % 2
    ensures TopBit(n, x, y) && (x == y <==> x / 2 == y / 2)
  {
  }

  // ---- The field ----------------------------------------------------------------------------------

  // Addition in the field.
  function Plus(a: byte, b: byte): byte {
    XorByte(a, b);
    Xor(a, b)
  }

  lemma XorByte(a: byte, b: byte)
    ensures Xor(a, b) < 256
  {
    assert Pow2(8) == 256;
    XorSplit(8, a, a, b, b);
  }

  lemma PlusLaws(a: byte, b: byte, c: byte)
    ensures Plus(a, 0) == a && Plus(0, a) == a && Plus(a, a) == 0
    ensures Plus(a, b) == Plus(b, a)
    ensures Plus(Plus(a, b), c) == Plus(a, Plus(b, c))
  {
    XorZero(a);
    XorSelf(a);
    XorCommutes(a, b);
    XorAssociates(a, b, c);
  }

  lemma PlusRegroup(a: byte, b: byte, c: byte, d: byte)
    ensures Plus(Plus(a, b), Plus(c, d)) == Plus(Plus(a, c), Plus(b, d))
  {
    XorAssociates(a, b, Xor(c, d));
    XorAssociates(b, c, d);
    XorCommutes(b, c);
    XorAssociates(c, b, d);
    XorAssociates(a, c, Xor(b, d));
  }

  // Multiplication by x: shift, and reduce by 0x11d when bit 8 appears (bit 8 itself cancels).
  function Double(a: byte): byte {
    Plus(2 * (a % 128), Carry(a))
  }

  function Carry(a: byte): byte {
    if a >= 128 then 0x1d else 0
  }

  function Pick(bit: nat, x: byte): byte {
    if bit == 1 then x else 0
  }

  // The schoolbook product: the sum of a * x^k over the bits k set in b.
  function Mul(a: byte, b: nat): byte
    decreases b
  {
    if b == 0 then 0 else Plus(Pick(b % 2, a), Mul(Double(a), b / 2))
  }

  // The powers of the generator 2.
  function AlphaPow(i: nat): byte {
    if i == 0 then 1 else Double(AlphaPow(i - 1))
  }

  // ---- Double and Mul are linear ------------------------------------------------------------------

  lemma SplitPlus(a: byte, b: byte)
    ensures Plus(a, b) % 128 == Xor(a % 128, b % 128)
    ensures Plus(a, b) >= 128 <==> (a >= 128) != (b >= 128)
  {
    hide Xor;
    assert Pow2(7) == 128;
    XorSplit(7, a, a % 128, b, b % 128);
  }

  lemma CarryPlus(a: byte, b: byte)
    ensures Carry(Plus(a, b)) == Plus(Carry(a), Carry(b))
  {
    SplitPlus(a, b);
    PlusLaws(0x1d, 0, 0);
    PlusLaws(0, 0, 0);
  }

  lemma DoublePlus(a: byte, b: byte)
    ensures Double(Plus(a, b)) == Plus(Double(a), Double(b))
  {
    hide Xor, Carry;
    SplitPlus(a, b);
    CarryPlus(a, b);
    XorTwice(a % 128, b % 128);
    PlusRegroup(2 * (a % 128), Carry(a), 2 * (b % 128), Carry(b));
  }

  lemma {:induction false} MulPlusLeft(a: byte, b: byte, c: nat)
    ensures Mul(Plus(a, b), c) == Plus(Mul(a, c), Mul(b, c))
    decreases c
  {
    if c > 0 {
      DoublePlus(a, b);
      MulPlusLeft(Double(a), Double(b), c / 2);
      PlusLaws(0, 0, 0);
      PlusRegroup(Pick(c % 2, a), Pick(c % 2, b), Mul(Double(a), c / 2), Mul(Double(b), c / 2));
    } else {
      PlusLaws(0, 0, 0);
    }
  }

  lemma MulUnfold(a: byte, b: nat)
    ensures Mul(a, b) == Plus(Pick(b % 2, a), Mul(Double(a), b / 2))
  {
    PlusLaws(0, 0, 0);
  }

  lemma PickParity(x: nat, y: nat, a: byte)
    requires x < 2 && y < 2
    ensures Pick(if x == y then 0 else 1, a) == Plus(Pick(x, a), Pick(y, a))
  {
    PlusLaws(a, 0, 0);
    PlusLaws(0, 0, 0);
  }

  lemma {:induction false} MulXorRight(a: byte, b: nat, c: nat)
    ensures Mul(a, Xor(b, c)) == Plus(Mul(a, b), Mul(a, c))
    decreases b + c
  {
    if b > 0 || c > 0 {
      MulUnfold(a, b);
      MulUnfold(a, c);
      MulUnfold(a, Xor(b, c));
      XorBits(b, c);
      MulXorRight(Double(a), b / 2, c / 2);
      PickParity(b % 2, c % 2, a);
      PlusRegroup(Pick(b % 2, a), Pick(c % 2, a), Mul(Double(a), b / 2), Mul(Double(a), c / 2));
    } else {
      PlusLaws(0, 0, 0);
    }
  }

  lemma {:induction false} MulDoubleLeft(a: byte, b: nat)
    ensures Mul(Double(a), b) == Double(Mul(a, b))
    decreases b
  {
    if b > 0 {
      MulDoubleLeft(Double(a), b / 2);
      DoublePlus(Pick(b % 2, a), Mul(Double(a), b / 2));
      DoublePick(b % 2, a);
    } else {
      PlusLaws(0, 0, 0);
    }
  }

  lemma DoublePick(bit: nat, a: byte)
    ensures Double(Pick(bit, a)) == Pick(bit, Double(a))
  {
    PlusLaws(0, 0, 0);
  }

  lemma {:induction false} MulZeroLeft(b: nat)
    ensures Mul(0, b) == 0
  {
    PlusLaws(0, 0, 0);
    if b > 0 {
      MulZeroLeft(b / 2);
    }
  }

  // 1 * b is b: the shifted copies of a power of two never meet and never overflow.
  lemma {:induction false} MulPowers(k: nat, b: nat)
    requires b > 0 && Pow2(k) * b < 256
    ensures Pow2(k) < 256 && Mul(Pow2(k), b) == Pow2(k) * b
    decreases b
  {
    var p := Pow2(k);
    ScaleBound(p, b);
    MulUnfold(p, b);
    if b == 1 {
      PlusLaws(p, 0, 0);
    } else {
      DoubleSmall(p);
      MulPowers(k + 1, b / 2);
      AddScaled(k, b);
    }
  }

  lemma ScaleBound(p: nat, b: nat)
    requires b > 0 && p > 0
    ensures p <= p * b
    ensures b > 1 ==> 2 * p <= (2 * p) * (b / 2) <= p * b
  {
    MulAtLeast(p, b);
    if b > 1 {
      var e, h := b % 2, b / 2;
      MulAtLeast(2 * p, h);
      SplitProduct(p, e, h);
    }
  }

  lemma MulAtLeast(p: nat, b: nat)
    requires b > 0
    ensures p <= p * b
  {
  }

  lemma SplitProduct(p: nat, e: nat, h: nat)
    ensures p * (e + 2 * h) == p * e + (2 * p) * h == p * e + p * (2 * h)
    ensures p * e >= 0
  {
  }

  lemma DoubleSmall(p: byte)
    requires p < 128
    ensures Double(p) == 2 * p
  {
    hide Xor;
    XorZero(2 * p);
  }

  lemma AddScaled(k: nat, b: nat)
    ensures Xor(if b % 2 == 1 then Pow2(k) else 0, Pow2(k + 1) * (b / 2)) == Pow2(k) * b
  {
    var e, h := b % 2, b / 2;
    XorScaled(k, e, 2 * h);
    XorEven(e, h);
    SplitProduct(Pow2(k), e, h);
  }

  lemma XorEven(e: nat, h: nat)
    requires e < 2
    ensures Xor(e, 2 * h) == e + 2 * h
  {
    XorZero(h);
    XorBits(e, 2 * h);
  }

  lemma {:induction false} XorScaled(k: nat, x: nat, y: nat)
    ensures Xor(Pow2(k) * x, Pow2(k) * y) == Pow2(k) * Xor(x, y)
    decreases k
  {
    hide Xor;
    if k > 0 {
      var p := Pow2(k - 1);
      XorScaled(k - 1, x, y);
      XorTwice(p * x, p * y);
      Twice(p, x);
      Twice(p, y);
      Twice(p, Xor(x, y));
    }
  }

  lemma Twice(p: nat, x: nat)
    ensures (2 * p) * x == 2 * (p * x)
  {
  }

  lemma XorTwice(x: nat, y: nat)
    ensures Xor(2 * x, 2 * y) == 2 * Xor(x, y)
  {
    XorBits(2 * x, 2 * y);
  }

  lemma MulByZero(a: byte)
    ensures Mul(a, 0) == 0
  {
  }

  lemma MulUnits(a: byte)
    ensures Mul(a, 1) == a && Mul(1, a) == a && Mul(a, 0) == 0 && Mul(0, a) == 0
  {
    hide Xor, Mul;
    MulByZero(a);
    MulByZero(Double(a));
    MulUnfold(a, 1);
    PlusLaws(a, 0, 0);
    MulZeroLeft(a);
    MulByZero(1);
    if a > 0 {
      assert Pow2(0) == 1;
      MulPowers(0, a);
    }
  }

  // Multiplication distributes over XOR on both sides.
  lemma MulLinear(a: byte, b: byte, c: byte)
    ensures Mul(Plus(a, b), c) == Plus(Mul(a, c), Mul(b, c))
    ensures Mul(a, Plus(b, c)) == Plus(Mul(a, b), Mul(a, c))
  {
    hide Xor, Mul;
    MulPlusLeft(a, b, c);
    MulXorRight(a, b, c);
  }

  lemma {:induction false} MulCommutes(a: byte, b: byte)
    ensures Mul(a, b) == Mul(b, a)
    decreases a
  {
    hide *;
    if a <= 1 {
      MulUnits(b);
    } else {
      MulCommutes(a / 2, b);
      MulOddEvenLeft(a, b);
      MulUnfold(b, a);
      MulDoubleLeft(b, a / 2);
    }
  }

  lemma MulOddEvenLeft(a: byte, b: byte)
    ensures Mul(a, b) == Plus(Pick(a % 2, b), Double(Mul(a / 2, b)))
  {
    var e, h := a % 2, a / 2;
    DoubleSmall(h);
    XorEven(e, h);
    MulPlusLeft(e, Double(h), b);
    MulDoubleLeft(h, b);
    MulUnits(b);
  }

  lemma MulDouble(a: byte, b: byte)
    ensures Mul(a, Double(b)) == Double(Mul(a, b))
  {
    hide *;
    MulCommutes(a, Double(b));
    MulDoubleLeft(b, a);
    MulCommutes(a, b);
  }

  // ---- Powers of the generator --------------------------------------------------------------------

  lemma {:induction false} PowAdd(i: nat, j: nat)
    ensures AlphaPow(i + j) == Mul(AlphaPow(i), AlphaPow(j))
    decreases j
  {
    hide Mul, Double;
    if j == 0 {
      MulUnits(AlphaPow(i));
    } else {
      PowAdd(i, j - 1);
      PowStep(i + (j - 1));
      PowStep(j - 1);
      MulDouble(AlphaPow(i), AlphaPow(j - 1));
    }
  }

  lemma PowStep(i: nat)
    ensures AlphaPow(i + 1) == Double(AlphaPow(i))
  {
  }
}
