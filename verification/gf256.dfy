/**
 The field GF(256) of src/udp/gf256.cpp, built from the bits up.

 Bytes are integers below 256. `Xor` is the bitwise exclusive or, `Xtime` one step of the
 shift register that fills the exp table, and `Mul` the carry-less product reduced modulo
 x^8 + x^4 + x^3 + x^2 + 1. Nothing here mentions a table: this is the reference definition
 against which the table lookups of `Gf256Tables` are proved.
 */
module Gf256 {

  type byte = x: int | 0 <= x < 256

  /** Bitwise exclusive or of two naturals. */
  function Xor(a: nat, b: nat): (r: nat)
    ensures r <= a + b
    decreases a + b
  {
    if a == 0 && b == 0 then 0
    else (if a % 2 == b % 2 then 0 else 1) + 2 * Xor(a / 2, b / 2)
  }

  predicate PowerOfTwo(p: nat) {
    p == 1 || (p > 1 && p % 2 == 0 && PowerOfTwo(p / 2))
  }

  lemma {:induction false} XorTopBit(a: nat, b: nat, p: nat)
    requires PowerOfTwo(p) && a < 2 * p && b < 2 * p
    ensures Xor(a, b) < 2 * p
    ensures Xor(a, b) >= p <==> ((a >= p) != (b >= p))
    decreases p
  {
    if p > 1 {
      XorTopBit(a / 2, b / 2, p / 2);
    }
  }

  lemma {:induction false} XorComm(a: nat, b: nat)
    ensures Xor(a, b) == Xor(b, a)
    decreases a + b
  {
    if a != 0 || b != 0 {
      XorComm(a / 2, b / 2);
    }
  }

  lemma XorHalf(a: nat, b: nat)
    ensures Xor(a, b) / 2 == Xor(a / 2, b / 2)
    ensures Xor(a, b) % 2 == (if a % 2 == b % 2 then 0 else 1)
  {}

  lemma {:induction false} XorAssoc(a: nat, b: nat, c: nat)
    ensures Xor(Xor(a, b), c) == Xor(a, Xor(b, c))
    decreases a + b + c
  {
    if a != 0 || b != 0 || c != 0 {
      XorHalf(a, b);
      XorHalf(b, c);
      XorHalf(Xor(a, b), c);
      XorHalf(a, Xor(b, c));
      XorAssoc(a / 2, b / 2, c / 2);
    }
  }

  lemma {:induction false} XorZero(a: nat)
    ensures Xor(a, 0) == a && Xor(0, a) == a && Xor(a, a) == 0
  {
    if a != 0 {
      XorZero(a / 2);
    }
  }

  // ---- addition --------------------------------------------------------------------------

  /** Field addition and subtraction. */
  function Add(a: byte, b: byte): byte {
    XorTopBit(a, b, 128);
    Xor(a, b)
  }

  lemma AddComm(a: byte, b: byte)
    ensures Add(a, b) == Add(b, a)
  {
    XorComm(a, b);
  }

  lemma AddAssoc(a: byte, b: byte, c: byte)
    ensures Add(Add(a, b), c) == Add(a, Add(b, c))
  {
    XorAssoc(a, b, c);
  }

  lemma AddZero(a: byte)
    ensures Add(a, 0) == a && Add(0, a) == a && Add(a, a) == 0
  {
    XorZero(a);
  }

  /** A summand can be moved to the other side of an equation. */
  lemma AddCancel(a: byte, b: byte)
    ensures Add(a, Add(a, b)) == b && Add(Add(b, a), a) == b
    ensures Add(a, b) == 0 <==> a == b
  {
    AddAssoc(a, a, b);
    AddAssoc(b, a, a);
    AddZero(a);
    AddZero(b);
    if Add(a, b) == 0 {
      AddZero(Add(a, b));
    }
  }

  lemma AddSwapMiddle(a: byte, b: byte, c: byte, d: byte)
    ensures Add(Add(a, b), Add(c, d)) == Add(Add(a, c), Add(b, d))
  {
    AddAssoc(a, b, Add(c, d));
    AddAssoc(b, c, d);
    AddComm(b, c);
    AddAssoc(c, b, d);
    AddAssoc(a, c, Add(b, d));
  }

  // ---- multiplication --------------------------------------------------------------------

  /** Multiplication by x: shift left, and on a carry out of bit 7 subtract the polynomial 0x11D. */
  function Xtime(a: byte): byte {
    if a >= 128 then
      XorTopBit(2 * a, 0x11D, 256);
      Xor(2 * a, 0x11D)
    else 2 * a
  }

  /** The product: the sum of a * x^i over the bits i of b. */
  function Mul(a: byte, b: byte): byte
    decreases b
  {
    if b == 0 then 0
    else if b % 2 == 1 then Add(a, Mul(Xtime(a), b / 2))
    else Mul(Xtime(a), b / 2)
  }

  lemma XtimeAdd(a: byte, b: byte)
    ensures Xtime(Add(a, b)) == Add(Xtime(a), Xtime(b))
  {
    XorTopBit(a, b, 128);
    var p := 0x11D;
    assert Xor(2 * a, 2 * b) == 2 * Xor(a, b) by {
      if a == 0 && b == 0 {
      } else {
        assert (2 * a) / 2 == a && (2 * b) / 2 == b;
      }
    }
    if a >= 128 {
      if b >= 128 {
        XorAssoc(2 * a, p, Xor(2 * b, p));
        XorComm(2 * b, p);
        XorAssoc(p, p, 2 * b);
        XorZero(p);
        XorZero(2 * b);
      } else {
        XorAssoc(2 * a, p, 2 * b);
        XorComm(p, 2 * b);
        XorAssoc(2 * a, 2 * b, p);
      }
    } else if b >= 128 {
      XorAssoc(2 * a, 2 * b, p);
    }
  }

  lemma {:induction false} MulZero(b: byte)
    ensures Mul(0, b) == 0 && Mul(b, 0) == 0
    decreases b
  {
    if b != 0 {
      MulZero(b / 2);
      AddZero(0);
    }
  }

  lemma {:induction false} MulAddLeft(a: byte, b: byte, c: byte)
    ensures Mul(Add(a, b), c) == Add(Mul(a, c), Mul(b, c))
    decreases c
  {
    if c == 0 {
      AddZero(0);
    } else {
      XtimeAdd(a, b);
      MulAddLeft(Xtime(a), Xtime(b), c / 2);
      AddSwapMiddle(a, b, Mul(Xtime(a), c / 2), Mul(Xtime(b), c / 2));
    }
  }

  lemma {:induction false} MulXtimeLeft(a: byte, b: byte)
    ensures Mul(Xtime(a), b) == Xtime(Mul(a, b))
    decreases b
  {
    if b != 0 {
      MulXtimeLeft(Xtime(a), b / 2);
      XtimeAdd(a, Mul(Xtime(a), b / 2));
    }
  }

  /** The two right factors of a product can change places. */
  lemma {:induction false} MulExchange(c: byte, b: byte, a: byte)
    ensures Mul(Mul(c, b), a) == Mul(Mul(c, a), b)
    decreases b
  {
    if b == 0 {
      MulZero(a);
    } else {
      MulExchange(Xtime(c), b / 2, a);
      MulXtimeLeft(c, a);
      MulAddLeft(c, Mul(Xtime(c), b / 2), a);
    }
  }

  lemma {:induction false} MulOneLeft(b: byte)
    ensures Mul(1, b) == b
    decreases b
  {
    if b != 0 {
      var h := b / 2;
      MulOneLeft(h);
      MulXtimeLeft(1, h);
      XorZero(h);
      assert b % 2 == 1 ==> Xor(1, 2 * h) == 1 + 2 * Xor(0, h);
    }
  }

  lemma MulOne(a: byte)
    ensures Mul(1, a) == a && Mul(a, 1) == a
  {
    MulOneLeft(a);
    MulComm(a, 1);
  }

  lemma MulComm(a: byte, b: byte)
    ensures Mul(a, b) == Mul(b, a)
  {
    MulOneLeft(a);
    MulOneLeft(b);
    MulExchange(1, a, b);
  }

  lemma MulAssoc(a: byte, b: byte, c: byte)
    ensures Mul(Mul(a, b), c) == Mul(a, Mul(b, c))
  {
    MulComm(a, b);
    MulExchange(b, a, c);
    MulComm(Mul(b, c), a);
  }

  lemma MulAddRight(a: byte, b: byte, c: byte)
    ensures Mul(a, Add(b, c)) == Add(Mul(a, b), Mul(a, c))
  {
    MulComm(a, Add(b, c));
    MulAddLeft(b, c, a);
    MulComm(a, b);
    MulComm(a, c);
  }

  // ---- the generator 2 -------------------------------------------------------------------

  /** The i-th value of the shift register that starts at 1. */
  function Alpha(i: nat): byte {
    if i == 0 then 1 else Xtime(Alpha(i - 1))
  }

  lemma {:induction false} AlphaAdd(i: nat, j: nat)
    ensures Alpha(i + j) == Mul(Alpha(i), Alpha(j))
  {
    if i == 0 {
      MulOne(Alpha(j));
    } else {
      AlphaAdd(i - 1, j);
      MulXtimeLeft(Alpha(i - 1), Alpha(j));
    }
  }

  /** What the feedback 0x11D does to the low half of an overflowing byte, doubled. */
  function Feedback(low: nat): nat {
    if low < 8 then
      if low < 4 then if low < 2 then 29 + 2 * low else 21 + 2 * low
      else if low < 6 then 13 + 2 * low else 5 + 2 * low
    else
      if low < 12 then if low < 10 then 2 * low - 3 else 2 * low - 11
      else if low < 14 then 2 * low - 19 else 2 * low - 27
  }

  /** `Xtime` in plain arithmetic, which the verifier evaluates quickly. */
  function Shifted(a: byte): nat {
    if a < 128 then 2 * a else 32 * (a / 16) - 256 + Feedback(a % 16)
  }

  lemma XorBits(x: nat, b: nat, y: nat, c: nat)
    requires b < 2 && c < 2
    ensures Xor(2 * x + b, 2 * y + c) == 2 * Xor(x, y) + (if b == c then 0 else 1)
  {}

  lemma ShiftedBits(h: nat, b3: nat, b2: nat, b1: nat, b0: nat)
    requires 8 <= h < 16 && b3 < 2 && b2 < 2 && b1 < 2 && b0 < 2
    ensures Shifted(2 * (2 * (2 * (2 * h + b3) + b2) + b1) + b0)
         == 32 * (h - 8) + 16 * (1 - b3) + 8 * (1 - b2) + 4 * (1 - b1) + 2 * b0 + 1
  {
    var a := 2 * (2 * (2 * (2 * h + b3) + b2) + b1) + b0;
    assert a / 16 == h && a % 16 == 8 * b3 + 4 * b2 + 2 * b1 + b0;
  }

  lemma OverflowXor(h: nat, b3: nat, b2: nat, b1: nat, b0: nat)
    requires 8 <= h < 16 && b3 < 2 && b2 < 2 && b1 < 2 && b0 < 2
    ensures Xor(2 * (2 * (2 * (2 * (2 * h + b3) + b2) + b1) + b0), 0x11D)
         == 32 * (h - 8) + 16 * (1 - b3) + 8 * (1 - b2) + 4 * (1 - b1) + 2 * b0 + 1
  {
    hide Xor;
    var v3 := 2 * h + b3;
    var v2 := 2 * v3 + b2;
    var v1 := 2 * v2 + b1;
    var v0 := 2 * v1 + b0;
    XorBits(v0, 0, 142, 1);
    XorBits(v1, b0, 71, 0);
    XorBits(v2, b1, 35, 1);
    XorBits(v3, b2, 17, 1);
    XorBits(h, b3, 8, 1);
    XorLowBits(h - 8);
  }

  lemma XorLowBits(c: nat)
    requires c < 8
    ensures Xor(c + 8, 8) == c
  {
    hide Xor;
    var c1 := c / 2;
    var c2 := c1 / 2;
    XorBits(c1 + 4, c % 2, 4, 0);
    XorBits(c2 + 2, c1 % 2, 2, 0);
    XorBits(1, c2, 1, 0);
    XorZero(1);
  }

  lemma XtimeShifted(a: byte)
    ensures Xtime(a) == Shifted(a)
  {
    if a >= 128 {
      var v1 := a / 2;
      var v2 := v1 / 2;
      var v3 := v2 / 2;
      OverflowXor(v3 / 2, v3 % 2, v2 % 2, v1 % 2, a % 2);
      ShiftedBits(v3 / 2, v3 % 2, v2 % 2, v1 % 2, a % 2);
    }
  }

  /** The register step is multiplication by the generator 2. */
  lemma XtimeIsTimesTwo(a: byte)
    ensures Xtime(a) == Mul(a, 2)
  {
    hide Xtime;
    var x := Xtime(a);
    assert Mul(x, 1) == Add(x, Mul(Xtime(x), 0));
    XorZero(x);
  }

  /** One row of the exp table: eight consecutive register values and the one after them. */
  lemma ExpRow(i: nat, x0: byte, x1: byte, x2: byte, x3: byte, x4: byte, x5: byte, x6: byte, x7: byte, x8: byte)
    requires Alpha(i) == x0
    requires Shifted(x0) == x1 && Shifted(x1) == x2 && Shifted(x2) == x3 && Shifted(x3) == x4
    requires Shifted(x4) == x5 && Shifted(x5) == x6 && Shifted(x6) == x7 && Shifted(x7) == x8
    requires x0 != 1 && x1 != 1 && x2 != 1 && x3 != 1 && x4 != 1 && x5 != 1 && x6 != 1 && x7 != 1
    ensures Alpha(i + 6) == x6 && Alpha(i + 8) == x8
    ensures forall k :: i <= k < i + 8 ==> Alpha(k) != 1
  {
    hide Xtime, Shifted;
    XtimeShifted(x0); XtimeShifted(x1); XtimeShifted(x2); XtimeShifted(x3);
    XtimeShifted(x4); XtimeShifted(x5); XtimeShifted(x6); XtimeShifted(x7);
    assert Alpha(i + 1) == x1;
    assert Alpha(i + 2) == x2;
    assert Alpha(i + 3) == x3;
    assert Alpha(i + 4) == x4;
    assert Alpha(i + 5) == x5;
    assert Alpha(i + 6) == x6;
    assert Alpha(i + 7) == x7;
    assert Alpha(i + 8) == x8;
  }

  lemma ExpRows0()
    requires Alpha(1) == 2
    ensures Alpha(33) == 39
    ensures forall k :: 1 <= k < 33 ==> Alpha(k) != 1
  {
    hide Alpha;
    ExpRow(1, 2, 4, 8, 16, 32, 64, 128, 29, 58);
    ExpRow(9, 58, 116, 232, 205, 135, 19, 38, 76, 152);
    ExpRow(17, 152, 45, 90, 180, 117, 234, 201, 143, 3);
    ExpRow(25, 3, 6, 12, 24, 48, 96, 192, 157, 39);
  }

  lemma ExpRows1()
    requires Alpha(33) == 39
    ensures Alpha(65) == 190
    ensures forall k :: 33 <= k < 65 ==> Alpha(k) != 1
  {
    hide Alpha;
    ExpRow(33, 39, 78, 156, 37, 74, 148, 53, 106, 212);
    ExpRow(41, 212, 181, 119, 238, 193, 159, 35, 70, 140);
    ExpRow(49, 140, 5, 10, 20, 40, 80, 160, 93, 186);
    ExpRow(57, 186, 105, 210, 185, 111, 222, 161, 95, 190);
  }

  lemma ExpRows2()
    requires Alpha(65) == 190
    ensures Alpha(97) == 175
    ensures forall k :: 65 <= k < 97 ==> Alpha(k) != 1
  {
    hide Alpha;
    ExpRow(65, 190, 97, 194, 153, 47, 94, 188, 101, 202);
    ExpRow(73, 202, 137, 15, 30, 60, 120, 240, 253, 231);
    ExpRow(81, 231, 211, 187, 107, 214, 177, 127, 254, 225);
    ExpRow(89, 225, 223, 163, 91, 182, 113, 226, 217, 175);
  }

  lemma ExpRows3()
    requires Alpha(97) == 175
    ensures Alpha(129) == 23
    ensures forall k :: 97 <= k < 129 ==> Alpha(k) != 1
  {
    hide Alpha;
    ExpRow(97, 175, 67, 134, 17, 34, 68, 136, 13, 26);
    ExpRow(105, 26, 52, 104, 208, 189, 103, 206, 129, 31);
    ExpRow(113, 31, 62, 124, 248, 237, 199, 147, 59, 118);
    ExpRow(121, 118, 236, 197, 151, 51, 102, 204, 133, 23);
  }

  lemma ExpRows4()
    requires Alpha(129) == 23
    ensures Alpha(161) == 209
    ensures forall k :: 129 <= k < 161 ==> Alpha(k) != 1
  {
    hide Alpha;
    ExpRow(129, 23, 46, 92, 184, 109, 218, 169, 79, 158);
    ExpRow(137, 158, 33, 66, 132, 21, 42, 84, 168, 77);
    ExpRow(145, 77, 154, 41, 82, 164, 85, 170, 73, 146);
    ExpRow(153, 146, 57, 114, 228, 213, 183, 115, 230, 209);
  }

  lemma ExpRows5()
    requires Alpha(161) == 209
    ensures Alpha(193) == 25
    ensures forall k :: 161 <= k < 193 ==> Alpha(k) != 1
  {
    hide Alpha;
    ExpRow(161, 209, 191, 99, 198, 145, 63, 126, 252, 229);
    ExpRow(169, 229, 215, 179, 123, 246, 241, 255, 227, 219);
    ExpRow(177, 219, 171, 75, 150, 49, 98, 196, 149, 55);
    ExpRow(185, 55, 110, 220, 165, 87, 174, 65, 130, 25);
  }

  lemma ExpRows6()
    requires Alpha(193) == 25
    ensures Alpha(225) == 36
    ensures forall k :: 193 <= k < 225 ==> Alpha(k) != 1
  {
    hide Alpha;
    ExpRow(193, 25, 50, 100, 200, 141, 7, 14, 28, 56);
    ExpRow(201, 56, 112, 224, 221, 167, 83, 166, 81, 162);
    ExpRow(209, 162, 89, 178, 121, 242, 249, 239, 195, 155);
    ExpRow(217, 155, 43, 86, 172, 69, 138, 9, 18, 36);
  }

  lemma ExpRows7()
    requires Alpha(225) == 36
    ensures Alpha(255) == 1
    ensures forall k :: 225 <= k < 255 ==> Alpha(k) != 1
  {
    hide Alpha;
    ExpRow(225, 36, 72, 144, 61, 122, 244, 245, 247, 243);
    ExpRow(233, 243, 251, 235, 203, 139, 11, 22, 44, 88);
    ExpRow(241, 88, 176, 125, 250, 233, 207, 131, 27, 54);
    ExpRow(247, 131, 27, 54, 108, 216, 173, 71, 142, 1);
  }

  /** The generator has order exactly 255: the register runs through 255 values before it is 1 again. */
  lemma AlphaOrder()
    ensures Alpha(255) == 1
    ensures forall k :: 0 < k < 255 ==> Alpha(k) != 1
  {
    assert Alpha(1) == 2;
    hide Alpha;
    ExpRows0(); ExpRows1(); ExpRows2(); ExpRows3(); ExpRows4(); ExpRows5(); ExpRows6(); ExpRows7();
  }

  lemma {:induction false} AlphaNonZero(i: nat)
    ensures Alpha(i) != 0
  {
    if i > 0 {
      AlphaNonZero(i - 1);
      if Alpha(i - 1) >= 128 {
        assert Xor(2 * Alpha(i - 1), 0x11D) % 2 == 1;
      }
    }
  }

  lemma AlphaWraps(i: nat)
    ensures Alpha(i + 255) == Alpha(i)
  {
    hide *;
    AlphaOrder();
    AlphaAdd(i, 255);
    MulOne(Alpha(i));
  }

  /** Walking backwards: equal register values stay equal one step earlier. */
  lemma XtimeInjective(a: byte, b: byte)
    requires Xtime(a) == Xtime(b)
    ensures a == b
  {
    hide Xor;
    XtimeAdd(a, b);
    AddCancel(Xtime(a), Xtime(b));
    var d := Add(a, b);
    assert Xtime(d) == 0;
    if d >= 128 {
      XorBits(d, 0, 142, 1);
      assert false;
    }
    AddCancel(a, b);
  }

  lemma {:induction false} AlphaInjective(i: nat, j: nat)
    requires i < j < i + 255
    ensures Alpha(i) != Alpha(j)
  {
    if i == 0 {
      AlphaOrder();
    } else if Alpha(i) == Alpha(j) {
      XtimeInjective(Alpha(i - 1), Alpha(j - 1));
      AlphaInjective(i - 1, j - 1);
    }
  }

  function PowersBelow(n: nat): set<byte> {
    set i | 0 <= i < n :: Alpha(i)
  }

  lemma {:induction false} PowersBelowSize(n: nat)
    requires n <= 255
    ensures |PowersBelow(n)| == n
  {
    if n > 0 {
      PowersBelowSize(n - 1);
      assert PowersBelow(n) == PowersBelow(n - 1) + {Alpha(n - 1)};
      forall i | 0 <= i < n - 1 ensures Alpha(i) != Alpha(n - 1) {
        AlphaInjective(i, n - 1);
      }
    } else {
      assert PowersBelow(n) == {};
    }
  }

  lemma {:induction false} BytesFromOneSize(n: nat, s: set<byte>)
    requires n < 256 && forall x :: x in s ==> 0 < x <= n
    ensures |s| <= n
  {
    if n == 0 {
      assert s == {};
    } else {
      BytesFromOneSize(n - 1, s - {n});
      assert s <= (s - {n}) + {n};
    }
  }

  /** Every nonzero byte is a power of the generator. */
  lemma AlphaOnto(a: byte)
    requires a != 0
    ensures exists i :: 0 <= i < 255 && Alpha(i) == a
  {
    var s := PowersBelow(255);
    PowersBelowSize(255);
    if a !in s {
      forall x | x in s + {a} ensures 0 < x <= 255 {
        if x in s {
          var i: nat :| i < 255 && Alpha(i) == x;
          AlphaNonZero(i);
        }
      }
      BytesFromOneSize(255, s + {a});
    }
  }

  /** The exponent of a nonzero byte. */
  ghost function Log(a: byte): (i: nat)
    requires a != 0
    ensures i < 255 && Alpha(i) == a
  {
    AlphaOnto(a);
    var i: nat :| i < 255 && Alpha(i) == a;
    i
  }

  /** The multiplicative inverse; by convention the inverse of 0 is 0 (gf256.hpp). */
  ghost function Inv(a: byte): byte {
    if a == 0 then 0 else Alpha(255 - Log(a))
  }

  lemma MulInv(a: byte)
    requires a != 0
    ensures Mul(a, Inv(a)) == 1 && Inv(a) != 0
  {
    var i := Log(a);
    AlphaAdd(i, 255 - i);
    AlphaOrder();
    AlphaNonZero(255 - i);
  }

  /** There are no zero divisors. */
  lemma MulNonZero(a: byte, b: byte)
    ensures Mul(a, b) == 0 <==> a == 0 || b == 0
  {
    hide *;
    if a == 0 || b == 0 {
      MulZero(a);
      MulZero(b);
    } else if Mul(a, b) == 0 {
      MulInv(a);
      MulComm(a, Inv(a));
      MulAssoc(Inv(a), a, b);
      MulOne(b);
      MulZero(Inv(a));
    }
  }

  /** a to the power e. */
  function Power(a: byte, e: nat): byte {
    if e == 0 then 1 else Mul(a, Power(a, e - 1))
  }

  lemma {:induction false} PowerOfAlpha(i: nat, e: nat)
    ensures Power(Alpha(i), e) == Alpha(i * e)
    decreases e
  {
    hide Alpha, Mul;
    ProductStep(i, e);
    if e == 0 {
      AlphaOfZero();
    } else {
      PowerOfAlpha(i, e - 1);
      AlphaAdd(i, i * (e - 1));
    }
  }

  lemma ProductStep(i: nat, e: nat)
    ensures if e == 0 then i * e == 0 else i + i * (e - 1) == i * e
  {}

  lemma AlphaOfZero()
    ensures Alpha(0) == 1
  {}

  lemma {:induction false} AlphaModulo(n: nat)
    ensures Alpha(n % 255) == Alpha(n)
  {
    hide *;
    if n >= 255 {
      AlphaModulo(n - 255);
      AlphaWraps(n - 255);
    }
  }
}
