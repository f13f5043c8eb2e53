/**
 The lookup tables of src/udp/gf256.cpp and the operations that read them, proved against
 the table-free field of `Gf256`.
 */
module Gf256Tables {
  import opened Gf256

  lemma FirstAlpha()
    ensures Alpha(0) == 1
  {}

  lemma AlphaNext(i: nat)
    ensures Alpha(i + 1) == Xtime(Alpha(i))
  {}

  lemma AlphaFresh(i: nat)
    requires i < 255
    ensures forall k :: 0 <= k < i ==> Alpha(k) != Alpha(i)
  {
    hide Alpha;
    forall k | 0 <= k < i ensures Alpha(k) != Alpha(i) {
      AlphaInjective(k, i);
    }
  }

  class Tables {
    const logTable: array<byte>
    const expTable: array<byte>
    const mulLut: array2<byte>
    var ready: bool

    ghost predicate Shaped()
    {
      && logTable.Length == 256
      && expTable.Length == 512
      && logTable != expTable
      && mulLut.Length0 == 256 && mulLut.Length1 == 256
    }

    ghost predicate ExpFilled(n: nat)
      reads expTable
      requires Shaped() && n <= 512
    {
      forall k :: 0 <= k < n ==> expTable[k] == Alpha(k)
    }

    ghost predicate LogFilled(n: nat)
      reads logTable
      requires Shaped() && n <= 255
    {
      forall k :: 0 <= k < n ==> logTable[Alpha(k)] == k
    }

    ghost predicate MulFilled(n: nat)
      reads mulLut
      requires Shaped() && n <= 256
    {
      forall a, b :: 0 <= a < n && 0 <= b < 256 ==> mulLut[a, b] == Mul(a, b)
    }

    ghost predicate Valid()
      reads this, logTable, expTable, mulLut
    {
      Shaped() && (ready ==> ExpFilled(512) && LogFilled(255) && MulFilled(256))
    }

    ghost function Repr(): set<object>
    {
      {this, logTable, expTable, mulLut}
    }

    constructor ()
      ensures Valid() && !ready && fresh(Repr())
    {
      logTable := new byte[256];
      expTable := new byte[512];
      mulLut := new byte[256, 256];
      ready := false;
    }

    /** Reading the log table at a nonzero byte gives its exponent. */
    lemma LogOf(a: byte)
      requires Shaped() && LogFilled(255) && a != 0
      ensures logTable[a] < 255 && Alpha(logTable[a]) == a
    {
      AlphaOnto(a);
      var i: nat :| i < 255 && Alpha(i) == a;
      assert logTable[Alpha(i)] == i;
    }

    /** The shift register runs through all powers of the generator, filling exp and log. */
    method FillPowers()
      requires Shaped()
      modifies logTable, expTable
      ensures ExpFilled(255) && LogFilled(255)
    {
      var x: nat := 1;
      hide Xor, Alpha;
      FirstAlpha();
      for i := 0 to 255
        invariant x == Alpha(i)
        invariant ExpFilled(i) && LogFilled(i)
      {
        AlphaFresh(i);
        AlphaNext(i);
        expTable[i] := x;
        logTable[x] := i;
        x := 2 * x;
        if x >= 0x100 {
          x := Xor(x, 0x11D);
        }
      }
    }

    /** exp is repeated so that a sum of two logs needs no reduction. */
    method RepeatExp()
      requires Shaped() && ExpFilled(255)
      modifies expTable
      ensures ExpFilled(512)
    {
      hide Alpha;
      for i := 255 to 512
        invariant ExpFilled(i)
      {
        AlphaWraps(i - 255);
        expTable[i] := expTable[i - 255];
      }
    }

    method Init()
      requires Valid()
      modifies this, logTable, expTable, mulLut
      ensures Valid() && ready
    {
      hide Alpha, Mul;
      ready := false;
      FillPowers();
      RepeatExp();
      for coef := 0 to 256
        invariant ExpFilled(512) && LogFilled(255)
        invariant MulFilled(coef)
      {
        for value := 0 to 256
          invariant ExpFilled(512) && LogFilled(255)
          invariant MulFilled(coef)
          invariant forall b :: 0 <= b < value ==> mulLut[coef, b] == Mul(coef, b)
        {
          if coef == 0 || value == 0 {
            MulZero(coef);
            MulZero(value);
            mulLut[coef, value] := 0;
          } else {
            LogOf(coef);
            LogOf(value);
            AlphaAdd(logTable[coef], logTable[value]);
            mulLut[coef, value] := expTable[logTable[coef] as nat + logTable[value] as nat];
          }
        }
      }
      ready := true;
    }

    /** The accessor `tables()`: fills the tables on first use. */
    method EnsureReady()
      requires Valid()
      modifies this, logTable, expTable, mulLut
      ensures Valid() && ready
    {
      if !ready {
        Init();
      }
    }

    method MulBytes(a: byte, b: byte) returns (r: byte)
      requires Valid()
      modifies this, logTable, expTable, mulLut
      ensures Valid() && r == Mul(a, b)
    {
      EnsureReady();
      r := mulLut[a, b];
    }

    method InvByte(a: byte) returns (r: byte)
      requires Valid()
      modifies this, logTable, expTable, mulLut
      ensures Valid()
      ensures a != 0 ==> Mul(a, r) == 1
      ensures r == Inv(a)
    {
      if a == 0 {
        return 0;
      }
      EnsureReady();
      LogOf(a);
      var la := logTable[a];
      r := expTable[255 - la];
      MulInv(a);
      LogUnique(a, la);
    }

    method PowByte(a: byte, e: nat) returns (r: byte)
      requires Valid() && e < 0x10000
      modifies this, logTable, expTable, mulLut
      ensures Valid() && r == Power(a, e)
    {
      hide Mul, Alpha;
      if e == 0 {
        return 1;
      }
      if a == 0 {
        MulZero(Power(a, e - 1));
        return 0;
      }
      EnsureReady();
      LogOf(a);
      var idx := (logTable[a] * e) % 255;
      r := expTable[idx];
      PowerOfAlpha(logTable[a], e);
      AlphaModulo(logTable[a] * e);
    }

    /** dst[i] ^= coef * src[i] for the first `bytes` positions. */
    method MulAdd(coef: byte, src: seq<byte>, dst: array<byte>, bytes: nat)
      requires Valid() && dst !in {logTable, expTable}
      requires bytes <= |src| && bytes <= dst.Length
      modifies this, logTable, expTable, mulLut, dst
      ensures Valid()
      ensures forall i :: 0 <= i < bytes ==> dst[i] == Add(old(dst[i]), Mul(coef, src[i]))
      ensures forall i :: bytes <= i < dst.Length ==> dst[i] == old(dst[i])
    {
      hide Mul, Alpha, Xor;
      if coef == 0 || bytes == 0 {
        forall i | 0 <= i < bytes ensures dst[i] == Add(dst[i], Mul(coef, src[i])) {
          MulZero(src[i]);
          AddZero(dst[i]);
        }
        return;
      }
      if coef == 1 {
        for i := 0 to bytes
          invariant Valid()
          invariant forall k :: 0 <= k < i ==> dst[k] == Add(old(dst[k]), Mul(coef, src[k]))
          invariant forall k :: i <= k < dst.Length ==> dst[k] == old(dst[k])
        {
          MulOne(src[i]);
          dst[i] := Add(dst[i], src[i]);
        }
        return;
      }
      EnsureReady();
      for i := 0 to bytes
        invariant Valid() && ready
        invariant forall k :: 0 <= k < i ==> dst[k] == Add(old(dst[k]), Mul(coef, src[k]))
        invariant forall k :: i <= k < dst.Length ==> dst[k] == old(dst[k])
      {
        dst[i] := Add(dst[i], mulLut[coef, src[i]]);
      }
    }
  }

  lemma LogUnique(a: byte, i: nat)
    requires a != 0 && i < 255 && Alpha(i) == a
    ensures Log(a) == i
  {
    hide Alpha;
    if Log(a) < i {
      AlphaInjective(Log(a), i);
    } else if i < Log(a) {
      AlphaInjective(i, Log(a));
    }
  }
}
