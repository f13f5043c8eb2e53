/**
 The bit reader of src/video/video_encoder.cpp and unsigned Exp-Golomb codes (ITU-T H.264,
 section 9.1).
 */
module ExpGolomb {
  import opened Gf256
  import opened Numbers
  import opened Wrappers

  type Bits = seq<nat>

  const UINT32: nat := 0x1_0000_0000

  function Pow2(n: nat): (r: nat)
    ensures r > 0
  {
    if n == 0 then 1 else 2 * Pow2(n - 1)
  }

  /** Bit k of the data, most significant first. */
  function BitOf(data: seq<byte>, k: nat): nat
    requires k < 8 * |data|
  {
    data[k / 8] / Pow2(7 - k % 8) % 2
  }

  function Stream(data: seq<byte>): (bits: Bits)
    ensures |bits| == 8 * |data|
    ensures forall k :: 0 <= k < |bits| ==> bits[k] == BitOf(data, k) < 2
  {
    seq(8 * |data|, k requires 0 <= k < 8 * |data| => BitOf(data, k))
  }

  /** The number a string of bits denotes. */
  function Value(bits: Bits): nat {
    if |bits| == 0 then 0 else 2 * Value(bits[..|bits| - 1]) + bits[|bits| - 1]
  }

  /** The eight bits of a byte are its binary digits, the highest first. */
  lemma BitsOfByte(data: seq<byte>, i: nat)
    requires i < |data|
    ensures Value(Stream(data)[8 * i..8 * i + 8]) == data[i]
  {
    UpperBits(data, i, 8);
  }

  lemma {:induction false} UpperBits(data: seq<byte>, i: nat, n: nat)
    requires i < |data| && n <= 8
    ensures Value(Stream(data)[8 * i..8 * i + n]) == data[i] / Pow2(8 - n)
  {
    hide *;
    if n == 0 {
      Pow2Of8();
      assert Stream(data)[8 * i..8 * i] == [];
      assert Value([]) == 0 by { NoBits(); }
    } else {
      UpperBits(data, i, n - 1);
      var bits, k := Stream(data), 8 * i + n - 1;
      ValueSnoc(bits, 8 * i, k);
      BitInByte(data, i, n - 1);
      assert Pow2(8 - (n - 1)) == 2 * Pow2(8 - n) by { Pow2Step(8 - n); }
      Halves(data[i], Pow2(8 - n));
    }
  }

  lemma NoBits()
    ensures Value([]) == 0
  {}

  lemma Pow2Step(n: nat)
    ensures Pow2(n + 1) == 2 * Pow2(n)
  {}

  lemma BitInByte(data: seq<byte>, i: nat, j: nat)
    requires i < |data| && j < 8
    ensures Stream(data)[8 * i + j] == data[i] / Pow2(7 - j) % 2
  {
    hide Pow2;
    var k := 8 * i + j;
    assert k / 8 == i && k % 8 == j;
  }

  lemma Pow2Of8()
    ensures Pow2(8) == 256
  {
    assert Pow2(4) == 16;
  }

  lemma Halves(b: nat, p: nat)
    requires p > 0
    ensures b / p == 2 * (b / (2 * p)) + b / p % 2
  {
    var q := b / p;
    QuotientRemainder(b, p);
    QuotientRemainder(q, 2);
    assert b == (q / 2) * (2 * p) + ((q % 2) * p + b % p);
    MulLe(q % 2, 1, p);
    DivModUnique(b, 2 * p, q / 2, (q % 2) * p + b % p);
  }

  ghost predicate Binary(bits: Bits) {
    forall k :: 0 <= k < |bits| ==> bits[k] < 2
  }

  /** How many zeros stand at pos. */
  function ZerosAt(bits: Bits, pos: nat): (n: nat)
    requires pos <= |bits|
    ensures pos + n <= |bits| && (forall k :: pos <= k < pos + n ==> bits[k] == 0)
    ensures pos + n < |bits| ==> bits[pos + n] != 0
    decreases |bits| - pos
  {
    if pos < |bits| && bits[pos] == 0 then 1 + ZerosAt(bits, pos + 1) else 0
  }

  /** The code read at pos, and where reading stops. */
  function ReadAt(bits: Bits, pos: nat): (Option<nat>, nat)
    requires pos <= |bits|
  {
    var z := ZerosAt(bits, pos);
    if z > 31 then (None, pos + 32)
    else if pos + z + 1 + z > |bits| then (None, |bits|)
    else (Some(Pow2(z) - 1 + Value(bits[pos + z + 1..pos + z + 1 + z])), pos + z + 1 + z)
  }

  class BitReader {
    const data: seq<byte>
    var bitpos: nat

    ghost predicate Valid()
      reads this
    {
      bitpos <= 8 * |data|
    }

    constructor (data: seq<byte>)
      ensures Valid() && this.data == data && bitpos == 0
    {
      this.data, bitpos := data, 0;
    }

    method ReadBit() returns (out: Option<nat>)
      requires Valid()
      modifies `bitpos
      ensures Valid()
      ensures old(bitpos) < 8 * |data| ==> out == Some(Stream(data)[old(bitpos)]) && bitpos == old(bitpos) + 1
      ensures old(bitpos) == 8 * |data| ==> out == None && bitpos == old(bitpos)
    {
      hide Pow2;
      if bitpos >= 8 * |data| {
        return None;
      }
      out := Some(BitOf(data, bitpos));
      bitpos := bitpos + 1;
    }

    /** The next n bits as a number, in 32-bit arithmetic. */
    method ReadBits(n: nat) returns (out: Option<nat>)
      requires Valid()
      modifies `bitpos
      ensures Valid()
      ensures old(bitpos) + n <= 8 * |data| ==>
        out == Some(Value(Stream(data)[old(bitpos)..old(bitpos) + n]) % UINT32) && bitpos == old(bitpos) + n
      ensures old(bitpos) + n > 8 * |data| ==> out == None && bitpos == 8 * |data|
    {
      hide Stream, Value, BitOf;
      var value := 0;
      ghost var bits := Stream(data);
      ValueOfNothing(bits, bitpos);
      for i := 0 to n
        invariant Valid() && bitpos == old(bitpos) + i
        invariant value == Value(bits[old(bitpos)..bitpos]) % UINT32
      {
        var b := ReadBit();
        if b.None? {
          return None;
        }
        ValueSnoc(bits, old(bitpos), bitpos - 1);
        WrapStep(Value(bits[old(bitpos)..bitpos - 1]), b.value);
        value := (value * 2 + b.value) % UINT32;
      }
      out := Some(value);
    }

    /** The leading zeros of a code and the one behind them; fails at the end or at 32 zeros. */
    method SkipZeros() returns (zeros: Option<nat>)
      requires Valid()
      modifies `bitpos
      ensures Valid()
      ensures var z := ZerosAt(Stream(data), old(bitpos));
              if z > 31 then zeros == None && bitpos == old(bitpos) + 32
              else if old(bitpos) + z == 8 * |data| then zeros == None && bitpos == 8 * |data|
              else zeros == Some(z) && bitpos == old(bitpos) + z + 1
    {
      hide Stream, BitOf;
      ghost var bits := Stream(data);
      var count := 0;
      while true
        invariant Valid() && count <= 31 && bitpos == old(bitpos) + count
        invariant ZerosAt(bits, old(bitpos)) == count + ZerosAt(bits, bitpos)
        decreases |bits| - bitpos
      {
        var b := ReadBit();
        if b.None? {
          return None;
        }
        if b.value != 0 {
          return Some(count);
        }
        count := count + 1;
        if count > 31 {
          return None;
        }
      }
    }

    /** An Exp-Golomb code; on failure, only the position says how far reading got. */
    method ReadUE() returns (out: Option<nat>)
      requires Valid()
      modifies `bitpos
      ensures Valid() && (out, bitpos) == ReadAt(Stream(data), old(bitpos))
    {
      hide Stream, Value, Pow2, BitOf, ZerosAt;
      ghost var bits, start := Stream(data), bitpos;
      var z := SkipZeros();
      if z.None? {
        return None;
      }
      var zeros, suffix := z.value, 0;
      ValueOfNothing(bits, bitpos);
      if zeros > 0 {
        var s := ReadBits(zeros);
        if s.None? {
          return None;
        }
        suffix := s.value;
      }
      ValueBound(bits[start + zeros + 1..start + zeros + 1 + zeros]);
      PowBound(zeros);
      out := Some((Pow2(zeros) - 1 + suffix) % UINT32);
    }
  }

  lemma ValueOfNothing(bits: Bits, i: nat)
    requires i <= |bits|
    ensures Value(bits[i..i]) == 0
  {}

  lemma ValueSnoc(bits: Bits, i: nat, j: nat)
    requires i <= j < |bits|
    ensures Value(bits[i..j + 1]) == 2 * Value(bits[i..j]) + bits[j]
  {
    assert bits[i..j + 1][..j - i] == bits[i..j];
  }

  lemma {:induction false} ValueBound(bits: Bits)
    requires Binary(bits)
    ensures Value(bits) < Pow2(|bits|)
  {
    if |bits| > 0 {
      ValueBound(bits[..|bits| - 1]);
    }
  }

  lemma {:induction false} PowBound(n: nat)
    requires n <= 31
    ensures 2 * Pow2(n) <= UINT32
  {
    PowMono(n, 31);
    PowOf31();
  }

  lemma {:induction false} PowMono(a: nat, b: nat)
    requires a <= b
    ensures Pow2(a) <= Pow2(b)
    decreases b - a
  {
    if a < b {
      PowMono(a, b - 1);
    }
  }

  lemma PowOf31()
    ensures 2 * Pow2(31) == UINT32
  {
    hide Pow2;
    PowPlus4(27);
    PowPlus4(23);
    PowPlus4(19);
    PowPlus4(15);
    PowPlus4(11);
    PowPlus4(7);
    PowPlus4(3);
    PowOf3();
  }

  lemma PowPlus4(n: nat)
    ensures Pow2(n + 4) == 16 * Pow2(n)
  {
    assert Pow2(n + 4) == 2 * Pow2(n + 3);
    assert Pow2(n + 2) == 2 * Pow2(n + 1);
  }

  lemma PowOf3()
    ensures Pow2(3) == 8
  {}

  /** Wrapping after every step is wrapping once. */
  lemma WrapStep(v: nat, b: nat)
    ensures (v % UINT32 * 2 + b) % UINT32 == (2 * v + b) % UINT32
  {
    var q := v / UINT32;
    var low := v % UINT32 * 2 + b;
    assert 2 * v + b == low + 2 * q * UINT32;
    ModStep(low, 2 * q, UINT32);
  }

  // ---- the code --------------------------------------------------------------------------

  /** The n lowest bits of v, most significant first. */
  function Digits(v: nat, n: nat): (bits: Bits)
    ensures |bits| == n && Binary(bits)
  {
    if n == 0 then [] else Digits(v / 2, n - 1) + [v % 2]
  }

  /** The largest k with 2^k <= v. */
  function Log2(v: nat): (k: nat)
    requires v > 0
    ensures Pow2(k) <= v < 2 * Pow2(k)
  {
    if v == 1 then 0 else 1 + Log2(v / 2)
  }

  function Zeros(n: nat): Bits {
    seq(n, _ => 0)
  }

  /** ue(v): k zeros, a one, and v + 1 - 2^k in k bits. */
  function UeCode(v: nat): Bits {
    var k := Log2(v + 1);
    Zeros(k) + [1] + Digits(v + 1 - Pow2(k), k)
  }

  lemma {:induction false} DigitsValue(v: nat, n: nat)
    requires v < Pow2(n)
    ensures Value(Digits(v, n)) == v
    decreases n
  {
    if n > 0 {
      DigitsValue(v / 2, n - 1);
      var d := Digits(v, n);
      assert d[..n - 1] == Digits(v / 2, n - 1);
    }
  }

  lemma {:induction false} ValueDigits(bits: Bits)
    requires Binary(bits)
    ensures Digits(Value(bits), |bits|) == bits
    decreases |bits|
  {
    if |bits| > 0 {
      var init, b := bits[..|bits| - 1], bits[|bits| - 1];
      ValueDigits(init);
      assert Value(bits) / 2 == Value(init) && Value(bits) % 2 == b;
      assert bits == init + [b];
    }
  }

  lemma {:induction false} LogUnique(v: nat, k: nat)
    requires Pow2(k) <= v < 2 * Pow2(k)
    ensures Log2(v) == k
  {
    var l := Log2(v);
    if l < k {
      PowMono(l + 1, k);
    } else if k < l {
      PowMono(k + 1, l);
    }
  }

  /** The value has at most 31 leading zeros in its code exactly when it is at most 2^32 - 2. */
  lemma ShortCode(v: nat)
    ensures Log2(v + 1) <= 31 <==> v <= UINT32 - 2
  {
    var k := Log2(v + 1);
    PowOf31();
    if k <= 31 {
      PowMono(k, 31);
    } else {
      PowMono(32, k);
      assert Pow2(32) == 2 * Pow2(31);
    }
  }

  lemma {:induction false} ZerosCounted(bits: Bits, pos: nat, k: nat)
    requires pos + k < |bits| && (forall i :: pos <= i < pos + k ==> bits[i] == 0) && bits[pos + k] != 0
    ensures ZerosAt(bits, pos) == k
    decreases k
  {
    if k > 0 {
      ZerosCounted(bits, pos + 1, k - 1);
    }
  }

  /** Every value up to 2^32 - 2 is read back at every position, advancing by its code's length. */
  lemma ReadInvertsCode(bits: Bits, pos: nat, v: nat)
    requires v <= UINT32 - 2 && pos + |UeCode(v)| <= |bits| && bits[pos..pos + |UeCode(v)|] == UeCode(v)
    ensures ReadAt(bits, pos) == (Some(v), pos + |UeCode(v)|)
  {
    hide Pow2, Digits, Value, Log2;
    var k, code := Log2(v + 1), UeCode(v);
    var slice, digits := bits[pos..pos + |code|], Digits(v + 1 - Pow2(k), k);
    assert |code| == 2 * k + 1;
    assert code[k] == 1 && code[k + 1..] == digits;
    assert forall i :: 0 <= i < |code| ==> bits[pos + i] == code[i];
    forall i | pos <= i < pos + k ensures bits[i] == 0 {
      assert bits[pos + (i - pos)] == code[i - pos];
    }
    ZerosCounted(bits, pos, k);
    ShortCode(v);
    assert bits[pos + k + 1..pos + k + 1 + k] == slice[k + 1..];
    DigitsValue(v + 1 - Pow2(k), k);
  }

  /** Conversely, whatever is read was coded there: the reader accepts exactly the codes. */
  lemma ReadOnlyCodes(bits: Bits, pos: nat)
    requires Binary(bits) && pos <= |bits| && ReadAt(bits, pos).0.Some?
    ensures var (v, end) := ReadAt(bits, pos);
            v.value <= UINT32 - 2 && end == pos + |UeCode(v.value)| && bits[pos..end] == UeCode(v.value)
  {
    hide Pow2, Digits, Value, Log2;
    var (r, end) := ReadAt(bits, pos);
    var v, z := r.value, ZerosAt(bits, pos);
    var suffix := bits[pos + z + 1..pos + z + 1 + z];
    ValueBound(suffix);
    LogUnique(v + 1, z);
    ShortCode(v);
    ValueDigits(suffix);
    assert bits[pos + z] == 1;
    var code := UeCode(v);
    assert code == Zeros(z) + [1] + suffix;
    assert forall i :: 0 <= i < |code| ==> bits[pos + i] == code[i];
  }

  /** In the bytes: a code for v stands at pos if and only if the reader returns v there. */
  lemma ReaderAcceptsExactlyCodes(data: seq<byte>, pos: nat, v: nat)
    requires pos <= 8 * |data|
    ensures ReadAt(Stream(data), pos).0 == Some(v)
            <==> v <= UINT32 - 2 && pos + |UeCode(v)| <= 8 * |data|
                 && Stream(data)[pos..pos + |UeCode(v)|] == UeCode(v)
  {
    hide Stream, UeCode, ReadAt;
    var bits := Stream(data);
    if ReadAt(bits, pos).0 == Some(v) {
      ReadOnlyCodes(bits, pos);
      ReadStops(bits, pos);
    }
    if v <= UINT32 - 2 && pos + |UeCode(v)| <= |bits| && bits[pos..pos + |UeCode(v)|] == UeCode(v) {
      ReadInvertsCode(bits, pos, v);
    }
  }

  lemma ReadStops(bits: Bits, pos: nat)
    requires pos <= |bits|
    ensures ReadAt(bits, pos).1 <= |bits|
  {}
}
