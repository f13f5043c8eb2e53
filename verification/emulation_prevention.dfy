/**
 Removal of emulation-prevention bytes, rbspPrefix of src/video/video_encoder.cpp, against the
 insertion an encoder performs (ITU-T H.264, sections 7.3.1 and 7.4.1).
 */
module EmulationPrevention {
  import opened Gf256
  import opened Numbers

  function Count(zeros: nat, b: byte): nat {
    if b == 0 then zeros + 1 else 0
  }

  /** What is copied when zeros zero bytes have just been copied and room for cap more is left. */
  function Strip(src: seq<byte>, zeros: nat, cap: nat): (r: seq<byte>)
    ensures |r| <= cap && |r| <= |src|
    decreases |src|
  {
    if |src| == 0 || cap == 0 then []
    else if zeros >= 2 && src[0] == 3 then Strip(src[1..], 0, cap)
    else [src[0]] + Strip(src[1..], Count(zeros, src[0]), cap - 1)
  }

  /** rbspPrefix: fills dst from the front and returns how much it wrote. */
  method RbspPrefix(src: seq<byte>, dst: array<byte>) returns (w: nat)
    modifies dst
    ensures w <= dst.Length && dst[..w] == Strip(src, 0, dst.Length)
    ensures dst[w..] == old(dst[w..])
  {
    hide Strip;
    w := 0;
    var zeroCount := 0;
    var i := 0;
    assert src[0..] == src && dst[..0] + Strip(src, 0, dst.Length) == Strip(src, 0, dst.Length);
    while i < |src| && w < dst.Length
      invariant i <= |src| && w <= dst.Length
      invariant dst[..w] + Strip(src[i..], zeroCount, dst.Length - w) == Strip(src, 0, dst.Length)
      invariant dst[w..] == old(dst[..])[w..]
    {
      var b := src[i];
      StripStep(dst[..w], src, i, zeroCount, dst.Length - w);
      if zeroCount >= 2 && b == 3 {
        zeroCount := 0;
      } else {
        ghost var before := dst[..w];
        dst[w] := b;
        assert dst[..w + 1] == before + [b];
        w := w + 1;
        zeroCount := if b == 0 then zeroCount + 1 else 0;
      }
      i := i + 1;
    }
    StripNothing(src[i..], zeroCount, dst.Length - w);
    assert dst[..w] + [] == dst[..w];
  }

  lemma StripStep(done: seq<byte>, src: seq<byte>, i: nat, zeros: nat, cap: nat)
    requires i < |src| && cap > 0
    ensures done + Strip(src[i..], zeros, cap)
         == if zeros >= 2 && src[i] == 3 then done + Strip(src[i + 1..], 0, cap)
            else done + [src[i]] + Strip(src[i + 1..], Count(zeros, src[i]), cap - 1)
  {
    var rest := src[i..];
    assert rest[0] == src[i] && rest[1..] == src[i + 1..];
    if !(zeros >= 2 && src[i] == 3) {
      var tail := Strip(src[i + 1..], Count(zeros, src[i]), cap - 1);
      assert Strip(rest, zeros, cap) == [src[i]] + tail;
      assert done + ([src[i]] + tail) == done + [src[i]] + tail;
    }
  }

  lemma StripNothing(src: seq<byte>, zeros: nat, cap: nat)
    requires src == [] || cap == 0
    ensures Strip(src, zeros, cap) == []
  {}

  // ---- what is left, on every input ------------------------------------------------------

  /** A byte to remove: a 3 directly behind two zero bytes, whatever follows it. */
  predicate IsEmulation(src: seq<byte>, i: nat) {
    2 <= i < |src| && src[i] == 3 && src[i - 1] == 0 && src[i - 2] == 0
  }

  /** The other bytes from i on. */
  function Others(src: seq<byte>, i: nat): seq<byte>
    requires i <= |src|
    decreases |src| - i
  {
    if i == |src| then []
    else if IsEmulation(src, i) then Others(src, i + 1)
    else [src[i]] + Others(src, i + 1)
  }

  function UpTo(s: seq<byte>, cap: nat): seq<byte> {
    if |s| <= cap then s else s[..cap]
  }

  /** The zeros counted are the ones directly in front, as far as it matters. */
  ghost predicate ZerosInFront(src: seq<byte>, i: nat, zeros: nat) {
    && i <= |src|
    && (zeros >= 1 <==> i >= 1 && src[i - 1] == 0)
    && (zeros >= 2 <==> i >= 2 && src[i - 1] == 0 && src[i - 2] == 0)
  }

  /** Well-formed or not: exactly the emulation-prevention bytes are removed, as far as there is room. */
  lemma StripRemovesExactly(src: seq<byte>, cap: nat)
    ensures Strip(src, 0, cap) == UpTo(Others(src, 0), cap)
  {
    StripFrom(src, 0, 0, cap);
    assert src[0..] == src;
  }

  lemma {:induction false} StripFrom(src: seq<byte>, i: nat, zeros: nat, cap: nat)
    requires ZerosInFront(src, i, zeros)
    ensures Strip(src[i..], zeros, cap) == UpTo(Others(src, i), cap)
    decreases |src| - i
  {
    if i == |src| || cap == 0 {
      StripNothing(src[i..], zeros, cap);
    } else {
      StripStep([], src, i, zeros, cap);
      if IsEmulation(src, i) {
        StripFrom(src, i + 1, 0, cap);
      } else {
        StripFrom(src, i + 1, Count(zeros, src[i]), cap - 1);
      }
      hide Strip;
    }
  }

  // ---- the encoder's side ----------------------------------------------------------------

  /** A byte of at most 3 behind two zeros gets an emulation-prevention byte in front of it. */
  function Escape(rbsp: seq<byte>, zeros: nat): seq<byte>
    decreases |rbsp|
  {
    if |rbsp| == 0 then []
    else if zeros >= 2 && rbsp[0] <= 3 then [3, rbsp[0]] + Escape(rbsp[1..], Count(0, rbsp[0]))
    else [rbsp[0]] + Escape(rbsp[1..], Count(zeros, rbsp[0]))
  }

  /** A payload that ends in a zero byte gets one more, at its end. */
  function EscapeUnit(rbsp: seq<byte>): seq<byte> {
    Escape(rbsp, 0) + (if |rbsp| > 0 && rbsp[|rbsp| - 1] == 0 then [3] else [])
  }

  /** The zeros counted behind the last inserted byte once the payload is through. */
  function Pending(rbsp: seq<byte>, zeros: nat): nat
    decreases |rbsp|
  {
    if |rbsp| == 0 then zeros
    else Pending(rbsp[1..], if zeros >= 2 && rbsp[0] <= 3 then Count(0, rbsp[0]) else Count(zeros, rbsp[0]))
  }

  function TrailingZeros(rbsp: seq<byte>): nat {
    if |rbsp| == 0 || rbsp[|rbsp| - 1] != 0 then 0 else TrailingZeros(rbsp[..|rbsp| - 1]) + 1
  }

  /** What removal makes of an escaped payload and whatever follows it. */
  function Stripped(rbsp: seq<byte>, zeros: nat, cap: nat, tail: seq<byte>): seq<byte> {
    if |rbsp| <= cap then rbsp + Strip(tail, Pending(rbsp, zeros), cap - |rbsp|) else rbsp[..cap]
  }

  lemma StrippedFront(b: byte, rest: seq<byte>, zeros: nat, cap: nat, tail: seq<byte>)
    requires cap > 0
    ensures Stripped([b] + rest, zeros, cap, tail)
         == [b] + Stripped(rest, if zeros >= 2 && b <= 3 then Count(0, b) else Count(zeros, b), cap - 1, tail)
  {
    hide Strip;
    var rbsp := [b] + rest;
    assert rbsp[1..] == rest;
    var zeros' := if zeros >= 2 && b <= 3 then Count(0, b) else Count(zeros, b);
    if |rbsp| <= cap {
      var left := Strip(tail, Pending(rest, zeros'), cap - |rbsp|);
      assert ([b] + rest) + left == [b] + (rest + left);
    } else {
      assert rbsp[..cap] == [b] + rest[..cap - 1];
    }
  }

  lemma StripFront(b: byte, e: seq<byte>, zeros: nat, cap: nat)
    requires cap > 0
    ensures Strip([b] + e, zeros, cap)
         == if zeros >= 2 && b == 3 then Strip(e, 0, cap) else [b] + Strip(e, Count(zeros, b), cap - 1)
  {
    assert ([b] + e)[1..] == e;
  }

  /** How insertion starts. */
  lemma EscapeFront(b: byte, rest: seq<byte>, zeros: nat, tail: seq<byte>)
    ensures Escape([b] + rest, zeros) + tail
         == if zeros >= 2 && b <= 3 then [3] + ([b] + (Escape(rest, Count(0, b)) + tail))
            else [b] + (Escape(rest, Count(zeros, b)) + tail)
  {
    assert ([b] + rest)[1..] == rest;
  }

  lemma {:induction false} StripWithTail(rbsp: seq<byte>, zeros: nat, cap: nat, tail: seq<byte>)
    ensures Strip(Escape(rbsp, zeros) + tail, zeros, cap) == Stripped(rbsp, zeros, cap, tail)
    decreases |rbsp|
  {
    if |rbsp| == 0 {
      assert Escape(rbsp, zeros) + tail == tail;
      assert rbsp + Strip(tail, zeros, cap) == Strip(tail, zeros, cap);
    } else if cap > 0 {
      hide Strip, Stripped, Escape;
      var b, rest := rbsp[0], rbsp[1..];
      assert rbsp == [b] + rest;
      var zeros' := if zeros >= 2 && b <= 3 then Count(0, b) else Count(zeros, b);
      var e := Escape(rest, zeros') + tail;
      EscapeFront(b, rest, zeros, tail);
      StrippedFront(b, rest, zeros, cap, tail);
      StripWithTail(rest, zeros', cap - 1, tail);
      if zeros >= 2 && b <= 3 {
        StripFront(3, [b] + e, zeros, cap);
        StripFront(b, e, 0, cap);
      } else {
        StripFront(b, e, zeros, cap);
      }
    }
  }

  /** Removal inverts insertion, up to the capacity, for every payload. */
  lemma StripInvertsEscape(rbsp: seq<byte>, cap: nat)
    ensures Strip(Escape(rbsp, 0), 0, cap) == rbsp[..Min(cap, |rbsp|)]
  {
    StripWithTail(rbsp, 0, cap, []);
    assert Escape(rbsp, 0) + [] == Escape(rbsp, 0);
    assert rbsp + [] == rbsp;
  }

  /** Insertion splits a run of zeros in pairs, so an odd run leaves one zero uncovered. */
  lemma {:induction false} PendingParity(rbsp: seq<byte>)
    ensures Pending(rbsp, 0) <= 2
    ensures TrailingZeros(rbsp) % 2 == Pending(rbsp, 0) % 2
    ensures Pending(rbsp, 0) == 0 <==> TrailingZeros(rbsp) == 0
    decreases |rbsp|
  {
    if |rbsp| > 0 {
      var init, b := rbsp[..|rbsp| - 1], rbsp[|rbsp| - 1];
      PendingParity(init);
      PendingSnoc(init, 0, b);
      assert rbsp == init + [b];
    }
  }

  lemma {:induction false} PendingSnoc(rbsp: seq<byte>, zeros: nat, b: byte)
    ensures var p := Pending(rbsp, zeros);
            Pending(rbsp + [b], zeros) == if p >= 2 && b <= 3 then Count(0, b) else Count(p, b)
    decreases |rbsp|
  {
    if |rbsp| == 0 {
      assert rbsp + [b] == [b] && [b][1..] == [];
    } else {
      assert (rbsp + [b])[1..] == rbsp[1..] + [b];
      PendingSnoc(rbsp[1..], if zeros >= 2 && rbsp[0] <= 3 then Count(0, rbsp[0]) else Count(zeros, rbsp[0]), b);
    }
  }

  /**
   A whole unit's payload comes back, up to the capacity, exactly when it ends in an even number
   of zero bytes or does not fit. Cabac zero words are two bytes, so no encoder ends in an odd one.
   */
  lemma UnitComesBack(rbsp: seq<byte>, cap: nat)
    ensures Strip(EscapeUnit(rbsp), 0, cap) == rbsp[..Min(cap, |rbsp|)]
            <==> TrailingZeros(rbsp) % 2 == 0 || cap <= |rbsp|
  {
    var tail := if |rbsp| > 0 && rbsp[|rbsp| - 1] == 0 then [3] else [];
    StripWithTail(rbsp, 0, cap, tail);
    PendingParity(rbsp);
    var p := Pending(rbsp, 0);
    if |rbsp| <= cap {
      var left := Strip(tail, p, cap - |rbsp|);
      assert tail != [] ==> tail[1..] == [];
      assert left == if tail == [3] && p < 2 && cap > |rbsp| then [3] else [];
      assert (rbsp + left == rbsp) <==> left == [];
      assert rbsp[..|rbsp|] == rbsp;
      assert tail == [3] <==> TrailingZeros(rbsp) > 0;
    }
  }
}
