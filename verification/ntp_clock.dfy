/**
 Audio time stamps: the 64-bit NTP format (RFC 5905, section 6) as src/audio/audio_manager.cpp
 computes with it, and the presentation times of the packets it plays. The quotients the source
 takes in long double are exact floors: every dividend fits the 64-bit mantissa, and no quotient
 lies closer below an integer than its rounding reaches.
 */
module NtpClock {

  const SECOND_NS: nat := 1000000000
  const FRACTIONS: nat := 0x1_0000_0000
  const UINT64: nat := 0x1_0000_0000_0000_0000

  type Ntp = x: nat | x < UINT64

  /** Nanoseconds below a second as a fraction, and back. */
  function ToFraction(ns: nat): nat {
    ns * FRACTIONS / SECOND_NS
  }

  function ToNs(fraction: nat): nat {
    fraction * SECOND_NS / FRACTIONS
  }

  function Seconds(t: Ntp): nat {
    t / FRACTIONS
  }

  function Fraction(t: Ntp): nat {
    t % FRACTIONS
  }

  /** addNsToNtp; seconds beyond 32 bits are shifted out. */
  method AddNsToNtp(base: Ntp, deltaNs: nat) returns (r: Ntp)
    requires deltaNs < UINT64
    ensures r == (base + Offset(deltaNs)) % UINT64
    ensures exists o: nat :: RoundedDown(o, deltaNs, SECOND_NS, FRACTIONS) && r == (base + o) % UINT64
  {
    OffsetRoundsDown(deltaNs);
    var addSeconds, remNs := deltaNs / SECOND_NS, deltaNs % SECOND_NS;
    var addFraction := ToFraction(remNs);
    FractionBound(remNs);
    Parts(base);
    var fraction := Fraction(base) + addFraction;
    var seconds := Seconds(base) + addSeconds;
    hide ToFraction, Seconds, Fraction;
    if fraction >= FRACTIONS {
      fraction := fraction - FRACTIONS;
      seconds := seconds + 1;
    }
    ShiftedSum(seconds, fraction);
    r := seconds % FRACTIONS * FRACTIONS + fraction;
  }

  /** ntpDiffToNs: nothing for a stamp that is not later, else the time between the two in nanoseconds. */
  method NtpDiffToNs(earlier: Ntp, later: Ntp) returns (ns: nat)
    ensures ns == DiffNs(earlier, later)
    ensures later <= earlier ==> ns == 0
    ensures later > earlier ==> RoundedDown(ns, later - earlier, FRACTIONS, SECOND_NS)
  {
    DiffRoundsDown(earlier, later);
    if later <= earlier {
      return 0;
    }
    Parts(earlier);
    Parts(later);
    var secondsDiff: int := Seconds(later) - Seconds(earlier);
    var fractionDiff: int := Fraction(later) - Fraction(earlier);
    if fractionDiff < 0 {
      secondsDiff := secondsDiff - 1;
      fractionDiff := fractionDiff + FRACTIONS;
    }
    var d := later - earlier;
    Split(d, secondsDiff, fractionDiff);
    ns := secondsDiff * SECOND_NS + ToNs(fractionDiff);
  }

  // ---- what they compute -----------------------------------------------------------------

  /** A number of nanoseconds in units of 2^-32 s, rounded down. */
  function Offset(ns: nat): nat {
    ns / SECOND_NS * FRACTIONS + ToFraction(ns % SECOND_NS)
  }

  /** The time from one stamp to a later one, rounded down to nanoseconds. */
  function DiffNs(earlier: Ntp, later: Ntp): nat {
    if later <= earlier then 0
    else (later - earlier) / FRACTIONS * SECOND_NS + ToNs((later - earlier) % FRACTIONS)
  }

  /** q units of 1/to s are n units of 1/from s, rounded down. */
  ghost predicate RoundedDown(q: nat, n: nat, from: nat, to: nat) {
    q * from <= n * to < (q + 1) * from
  }

  /** Taken apart into seconds and fractions or not: the delta is rounded down once. */
  lemma OffsetRoundsDown(ns: nat)
    ensures RoundedDown(Offset(ns), ns, SECOND_NS, FRACTIONS)
  {
    var s, rem := ns / SECOND_NS, ns % SECOND_NS;
    assert ns * FRACTIONS == s * FRACTIONS * SECOND_NS + rem * FRACTIONS;
  }

  lemma DiffRoundsDown(earlier: Ntp, later: Ntp)
    ensures later <= earlier ==> DiffNs(earlier, later) == 0
    ensures later > earlier ==> RoundedDown(DiffNs(earlier, later), later - earlier, FRACTIONS, SECOND_NS)
  {
    if later > earlier {
      var d := later - earlier;
      var s, rem := d / FRACTIONS, d % FRACTIONS;
      assert d * SECOND_NS == s * SECOND_NS * FRACTIONS + rem * SECOND_NS;
    }
  }

  lemma FractionBound(ns: nat)
    requires ns < SECOND_NS
    ensures ToFraction(ns) < FRACTIONS
  {}

  lemma Parts(t: Ntp)
    ensures t == Seconds(t) * FRACTIONS + Fraction(t) && Fraction(t) < FRACTIONS && Seconds(t) < FRACTIONS
  {}

  lemma Split(d: nat, s: int, f: int)
    requires d == s * FRACTIONS + f && 0 <= f < FRACTIONS
    ensures s == d / FRACTIONS && f == d % FRACTIONS
  {}

  lemma ShiftedSum(seconds: nat, fraction: nat)
    requires fraction < FRACTIONS
    ensures seconds % FRACTIONS * FRACTIONS + fraction == (seconds * FRACTIONS + fraction) % UINT64 < UINT64
  {
    var q, r := seconds / FRACTIONS, seconds % FRACTIONS;
    assert seconds * FRACTIONS + fraction == (r * FRACTIONS + fraction) + q * UINT64;
    WholeTurns(r * FRACTIONS + fraction, q);
  }

  lemma WholeTurns(low: nat, turns: nat)
    requires low < UINT64
    ensures (low + turns * UINT64) % UINT64 == low
  {}

  // ---- round trip ------------------------------------------------------------------------

  predicate Exact(ns: nat) {
    ns % SECOND_NS % 1953125 == 0
  }

  /** Down to fractions and back loses at most one nanosecond, and none exactly for multiples of 5^9. */
  lemma FractionRoundTrip(ns: nat)
    requires ns < SECOND_NS
    ensures ToNs(ToFraction(ns)) == if ns % 1953125 == 0 then ns else ns - 1
  {
    var f := ToFraction(ns);
    Divisible(ns);
    var r := ns * FRACTIONS % SECOND_NS;
    assert ns * FRACTIONS == f * SECOND_NS + r;
    hide ToFraction;
    if ns % 1953125 == 0 {
      assert f * SECOND_NS == ns * FRACTIONS;
    } else {
      assert (ns - 1) * FRACTIONS <= f * SECOND_NS < ns * FRACTIONS;
    }
  }

  /** 10^9 = 2^9 5^9 divides ns 2^32 exactly when 5^9 divides ns. */
  lemma Divisible(ns: nat)
    ensures ns * FRACTIONS % SECOND_NS == 0 <==> ns % 1953125 == 0
  {
    if ns % 1953125 == 0 {
      var k := ns / 1953125;
      assert ns * FRACTIONS == (k * 8388608) * SECOND_NS;
    }
    if ns * FRACTIONS % SECOND_NS == 0 {
      var m := ns * FRACTIONS / SECOND_NS;
      assert ns * 8388608 == m * 1953125;
      // Bezout coefficients of 2^23 and 5^9.
      assert ns == (m * 1241897 + ns * (-5333907)) * 1953125;
    }
  }

  /**
   For every stamp and every delta that does not run past the 32-bit seconds, the difference to
   the advanced stamp is the delta, or one nanosecond less; exactly the delta if and only if its
   part below a second is a multiple of 5^9 ns.
   */
  lemma DiffOfSum(base: Ntp, ns: nat)
    requires base + Offset(ns) < UINT64
    ensures DiffNs(base, base + Offset(ns)) == if Exact(ns) then ns else ns - 1
  {
    var s, rem := ns / SECOND_NS, ns % SECOND_NS;
    var f := ToFraction(rem);
    FractionBound(rem);
    FractionRoundTrip(rem);
    Split(Offset(ns), s, f);
    hide ToFraction, ToNs;
  }

  /** Advancing is monotone, across the carry from fraction to seconds too. */
  lemma OffsetMonotone(a: nat, b: nat)
    requires a <= b
    ensures Offset(a) <= Offset(b)
  {
    FractionBound(a % SECOND_NS);
    if a / SECOND_NS == b / SECOND_NS {
      FractionMonotone(a % SECOND_NS, b % SECOND_NS);
    }
    hide ToFraction;
  }

  lemma FractionMonotone(a: nat, b: nat)
    requires a <= b
    ensures ToFraction(a) <= ToFraction(b)
  {}

  // ---- presentation times ----------------------------------------------------------------

  ghost predicate NeverDecreasing(times: seq<nat>) {
    forall i, j :: 0 <= i <= j < |times| ==> times[i] <= times[j]
  }

  class PlaybackTimeline {
    const durationNs: nat
    var initialized: bool
    var baseNtp: Ntp
    var lastPtsNs: nat
    // The times given out since the last reset, and whether the 64-bit sum has wrapped since.
    ghost var given: seq<nat>
    ghost var wrapped: bool

    /** Over every sequence of packets, short of a wrap, presentation times never decrease. */
    ghost predicate Valid()
      reads this
    {
      && lastPtsNs < UINT64 && durationNs < UINT64
      && (!initialized ==> given == [])
      && (given != [] ==> lastPtsNs == given[|given| - 1])
      && (!wrapped ==> NeverDecreasing(given))
    }

    constructor (frameDurationMs: nat)
      requires frameDurationMs < FRACTIONS
      ensures Valid() && durationNs == frameDurationMs * 1000000 && !wrapped && given == []
      ensures !initialized && baseNtp == 0 && lastPtsNs == 0
    {
      durationNs := frameDurationMs * 1000000;
      initialized, baseNtp, lastPtsNs, given, wrapped := false, 0, 0, [], false;
    }

    /** The PTS part of pushRemotePacket. */
    method NextPts(timestampNtp: Ntp) returns (ptsNs: nat)
      requires Valid()
      modifies this
      ensures Valid() && given == old(given) + [ptsNs]
      ensures !old(initialized) ==> ptsNs == 0 && baseNtp == timestampNtp
      ensures old(initialized) ==> baseNtp == old(baseNtp)
      ensures var late := DiffNs(baseNtp, timestampNtp) < old(lastPtsNs);
              old(initialized) ==>
                ptsNs == if late then (old(lastPtsNs) + durationNs) % UINT64 else DiffNs(baseNtp, timestampNtp)
      ensures old(initialized) ==>
        (ptsNs >= old(lastPtsNs)
         <==> DiffNs(baseNtp, timestampNtp) >= old(lastPtsNs) || old(lastPtsNs) + durationNs < UINT64)
      ensures wrapped ==> old(wrapped) || old(lastPtsNs) + durationNs >= UINT64
    {
      hide DiffNs;
      if !initialized {
        initialized, baseNtp, lastPtsNs := true, timestampNtp, 0;
      }
      ptsNs := NtpDiffToNs(baseNtp, timestampNtp);
      DiffBound(baseNtp, timestampNtp);
      if ptsNs < lastPtsNs {
        wrapped := wrapped || lastPtsNs + durationNs >= UINT64;
        ptsNs := (lastPtsNs + durationNs) % UINT64;
      }
      lastPtsNs := ptsNs;
      given := given + [ptsNs];
    }

    method ResetPlaybackTimeline()
      requires Valid()
      modifies this
      ensures Valid() && !initialized && baseNtp == 0 && lastPtsNs == 0 && given == [] && !wrapped
    {
      initialized, baseNtp, lastPtsNs, given, wrapped := false, 0, 0, [], false;
    }
  }

  lemma DiffBound(earlier: Ntp, later: Ntp)
    ensures DiffNs(earlier, later) < UINT64
    ensures earlier == later ==> DiffNs(earlier, later) == 0
  {
    if later > earlier {
      var d := later - earlier;
      assert ToNs(d % FRACTIONS) < SECOND_NS;
    }
  }
}
