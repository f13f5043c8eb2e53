/**
 The audio jitter buffer of src/audio/audio_receiver.cpp. Sequence numbers are 16 bits wide and
 wrap; the buffer is ordered by the raw number, so order is promised only until they wrap.
 */
module JitterBuffer {
  import opened Gf256
  import opened Numbers

  const WRAP: nat := 0x1_0000
  const UINT32: nat := 0x1_0000_0000

  datatype AudioRxPacket = AudioRxPacket(seqNo: nat, timestampNtp: nat, payload: seq<byte>)

  datatype Limits = Limits(initialPackets: nat, maxPackets: nat, maxSequenceGap: nat)

  type Buffer = map<nat, AudioRxPacket>

  datatype Receiver = Receiver(buffer: Buffer, initialized: bool, primed: bool, expected: nat,
                               received: nat, delivered: nat, duplicate: nat, late: nat, lost: nat, resets: nat)

  function Wrapped(n: nat): (r: nat)
    ensures r < WRAP && (n < WRAP ==> r == n)
  {
    n % WRAP
  }

  /** How far ahead of one number another lies. */
  function Forward(from: nat, to: nat): nat {
    (to - from) % WRAP
  }

  /** The difference of two sequence numbers as a signed 16-bit number. */
  function SeqDelta(lhs: nat, rhs: nat): int {
    var d := (lhs - rhs) % WRAP;
    if d >= WRAP / 2 then d - WRAP else d
  }

  function PacketCountFromMs(ms: nat, frameDurationMs: nat): (n: nat)
    ensures n >= 1
  {
    var frame := if frameDurationMs > 1 then frameDurationMs else 1;
    var n := (ms + frame - 1) % UINT32 / frame;
    if n > 1 then n else 1
  }

  lemma {:induction false} SomeLeast(keys: set<nat>, x: nat)
    requires x in keys
    ensures exists k :: k in keys && forall j :: j in keys ==> k <= j
    decreases x
  {
    if j :| j in keys && j < x {
      SomeLeast(keys, j);
    }
  }

  lemma LeastExists(keys: set<nat>)
    requires keys != {}
    ensures exists k :: k in keys && forall j :: j in keys ==> k <= j
  {
    var x :| x in keys;
    SomeLeast(keys, x);
  }

  /** The first entry of the ordered map. */
  function LeastKey(b: Buffer): (k: nat)
    requires b != map[]
    ensures k in b && forall j :: j in b ==> k <= j
  {
    LeastExists(b.Keys);
    var k :| k in b.Keys && forall j :: j in b.Keys ==> k <= j;
    k
  }

  /** What is left, what comes next, what went out, and how many numbers were given up. */
  datatype Played = Played(left: Buffer, next: nat, out: seq<AudioRxPacket>, lost: nat)

  /** Delivery in sequence from the expected number on. */
  function Drain(b: Buffer, expected: nat): (r: Played)
    requires expected < WRAP
    ensures |b| == |r.left| + |r.out| && r.next < WRAP && (expected in b ==> |r.out| > 0) && r.lost == 0
    ensures Part(r.left, b)
    decreases |b|
  {
    if expected !in b then Played(b, expected, [], 0)
    else
      var r := Drain(b - {expected}, Wrapped(expected + 1));
      Played(r.left, r.next, [b[expected]] + r.out, 0)
  }

  /** While the buffer is full, the gap in front of its first entry is given up. */
  function SkipLoss(maxPackets: nat, b: Buffer, expected: nat): (r: Played)
    requires expected < WRAP && Numbered(b)
    ensures |b| == |r.left| + |r.out| && r.next < WRAP
    ensures |r.left| < maxPackets || r.left == map[]
    ensures Part(r.left, b)
    decreases |b|
  {
    if b == map[] || |b| < maxPackets then Played(b, expected, [], 0)
    else
      var k := LeastKey(b);
      var d := SeqDelta(k, expected);
      var drained := Drain(b, k);
      var rest := SkipLoss(maxPackets, drained.left, drained.next);
      Played(rest.left, rest.next, drained.out + rest.out, (if d > 0 then d else 0) + rest.lost)
  }

  /** Every entry of c is the one of b. */
  ghost predicate Part(c: Buffer, b: Buffer) {
    forall k :: k in c ==> k in b && c[k] == b[k]
  }

  ghost predicate Numbered(b: Buffer) {
    forall k :: k in b ==> k < WRAP
  }

  ghost predicate Keyed(b: Buffer) {
    Numbered(b) && forall k :: k in b ==> b[k].seqNo == k
  }

  /** Where a packet finds the receiver: the first one, and one too far ahead, start over at themselves. */
  function Arrive(l: Limits, s: Receiver, seqNo: nat): Receiver {
    var t := s.(received := s.received + 1);
    var t := if s.initialized then t else t.(initialized := true, primed := false, expected := seqNo);
    if SeqDelta(seqNo, t.expected) > l.maxSequenceGap then
      t.(buffer := map[], primed := false, expected := seqNo, resets := t.resets + 1)
    else t
  }

  /** A packet that is neither late nor a duplicate is stored, and what is ready is played. */
  function Accept(l: Limits, t: Receiver, p: AudioRxPacket): (r: (Receiver, seq<AudioRxPacket>))
    requires Keyed(t.buffer) && t.expected < WRAP && p.seqNo < WRAP
  {
    var b := t.buffer[p.seqNo := p];
    var primed := t.primed || |b| >= l.initialPackets;
    if !primed then (t.(buffer := b), [])
    else
      var played := Play(l, b, t.expected);
      (t.(buffer := played.left, primed := true, expected := played.next,
          delivered := t.delivered + |played.out|, lost := t.lost + played.lost), played.out)
  }

  /** Play what is in sequence, then give up gaps while the buffer is full. */
  function Play(l: Limits, b: Buffer, expected: nat): (r: Played)
    requires Numbered(b) && expected < WRAP
    ensures |b| == |r.left| + |r.out| && r.next < WRAP && Part(r.left, b)
    ensures |r.left| < l.maxPackets || r.left == map[]
  {
    var drained := Drain(b, expected);
    var skipped := SkipLoss(l.maxPackets, drained.left, drained.next);
    Played(skipped.left, skipped.next, drained.out + skipped.out, skipped.lost)
  }

  /** pushPacket: the state after it and the packets it plays. */
  function Push(l: Limits, s: Receiver, p: AudioRxPacket): (r: (Receiver, seq<AudioRxPacket>))
    requires Keyed(s.buffer) && s.expected < WRAP && p.seqNo < WRAP
  {
    var t := Arrive(l, s, p.seqNo);
    if SeqDelta(p.seqNo, t.expected) < 0 then (t.(late := t.late + 1), [])
    else if p.seqNo in t.buffer then (t.(duplicate := t.duplicate + 1), [])
    else Accept(l, t, p)
  }

  // ---- the class -------------------------------------------------------------------------

  class AudioReceiver {
    const limits: Limits
    var buffer: Buffer
    var initialized: bool
    var primed: bool
    var expectedSeq: nat
    var receivedPackets: nat
    var deliveredPackets: nat
    var duplicatePackets: nat
    var latePackets: nat
    var lostPackets: nat
    var resetCount: nat
    ghost var history: History

    function State(): Receiver
      reads this
    {
      Receiver(buffer, initialized, primed, expectedSeq,
               receivedPackets, deliveredPackets, duplicatePackets, latePackets, lostPackets, resetCount)
    }

    ghost predicate Valid()
      reads this
    {
      Sized(limits) && Consistent(limits, State(), history)
    }

    /**
     Durations of any 32-bit value. The bounds are in order unless one more than the initial
     count wraps, and that takes the largest duration in frames of at most a millisecond.
     */
    constructor (frameDurationMs: nat, initialBufferMs: nat, maxBufferMs: nat, maxSequenceGap: nat)
      requires frameDurationMs < UINT32 && initialBufferMs < UINT32 && maxBufferMs < UINT32
      ensures State() == EMPTY && limits.maxSequenceGap == maxSequenceGap
      ensures limits.initialPackets == PacketCountFromMs(initialBufferMs, frameDurationMs)
      ensures limits.maxPackets >= PacketCountFromMs(maxBufferMs, frameDurationMs)
      ensures Valid() <==> !(frameDurationMs <= 1 && initialBufferMs == UINT32 - 1)
    {
      hide Consistent, Sized, PacketCountFromMs;
      var initial := PacketCountFromMs(initialBufferMs, frameDurationMs);
      var most := PacketCountFromMs(maxBufferMs, frameDurationMs);
      var least := (initial + 1) % UINT32;
      SizedExactly(initialBufferMs, maxBufferMs, frameDurationMs, maxSequenceGap);
      limits := Limits(initial, if least > most then least else most, maxSequenceGap);
      buffer, initialized, primed, expectedSeq := map[], false, false, 0;
      receivedPackets, deliveredPackets, duplicatePackets, latePackets, lostPackets, resetCount := 0, 0, 0, 0, 0, 0;
      history := NOTHING_YET;
      new;
      if Sized(limits) {
        EmptyConsistent(limits);
      }
    }

    /**
     pushPacket; an empty packet is not counted. It succeeds exactly when something was played and
     the callback, if there is one, took all of it.
     */
    method PushPacket(p: AudioRxPacket, hasCallback: bool)
      returns (accepted: bool, ready: seq<AudioRxPacket>, ghost answers: seq<bool>)
      requires Valid() && p.seqNo < WRAP
      modifies this
      ensures Valid()
      ensures p.payload == [] ==> unchanged(this) && ready == []
      ensures p.payload != [] ==>
        && (State(), ready) == Push(limits, old(State()), p)
        && history == Note(limits, old(State()), old(history), p)
        && Handled(limits, old(State()), p, State(), ready)
      ensures |answers| == if hasCallback then |ready| else 0
      ensures accepted <==> ready != [] && hasCallback && false !in answers
    {
      accepted, ready, answers := false, [], [];
      if p.payload == [] {
        return;
      }
      PushKeepsConsistent(limits, State(), history, p);
      ConsistentShape(limits, State(), history);
      PushHandled(limits, State(), p);
      hide Consistent, Push, Note, Keyed, Handled, Sized, SeqDelta, Numbered, Part;
      history := Note(limits, State(), history, p);
      ready := Receive(p);
      var allDelivered;
      allDelivered, answers := Deliver(ready, hasCallback);
      accepted := allDelivered && ready != [];
    }

    /** Every packet is offered to the callback, whatever it said about the ones before. */
    method Deliver(ready: seq<AudioRxPacket>, hasCallback: bool) returns (allDelivered: bool, ghost answers: seq<bool>)
      ensures |answers| == if hasCallback then |ready| else 0
      ensures allDelivered <==> (ready == [] || hasCallback) && false !in answers
    {
      allDelivered, answers := true, [];
      for n := 0 to |ready|
        invariant |answers| == if hasCallback then n else 0
        invariant allDelivered <==> (n == 0 || hasCallback) && false !in answers
      {
        if hasCallback {
          var answer: bool := *;
          answers := answers + [answer];
          allDelivered := allDelivered && answer;
        } else {
          allDelivered := false;
        }
      }
    }

    /** The part of pushPacket under the lock. */
    method Receive(p: AudioRxPacket) returns (ready: seq<AudioRxPacket>)
      requires Keyed(buffer) && expectedSeq < WRAP && p.seqNo < WRAP
      modifies `buffer, `initialized, `primed, `expectedSeq
      modifies `receivedPackets, `deliveredPackets, `duplicatePackets, `latePackets, `lostPackets, `resetCount
      ensures (State(), ready) == Push(limits, old(State()), p)
    {
      hide SeqDelta, Accept;
      ready := [];
      receivedPackets := receivedPackets + 1;
      if !initialized {
        initialized, primed, expectedSeq := true, false, p.seqNo;
      }
      var delta := SeqDelta(p.seqNo, expectedSeq);
      SelfDelta(p.seqNo);
      if delta < 0 {
        latePackets := latePackets + 1;
        return;
      }
      if delta > limits.maxSequenceGap {
        resetCount := resetCount + 1;
        buffer, primed, expectedSeq := map[], false, p.seqNo;
      }
      assert State() == Arrive(limits, old(State()), p.seqNo);
      hide Arrive;
      if p.seqNo in buffer {
        duplicatePackets := duplicatePackets + 1;
        return;
      }
      ready := Store(p);
    }

    method Store(p: AudioRxPacket) returns (ready: seq<AudioRxPacket>)
      requires Keyed(buffer) && expectedSeq < WRAP && p.seqNo < WRAP
      modifies `buffer, `primed, `expectedSeq, `deliveredPackets, `lostPackets
      ensures (State(), ready) == Accept(limits, old(State()), p)
    {
      hide Play, Part, Keyed, Numbered;
      ready := [];
      KeyedWith(buffer, p);
      buffer := buffer[p.seqNo := p];
      if !primed && |buffer| >= limits.initialPackets {
        primed := true;
      }
      if primed {
        ready := PlayReady();
      }
    }

    method PlayReady() returns (ready: seq<AudioRxPacket>)
      requires Keyed(buffer) && Numbered(buffer) && expectedSeq < WRAP
      modifies `buffer, `expectedSeq, `deliveredPackets, `lostPackets
      ensures var r := Play(limits, old(buffer), old(expectedSeq));
              && buffer == r.left && expectedSeq == r.next && ready == r.out
              && deliveredPackets == old(deliveredPackets) + |r.out| && lostPackets == old(lostPackets) + r.lost
    {
      hide Drain, SkipLoss, Part, Keyed, Numbered;
      ready := DrainReady([]);
      assert [] + Drain(old(buffer), old(expectedSeq)).out == Drain(old(buffer), old(expectedSeq)).out;
      ready := MaybeSkipLoss(ready);
    }

    method DrainReady(ready: seq<AudioRxPacket>) returns (more: seq<AudioRxPacket>)
      requires Keyed(buffer) && expectedSeq < WRAP
      modifies `buffer, `expectedSeq, `deliveredPackets
      ensures var r := Drain(old(buffer), old(expectedSeq));
              && buffer == r.left && expectedSeq == r.next && more == ready + r.out
              && deliveredPackets == old(deliveredPackets) + |r.out|
      ensures Keyed(buffer) && Numbered(buffer) && expectedSeq < WRAP
    {
      hide Drain, Keyed, Numbered, Wrapped, Part;
      more := ready;
      ghost var all := Drain(buffer, expectedSeq);
      while expectedSeq in buffer
        invariant Keyed(buffer) && expectedSeq < WRAP
        invariant PlayedSoFar(all, ready, old(deliveredPackets), 0, Drain(buffer, expectedSeq), more,
                              deliveredPackets, 0)
        decreases |buffer|
      {
        DrainUnfolds(buffer, expectedSeq);
        OneMore(more, buffer[expectedSeq], Drain(buffer - {expectedSeq}, Wrapped(expectedSeq + 1)).out);
        KeyedWithout(buffer, expectedSeq);
        more := more + [buffer[expectedSeq]];
        buffer := buffer - {expectedSeq};
        expectedSeq := Wrapped(expectedSeq + 1);
        deliveredPackets := deliveredPackets + 1;
      }
      DrainUnfolds(buffer, expectedSeq);
      KeyedPart(buffer, buffer);
      assert more + [] == more;
    }

    method MaybeSkipLoss(ready: seq<AudioRxPacket>) returns (more: seq<AudioRxPacket>)
      requires Keyed(buffer) && Numbered(buffer) && expectedSeq < WRAP
      modifies `buffer, `expectedSeq, `deliveredPackets, `lostPackets
      ensures var r := SkipLoss(limits.maxPackets, old(buffer), old(expectedSeq));
              && buffer == r.left && expectedSeq == r.next && more == ready + r.out
              && deliveredPackets == old(deliveredPackets) + |r.out| && lostPackets == old(lostPackets) + r.lost
    {
      hide SeqDelta, Drain, SkipLoss, Keyed, Numbered, Part;
      more := ready;
      ghost var all := SkipLoss(limits.maxPackets, buffer, expectedSeq);
      while |buffer| >= limits.maxPackets && buffer != map[]
        invariant Keyed(buffer) && Numbered(buffer) && expectedSeq < WRAP
        invariant PlayedSoFar(all, ready, old(deliveredPackets), old(lostPackets),
                              SkipLoss(limits.maxPackets, buffer, expectedSeq), more, deliveredPackets, lostPackets)
        decreases |buffer|
      {
        var next := LeastKey(buffer);
        NumberedKey(buffer, next);
        var delta := SeqDelta(next, expectedSeq);
        SkipUnfolds(limits.maxPackets, buffer, expectedSeq, more);
        if delta > 0 {
          lostPackets := lostPackets + delta;
        }
        expectedSeq := next;
        more := DrainReady(more);
      }
      SkipNothing(limits.maxPackets, buffer, expectedSeq);
      assert more + [] == more;
    }

    method Reset()
      requires Valid()
      modifies this
      ensures Valid() && buffer == map[] && !initialized && !primed && expectedSeq == 0
      ensures resetCount == old(resetCount) + 1
      ensures unchanged(`receivedPackets, `deliveredPackets, `duplicatePackets, `latePackets, `lostPackets)
      ensures history.discarded == old(history.discarded) + |old(buffer)|
    {
      history := history.(discarded := history.discarded + |buffer|);
      buffer, initialized, primed, expectedSeq := map[], false, false, 0;
      resetCount := resetCount + 1;
    }
  }

  /** Playing goes on from where it is to where the whole run of it ends. */
  ghost predicate PlayedSoFar(all: Played, ready: seq<AudioRxPacket>, delivered: nat, lost: nat,
                              rest: Played, more: seq<AudioRxPacket>, deliveredNow: nat, lostNow: nat)
  {
    && rest.left == all.left && rest.next == all.next && more + rest.out == ready + all.out
    && deliveredNow + |rest.out| == delivered + |all.out| && lostNow + rest.lost == lost + all.lost
  }

  lemma KeyedWithout(b: Buffer, k: nat)
    requires Keyed(b) && k in b
    ensures Keyed(b - {k}) && |b - {k}| < |b|
  {
    assert |(b - {k}).Keys| < |b.Keys|;
  }

  lemma KeyedWith(b: Buffer, p: AudioRxPacket)
    requires Keyed(b) && p.seqNo < WRAP
    ensures Keyed(b[p.seqNo := p]) && Numbered(b[p.seqNo := p])
  {}

  lemma NumberedKey(b: Buffer, k: nat)
    requires Numbered(b) && k in b
    ensures k < WRAP
  {}

  lemma DrainUnfolds(b: Buffer, expected: nat)
    requires expected < WRAP
    ensures expected !in b ==> Drain(b, expected) == Played(b, expected, [], 0)
    ensures expected in b ==>
      var r := Drain(b - {expected}, Wrapped(expected + 1));
      Drain(b, expected) == Played(r.left, r.next, [b[expected]] + r.out, 0)
  {}

  lemma OneMore(done: seq<AudioRxPacket>, p: AudioRxPacket, rest: seq<AudioRxPacket>)
    ensures done + ([p] + rest) == (done + [p]) + rest
  {}

  lemma SelfDelta(x: nat)
    ensures SeqDelta(x, x) == 0
  {}

  lemma SkipUnfolds(maxPackets: nat, b: Buffer, expected: nat, done: seq<AudioRxPacket>)
    requires Keyed(b) && Numbered(b) && expected < WRAP && |b| >= maxPackets && b != map[]
    ensures var d := SeqDelta(LeastKey(b), expected);
            var drained := Drain(b, LeastKey(b));
            var rest := SkipLoss(maxPackets, drained.left, drained.next);
            var r := SkipLoss(maxPackets, b, expected);
            && r.left == rest.left && r.next == rest.next && r.lost == (if d > 0 then d else 0) + rest.lost
            && r.out == drained.out + rest.out && done + r.out == (done + drained.out) + rest.out
            && |drained.left| < |b|
  {
    hide Drain, SeqDelta, Keyed;
    var drained := Drain(b, LeastKey(b));
    var rest := SkipLoss(maxPackets, drained.left, drained.next);
    assert done + (drained.out + rest.out) == (done + drained.out) + rest.out;
  }

  /** The bounds are in order unless one more than the initial count wraps to 0. */
  lemma SizedExactly(initialMs: nat, maxMs: nat, frameDurationMs: nat, maxSequenceGap: nat)
    requires initialMs < UINT32 && maxMs < UINT32
    ensures var initial := PacketCountFromMs(initialMs, frameDurationMs);
            var most := PacketCountFromMs(maxMs, frameDurationMs);
            var least := (initial + 1) % UINT32;
            Sized(Limits(initial, if least > most then least else most, maxSequenceGap))
            <==> !(frameDurationMs <= 1 && initialMs == UINT32 - 1)
  {
    CountBelowWrap(initialMs, frameDurationMs);
    CountBelowWrap(maxMs, frameDurationMs);
    hide PacketCountFromMs;
  }

  /** A count fits 32 bits, and is the largest only for the largest duration in single milliseconds. */
  lemma CountBelowWrap(ms: nat, frameDurationMs: nat)
    requires ms < UINT32
    ensures var n := PacketCountFromMs(ms, frameDurationMs);
            n < UINT32 && (n == UINT32 - 1 <==> frameDurationMs <= 1 && ms == UINT32 - 1)
  {
    var frame := if frameDurationMs > 1 then frameDurationMs else 1;
    var sum := (ms + frame - 1) % UINT32;
    if frame > 1 {
      Halved(sum, frame);
    } else {
      assert sum == ms;
    }
  }

  lemma Halved(a: nat, b: nat)
    requires b > 1
    ensures 2 * (a / b) <= a
  {
    var q := a / b;
    QuotientRemainder(a, b);
    MulLe(2, b, q);
  }

  // ---- what a push does, by cases --------------------------------------------------------

  /** The difference of two numbers is the shortest way from one to the other, around the wrap too. */
  lemma DeltaIsShortest(lhs: nat, rhs: nat)
    requires lhs < WRAP && rhs < WRAP
    ensures var d := SeqDelta(lhs, rhs); -(WRAP / 2) <= d < WRAP / 2 && (rhs + d) % WRAP == lhs
  {}

  /** The count is the least number of frames that covers the duration, and at least one. */
  lemma CountCovers(ms: nat, frameDurationMs: nat)
    requires ms + frameDurationMs <= UINT32 && ms < UINT32
    ensures var frame := if frameDurationMs > 1 then frameDurationMs else 1;
            var n := PacketCountFromMs(ms, frameDurationMs);
            n * frame >= ms && (n > 1 ==> (n - 1) * frame < ms)
  {
    var frame := if frameDurationMs > 1 then frameDurationMs else 1;
    var n := PacketCountFromMs(ms, frameDurationMs);
    assert n == 1 || n == (ms + frame - 1) / frame;
    CeilingLeast(ms, frame, 1);
    CeilingLeast(ms, frame, n - 1);
  }

  /** Playing begins at the expected number; only in front of a full buffer does it pass over a gap. */
  ghost predicate BeginsAt(maxPackets: nat, b: Buffer, expected: nat, from: nat) {
    if |b| >= maxPackets && expected !in b then from in b && forall k :: k in b ==> from <= k
    else from == expected
  }

  /** The numbers between the expected one and one ahead of it. */
  function Missed(from: nat, expected: nat): nat {
    var d := SeqDelta(from, expected);
    if d > 0 then d else 0
  }

  /** The packet that waits i numbers on. */
  ghost predicate IsAt(b: Buffer, from: nat, i: nat, p: AudioRxPacket) {
    Wrapped(from + i) in b && p == b[Wrapped(from + i)]
  }

  /** What is played is the whole run of numbers that starts there, each with its packet, and the rest stays. */
  ghost predicate RunFrom(b: Buffer, from: nat, left: Buffer, next: nat, out: seq<AudioRxPacket>) {
    && (forall i :: 0 <= i < |out| ==> IsAt(b, from, i, out[i]))
    && next == Wrapped(from + |out|) && next !in left
    && Part(left, b)
    && (forall k :: k in b ==> (k in left <==> Forward(from, k) >= |out|))
  }

  /**
   The outcome of a push. A number behind the expected one is late, one that waits already is a
   duplicate. Otherwise the packet is stored, after a start at its own number if it is the first
   or more than the gap ahead, and from the initial count on the run in front is played.
   */
  ghost predicate Handled(l: Limits, s: Receiver, p: AudioRxPacket, u: Receiver, ready: seq<AudioRxPacket>) {
    var d := SeqDelta(p.seqNo, s.expected);
    var jump := s.initialized && d > l.maxSequenceGap;
    var starts := jump || !s.initialized;
    if s.initialized && d < 0 then u == s.(received := s.received + 1, late := s.late + 1) && ready == []
    else if !starts && p.seqNo in s.buffer then
      u == s.(received := s.received + 1, duplicate := s.duplicate + 1) && ready == []
    else
      var b := if starts then map[p.seqNo := p] else s.buffer[p.seqNo := p];
      var expected := if starts then p.seqNo else s.expected;
      && u.initialized && u.received == s.received + 1 && u.late == s.late && u.duplicate == s.duplicate
      && u.resets == s.resets + (if jump then 1 else 0)
      && u.delivered == s.delivered + |ready|
      && (u.primed <==> (!starts && s.primed) || |b| >= l.initialPackets)
      && if u.primed then u.lost >= s.lost
           && PlaysRun(l.maxPackets, b, expected, Played(u.buffer, u.expected, ready, u.lost - s.lost))
         else ready == [] && u.buffer == b && u.expected == expected && u.lost == s.lost
  }

  /** A primed receiver plays one run; what it passes over counts as lost. */
  ghost predicate PlaysRun(maxPackets: nat, b: Buffer, expected: nat, r: Played) {
    exists from: nat ::
      && BeginsAt(maxPackets, b, expected, from) && RunFrom(b, from, r.left, r.next, r.out)
      && r.lost == Missed(from, expected)
  }

  lemma {:induction false} DrainRuns(b: Buffer, expected: nat)
    requires Numbered(b) && expected < WRAP
    ensures var r := Drain(b, expected); RunFrom(b, expected, r.left, r.next, r.out)
    decreases |b|
  {
    hide *;
    DrainUnfolds(b, expected);
    if expected in b {
      var b' := b - {expected};
      SmallerNumbered(b, expected);
      DrainRuns(b', Wrapped(expected + 1));
      var r := Drain(b', Wrapped(expected + 1));
      RunGrows(b, expected, r.left, r.next, r.out);
    } else {
      NoRun(b, expected);
    }
  }

  lemma SmallerNumbered(b: Buffer, k: nat)
    requires Numbered(b) && k in b
    ensures Numbered(b - {k}) && |b - {k}| < |b|
  {
    assert |(b - {k}).Keys| < |b.Keys|;
  }

  lemma NoRun(b: Buffer, expected: nat)
    requires expected < WRAP && expected !in b
    ensures RunFrom(b, expected, b, expected, [])
  {}

  lemma RunGrows(b: Buffer, from: nat, left: Buffer, next: nat, out: seq<AudioRxPacket>)
    requires Numbered(b) && from in b && from < WRAP && RunFrom(b - {from}, Wrapped(from + 1), left, next, out)
    ensures RunFrom(b, from, left, next, [b[from]] + out)
  {
    var more := [b[from]] + out;
    var b', from' := b - {from}, Wrapped(from + 1);
    hide *;
    RunParts(b', from', left, next, out);
    forall i | 0 <= i < |more| ensures IsAt(b, from, i, more[i]) {
      if i > 0 {
        assert more[i] == out[i - 1];
        AtLater(b, from, i, more[i]);
      } else {
        InRange(b, from);
        AtFirst(b, from);
      }
    }
    assert Part(left, b) by { PartGrows(left, b, from); }
    WrapsTwice(from + 1, |out|);
    forall k | k in b ensures k in left <==> Forward(from, k) >= |more| {
      InRange(b, k);
      OneFurther(from, k);
      if k != from {
        assert k in b';
      } else {
        assert from !in b';
      }
    }
    RunMade(b, from, left, next, more);
  }

  lemma AtLater(b: Buffer, from: nat, i: nat, p: AudioRxPacket)
    requires i > 0 && IsAt(b - {from}, Wrapped(from + 1), i - 1, p)
    ensures IsAt(b, from, i, p)
  {}

  lemma AtFirst(b: Buffer, from: nat)
    requires from in b && Wrapped(from) == from
    ensures IsAt(b, from, 0, b[from])
  {}

  lemma PartGrows(left: Buffer, b: Buffer, from: nat)
    requires Part(left, b - {from})
    ensures Part(left, b)
  {}

  lemma InRange(b: Buffer, k: nat)
    requires Numbered(b) && k in b
    ensures k < WRAP && Wrapped(k) == k
  {}

  lemma RunParts(b: Buffer, from: nat, left: Buffer, next: nat, out: seq<AudioRxPacket>)
    requires RunFrom(b, from, left, next, out)
    ensures forall i :: 0 <= i < |out| ==> IsAt(b, from, i, out[i])
    ensures next == Wrapped(from + |out|) && next !in left
    ensures Part(left, b)
    ensures forall k :: k in b ==> (k in left <==> Forward(from, k) >= |out|)
  {}

  lemma RunMade(b: Buffer, from: nat, left: Buffer, next: nat, out: seq<AudioRxPacket>)
    requires forall i :: 0 <= i < |out| ==> IsAt(b, from, i, out[i])
    requires next == Wrapped(from + |out|) && next !in left
    requires Part(left, b)
    requires forall k :: k in b ==> (k in left <==> Forward(from, k) >= |out|)
    ensures RunFrom(b, from, left, next, out)
  {}

  lemma WrapsTwice(a: nat, b: nat)
    ensures Wrapped(Wrapped(a) + b) == Wrapped(a + b)
  {}

  lemma OneFurther(from: nat, k: nat)
    requires from < WRAP && k < WRAP
    ensures Forward(from, k) == if k == from then 0 else Forward(Wrapped(from + 1), k) + 1
  {}

  /** At most one gap is passed over, in front of a full buffer. */
  lemma PlayRuns(l: Limits, b: Buffer, expected: nat)
    requires Sized(l) && Keyed(b) && expected < WRAP && |b| <= l.maxPackets
    ensures PlaysRun(l.maxPackets, b, expected, Play(l, b, expected))
  {
    hide *;
    KeyedPart(b, b);
    var from := if expected !in b && b != map[] && |b| >= l.maxPackets then LeastKey(b) else expected;
    NumberedKeys(b);
    PlayIsOneRun(l, b, expected, from);
    DrainRuns(b, from);
    assert l.maxPackets > 0 by { Bounds(l); }
    BeginsThere(l.maxPackets, b, expected, from);
    PlaysFrom(l.maxPackets, b, expected, from, Play(l, b, expected));
  }

  lemma PlaysFrom(maxPackets: nat, b: Buffer, expected: nat, from: nat, r: Played)
    requires BeginsAt(maxPackets, b, expected, from) && RunFrom(b, from, r.left, r.next, r.out)
    requires r.lost == Missed(from, expected)
    ensures PlaysRun(maxPackets, b, expected, r)
  {
    hide BeginsAt, RunFrom, Missed;
  }

  lemma Bounds(l: Limits)
    requires Sized(l)
    ensures l.maxPackets > 1 && l.initialPackets > 0
  {}

  lemma BeginsThere(maxPackets: nat, b: Buffer, expected: nat, from: nat)
    requires maxPackets > 0
    requires if expected !in b && b != map[] && |b| >= maxPackets then from == LeastKey(b) else from == expected
    ensures BeginsAt(maxPackets, b, expected, from)
  {
    assert |b| >= maxPackets ==> b != map[];
  }

  lemma NumberedKeys(b: Buffer)
    requires Numbered(b)
    ensures forall k :: k in b ==> k < WRAP
  {}

  /** Either way the packet in front is there, so one run leaves the buffer short of its bound. */
  lemma PlayIsOneRun(l: Limits, b: Buffer, expected: nat, from: nat)
    requires Sized(l) && Keyed(b) && Numbered(b) && expected < WRAP && |b| <= l.maxPackets && from < WRAP
    requires if expected !in b && b != map[] && |b| >= l.maxPackets then from == LeastKey(b) else from == expected
    ensures var r, one := Play(l, b, expected), Drain(b, from);
            && r.left == one.left && r.next == one.next && r.out == one.out
            && r.lost == Missed(from, expected)
  {
    hide *;
    SelfDelta(expected);
    DrainUnfolds(b, expected);
    var drained, one := Drain(b, expected), Drain(b, from);
    PlayUnfolds(l, b, expected);
    KeyedPart(b, one.left);
    MissedUnfolds(from, expected);
    if from == expected {
      SkipNothing(l.maxPackets, one.left, one.next);
    } else {
      SkipUnfolds(l.maxPackets, b, expected, []);
      DrainUnfolds(b, from);
      SkipNothing(l.maxPackets, one.left, one.next);
    }
  }

  lemma MissedUnfolds(from: nat, expected: nat)
    ensures var d := SeqDelta(from, expected); Missed(from, expected) == if d > 0 then d else 0
  {}

  lemma PlayUnfolds(l: Limits, b: Buffer, expected: nat)
    requires Keyed(b) && Numbered(b) && expected < WRAP
    ensures var drained := Drain(b, expected);
            Keyed(drained.left) && Numbered(drained.left)
            && (var skipped := SkipLoss(l.maxPackets, drained.left, drained.next);
                Play(l, b, expected) == Played(skipped.left, skipped.next, drained.out + skipped.out, skipped.lost))
  {
    hide Drain, SkipLoss;
    KeyedPart(b, Drain(b, expected).left);
  }

  lemma PushHandled(l: Limits, s: Receiver, p: AudioRxPacket)
    requires Sized(l) && Keyed(s.buffer) && s.expected < WRAP && p.seqNo < WRAP
    requires |s.buffer| < l.maxPackets && (!s.initialized ==> s.buffer == map[])
    ensures Handled(l, s, p, Push(l, s, p).0, Push(l, s, p).1)
  {
    hide *;
    var t := Arrive(l, s, p.seqNo);
    ArriveParts(l, s, p.seqNo);
    PushUnfolds(l, s, p);
    if SeqDelta(p.seqNo, t.expected) < 0 {
      HandledLate(l, s, p);
    } else if p.seqNo in t.buffer {
      HandledDuplicate(l, s, p);
    } else {
      AcceptStores(l, t, p);
      HandledStored(l, s, p, t, Accept(l, t, p).0, Accept(l, t, p).1);
    }
  }

  lemma PushUnfolds(l: Limits, s: Receiver, p: AudioRxPacket)
    requires Keyed(s.buffer) && s.expected < WRAP && p.seqNo < WRAP
    ensures var t := Arrive(l, s, p.seqNo);
            && Keyed(t.buffer) && t.expected < WRAP
            && Push(l, s, p) == if SeqDelta(p.seqNo, t.expected) < 0 then (t.(late := t.late + 1), [])
                                else if p.seqNo in t.buffer then (t.(duplicate := t.duplicate + 1), [])
                                else Accept(l, t, p)
  {
    hide SeqDelta, Accept;
  }

  lemma HandledLate(l: Limits, s: Receiver, p: AudioRxPacket)
    requires s.initialized && SeqDelta(p.seqNo, s.expected) < 0
    ensures Handled(l, s, p, s.(received := s.received + 1, late := s.late + 1), [])
  {
    hide SeqDelta, PlaysRun;
  }

  lemma HandledDuplicate(l: Limits, s: Receiver, p: AudioRxPacket)
    requires s.initialized && 0 <= SeqDelta(p.seqNo, s.expected) <= l.maxSequenceGap && p.seqNo in s.buffer
    ensures Handled(l, s, p, s.(received := s.received + 1, duplicate := s.duplicate + 1), [])
  {
    hide SeqDelta, PlaysRun;
  }

  lemma HandledStored(l: Limits, s: Receiver, p: AudioRxPacket, t: Receiver, u: Receiver, ready: seq<AudioRxPacket>)
    requires var jump := s.initialized && SeqDelta(p.seqNo, s.expected) > l.maxSequenceGap;
             if jump || !s.initialized then
               t == s.(received := s.received + 1, initialized := true, primed := false, expected := p.seqNo,
                       buffer := map[], resets := s.resets + (if jump then 1 else 0))
             else SeqDelta(p.seqNo, s.expected) >= 0 && t == s.(received := s.received + 1) && p.seqNo !in s.buffer
    requires Stored(l, t, p, u, ready)
    ensures Handled(l, s, p, u, ready)
  {
    hide SeqDelta, PlaysRun;
  }

  lemma ArriveParts(l: Limits, s: Receiver, seqNo: nat)
    requires Sized(l) && Keyed(s.buffer) && s.expected < WRAP && seqNo < WRAP
    requires |s.buffer| < l.maxPackets && (!s.initialized ==> s.buffer == map[])
    ensures var jump := s.initialized && SeqDelta(seqNo, s.expected) > l.maxSequenceGap;
            var t := Arrive(l, s, seqNo);
            && |t.buffer| < l.maxPackets && Keyed(t.buffer) && t.expected < WRAP
            && if jump || !s.initialized then
                 && t == s.(received := s.received + 1, initialized := true, primed := false, expected := seqNo,
                            buffer := map[], resets := s.resets + (if jump then 1 else 0))
                 && SeqDelta(seqNo, t.expected) == 0
               else t == s.(received := s.received + 1)
  {
    SelfDelta(seqNo);
    hide SeqDelta;
  }

  /** What storing a packet comes to. */
  ghost predicate Stored(l: Limits, t: Receiver, p: AudioRxPacket, u: Receiver, ready: seq<AudioRxPacket>) {
    var b := t.buffer[p.seqNo := p];
    && (u.primed <==> t.primed || |b| >= l.initialPackets)
    && u == t.(buffer := u.buffer, primed := u.primed, expected := u.expected,
               delivered := t.delivered + |ready|, lost := u.lost)
    && if u.primed then u.lost >= t.lost
         && PlaysRun(l.maxPackets, b, t.expected, Played(u.buffer, u.expected, ready, u.lost - t.lost))
       else ready == [] && u.buffer == b && u.expected == t.expected && u.lost == t.lost
  }

  lemma AcceptStores(l: Limits, t: Receiver, p: AudioRxPacket)
    requires Sized(l) && Keyed(t.buffer) && t.expected < WRAP && p.seqNo < WRAP
    requires |t.buffer| < l.maxPackets && p.seqNo !in t.buffer
    ensures Stored(l, t, p, Accept(l, t, p).0, Accept(l, t, p).1)
  {
    hide *;
    KeyedWith(t.buffer, p);
    var b := t.buffer[p.seqNo := p];
    PlayRuns(l, b, t.expected);
    AcceptUnfolds(l, t, p);
  }

  lemma AcceptUnfolds(l: Limits, t: Receiver, p: AudioRxPacket)
    requires Keyed(t.buffer) && t.expected < WRAP && p.seqNo < WRAP && p.seqNo !in t.buffer
    requires var b := t.buffer[p.seqNo := p];
             && Numbered(b)
             && var r := Play(l, b, t.expected); PlaysRun(l.maxPackets, b, t.expected, r)
    ensures Stored(l, t, p, Accept(l, t, p).0, Accept(l, t, p).1)
  {
    hide RunFrom, BeginsAt, Play, Keyed, Numbered, Missed;
  }

  // ---- what holds over every run ---------------------------------------------------------

  /**
   The epoch since the last start: its first number, the number now expected, unwrapped, how many
   packets it stored, what it played and gave up, and whether all it accepted lie before the wrap;
   and all packets discarded so far.
   */
  datatype History =
    History(start: nat, next: nat, stored: nat, played: seq<nat>, lost: nat, straight: bool, discarded: nat)

  const NOTHING_YET := History(0, 0, 0, [], 0, true, 0)
  const EMPTY := Receiver(map[], false, false, 0, 0, 0, 0, 0, 0, 0)

  function SeqNos(packets: seq<AudioRxPacket>): (r: seq<nat>)
    ensures |r| == |packets| && forall i :: 0 <= i < |r| ==> r[i] == packets[i].seqNo
  {
    seq(|packets|, i requires 0 <= i < |packets| => packets[i].seqNo)
  }

  /** The epoch a packet arrives in: a new one if it is the first or too far ahead. */
  function Epoch(l: Limits, s: Receiver, h: History, seqNo: nat): History {
    var t := Arrive(l, s, seqNo);
    var discarded := if |t.buffer| < |s.buffer| then |s.buffer| - |t.buffer| else 0;
    if !s.initialized || t.resets > s.resets then
      History(seqNo, seqNo, 0, [], 0, true, h.discarded + discarded)
    else h
  }

  /** The history after a push, told from what the push shows. */
  function Note(l: Limits, s: Receiver, h: History, p: AudioRxPacket): History
    requires Keyed(s.buffer) && s.expected < WRAP && p.seqNo < WRAP
  {
    var t, h0 := Arrive(l, s, p.seqNo), Epoch(l, s, h, p.seqNo);
    var (u, ready) := Push(l, s, p);
    var accepted := u.late == t.late && u.duplicate == t.duplicate;
    h0.(next := h0.next + Forward(h0.next, u.expected),
        stored := h0.stored + (if accepted then 1 else 0),
        played := h0.played + SeqNos(ready),
        lost := h0.lost + (if u.lost > s.lost then u.lost - s.lost else 0),
        straight := h0.straight && (accepted ==> h0.next + SeqDelta(p.seqNo, t.expected) < WRAP))
  }

  ghost predicate Sized(l: Limits) {
    1 <= l.initialPackets < l.maxPackets
  }

  /** Numbers going up from low, below high. */
  ghost predicate Rising(s: seq<nat>, low: nat, high: nat) {
    && (forall i :: 0 <= i < |s| ==> low <= s[i] < high)
    && (forall i, j :: 0 <= i < j < |s| ==> s[i] < s[j])
  }

  /**
   Every packet counted is late, a duplicate, played, waiting or discarded; the buffer stays below
   its bound. While the epoch has not wrapped, it played in strictly rising order, and the advance
   of the expected number is what was played plus what was counted lost.
   */
  ghost predicate Consistent(l: Limits, s: Receiver, h: History) {
    && Keyed(s.buffer) && s.expected < WRAP
    && s.received == s.late + s.duplicate + s.delivered + |s.buffer| + h.discarded
    && |s.buffer| < l.maxPackets
    && (!s.primed ==> |s.buffer| < l.initialPackets)
    && (!s.initialized ==> s.buffer == map[])
    && (s.initialized ==> h.stored > 0 && Primed(l, s, h))
    && (s.initialized && h.straight ==> Straight(s, h))
  }

  /**
   How an epoch begins: it has played something if and only if it has stored the initial count,
   and then first of all the packet it began with. Until then every packet stored waits.
   */
  ghost predicate Primed(l: Limits, s: Receiver, h: History) {
    && (s.primed <==> h.stored >= l.initialPackets)
    && (h.played != [] <==> h.stored >= l.initialPackets)
    && (h.played != [] ==> h.played[0] == h.start)
    && (h.stored < l.initialPackets ==> |s.buffer| == h.stored && Waiting(s, h))
  }

  /** The packet the epoch began with is expected, and there once anything is. */
  ghost predicate Waiting(s: Receiver, h: History) {
    s.expected == h.start && (h.stored > 0 ==> h.start in s.buffer)
  }

  ghost predicate Straight(s: Receiver, h: History) {
    && h.next <= WRAP && Wrapped(h.next) == s.expected
    && Ahead(s.buffer, h.next)
    && Rising(h.played, h.start, h.next)
    && h.next - h.start == |h.played| + h.lost
  }

  /** All entries lie at or ahead of the next number, by less than half the range. */
  ghost predicate Ahead(b: Buffer, next: nat) {
    forall k :: k in b ==> next <= k < next + WRAP / 2
  }

  lemma EmptyConsistent(l: Limits)
    requires Sized(l)
    ensures Consistent(l, EMPTY, NOTHING_YET)
  {}

  lemma ConsistentShape(l: Limits, s: Receiver, h: History)
    requires Consistent(l, s, h)
    ensures Keyed(s.buffer) && s.expected < WRAP
    ensures |s.buffer| < l.maxPackets && (!s.initialized ==> s.buffer == map[])
  {}

  lemma {:induction false} DrainStraight(b: Buffer, next: nat)
    requires Keyed(b) && next <= WRAP && Ahead(b, next)
    ensures var r := Drain(b, Wrapped(next));
            var next' := next + |r.out|;
            && next' <= WRAP && r.next == Wrapped(next') && Ahead(r.left, next') && Rising(SeqNos(r.out), next, next')
            && (next' == next || next' - 1 in b)
    decreases |b|
  {
    hide *;
    if Wrapped(next) in b {
      DrainTurn(b, next);
      DrainStraight(b - {next}, next + 1);
      var r := Drain(b - {next}, Wrapped(next + 1));
      FirstRises(b[next], r.out, next, next + 1 + |r.out|);
    } else {
      DrainUnfolds(b, Wrapped(next));
      NothingRises(next);
    }
  }

  /** One turn, while the next number is there. */
  lemma DrainTurn(b: Buffer, next: nat)
    requires Keyed(b) && next <= WRAP && Ahead(b, next) && Wrapped(next) in b
    ensures next < WRAP && next in b && b[next].seqNo == next
    ensures var b' := b - {next};
            var r, r' := Drain(b, Wrapped(next)), Drain(b', Wrapped(next + 1));
            && Keyed(b') && Ahead(b', next + 1) && |b'| < |b|
            && r.left == r'.left && r.next == r'.next && r.out == [b[next]] + r'.out
  {
    hide *;
    ExpectedIsNext(b, next);
    DrainUnfolds(b, next);
  }

  lemma ExpectedIsNext(b: Buffer, next: nat)
    requires Keyed(b) && next <= WRAP && Ahead(b, next) && Wrapped(next) in b
    ensures next < WRAP && Wrapped(next) == next && b[next].seqNo == next
    ensures var b' := b - {next}; Keyed(b') && Ahead(b', next + 1) && |b'| < |b|
  {
    var b' := b - {Wrapped(next)};
    assert |b'.Keys| < |b.Keys|;
  }

  lemma FirstRises(p: AudioRxPacket, rest: seq<AudioRxPacket>, next: nat, high: nat)
    requires p.seqNo == next && Rising(SeqNos(rest), next + 1, high) && next < high
    ensures Rising(SeqNos([p] + rest), next, high)
  {
    assert SeqNos([p] + rest) == [next] + SeqNos(rest);
  }

  lemma {:induction false} SkipStraight(maxPackets: nat, b: Buffer, next: nat)
    requires Keyed(b) && Numbered(b) && next <= WRAP && Ahead(b, next)
    ensures var r := SkipLoss(maxPackets, b, Wrapped(next));
            var next' := next + |r.out| + r.lost;
            && next' <= WRAP && r.next == Wrapped(next') && Ahead(r.left, next') && Rising(SeqNos(r.out), next, next')
            && (next' == next || next' - 1 in b)
    decreases |b|
  {
    hide Drain, Keyed, Numbered, Ahead, Rising, SkipLoss, SeqDelta, Wrapped, Part;
    if b != map[] && |b| >= maxPackets {
      var e, k := Wrapped(next), LeastKey(b);
      FirstAhead(b, next, k);
      var drained := Drain(b, k);
      DrainStraight(b, k);
      assert Keyed(drained.left) && Numbered(drained.left) by { KeyedPart(b, drained.left); }
      PartMembers(drained.left, b);
      var next1 := k + |drained.out|;
      SkipStraight(maxPackets, drained.left, next1);
      var rest := SkipLoss(maxPackets, drained.left, drained.next);
      SkipUnfolds(maxPackets, b, e, []);
      assert SkipLoss(maxPackets, b, e).out == drained.out + rest.out;
      RisingConcat(SeqNos(drained.out), SeqNos(rest.out), next, next1, next1 + |rest.out| + rest.lost);
      assert SeqNos(drained.out + rest.out) == SeqNos(drained.out) + SeqNos(rest.out);
    } else {
      SkipNothing(maxPackets, b, Wrapped(next));
      NothingRises(next);
    }
  }

  lemma SkipNothing(maxPackets: nat, b: Buffer, expected: nat)
    requires Keyed(b) && Numbered(b) && expected < WRAP && (b == map[] || |b| < maxPackets)
    ensures SkipLoss(maxPackets, b, expected) == Played(b, expected, [], 0)
  {}

  lemma NothingRises(next: nat)
    ensures Rising(SeqNos([]), next, next)
  {}

  lemma KeyedPart(b: Buffer, c: Buffer)
    requires Keyed(b) && Part(c, b)
    ensures Keyed(c) && Numbered(c)
  {}

  /** The first entry is the nearest ahead, and its distance is counted exactly. */
  lemma FirstAhead(b: Buffer, next: nat, k: nat)
    requires Keyed(b) && next <= WRAP && Ahead(b, next) && k in b && forall j :: j in b ==> k <= j
    ensures next <= k < WRAP && SeqDelta(k, Wrapped(next)) == k - next && Ahead(b, k)
  {}

  lemma RisingConcat(a: seq<nat>, b: seq<nat>, low: nat, mid: nat, high: nat)
    requires exists from: nat :: low <= from <= mid && Rising(a, from, mid)
    requires Rising(b, mid, high) && mid <= high
    ensures Rising(a + b, low, high)
  {}

  /** What the arrival itself does: it starts an epoch, or leaves the epoch alone. */
  lemma ArriveConsistent(l: Limits, s: Receiver, h: History, seqNo: nat)
    requires Sized(l) && Consistent(l, s, h) && seqNo < WRAP
    ensures var t := Arrive(l, s, seqNo);
            && Keyed(t.buffer) && t.expected < WRAP && t.initialized
            && |t.buffer| < l.maxPackets && (!t.primed ==> |t.buffer| < l.initialPackets)
            && t.resets >= s.resets
            && (if !s.initialized || t.resets > s.resets then t.buffer == map[] && t.expected == seqNo
                else t == s.(received := s.received + 1))
            && (t.buffer != map[] ==> t.buffer == s.buffer)
            && SeqDelta(seqNo, t.expected) <= l.maxSequenceGap
  {
    SelfDelta(seqNo);
  }

  lemma AcceptCounts(l: Limits, t: Receiver, p: AudioRxPacket)
    requires Sized(l) && Keyed(t.buffer) && t.expected < WRAP && p.seqNo < WRAP && p.seqNo !in t.buffer
    ensures var u := Accept(l, t, p).0;
            && Keyed(u.buffer) && u.expected < WRAP
            && u.delivered + |u.buffer| == t.delivered + |t.buffer| + 1
            && (|t.buffer| < l.maxPackets ==> |u.buffer| < l.maxPackets)
            && (!u.primed ==> |u.buffer| < l.initialPackets)
            && u.received == t.received && u.late == t.late && u.duplicate == t.duplicate
            && u.initialized == t.initialized
            && u.resets == t.resets && u.lost >= t.lost
  {
    hide Play;
    var b := t.buffer[p.seqNo := p];
    if t.primed || |b| >= l.initialPackets {
      KeyedPart(b, Play(l, b, t.expected).left);
    }
  }

  lemma PushCounts(l: Limits, s: Receiver, h: History, p: AudioRxPacket)
    requires Sized(l) && Consistent(l, s, h) && p.seqNo < WRAP
    ensures var u := Push(l, s, p).0; var h' := Note(l, s, h, p);
            && Keyed(u.buffer) && u.expected < WRAP && u.initialized
            && u.received == u.late + u.duplicate + u.delivered + |u.buffer| + h'.discarded
            && |u.buffer| < l.maxPackets && (!u.primed ==> |u.buffer| < l.initialPackets)
  {
    ArriveConsistent(l, s, h, p.seqNo);
    var t := Arrive(l, s, p.seqNo);
    ArriveCounts(l, s, p.seqNo);
    hide Accept, SeqDelta, Arrive, Straight, Keyed;
    if SeqDelta(p.seqNo, t.expected) >= 0 && p.seqNo !in t.buffer {
      AcceptCounts(l, t, p);
    }
  }

  lemma ArriveCounts(l: Limits, s: Receiver, seqNo: nat)
    ensures var t := Arrive(l, s, seqNo);
            && t.received == s.received + 1 && t.late == s.late && t.duplicate == s.duplicate
            && t.delivered == s.delivered
            && t.lost == s.lost && (t.buffer == s.buffer || t.buffer == map[])
            && (t.resets == s.resets ==> t.buffer == s.buffer)
  {}

  /** An accepted packet short of the wrap goes in ahead; playing and skipping keep the epoch straight. */
  lemma AcceptStraight(l: Limits, t: Receiver, h0: History, p: AudioRxPacket)
    requires t.initialized && Keyed(t.buffer) && Straight(t, h0) && p.seqNo < WRAP && t.expected < WRAP
    requires SeqDelta(p.seqNo, t.expected) >= 0 && h0.next + SeqDelta(p.seqNo, t.expected) < WRAP
    ensures var b := t.buffer[p.seqNo := p];
            && Keyed(b) && Ahead(b, h0.next) && h0.next == t.expected
  {}

  lemma PlayStraight(l: Limits, b: Buffer, next: nat)
    requires Keyed(b) && Numbered(b) && next <= WRAP && Ahead(b, next)
    ensures var r := Play(l, b, Wrapped(next));
            var next' := next + |r.out| + r.lost;
            && next' <= WRAP && next' <= next + WRAP / 2
            && r.next == Wrapped(next') && Ahead(r.left, next') && Rising(SeqNos(r.out), next, next')
  {
    hide Drain, SkipLoss, Keyed, Ahead, Rising, Part, Numbered;
    DrainStraight(b, next);
    var drained := Drain(b, Wrapped(next));
    assert Keyed(drained.left) && Numbered(drained.left) by { KeyedPart(b, drained.left); }
    var mid := next + |drained.out|;
    SkipStraight(l.maxPackets, drained.left, mid);
    var skipped := SkipLoss(l.maxPackets, drained.left, drained.next);
    RisingConcat(SeqNos(drained.out), SeqNos(skipped.out), next, mid, mid + |skipped.out| + skipped.lost);
    assert SeqNos(drained.out + skipped.out) == SeqNos(drained.out) + SeqNos(skipped.out);
    NotFarAhead(b, next);
    PartMembers(drained.left, b);
  }

  lemma PartMembers(c: Buffer, b: Buffer)
    requires Part(c, b)
    ensures forall k :: k in c ==> k in b
  {}

  lemma NotFarAhead(b: Buffer, next: nat)
    requires Ahead(b, next)
    ensures forall k :: k in b ==> k < next + WRAP / 2
  {}

  /** The unwrapped advance is read off the raw number. */
  lemma Advance(next: nat, next': nat)
    requires next <= next' <= WRAP && (next == 0 ==> next' < WRAP)
    ensures next + Forward(next, Wrapped(next')) == next'
  {}

  lemma FreshEpoch(t: Receiver, h0: History, seqNo: nat)
    requires t.buffer == map[] && t.expected == seqNo < WRAP
    requires h0.start == seqNo && h0.next == seqNo && h0.played == [] && h0.lost == 0
    ensures Straight(t, h0)
  {}

  lemma EpochStraight(l: Limits, s: Receiver, h: History, seqNo: nat)
    requires Sized(l) && Consistent(l, s, h) && seqNo < WRAP && Epoch(l, s, h, seqNo).straight
    ensures Straight(Arrive(l, s, seqNo), Epoch(l, s, h, seqNo))
  {
    ArriveConsistent(l, s, h, seqNo);
    var t, h0 := Arrive(l, s, seqNo), Epoch(l, s, h, seqNo);
    hide Arrive, Keyed, Rising, Ahead;
    if !s.initialized || t.resets > s.resets {
      FreshEpoch(t, h0, seqNo);
    }
  }

  lemma PushStaysStraight(l: Limits, s: Receiver, h: History, p: AudioRxPacket)
    requires Sized(l) && Consistent(l, s, h) && p.seqNo < WRAP && Note(l, s, h, p).straight
    ensures Straight(Push(l, s, p).0, Note(l, s, h, p))
  {
    var t, h0 := Arrive(l, s, p.seqNo), Epoch(l, s, h, p.seqNo);
    EpochStraight(l, s, h, p.seqNo);
    ArriveConsistent(l, s, h, p.seqNo);
    ArriveCounts(l, s, p.seqNo);
    hide Accept, SeqDelta, Arrive, Epoch, Keyed, Rising, Ahead, Straight, Consistent, Forward, Wrapped;
    var (u, ready) := Push(l, s, p);
    var h' := Note(l, s, h, p);
    if SeqDelta(p.seqNo, t.expected) >= 0 && p.seqNo !in t.buffer {
      AcceptCounts(l, t, p);
      AcceptedStraight(l, t, h0, p, h');
    } else {
      assert h0.played + SeqNos(ready) == h0.played;
      NotAcceptedStraight(t, h0, u, h');
    }
  }

  /** A late packet or a duplicate moves nothing. */
  lemma NotAcceptedStraight(t: Receiver, h0: History, u: Receiver, h': History)
    requires Straight(t, h0) && u.buffer == t.buffer && u.expected == t.expected
    requires h'.start == h0.start && h'.played == h0.played && h'.lost == h0.lost
    requires h'.next == h0.next + Forward(h0.next, u.expected)
    ensures Straight(u, h')
  {
    Advance(h0.next, h0.next);
  }

  lemma AcceptedStraight(l: Limits, t: Receiver, h0: History, p: AudioRxPacket, h': History)
    requires t.initialized && Keyed(t.buffer) && Straight(t, h0) && p.seqNo < WRAP && t.expected < WRAP
    requires SeqDelta(p.seqNo, t.expected) >= 0 && h0.next + SeqDelta(p.seqNo, t.expected) < WRAP
    requires var (u, ready) := Accept(l, t, p);
             && h'.next == h0.next + Forward(h0.next, u.expected) && h'.start == h0.start
             && h'.played == h0.played + SeqNos(ready) && h'.lost == h0.lost + (u.lost - t.lost)
    ensures Straight(Accept(l, t, p).0, h')
  {
    AcceptStraight(l, t, h0, p);
    AcceptCases(l, t, p);
    var b := t.buffer[p.seqNo := p];
    var (u, ready) := Accept(l, t, p);
    hide Accept, Play, SeqDelta, Keyed, Rising, Ahead, Straight, Forward, Wrapped;
    StraightParts(t, h0);
    if t.primed || |b| >= l.initialPackets {
      PlayStraight(l, b, h0.next);
      AppendStraight(h0, u, ready, h');
    } else {
      Advance(h0.next, h0.next);
      assert h0.played + SeqNos(ready) == h0.played;
      StaysStraight(h0, u, h');
    }
  }

  lemma AcceptCases(l: Limits, t: Receiver, p: AudioRxPacket)
    requires Keyed(t.buffer) && t.expected < WRAP && p.seqNo < WRAP
    ensures var b := t.buffer[p.seqNo := p]; var (u, ready) := Accept(l, t, p);
            && Numbered(b)
            && if t.primed || |b| >= l.initialPackets then
                 var r := Play(l, b, t.expected);
                 u.buffer == r.left && u.expected == r.next && u.lost == t.lost + r.lost && ready == r.out
               else u.buffer == b && u.expected == t.expected && u.lost == t.lost && ready == []
  {
    hide Play;
  }

  lemma StraightParts(t: Receiver, h0: History)
    requires Straight(t, h0)
    ensures Rising(h0.played, h0.start, h0.next) && h0.next - h0.start == |h0.played| + h0.lost && h0.next <= WRAP
    ensures Wrapped(h0.next) == t.expected
  {}

  lemma StaysStraight(h0: History, u: Receiver, h': History)
    requires h0.next < WRAP && u.expected == h0.next && Ahead(u.buffer, h0.next)
    requires Rising(h0.played, h0.start, h0.next) && h0.next - h0.start == |h0.played| + h0.lost
    requires h'.start == h0.start && h'.played == h0.played && h'.lost == h0.lost && h'.next == h0.next
    ensures Straight(u, h')
  {}

  lemma AppendStraight(h0: History, u: Receiver, ready: seq<AudioRxPacket>, h': History)
    requires h0.next < WRAP && Rising(h0.played, h0.start, h0.next) && h0.next - h0.start == |h0.played| + h0.lost
    requires h'.lost >= h0.lost
    requires var next' := h0.next + |ready| + (h'.lost - h0.lost);
             && next' <= WRAP && next' <= h0.next + WRAP / 2 && u.expected == Wrapped(next')
             && Ahead(u.buffer, next') && Rising(SeqNos(ready), h0.next, next')
    requires h'.next == h0.next + Forward(h0.next, u.expected) && h'.start == h0.start
    requires h'.played == h0.played + SeqNos(ready)
    ensures Straight(u, h')
  {
    hide Forward, Wrapped, Ahead, Rising;
    var next' := h0.next + |ready| + (h'.lost - h0.lost);
    Advance(h0.next, next');
    RisingConcat(h0.played, SeqNos(ready), h0.start, h0.next, next');
  }

  /** The epoch a packet finds: one that has begun as it must, or one that is just beginning. */
  ghost predicate Begins(l: Limits, t: Receiver, h0: History) {
    Primed(l, t, h0) && (h0.stored == 0 ==> t.buffer == map[])
  }

  lemma EpochBegins(l: Limits, s: Receiver, h: History, seqNo: nat)
    requires Sized(l) && Consistent(l, s, h) && seqNo < WRAP
    ensures Begins(l, Arrive(l, s, seqNo), Epoch(l, s, h, seqNo))
    ensures var t, h0 := Arrive(l, s, seqNo), Epoch(l, s, h, seqNo);
            h0.stored == 0 ==> seqNo == h0.start && SeqDelta(seqNo, t.expected) >= 0 && t.buffer == map[]
  {
    SelfDelta(seqNo);
    hide SeqDelta, Straight, Keyed;
  }

  lemma PushStaysPrimed(l: Limits, s: Receiver, h: History, p: AudioRxPacket)
    requires Sized(l) && Consistent(l, s, h) && p.seqNo < WRAP
    ensures Note(l, s, h, p).stored > 0 && Primed(l, Push(l, s, p).0, Note(l, s, h, p))
  {
    var t, h0 := Arrive(l, s, p.seqNo), Epoch(l, s, h, p.seqNo);
    ArriveConsistent(l, s, h, p.seqNo);
    EpochBegins(l, s, h, p.seqNo);
    hide Accept, Arrive, Epoch, SeqDelta, Straight, Keyed, Primed, Begins, Consistent, PlaysRun, Sized;
    var (u, ready) := Push(l, s, p);
    var h' := Note(l, s, h, p);
    assert h0.played + SeqNos([]) == h0.played;
    if SeqDelta(p.seqNo, t.expected) >= 0 && p.seqNo !in t.buffer {
      AcceptStores(l, t, p);
      AcceptPrimes(l, t, h0, p, u, ready, h');
    } else {
      StaysPrimed(l, t, h0, u, h');
    }
  }

  lemma StaysPrimed(l: Limits, t: Receiver, h0: History, u: Receiver, h': History)
    requires Begins(l, t, h0)
    requires u.buffer == t.buffer && u.primed == t.primed && u.expected == t.expected
    requires h'.stored == h0.stored && h'.played == h0.played && h'.start == h0.start
    ensures Primed(l, u, h')
  {}

  lemma AcceptPrimes(l: Limits, t: Receiver, h0: History, p: AudioRxPacket, u: Receiver, ready: seq<AudioRxPacket>,
                     h': History)
    requires Sized(l) && Begins(l, t, h0) && p.seqNo !in t.buffer && p.seqNo < WRAP && Keyed(t.buffer)
    requires h0.stored == 0 ==> p.seqNo == h0.start
    requires Stored(l, t, p, u, ready)
    requires h'.stored == h0.stored + 1 && h'.played == h0.played + SeqNos(ready) && h'.start == h0.start
    ensures Primed(l, u, h')
  {
    var b := t.buffer[p.seqNo := p];
    if u.primed && !t.primed {
      assert t.expected in b && Keyed(b);
      RunBegins(l.maxPackets, b, t.expected, Played(u.buffer, u.expected, ready, u.lost - t.lost));
    }
    hide PlaysRun, Keyed;
  }

  /** Where the expected packet waits, it is the first one played. */
  lemma RunBegins(maxPackets: nat, b: Buffer, expected: nat, r: Played)
    requires Keyed(b) && expected in b && PlaysRun(maxPackets, b, expected, r)
    ensures r.out != [] && r.out[0].seqNo == expected
  {
    RunFirst(b, expected, r.left, r.next, r.out);
  }

  lemma RunFirst(b: Buffer, from: nat, left: Buffer, next: nat, out: seq<AudioRxPacket>)
    requires Keyed(b) && from in b && RunFrom(b, from, left, next, out)
    ensures out != [] && out[0].seqNo == from
  {
    if out != [] {
      assert IsAt(b, from, 0, out[0]);
    }
  }

  lemma PushKeepsConsistent(l: Limits, s: Receiver, h: History, p: AudioRxPacket)
    requires Sized(l) && Consistent(l, s, h) && p.seqNo < WRAP
    ensures Consistent(l, Push(l, s, p).0, Note(l, s, h, p))
  {
    PushCounts(l, s, h, p);
    PushStaysPrimed(l, s, h, p);
    if Note(l, s, h, p).straight {
      PushStaysStraight(l, s, h, p);
    }
    hide Push, Note, Straight, Keyed, Primed, Sized;
  }
}
