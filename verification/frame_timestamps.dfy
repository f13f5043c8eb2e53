/**
 Which capture time an encoded access unit gets (src/video/video_encoder.cpp, submit and
 dequeueOne). The encoder hands back several units per frame, and the driver stamps some of
 them with 0; the submit times queue up and each is to be used for exactly the units of its frame.
 */
module FrameTimestamps {
  import opened Wrappers

  /** The queued submit times, the time last handed out, and the units still expected with it. */
  datatype Stamps = Stamps(queue: seq<nat>, last: nat, remaining: nat)

  function Slices(configured: nat): (n: nat)
    ensures n == configured || (configured == 0 && n == 1)
  {
    if configured > 1 then configured else 1
  }

  /** A fresh time is taken up: the frame's other units are still to come. */
  function TakeUp(n: nat, queue: seq<nat>, ts: nat): Stamps {
    Stamps(queue, ts, if n > 1 then n - 1 else 0)
  }

  /** One unit: the state after it and the time it gets. */
  function Assign(n: nat, s: Stamps, driver: nat): (Stamps, nat) {
    if driver > 0 && s.last > 0 && driver != s.last then
      if |s.queue| > 0 then (TakeUp(n, s.queue[1..], s.queue[0]), s.queue[0]) else (TakeUp(n, s.queue, driver), driver)
    else if n > 1 && s.remaining > 0 then
      (s.(remaining := s.remaining - 1), s.last)
    else if |s.queue| > 0 then
      (TakeUp(n, s.queue[1..], s.queue[0]), s.queue[0])
    else if driver > 0 then
      (TakeUp(n, s.queue, driver), driver)
    else
      (s.(remaining := if s.remaining > 0 then s.remaining - 1 else 0), s.last)
  }

  class TimestampTracker {
    const slicesPerFrame: nat
    var timestampQueue: seq<nat>
    var lastCaptureTs: nat
    var remainingSliceAus: nat

    function State(): Stamps
      reads this
    {
      Stamps(timestampQueue, lastCaptureTs, remainingSliceAus)
    }

    constructor (configured: nat)
      ensures slicesPerFrame == configured && State() == Stamps([], 0, 0)
    {
      slicesPerFrame := configured;
      timestampQueue, lastCaptureTs, remainingSliceAus := [], 0, 0;
    }

    /** submit, before the buffer goes to the driver. */
    method Queue(ts: nat)
      modifies `timestampQueue
      ensures State() == After(Slices(slicesPerFrame), old(State()), Begin(ts))
    {
      timestampQueue := timestampQueue + [ts];
    }

    /** submit, when the driver refuses the buffer. */
    method TakeBack()
      modifies `timestampQueue
      ensures State() == After(Slices(slicesPerFrame), old(State()), Refuse)
    {
      if timestampQueue != [] {
        timestampQueue := timestampQueue[..|timestampQueue| - 1];
      }
    }

    /** dequeueOne, for a unit the driver stamps with driverTs. */
    method Dequeue(driverTs: nat) returns (ts: nat)
      modifies this
      ensures (State(), ts) == Assign(Slices(slicesPerFrame), old(State()), driverTs)
    {
      var slices := if slicesPerFrame > 1 then slicesPerFrame else 1;
      var expectingMoreSlices := slices > 1 && remainingSliceAus > 0;
      var driverReportsNewFrame := driverTs > 0 && lastCaptureTs > 0 && driverTs != lastCaptureTs;
      if driverReportsNewFrame {
        if timestampQueue != [] {
          ts := timestampQueue[0];
          timestampQueue := timestampQueue[1..];
        } else {
          ts := driverTs;
        }
        lastCaptureTs := ts;
        remainingSliceAus := if slices > 1 then slices - 1 else 0;
      } else if expectingMoreSlices {
        ts := lastCaptureTs;
        remainingSliceAus := remainingSliceAus - 1;
      } else if timestampQueue != [] {
        ts := timestampQueue[0];
        timestampQueue := timestampQueue[1..];
        lastCaptureTs := ts;
        remainingSliceAus := if slices > 1 then slices - 1 else 0;
      } else if driverTs > 0 {
        ts := driverTs;
        lastCaptureTs := ts;
        remainingSliceAus := if slices > 1 then slices - 1 else 0;
      } else {
        ts := lastCaptureTs;
        if remainingSliceAus > 0 {
          remainingSliceAus := remainingSliceAus - 1;
        }
      }
    }
  }

  // ---- the encoder the tracker watches ---------------------------------------------------

  /**
   What happens at the driver: a submit queues its time, and then the driver accepts or refuses
   the buffer; a unit comes out, the first of the next frame or a further one of the current.
   */
  datatype Event = Begin(ts: nat) | Accept | Refuse | Unit(first: bool, driver: nat)

  /** Frames accepted but not started, the submit in progress, and the frame coming out. */
  datatype Encoder = Encoder(waiting: seq<nat>, pending: Option<nat>, current: nat, emitted: nat, newest: nat)

  const IDLE := Encoder([], None, 0, 0, 0)

  /** Of which frame, named by its submit time, a unit is part. */
  function Owner(x: Encoder, first: bool): nat
    requires first ==> |x.waiting| > 0
  {
    if first then x.waiting[0] else x.current
  }

  /**
   The driver's promises: submit times grow, frames come out in order, each in 1 to n units,
   and a unit is stamped with 0 or with its own frame's time.
   */
  predicate Legal(n: nat, x: Encoder, e: Event) {
    match e
    case Begin(ts) => x.pending.None? && ts > x.newest
    case Accept => x.pending.Some?
    case Refuse => x.pending.Some?
    case Unit(first, driver) =>
      && (if first then |x.waiting| > 0 else 0 < x.emitted < n)
      && (driver == 0 || driver == Owner(x, first))
  }

  function Advance(n: nat, x: Encoder, e: Event): Encoder
    requires Legal(n, x, e)
  {
    match e
    case Begin(ts) => x.(pending := Some(ts), newest := ts)
    case Accept => x.(waiting := x.waiting + [x.pending.value], pending := None)
    case Refuse => x.(pending := None)
    case Unit(first, _) =>
      if first then x.(waiting := x.waiting[1..], current := x.waiting[0], emitted := 1)
      else x.(emitted := x.emitted + 1)
  }

  /** What the tracker does meanwhile. */
  function After(n: nat, s: Stamps, e: Event): Stamps {
    match e
    case Begin(ts) => s.(queue := s.queue + [ts])
    case Accept => s
    case Refuse => if |s.queue| > 0 then s.(queue := s.queue[..|s.queue| - 1]) else s
    case Unit(_, driver) => Assign(n, s, driver).0
  }

  ghost predicate LegalRun(n: nat, x: Encoder, run: seq<Event>)
    decreases |run|
  {
    |run| == 0 || (Legal(n, x, run[0]) && LegalRun(n, Advance(n, x, run[0]), run[1..]))
  }

  function EncoderAfter(n: nat, x: Encoder, run: seq<Event>): Encoder
    requires LegalRun(n, x, run)
    decreases |run|
  {
    if |run| == 0 then x else EncoderAfter(n, Advance(n, x, run[0]), run[1..])
  }

  function StampsAfter(n: nat, s: Stamps, run: seq<Event>): Stamps
    decreases |run|
  {
    if |run| == 0 then s else StampsAfter(n, After(n, s, run[0]), run[1..])
  }

  /** Every unit of the run gets the time of its own frame. */
  ghost predicate AllOwn(n: nat, x: Encoder, s: Stamps, run: seq<Event>)
    requires LegalRun(n, x, run)
    decreases |run|
  {
    |run| == 0
    || ((run[0].Unit? ==> Assign(n, s, run[0].driver).1 == Owner(x, run[0].first))
        && AllOwn(n, Advance(n, x, run[0]), After(n, s, run[0]), run[1..]))
  }

  /** The frame coming out has fewer units than configured. */
  predicate Short(n: nat, x: Encoder) {
    0 < x.emitted < n
  }

  /** The first unit after a short frame carries the driver's time. */
  ghost predicate ShortFramesMarked(n: nat, x: Encoder, run: seq<Event>)
    requires LegalRun(n, x, run)
    decreases |run|
  {
    |run| == 0
    || ((run[0].Unit? && run[0].first && Short(n, x) ==> run[0].driver > 0)
        && ShortFramesMarked(n, Advance(n, x, run[0]), run[1..]))
  }

  function PendingTimes(x: Encoder): seq<nat> {
    if x.pending.Some? then [x.pending.value] else []
  }

  /** All times known to the encoder, the current frame's first, strictly increasing. */
  ghost predicate Increasing(x: Encoder) {
    var times := [x.current] + x.waiting + PendingTimes(x);
    && (forall i, j :: 0 <= i < j < |times| ==> times[i] < times[j])
    && (forall i :: 0 <= i < |times| ==> times[i] <= x.newest)
  }

  /** The queue holds exactly the frames not yet started; the count is what the frame may still emit. */
  ghost predicate InStep(n: nat, x: Encoder, s: Stamps) {
    && Increasing(x)
    && s.queue == x.waiting + PendingTimes(x)
    && s.last == x.current && (x.emitted > 0 <==> x.current > 0)
    && x.emitted <= n
    && s.remaining == (if x.emitted > 0 then n - x.emitted else 0)
  }

  lemma StartsInStep(n: nat)
    requires n >= 1
    ensures InStep(n, IDLE, Stamps([], 0, 0))
  {}

  /** A submit never disturbs the units: its time joins at the back and leaves from there. */
  lemma SubmitInStep(n: nat, x: Encoder, s: Stamps, e: Event)
    requires n >= 1 && InStep(n, x, s) && Legal(n, x, e) && !e.Unit?
    ensures InStep(n, Advance(n, x, e), After(n, s, e))
  {
    var y := Advance(n, x, e);
    match e {
      case Begin(ts) =>
        assert [y.current] + y.waiting + PendingTimes(y) == ([x.current] + x.waiting + PendingTimes(x)) + [ts];
      case Accept =>
        assert [y.current] + y.waiting + PendingTimes(y) == [x.current] + x.waiting + PendingTimes(x);
      case Refuse =>
        assert [y.current] + y.waiting + PendingTimes(y)
             == ([x.current] + x.waiting + PendingTimes(x))[..|x.waiting| + 1];
    }
  }

  /** A unit gets its own frame's time exactly unless it opens a frame unmarked after a short one. */
  lemma UnitInStep(n: nat, x: Encoder, s: Stamps, e: Event)
    requires n >= 1 && InStep(n, x, s) && Legal(n, x, e) && e.Unit?
    ensures Assign(n, s, e.driver).1 == Owner(x, e.first) <==> !(e.first && Short(n, x) && e.driver == 0)
    ensures Assign(n, s, e.driver).1 == Owner(x, e.first) ==> InStep(n, Advance(n, x, e), After(n, s, e))
  {
    var y, times := Advance(n, x, e), [x.current] + x.waiting + PendingTimes(x);
    if e.first {
      assert times[0] == x.current && times[1] == x.waiting[0];
      assert s.queue[0] == x.waiting[0];
      assert s.queue[1..] == y.waiting + PendingTimes(y);
      assert [y.current] + y.waiting + PendingTimes(y) == times[1..];
    }
  }

  /**
   For every interleaving of submits, refusals and units: every unit gets its own frame's time
   if and only if the first unit after each short frame carries the driver's time. Then the
   queue holds exactly the submits whose frames have not started, so each time is used once.
   */
  lemma {:induction false} UnitsGetTheirFramesTime(n: nat, x: Encoder, s: Stamps, run: seq<Event>)
    requires n >= 1 && InStep(n, x, s) && LegalRun(n, x, run)
    ensures AllOwn(n, x, s, run) <==> ShortFramesMarked(n, x, run)
    ensures AllOwn(n, x, s, run) ==> InStep(n, EncoderAfter(n, x, run), StampsAfter(n, s, run))
    decreases |run|
  {
    if |run| > 0 {
      var e := run[0];
      if e.Unit? {
        UnitInStep(n, x, s, e);
        if Assign(n, s, e.driver).1 == Owner(x, e.first) {
          UnitsGetTheirFramesTime(n, Advance(n, x, e), After(n, s, e), run[1..]);
        }
      } else {
        SubmitInStep(n, x, s, e);
        UnitsGetTheirFramesTime(n, Advance(n, x, e), After(n, s, e), run[1..]);
      }
    }
  }

  /** For every run of an idle encoder and an empty tracker. */
  lemma UnitsGetTheirFramesTimeFromIdle(n: nat, run: seq<Event>)
    requires n >= 1 && LegalRun(n, IDLE, run)
    ensures AllOwn(n, IDLE, Stamps([], 0, 0), run) <==> ShortFramesMarked(n, IDLE, run)
  {
    StartsInStep(n);
    UnitsGetTheirFramesTime(n, IDLE, Stamps([], 0, 0), run);
  }

  /** Two slices per frame: two frames submitted, and one unit of the first come out. */
  lemma ShortFrameReached(a: nat, b: nat)
    requires 0 < a < b
    ensures var x, s := IDLE, Stamps([], 0, 0);
            && Legal(2, x, Begin(a)) && Legal(2, Advance(2, x, Begin(a)), Accept)
            && var x, s := Advance(2, Advance(2, x, Begin(a)), Accept), After(2, After(2, s, Begin(a)), Accept);
            && Legal(2, x, Begin(b)) && Legal(2, Advance(2, x, Begin(b)), Accept)
            && var x, s := Advance(2, Advance(2, x, Begin(b)), Accept), After(2, After(2, s, Begin(b)), Accept);
            && Legal(2, x, Unit(true, a))
            && Advance(2, x, Unit(true, a)) == Encoder([b], None, a, 1, b)
            && After(2, s, Unit(true, a)) == Stamps([b], a, 1)
  {
    assert [a] + [b] == [a, b] && [a, b][1..] == [b];
  }

  /** If the next frame then starts unmarked, its unit gets the time of the frame before. */
  lemma UnmarkedAfterShortFrame(a: nat, b: nat)
    requires 0 < a < b
    ensures var x, s, e := Encoder([b], None, a, 1, b), Stamps([b], a, 1), Unit(true, 0);
            Legal(2, x, e) && Owner(x, e.first) == b && Assign(2, s, e.driver).1 == a
  {}
}
