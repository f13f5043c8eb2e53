/**
 The leaky-bucket pacer of src/udp/pacer.cpp. Time points are nanoseconds; debt and rates are
 reals, so the rounding of doubles is idealised away, while the truncation to microseconds and
 to whole bits per second is not.
 */
module Pacers {

  const MAX_UINT64: nat := 0xFFFF_FFFF_FFFF_FFFF
  const MAX_ELAPSED_US: nat := 2000000

  datatype Config = Config(
    enabled: bool,
    pacingBps: nat,
    sendBurstIntervalMs: nat,
    maxBurstBytes: nat,
    maxDebtMs: nat,
    queueTimeLimitMs: nat,
    maxDrainMultiplier: real)
  {
    predicate Active() {
      enabled && pacingBps > 0
    }

    predicate Normal() {
      maxDrainMultiplier >= 1.0 && pacingBps <= MAX_UINT64
    }
  }

  datatype Pacer = Pacer(debt: real, bps: nat, last: int)

  function MinReal(a: real, b: real): real {
    if a <= b then a else b
  }

  function MaxReal(a: real, b: real): real {
    if a >= b then a else b
  }

  function Clamp(x: real, low: real, high: real): real {
    MinReal(MaxReal(x, low), high)
  }

  function Ceil(x: real): int {
    if x == x.Floor as real then x.Floor else x.Floor + 1
  }

  function Times(a: real, b: real): real {
    a * b
  }

  /** The cast to 64 bits. */
  function Whole(x: real): int {
    if x > MAX_UINT64 as real then MAX_UINT64 else x.Floor
  }

  /** The multiple of the configured rate that a full queue may ask for. */
  function MaxBps(c: Config): real {
    Times(c.pacingBps as real, c.maxDrainMultiplier)
  }

  /** The top rate in bits per second: the largest one that any queue asks for (TopReached). */
  function TopBps(c: Config): int {
    if c.Active() && c.queueTimeLimitMs > 0 then Whole(MaxBps(c)) else c.pacingBps
  }

  /** adjustedRateBps: fast enough to drain the queue within its time limit, within [base, top]. */
  function AdjustedRateBps(c: Config, queueBytes: nat): int {
    if !c.Active() then c.pacingBps
    else
      var base := c.pacingBps as real;
      var wanted :=
        if c.queueTimeLimitMs > 0 && queueBytes > 0
        then MaxReal(base, queueBytes as real * 8.0 * 1000.0 / c.queueTimeLimitMs as real)
        else base;
      Whole(Clamp(wanted, base, MaxBps(c)))
  }

  function RateBytesPerSec(c: Config, p: Pacer, queueBytes: nat): real {
    (if p.bps > 0 then p.bps else AdjustedRateBps(c, queueBytes)) as real / 8.0
  }

  /** The burst a rate allows: a short window of it, capped by configuration. */
  function BurstAt(c: Config, rate: real): real {
    var window := c.sendBurstIntervalMs as real;
    var window' := if c.Active() then MinReal(window, 1.0) else window;
    var interval := rate * window' / 1000.0;
    if c.maxBurstBytes == 0 then interval else MinReal(interval, c.maxBurstBytes as real)
  }

  function AllowedBurstBytes(c: Config, p: Pacer, queueBytes: nat): real {
    BurstAt(c, RateBytesPerSec(c, p, queueBytes))
  }

  /** The debt a rate allows. */
  function DebtAt(c: Config, rate: real): real {
    rate * c.maxDebtMs as real / 1000.0
  }

  function MaxDebtBytes(c: Config, p: Pacer, queueBytes: nat): real {
    DebtAt(c, RateBytesPerSec(c, p, queueBytes))
  }

  function PaidOff(rate: real, us: nat): real {
    rate * us as real / 1000000.0
  }

  /** updateBudget: pays off debt for the whole microseconds that have passed, at most two seconds' worth. */
  function UpdateBudget(c: Config, p: Pacer, now: int, queueBytes: nat): Pacer
    requires c.Normal()
  {
    if now < p.last then p.(last := now)
    else
      AdjustedInRange(c, queueBytes);
      var q := p.(bps := AdjustedRateBps(c, queueBytes), last := now);
      var elapsed := (now - p.last) / 1000;
      if elapsed <= 0 then q
      else
        var rate := RateBytesPerSec(c, q, queueBytes);
        if rate <= 0.0 then q.(debt := 0.0)
        else
          var us := if elapsed < MAX_ELAPSED_US then elapsed else MAX_ELAPSED_US;
          q.(debt := Clamp(q.debt - PaidOff(rate, us), 0.0, MaxDebtBytes(c, q, queueBytes)))
  }

  /** timeUntilNextSend, the answer: microseconds to wait. */
  function WaitUs(c: Config, p: Pacer, queueBytes: nat, accounted: bool): int {
    if !c.Active() || !accounted then 0
    else
      var allowed, rate := AllowedBurstBytes(c, p, queueBytes), RateBytesPerSec(c, p, queueBytes);
      if p.debt <= allowed || rate <= 0.0 then 0
      else Ceil(MaxReal(0.0, (p.debt - allowed) * 1000000.0 / rate))
  }

  lemma WaitNonNegative(c: Config, p: Pacer, queueBytes: nat, accounted: bool)
    ensures WaitUs(c, p, queueBytes, accounted) >= 0
  {
    hide AllowedBurstBytes, RateBytesPerSec;
  }

  /** onPacketSent, after its updateBudget. */
  function Charge(c: Config, p: Pacer, bytes: nat, accounted: bool, queueBytes: nat): Pacer {
    if c.Active() && accounted
    then p.(debt := MinReal(p.debt + bytes as real, MaxDebtBytes(c, p, queueBytes)))
    else p
  }

  /** onBlocked, after its updateBudget: at least the burst plus a cooldown. */
  function BackOff(c: Config, p: Pacer, bytes: nat, queueBytes: nat): Pacer {
    if !c.Active() then p
    else
      var rate := RateBytesPerSec(c, p, queueBytes);
      var cooldown := if rate > 0.0 then rate * 1.0 / 1000.0 else bytes as real;
      var least := AllowedBurstBytes(c, p, queueBytes) + MaxReal(bytes as real, cooldown);
      p.(debt := Clamp(MaxReal(p.debt, least), 0.0, MaxDebtBytes(c, p, queueBytes)))
  }

  // ---- ranges ----------------------------------------------------------------------------

  lemma ScaleUp(a: real, m: real)
    requires a >= 0.0 && m >= 1.0
    ensures Times(a, m) >= a
  {}

  lemma Scale(a: real, b: real, x: real)
    requires a <= b && x >= 0.0
    ensures a * x <= b * x
  {}

  /** The adjusted rate stays between the configured rate and the top rate. */
  lemma AdjustedInRange(c: Config, queueBytes: nat)
    requires c.Normal()
    ensures c.pacingBps <= AdjustedRateBps(c, queueBytes) <= TopBps(c)
  {
    var base := c.pacingBps as real;
    ScaleUp(base, c.maxDrainMultiplier);
    hide Times;
    if c.Active() {
      var wanted :=
        if c.queueTimeLimitMs > 0 && queueBytes > 0
        then MaxReal(base, queueBytes as real * 8.0 * 1000.0 / c.queueTimeLimitMs as real)
        else base;
      WholeOfClamp(wanted, c.pacingBps, MaxBps(c));
    }
  }

  lemma WholeOfClamp(x: real, low: nat, high: real)
    requires low as real <= high && low <= MAX_UINT64
    ensures low <= Whole(Clamp(x, low as real, high)) <= Whole(high)
    ensures x <= low as real ==> Whole(Clamp(x, low as real, high)) == low
    ensures x >= high ==> Whole(Clamp(x, low as real, high)) == Whole(high)
  {}

  /** An empty queue asks for the configured rate. */
  lemma EmptyQueueRate(c: Config)
    requires c.Normal()
    ensures AdjustedRateBps(c, 0) == c.pacingBps
  {
    ScaleUp(c.pacingBps as real, c.maxDrainMultiplier);
    WholeOfClamp(c.pacingBps as real, c.pacingBps, MaxBps(c));
  }

  /** A queue that is long enough asks for the top rate. */
  lemma TopReached(c: Config) returns (queueBytes: nat)
    requires c.Normal() && c.Active()
    ensures AdjustedRateBps(c, queueBytes) == TopBps(c)
  {
    if c.queueTimeLimitMs == 0 {
      queueBytes := 0;
      EmptyQueueRate(c);
    } else {
      var base, top, limit := c.pacingBps as real, MaxBps(c), c.queueTimeLimitMs;
      ScaleUp(base, c.maxDrainMultiplier);
      queueBytes := LongQueue(top, limit);
      hide MaxBps, Whole;
      WholeOfClamp(MaxReal(base, queueBytes as real * 8.0 * 1000.0 / limit as real), c.pacingBps, top);
    }
  }

  lemma LongQueue(rate: real, limit: nat) returns (queueBytes: nat)
    requires rate > 0.0 && limit > 0
    ensures queueBytes > 0 && queueBytes as real * 8.0 * 1000.0 / limit as real >= rate
  {
    var n := rate.Floor + 1;
    queueBytes := n * limit;
    assert queueBytes as real == n as real * limit as real;
    assert n as real * limit as real * 8.0 * 1000.0 / limit as real == n as real * 8000.0;
  }

  /** Bytes per second at the top rate, the largest burst, and the largest debt that rate allows. */
  function TopRate(c: Config): real {
    TopBps(c) as real / 8.0
  }

  function TopBurst(c: Config): real {
    BurstAt(c, TopRate(c))
  }

  function TopDebt(c: Config): real {
    DebtAt(c, TopRate(c))
  }

  function BaseDebt(c: Config): real {
    DebtAt(c, c.pacingBps as real / 8.0)
  }

  lemma HigherRate(c: Config, a: real, b: real)
    requires 0.0 <= a <= b
    ensures 0.0 <= BurstAt(c, a) <= BurstAt(c, b) && 0.0 <= DebtAt(c, a) <= DebtAt(c, b)
  {
    var window := c.sendBurstIntervalMs as real;
    var window' := if c.Active() then MinReal(window, 1.0) else window;
    Scale(a, b, window');
    Scale(0.0, a, window');
    Scale(a, b, c.maxDebtMs as real);
    Scale(0.0, a, c.maxDebtMs as real);
  }

  /** The pacer's ranges: rate in [base, top], debt in [0, the debt the top rate allows]. */
  ghost predicate InRange(c: Config, p: Pacer) {
    c.pacingBps <= p.bps <= TopBps(c) && 0.0 <= p.debt <= TopDebt(c)
  }

  lemma DerivedRanges(c: Config, p: Pacer, queueBytes: nat)
    requires c.Normal() && c.Active() && c.pacingBps <= p.bps <= TopBps(c)
    ensures var rate := RateBytesPerSec(c, p, queueBytes);
            && 0.0 < c.pacingBps as real / 8.0 <= rate <= TopRate(c)
            && 0.0 <= AllowedBurstBytes(c, p, queueBytes) <= TopBurst(c)
            && 0.0 <= BaseDebt(c) <= MaxDebtBytes(c, p, queueBytes) <= TopDebt(c)
  {
    hide BurstAt, DebtAt, TopBps;
    var rate := RateBytesPerSec(c, p, queueBytes);
    HigherRate(c, rate, TopRate(c));
    HigherRate(c, c.pacingBps as real / 8.0, rate);
  }

  // ---- runs ------------------------------------------------------------------------------

  /** One call into the pacer, at the time the caller passes. */
  datatype Event =
    | Query(queueBytes: nat, accounted: bool, now: int)
    | Sent(bytes: nat, accounted: bool, queueBytes: nat, now: int)
    | Blocked(bytes: nat, queueBytes: nat, now: int)
    | Stats(queueBytes: nat, now: int)
    | Restart(now: int)

  /** reset: no debt, the configured rate. */
  function Fresh(c: Config, now: int): Pacer {
    Pacer(0.0, c.pacingBps, now)
  }

  function Step(c: Config, p: Pacer, e: Event): Pacer
    requires c.Normal()
  {
    if e.Restart? then Fresh(c, e.now)
    else
      var q := UpdateBudget(c, p, e.now, e.queueBytes);
      match e
      case Sent(bytes, accounted, queueBytes, _) => Charge(c, q, bytes, accounted, queueBytes)
      case Blocked(bytes, queueBytes, _) => BackOff(c, q, bytes, queueBytes)
      case _ => q
  }

  function RunPacer(c: Config, p: Pacer, events: seq<Event>): Pacer
    requires c.Normal()
    decreases |events|
  {
    if |events| == 0 then p else RunPacer(c, Step(c, p, events[0]), events[1..])
  }

  /** Times never go back, starting from t. */
  ghost predicate Ordered(events: seq<Event>, t: int) {
    && (forall i :: 0 <= i < |events| ==> t <= events[i].now)
    && (forall i, j :: 0 <= i < j < |events| ==> events[i].now <= events[j].now)
  }

  /** Accounted packets carry at most P bytes. */
  ghost predicate PacketsUpTo(events: seq<Event>, size: nat) {
    forall i :: 0 <= i < |events| && events[i].Sent? && events[i].accounted ==> events[i].bytes <= size
  }

  /**
   The sender's discipline: an accounted packet goes out only after the pacer, asked about an
   accounted packet, answered 0, with no send or refusal since. `cleared` is the answer so far.
   */
  ghost predicate Disciplined(c: Config, p: Pacer, events: seq<Event>, cleared: bool)
    requires c.Normal()
    decreases |events|
  {
    |events| == 0
    || var e := events[0];
       && (e.Sent? && e.accounted ==> cleared)
       && Disciplined(c, Step(c, p, e), events[1..], ClearedAfter(c, p, e, cleared))
  }

  /** An accounted packet that goes out without an answer of 0: the pacer was not asked about it. */
  predicate IsUnasked(e: Event, cleared: bool) {
    e.Sent? && e.accounted && !cleared
  }

  /** How many of them a run has; a disciplined run has none. */
  function Unasked(c: Config, p: Pacer, events: seq<Event>, cleared: bool): nat
    requires c.Normal()
    decreases |events|
  {
    if |events| == 0 then 0
    else
      var e := events[0];
      (if IsUnasked(e, cleared) then 1 else 0) + Unasked(c, Step(c, p, e), events[1..], ClearedAfter(c, p, e, cleared))
  }

  lemma {:induction false} DisciplinedIsAsked(c: Config, p: Pacer, events: seq<Event>, cleared: bool)
    requires c.Normal()
    ensures Disciplined(c, p, events, cleared) <==> Unasked(c, p, events, cleared) == 0
    decreases |events|
  {
    hide Step, ClearedAfter;
    if |events| > 0 {
      DisciplinedIsAsked(c, Step(c, p, events[0]), events[1..], ClearedAfter(c, p, events[0], cleared));
    }
  }

  function ClearedAfter(c: Config, p: Pacer, e: Event, cleared: bool): bool
    requires c.Normal()
  {
    match e
    case Query(queueBytes, accounted, _) => accounted && WaitUs(c, Step(c, p, e), queueBytes, accounted) == 0
    case Stats(_, _) => cleared
    case Restart(_) => cleared
    case _ => false
  }

  /** The permission left over at the end of a run. */
  function ClearedAtEnd(c: Config, p: Pacer, events: seq<Event>, cleared: bool): bool
    requires c.Normal()
    decreases |events|
  {
    if |events| == 0 then cleared
    else ClearedAtEnd(c, Step(c, p, events[0]), events[1..], ClearedAfter(c, p, events[0], cleared))
  }

  /** A run grows at its end: one more event, asked about if the run so far allows it. */
  lemma {:induction false} ExtendRun(c: Config, p: Pacer, events: seq<Event>, cleared: bool, e: Event)
    requires c.Normal()
    ensures var q := RunPacer(c, p, events);
            && RunPacer(c, p, events + [e]) == Step(c, q, e)
            && ClearedAtEnd(c, p, events + [e], cleared) == ClearedAfter(c, q, e, ClearedAtEnd(c, p, events, cleared))
            && Unasked(c, p, events + [e], cleared)
               == Unasked(c, p, events, cleared) + if IsUnasked(e, ClearedAtEnd(c, p, events, cleared)) then 1 else 0
    decreases |events|
  {
    hide Step, ClearedAfter;
    if |events| == 0 {
      assert events + [e] == [e] && [e][1..] == [];
      assert Unasked(c, Step(c, p, e), [e][1..], ClearedAfter(c, p, e, cleared)) == 0;
    } else {
      assert (events + [e])[0] == events[0] && (events + [e])[1..] == events[1..] + [e];
      ExtendRun(c, Step(c, p, events[0]), events[1..], ClearedAfter(c, p, events[0], cleared), e);
    }
  }

  /** The accounted bytes a run sends. */
  function SentBytes(events: seq<Event>): nat
    decreases |events|
  {
    if |events| == 0 then 0
    else (if events[0].Sent? && events[0].accounted then events[0].bytes else 0) + SentBytes(events[1..])
  }

  function Restarts(events: seq<Event>): nat
    decreases |events|
  {
    if |events| == 0 then 0 else (if events[0].Restart? then 1 else 0) + Restarts(events[1..])
  }

  /** What an update does when time has not gone back: the debt paid off, then clamped. */
  lemma UpdateShape(c: Config, p: Pacer, now: int, queueBytes: nat) returns (rate: real, us: nat, maxDebt: real)
    requires c.Normal() && c.Active() && InRange(c, p) && p.last <= now
    ensures var q := UpdateBudget(c, p, now, queueBytes);
            && q.last == now && q.bps == AdjustedRateBps(c, queueBytes)
            && q.debt == if us == 0 then p.debt else Clamp(p.debt - PaidOff(rate, us), 0.0, maxDebt)
    ensures 0.0 < rate <= TopRate(c) && 1000 * us <= now - p.last && BaseDebt(c) <= maxDebt <= TopDebt(c)
  {
    AdjustedInRange(c, queueBytes);
    var q := p.(bps := AdjustedRateBps(c, queueBytes), last := now);
    hide AdjustedRateBps, AllowedBurstBytes, TopBurst, TopBps;
    DerivedRanges(c, q, queueBytes);
    hide RateBytesPerSec, MaxDebtBytes, TopDebt, TopRate, BaseDebt, PaidOff;
    var elapsed := (now - p.last) / 1000;
    rate, maxDebt := RateBytesPerSec(c, q, queueBytes), MaxDebtBytes(c, q, queueBytes);
    us := if elapsed < MAX_ELAPSED_US then elapsed else MAX_ELAPSED_US;
  }

  lemma PaidOffNonNegative(rate: real, us: nat)
    requires rate >= 0.0
    ensures PaidOff(rate, us) >= 0.0
  {
    Scale(0.0, rate, us as real);
  }

  lemma UpdateInRange(c: Config, p: Pacer, now: int, queueBytes: nat)
    requires c.Normal() && c.Active() && InRange(c, p)
    ensures var q := UpdateBudget(c, p, now, queueBytes);
            && InRange(c, q) && q.debt <= p.debt
            && q.last == now && (now >= p.last ==> q.bps == AdjustedRateBps(c, queueBytes))
  {
    if now >= p.last {
      AdjustedInRange(c, queueBytes);
      DerivedRanges(c, p, queueBytes);
      hide UpdateBudget, AdjustedRateBps, AllowedBurstBytes, TopBurst, TopBps;
      hide RateBytesPerSec, MaxDebtBytes, TopDebt, TopRate, BaseDebt, PaidOff;
      var rate, us, maxDebt := UpdateShape(c, p, now, queueBytes);
      PaidOffNonNegative(rate, us);
    }
  }

  /** In every run under one configuration, rate and debt stay in range. */
  lemma StepInRange(c: Config, p: Pacer, e: Event)
    requires c.Normal() && c.Active() && InRange(c, p)
    ensures InRange(c, Step(c, p, e)) && Step(c, p, e).last == e.now
  {
    hide UpdateBudget, AdjustedRateBps, TopBurst, TopBps;
    if e.Restart? {
      StartInRange(c, e.now);
    } else {
      UpdateInRange(c, p, e.now, e.queueBytes);
      var q := UpdateBudget(c, p, e.now, e.queueBytes);
      DerivedRanges(c, q, e.queueBytes);
      hide RateBytesPerSec, AllowedBurstBytes, MaxDebtBytes, TopDebt, BaseDebt, TopRate;
    }
  }

  /** The part of the debt that counts against the rate bound. */
  function Counted(debt: real, cap: real): real {
    MinReal(debt, cap)
  }

  /** Bytes the top rate sends in a span of nanoseconds. */
  function TopBytes(c: Config, span: int): real {
    TopRate(c) * span as real / 1000000000.0
  }

  /** Time pays off at most the top rate, whatever the clamps do. */
  lemma UpdatePaysAtMost(c: Config, p: Pacer, now: int, queueBytes: nat, cap: real)
    requires c.Normal() && c.Active() && InRange(c, p) && p.last <= now && 0.0 <= cap <= BaseDebt(c)
    ensures Counted(UpdateBudget(c, p, now, queueBytes).debt, cap) >= Counted(p.debt, cap) - TopBytes(c, now - p.last)
  {
    hide *;
    var rate, us, maxDebt := UpdateShape(c, p, now, queueBytes);
    TopBytesIs(c, now - p.last);
    PaidWithinSpan(rate, TopRate(c), us, now - p.last);
    ClampPays(p.debt, PaidOff(rate, us), maxDebt, cap);
  }

  lemma TopBytesIs(c: Config, span: int)
    ensures TopBytes(c, span) == TopRate(c) * span as real / 1000000000.0
  {}

  lemma ClampPays(debt: real, paid: real, maxDebt: real, cap: real)
    requires 0.0 <= paid && 0.0 <= cap <= maxDebt
    ensures Counted(Clamp(debt - paid, 0.0, maxDebt), cap) >= Counted(debt, cap) - paid
  {}

  lemma PaidWithinSpan(rate: real, top: real, us: nat, span: int)
    requires 0.0 <= rate <= top && 1000 * us <= span
    ensures 0.0 <= PaidOff(rate, us) <= top * span as real / 1000000000.0
  {
    Scale(rate, top, us as real);
    Scale(us as real, span as real / 1000.0, top);
    assert top * (span as real / 1000.0) == top * span as real / 1000.0;
    Scale(0.0, rate, us as real);
  }

  /** The most a disciplined sender can be ahead: the largest burst plus one packet. */
  function Headroom(c: Config, size: nat): real {
    TopBurst(c) + size as real
  }

  /** A restart forgives the debt, of which at most the headroom counts. */
  function Forgiven(c: Config, events: seq<Event>, size: nat): real {
    Times(Restarts(events) as real, Headroom(c, size))
  }

  lemma ForgivenStep(c: Config, e: Event, rest: seq<Event>, size: nat)
    ensures Forgiven(c, [e], size) == if e.Restart? then Headroom(c, size) else 0.0
    ensures Forgiven(c, [e] + rest, size) == Forgiven(c, [e], size) + Forgiven(c, rest, size)
  {
    assert [e][1..] == [] && ([e] + rest)[1..] == rest;
    hide Headroom;
    var mine := Restarts([e]);
    assert Restarts([e][1..]) == 0;
    assert mine == if e.Restart? then 1 else 0;
    TimesAdd(mine, Restarts(rest), Headroom(c, size));
    hide Times;
  }

  lemma TimesAdd(m: nat, n: nat, x: real)
    ensures Times((m + n) as real, x) == Times(m as real, x) + Times(n as real, x)
    ensures Times(0 as real, x) == 0.0 && Times(1 as real, x) == x
  {}

  /** What packets nobody asked about may add. */
  function Excess(n: nat, size: nat): real {
    Times(n as real, size as real)
  }

  lemma ExcessAdd(m: nat, n: nat, size: nat)
    ensures Excess(m + n, size) == Excess(m, size) + Excess(n, size)
    ensures Excess(0, size) == 0.0 && Excess(1, size) == size as real
  {
    TimesAdd(m, n, size as real);
    TimesAdd(0, 1, size as real);
  }

  /** A step sends no more than the counted debt rises plus what the top rate pays off meanwhile. */
  lemma StepBudget(c: Config, p: Pacer, e: Event, cleared: bool, size: nat)
    requires c.Normal() && c.Active() && InRange(c, p) && p.last <= e.now && Headroom(c, size) <= BaseDebt(c)
    requires e.Sent? && e.accounted ==> e.bytes <= size
    requires cleared ==> p.debt <= TopBurst(c)
    ensures var q, cap := Step(c, p, e), Headroom(c, size);
            && (ClearedAfter(c, p, e, cleared) ==> q.debt <= TopBurst(c))
            && SentBytes([e]) as real
            <= Counted(q.debt, cap) - Counted(p.debt, cap) + TopBytes(c, e.now - p.last) + Forgiven(c, [e], size)
               + if IsUnasked(e, cleared) then size as real else 0.0
  {
    var cap := Headroom(c, size);
    assert [e][1..] == [];
    hide UpdateBudget, AdjustedRateBps, TopBps;
    BurstNonNegative(c);
    ForgivenStep(c, e, [], size);
    hide Forgiven;
    if e.Restart? {
      TopBytesNonNegative(c, e.now - p.last);
      hide TopBytes, TopBurst;
    } else {
      UpdateInRange(c, p, e.now, e.queueBytes);
      var u := UpdateBudget(c, p, e.now, e.queueBytes);
      DerivedRanges(c, u, e.queueBytes);
      UpdatePaysAtMost(c, p, e.now, e.queueBytes, cap);
      hide RateBytesPerSec, TopRate, TopBurst, BaseDebt, TopDebt, MaxDebtBytes, AllowedBurstBytes;
      WaitZero(c, u, e.queueBytes);
    }
  }

  /** The pacer answers 0 for an accounted packet only within its burst allowance. */
  lemma WaitZero(c: Config, p: Pacer, queueBytes: nat)
    requires c.Normal() && c.Active() && InRange(c, p)
    ensures WaitUs(c, p, queueBytes, true) == 0 <==> p.debt <= AllowedBurstBytes(c, p, queueBytes)
  {
    DerivedRanges(c, p, queueBytes);
    hide TopBurst, TopDebt, BaseDebt, TopRate, MaxDebtBytes, AllowedBurstBytes, RateBytesPerSec;
    var allowed, rate := AllowedBurstBytes(c, p, queueBytes), RateBytesPerSec(c, p, queueBytes);
    if p.debt > allowed {
      QuotientPositive((p.debt - allowed) * 1000000.0, rate);
    }
  }

  /** Whoever asks, at any configuration: no wait but for an accounted packet beyond the burst of a pacer at work. */
  lemma NoWaitExactly(c: Config, p: Pacer, queueBytes: nat, accounted: bool)
    requires c.Normal() && InRange(c, p)
    ensures WaitUs(c, p, queueBytes, accounted) == 0
            <==> !accounted || !c.enabled || c.pacingBps == 0 || p.debt <= AllowedBurstBytes(c, p, queueBytes)
  {
    if c.enabled && c.pacingBps > 0 {
      WaitZero(c, p, queueBytes);
    }
    hide InRange, AllowedBurstBytes;
  }

  lemma QuotientPositive(a: real, b: real)
    requires a > 0.0 && b > 0.0
    ensures a / b > 0.0
  {}

  lemma {:induction false} RunBudget(c: Config, p: Pacer, events: seq<Event>, cleared: bool, size: nat)
    requires c.Normal() && c.Active() && InRange(c, p) && Headroom(c, size) <= BaseDebt(c)
    requires Ordered(events, p.last) && PacketsUpTo(events, size) && (cleared ==> p.debt <= TopBurst(c))
    ensures var q, cap := RunPacer(c, p, events), Headroom(c, size);
            && InRange(c, q) && q.last >= p.last
            && SentBytes(events) as real
            <= Counted(q.debt, cap) - Counted(p.debt, cap) + TopBytes(c, q.last - p.last) + Forgiven(c, events, size)
               + Excess(Unasked(c, p, events, cleared), size)
    decreases |events|
  {
    hide *;
    if |events| == 0 {
      NothingRun(c, p, size);
      NothingUnasked(c, p, cleared);
      ExcessAdd(0, 0, size);
      assert events == [];
      TopBytesZero(c);
    } else {
      var e, rest := events[0], events[1..];
      RunUnfolds(c, p, events, cleared, size);
      ForgivenStep(c, e, rest, size);
      assert events == [e] + rest;
      StepBudget(c, p, e, cleared, size);
      StepInRange(c, p, e);
      var p1 := Step(c, p, e);
      RunBudget(c, p1, rest, ClearedAfter(c, p, e, cleared), size);
      TopBytesAdd(c, e.now - p.last, RunPacer(c, p1, rest).last - e.now);
      ExcessAdd(if IsUnasked(e, cleared) then 1 else 0, Unasked(c, p1, rest, ClearedAfter(c, p, e, cleared)), size);
    }
  }

  lemma NothingUnasked(c: Config, p: Pacer, cleared: bool)
    requires c.Normal()
    ensures Unasked(c, p, [], cleared) == 0
  {}

  lemma NothingRun(c: Config, p: Pacer, size: nat)
    requires c.Normal()
    ensures RunPacer(c, p, []) == p && SentBytes([]) == 0 && Forgiven(c, [], size) == 0.0
  {
    hide Headroom;
    TimesAdd(0, 0, Headroom(c, size));
  }

  lemma RunUnfolds(c: Config, p: Pacer, events: seq<Event>, cleared: bool, size: nat)
    requires c.Normal() && |events| > 0
    requires Ordered(events, p.last) && PacketsUpTo(events, size)
    ensures var e, rest := events[0], events[1..];
            && RunPacer(c, p, events) == RunPacer(c, Step(c, p, e), rest)
            && SentBytes(events) == SentBytes([e]) + SentBytes(rest)
            && p.last <= e.now && Ordered(rest, e.now) && PacketsUpTo(rest, size)
            && (e.Sent? && e.accounted ==> e.bytes <= size)
            && Unasked(c, p, events, cleared)
               == (if IsUnasked(e, cleared) then 1 else 0)
                  + Unasked(c, Step(c, p, e), rest, ClearedAfter(c, p, e, cleared))
            && (Disciplined(c, p, events, cleared) ==>
                  && (e.Sent? && e.accounted ==> cleared)
                  && Disciplined(c, Step(c, p, e), rest, ClearedAfter(c, p, e, cleared)))
  {
    hide Step, ClearedAfter, Ordered;
    OrderedTail(events, p.last);
    assert [events[0]][1..] == [];
  }

  lemma TopBytesZero(c: Config)
    ensures TopBytes(c, 0) == 0.0
  {}

  lemma TopBytesNonNegative(c: Config, span: int)
    requires c.Normal() && span >= 0
    ensures TopBytes(c, span) >= 0.0
  {
    AdjustedInRange(c, 0);
    Scale(0.0, TopRate(c), span as real);
  }

  lemma TopBytesAdd(c: Config, a: int, b: int)
    ensures TopBytes(c, a) + TopBytes(c, b) == TopBytes(c, a + b)
  {
    hide TopRate;
    var rate := TopRate(c);
    assert rate * a as real + rate * b as real == rate * (a + b) as real;
  }

  /** Updating twice at one instant is updating once. */
  lemma UpdateIdempotent(c: Config, p: Pacer, now: int, queueBytes: nat)
    requires c.Normal() && p.last <= now
    ensures var q := UpdateBudget(c, p, now, queueBytes);
            UpdateBudget(c, q, now, queueBytes) == q
  {}

  /** A call acts on the state that the passing of time has brought about. */
  lemma StepAfterUpdate(c: Config, p: Pacer, e: Event) returns (u: Pacer)
    requires c.Normal() && c.Active() && InRange(c, p) && p.last <= e.now
    ensures InRange(c, u) && u.last == e.now && u.debt <= p.debt && Step(c, u, e) == Step(c, p, e)
  {
    if e.Restart? {
      u := p.(last := e.now);
    } else {
      u := UpdateBudget(c, p, e.now, e.queueBytes);
      UpdateInRange(c, p, e.now, e.queueBytes);
      UpdateIdempotent(c, p, e.now, e.queueBytes);
    }
  }

  /**
   Rate conformance. Over every window of a run, from any state in range, the accounted bytes
   are at most the largest burst and one packet, once more for every restart in the window, one
   packet for each that the pacer was not asked about, and the top rate times the length of the
   window: no clamp, truncation, change of rate or refused send lets a sender get further ahead.
   */
  lemma RateConformance(c: Config, p: Pacer, events: seq<Event>, cleared: bool, size: nat)
    requires c.Normal() && c.Active() && InRange(c, p) && Headroom(c, size) <= BaseDebt(c)
    requires |events| > 0 && Ordered(events, p.last) && PacketsUpTo(events, size) && (cleared ==> p.debt <= TopBurst(c))
    ensures SentBytes(events) as real
         <= (1 + Restarts(events)) as real * Headroom(c, size) + (Unasked(c, p, events, cleared) * size) as real
            + TopBytes(c, events[|events| - 1].now - events[0].now)
  {
    hide *;
    OrderedTail(events, p.last);
    OrderedFrom(events, p.last);
    var u := StepAfterUpdate(c, p, events[0]);
    SameFromThere(c, p, u, events, cleared);
    RunBudget(c, u, events, cleared, size);
    LastTime(c, u, events);
    HeadroomNonNegative(c, size);
    InRangeDebt(c, u);
    OnceMore(c, events, size);
    ExcessIs(Unasked(c, p, events, cleared), size);
    CountedBounds(RunPacer(c, u, events).debt, u.debt, Headroom(c, size));
  }

  lemma ExcessIs(n: nat, size: nat)
    ensures Excess(n, size) == (n * size) as real
  {}

  lemma OnceMore(c: Config, events: seq<Event>, size: nat)
    ensures Headroom(c, size) + Forgiven(c, events, size) == (1 + Restarts(events)) as real * Headroom(c, size)
  {
    hide Headroom, Restarts;
    TimesAdd(1, Restarts(events), Headroom(c, size));
  }

  lemma HeadroomNonNegative(c: Config, size: nat)
    requires c.Normal()
    ensures Headroom(c, size) >= 0.0
  {
    hide TopBurst;
    BurstNonNegative(c);
  }

  lemma InRangeDebt(c: Config, p: Pacer)
    requires InRange(c, p)
    ensures p.debt >= 0.0
  {}

  lemma OrderedFrom(events: seq<Event>, t: int)
    requires |events| > 0 && Ordered(events, t)
    ensures Ordered(events, events[0].now)
  {}

  lemma SameFromThere(c: Config, p: Pacer, u: Pacer, events: seq<Event>, cleared: bool)
    requires c.Normal() && |events| > 0 && Step(c, u, events[0]) == Step(c, p, events[0])
    ensures Unasked(c, u, events, cleared) == Unasked(c, p, events, cleared)
  {
    hide Step;
    assert ClearedAfter(c, u, events[0], cleared) == ClearedAfter(c, p, events[0], cleared);
  }

  lemma OrderedTail(events: seq<Event>, t: int)
    requires |events| > 0 && Ordered(events, t)
    ensures t <= events[0].now && Ordered(events[1..], events[0].now)
  {}

  /** A run can be cut anywhere: the rest goes on from the state and permission reached. */
  lemma {:induction false} CutRun(c: Config, p: Pacer, events: seq<Event>, cleared: bool, n: nat)
    requires c.Normal() && c.Active() && InRange(c, p) && n <= |events|
    requires Ordered(events, p.last) && (cleared ==> p.debt <= TopBurst(c))
    ensures var q, left := RunPacer(c, p, events[..n]), ClearedAtEnd(c, p, events[..n], cleared);
            && InRange(c, q) && Ordered(events[n..], q.last)
            && Unasked(c, p, events, cleared) == Unasked(c, p, events[..n], cleared) + Unasked(c, q, events[n..], left)
            && (left ==> q.debt <= TopBurst(c))
    decreases n
  {
    hide Step, ClearedAfter, InRange, TopBurst, TopBps, Ordered;
    if n == 0 {
      assert events[n..] == events && events[..n] == [];
    } else {
      var e := events[0];
      OrderedTail(events, p.last);
      StepInRange(c, p, e);
      StepCleared(c, p, e, cleared);
      assert events[..n][1..] == events[1..][..n - 1] && events[n..] == events[1..][n - 1..];
      CutRun(c, Step(c, p, e), events[1..], ClearedAfter(c, p, e, cleared), n - 1);
    }
  }

  /** A permission means the debt is within the burst. */
  lemma StepCleared(c: Config, p: Pacer, e: Event, cleared: bool)
    requires c.Normal() && c.Active() && InRange(c, p) && p.last <= e.now && (cleared ==> p.debt <= TopBurst(c))
    ensures Step(c, p, e).last == e.now
    ensures ClearedAfter(c, p, e, cleared) ==> Step(c, p, e).debt <= TopBurst(c)
  {
    hide UpdateBudget, AdjustedRateBps, TopBps;
    if e.Restart? {
      BurstNonNegative(c);
    } else {
      UpdateInRange(c, p, e.now, e.queueBytes);
      var u := UpdateBudget(c, p, e.now, e.queueBytes);
      DerivedRanges(c, u, e.queueBytes);
      hide RateBytesPerSec, TopRate, TopBurst, TopDebt, MaxDebtBytes, AllowedBurstBytes;
      WaitZero(c, u, e.queueBytes);
    }
  }

  lemma PrefixKeeps(events: seq<Event>, t: int, size: nat, n: nat)
    requires Ordered(events, t) && PacketsUpTo(events, size) && n <= |events|
    ensures Ordered(events[..n], t) && PacketsUpTo(events[..n], size)
  {}

  lemma SuffixKeeps(events: seq<Event>, size: nat, n: nat)
    requires PacketsUpTo(events, size) && n <= |events|
    ensures PacketsUpTo(events[n..], size)
  {}

  /** The packets of a window that the pacer was not asked about. */
  function UnaskedIn(c: Config, p: Pacer, events: seq<Event>, i: nat, j: nat): nat
    requires c.Normal() && i <= j <= |events|
  {
    Unasked(c, RunPacer(c, p, events[..i]), events[i..j], ClearedAtEnd(c, p, events[..i], false))
  }

  lemma WindowOfPrefix(c: Config, p: Pacer, events: seq<Event>, i: nat, j: nat)
    requires c.Normal() && i <= j <= |events|
    ensures var prefix := events[..j];
            && prefix[i..] == events[i..j]
            && UnaskedIn(c, p, events, i, j)
               == Unasked(c, RunPacer(c, p, prefix[..i]), prefix[i..], ClearedAtEnd(c, p, prefix[..i], false))
  {
    hide RunPacer, Unasked, ClearedAtEnd;
    assert events[..j][..i] == events[..i] && events[..j][i..] == events[i..j];
  }

  /** Rate conformance of every window of one run. */
  lemma WindowConformance(c: Config, p: Pacer, events: seq<Event>, i: nat, j: nat, size: nat)
    requires c.Normal() && c.Active() && InRange(c, p) && Headroom(c, size) <= BaseDebt(c) && i < j <= |events|
    requires Ordered(events, p.last) && PacketsUpTo(events, size)
    ensures UnaskedIn(c, p, events, i, j) <= Unasked(c, p, events, false)
    ensures SentBytes(events[i..j]) as real
         <= (1 + Restarts(events[i..j])) as real * Headroom(c, size) + (UnaskedIn(c, p, events, i, j) * size) as real
            + TopBytes(c, events[j - 1].now - events[i].now)
  {
    hide *;
    var prefix := events[..j];
    WindowOfPrefix(c, p, events, i, j);
    CutRun(c, p, events, false, j);
    PrefixKeeps(events, p.last, size, j);
    CutRun(c, p, prefix, false, i);
    SuffixKeeps(prefix, size, i);
    RateConformance(c, RunPacer(c, p, prefix[..i]), prefix[i..], ClearedAtEnd(c, p, prefix[..i], false), size);
  }

  /**
   The bound's condition is mild: half a second of debt and packets of a seventeenth of a second's
   bits leave room.
   */
  lemma UsualLimitsLeaveRoom(c: Config, size: nat)
    requires c.Normal() && c.Active() && c.maxDrainMultiplier <= 2.0 && c.maxDebtMs >= 500 && 17 * size <= c.pacingBps
    ensures Headroom(c, size) <= BaseDebt(c)
  {
    hide TopRate, BurstAt, DebtAt;
    TopRateAtMost(c);
    BurstAtMost(c, TopRate(c));
    DebtAtLeast(c);
  }

  lemma TopRateAtMost(c: Config)
    requires c.Normal() && c.maxDrainMultiplier <= 2.0
    ensures 0.0 <= TopRate(c) <= c.pacingBps as real / 4.0
  {
    var base, m := c.pacingBps as real, c.maxDrainMultiplier;
    hide TopBps;
    TopWithinMultiple(c);
    assert MaxBps(c) <= 2.0 * base by { Scale(m, 2.0, base); }
    hide MaxBps;
    assert TopBps(c) as real <= 2.0 * base;
  }

  lemma TopWithinMultiple(c: Config)
    requires c.Normal()
    ensures c.pacingBps <= TopBps(c) && TopBps(c) as real <= MaxBps(c)
  {
    ScaleUp(c.pacingBps as real, c.maxDrainMultiplier);
    WholeBounds(c.pacingBps, MaxBps(c));
    hide Times, Whole;
  }

  lemma WholeBounds(low: nat, x: real)
    requires low as real <= x && low <= MAX_UINT64
    ensures low <= Whole(x) && Whole(x) as real <= x
  {}

  lemma BurstAtMost(c: Config, rate: real)
    requires c.Active() && rate >= 0.0
    ensures BurstAt(c, rate) <= rate / 1000.0
  {
    Scale(MinReal(c.sendBurstIntervalMs as real, 1.0), 1.0, rate);
  }

  lemma DebtAtLeast(c: Config)
    requires c.maxDebtMs >= 500
    ensures BaseDebt(c) >= c.pacingBps as real / 16.0
  {
    Scale(500.0, c.maxDebtMs as real, c.pacingBps as real / 8.0);
  }

  lemma BurstNonNegative(c: Config)
    requires c.Normal()
    ensures TopBurst(c) >= 0.0
  {
    TopWithinMultiple(c);
    hide TopBps, BurstAt;
    HigherRate(c, TopRate(c), TopRate(c));
  }

  lemma CountedBounds(after: real, before: real, cap: real)
    requires before >= 0.0 && cap >= 0.0
    ensures Counted(after, cap) - Counted(before, cap) <= cap
  {}

  lemma {:induction false} LastTime(c: Config, p: Pacer, events: seq<Event>)
    requires c.Normal() && c.Active() && InRange(c, p) && |events| > 0
    ensures RunPacer(c, p, events).last == events[|events| - 1].now
    decreases |events|
  {
    hide Step;
    StepInRange(c, p, events[0]);
    if |events| == 1 {
      assert events[1..] == [];
    } else {
      LastTime(c, Step(c, p, events[0]), events[1..]);
    }
  }

  // ---- waiting ---------------------------------------------------------------------------

  lemma CeilBounds(x: real)
    ensures x <= Ceil(x) as real < x + 1.0
  {}

  /** The wait is the time the excess debt takes at the current rate, rounded up. */
  lemma WaitCovers(c: Config, p: Pacer, queueBytes: nat)
    requires c.Normal() && c.Active() && InRange(c, p) && WaitUs(c, p, queueBytes, true) > 0
    ensures var w, rate, excess := WaitUs(c, p, queueBytes, true), RateBytesPerSec(c, p, queueBytes),
                                   p.debt - AllowedBurstBytes(c, p, queueBytes);
            && rate > 0.0 && excess > 0.0
            && forall us: nat :: us >= w <==> PaidOff(rate, us) >= excess
  {
    DerivedRanges(c, p, queueBytes);
    var rate, excess := RateBytesPerSec(c, p, queueBytes), p.debt - AllowedBurstBytes(c, p, queueBytes);
    WaitZero(c, p, queueBytes);
    var w := WaitUs(c, p, queueBytes, true);
    assert w == Ceil(MaxReal(0.0, excess * 1000000.0 / rate));
    hide *;
    forall us: nat ensures us >= w <==> PaidOff(rate, us) >= excess {
      PaidEnough(rate, excess, w, us);
    }
  }

  lemma PaidEnough(rate: real, excess: real, w: int, us: nat)
    requires rate > 0.0 && excess > 0.0 && w == Ceil(MaxReal(0.0, excess * 1000000.0 / rate))
    ensures us >= w <==> PaidOff(rate, us) >= excess
  {
    var need := excess * 1000000.0;
    var x := need / rate;
    QuotientPositive(need, rate);
    DivideMultiply(need, rate);
    CeilBounds(x);
    PaidOffTimes(rate, us);
    hide PaidOff, Times;
    if us >= w {
      TimesMono(x, us as real, rate);
    } else {
      if us as real >= x {
        CeilAtMost(x, us);
      }
      TimesStrict(us as real, x, rate);
    }
  }

  lemma DivideMultiply(a: real, b: real)
    requires b > 0.0
    ensures Times(a / b, b) == a
  {}

  lemma PaidOffTimes(rate: real, us: nat)
    ensures PaidOff(rate, us) * 1000000.0 == Times(us as real, rate)
  {}

  lemma TimesMono(a: real, b: real, x: real)
    requires a <= b && x >= 0.0
    ensures Times(a, x) <= Times(b, x)
  {}

  lemma TimesStrict(a: real, b: real, x: real)
    requires a < b && x > 0.0
    ensures Times(a, x) < Times(b, x)
  {}

  lemma CeilAtMost(x: real, n: nat)
    requires n as real >= x
    ensures Ceil(x) <= n
  {}

  /**
   With the queue unchanged and nothing sent, waiting the returned time makes the next answer 0
   exactly when the wait is within the two seconds an update pays off at most, or the debt cap of
   the current rate is already within the burst.
   */
  lemma WaitSuffices(c: Config, p: Pacer, queueBytes: nat, now: int, later: int)
    requires c.Normal() && c.Active() && InRange(c, p) && p.last <= now
    requires var q := UpdateBudget(c, p, now, queueBytes);
             var w := WaitUs(c, q, queueBytes, true);
             w > 0 && later >= now + 1000 * w
    ensures var q := UpdateBudget(c, p, now, queueBytes);
            (WaitUs(c, UpdateBudget(c, q, later, queueBytes), queueBytes, true) == 0) <==>
            (WaitUs(c, q, queueBytes, true) <= MAX_ELAPSED_US
             || MaxDebtBytes(c, q, queueBytes) <= AllowedBurstBytes(c, q, queueBytes))
  {
    var q := UpdateBudget(c, p, now, queueBytes);
    UpdateInRange(c, p, now, queueBytes);
    var w := WaitUs(c, q, queueBytes, true);
    var r := UpdateBudget(c, q, later, queueBytes);
    UpdateInRange(c, q, later, queueBytes);
    assert r.bps == q.bps;
    assert RateBytesPerSec(c, r, queueBytes) == RateBytesPerSec(c, q, queueBytes);
    assert AllowedBurstBytes(c, r, queueBytes) == AllowedBurstBytes(c, q, queueBytes);
    var elapsed := (later - now) / 1000;
    var us := if elapsed < MAX_ELAPSED_US then elapsed else MAX_ELAPSED_US;
    LaterDebt(c, q, later, queueBytes, us);
    DerivedRanges(c, q, queueBytes);
    WaitCovers(c, q, queueBytes);
    WaitZero(c, r, queueBytes);
    hide RateBytesPerSec, AllowedBurstBytes, MaxDebtBytes, UpdateBudget, WaitUs, InRange, PaidOff;
    assert us >= w <==> w <= MAX_ELAPSED_US;
  }

  lemma LaterDebt(c: Config, q: Pacer, later: int, queueBytes: nat, us: nat)
    requires c.Normal() && c.Active() && InRange(c, q) && q.bps == AdjustedRateBps(c, queueBytes)
    requires later >= q.last + 1000
    requires us == (if (later - q.last) / 1000 < MAX_ELAPSED_US then (later - q.last) / 1000 else MAX_ELAPSED_US)
    ensures UpdateBudget(c, q, later, queueBytes).debt
         == Clamp(q.debt - PaidOff(RateBytesPerSec(c, q, queueBytes), us), 0.0, MaxDebtBytes(c, q, queueBytes))
  {
    DerivedRanges(c, q, queueBytes);
    hide AllowedBurstBytes, PaidOff, AdjustedRateBps, TopBps;
  }

  /** A configuration whose debt drains within two seconds at the base rate never waits in vain. */
  lemma ConfiguredWaitSuffices(c: Config, p: Pacer, queueBytes: nat, now: int, later: int)
    requires c.Normal() && c.Active() && InRange(c, p) && p.last <= now
    requires c.maxDrainMultiplier * c.maxDebtMs as real <= 2000.0
    requires var q := UpdateBudget(c, p, now, queueBytes);
             later >= now + 1000 * WaitUs(c, q, queueBytes, true)
    ensures WaitUs(c, UpdateBudget(c, UpdateBudget(c, p, now, queueBytes), later, queueBytes), queueBytes, true) == 0
  {
    var q := UpdateBudget(c, p, now, queueBytes);
    UpdateInRange(c, p, now, queueBytes);
    var w := WaitUs(c, q, queueBytes, true);
    WaitZero(c, q, queueBytes);
    if w == 0 {
      UpdateInRange(c, q, later, queueBytes);
      var r := UpdateBudget(c, q, later, queueBytes);
      if later >= now {
        assert r.bps == q.bps;
      }
      WaitZero(c, r, queueBytes);
      assert AllowedBurstBytes(c, r, queueBytes) == AllowedBurstBytes(c, q, queueBytes);
    } else {
      assert w > 0 by {
        DerivedRanges(c, q, queueBytes);
        var excess := q.debt - AllowedBurstBytes(c, q, queueBytes);
        CeilBounds(MaxReal(0.0, excess * 1000000.0 / RateBytesPerSec(c, q, queueBytes)));
      }
      WaitWithinTwoSeconds(c, q, queueBytes);
      WaitSuffices(c, p, queueBytes, now, later);
    }
  }

  lemma WaitWithinTwoSeconds(c: Config, q: Pacer, queueBytes: nat)
    requires c.Normal() && c.Active() && InRange(c, q) && WaitUs(c, q, queueBytes, true) > 0
    requires c.maxDrainMultiplier * c.maxDebtMs as real <= 2000.0
    ensures WaitUs(c, q, queueBytes, true) <= MAX_ELAPSED_US
  {
    WaitCovers(c, q, queueBytes);
    DerivedRanges(c, q, queueBytes);
    var rate := RateBytesPerSec(c, q, queueBytes);
    TwoSeconds(rate);
    TopDebtBound(c);
    hide *;
  }

  lemma TwoSeconds(rate: real)
    ensures PaidOff(rate, MAX_ELAPSED_US) == 2.0 * rate
  {}

  lemma TopDebtBound(c: Config)
    requires c.Normal() && c.maxDrainMultiplier * c.maxDebtMs as real <= 2000.0
    ensures TopDebt(c) <= 2.0 * (c.pacingBps as real / 8.0)
  {
    hide TopBps;
    var base, m, t := c.pacingBps as real, c.maxDrainMultiplier, c.maxDebtMs as real;
    TopWithinMultiple(c);
    assert TopDebt(c) == TopRate(c) * t / 1000.0;
    assert TopRate(c) <= Times(base, m) / 8.0;
    hide *;
    Scale(TopRate(c), Times(base, m) / 8.0, t);
    ProductAssoc(base, m, t);
    Scale(m * t, 2000.0, base);
  }

  lemma ProductAssoc(a: real, b: real, c: real)
    ensures Times(a, b) / 8.0 * c == (b * c) * a / 8.0
  {
    assert Times(a, b) * c == a * (b * c);
  }

  // ---- what a call costs -----------------------------------------------------------------

  /** The debt leaves this excess over the burst: the answer is 0, or the time that pays the excess off. */
  lemma WaitForDebt(c: Config, q: Pacer, queueBytes: nat, excess: real)
    requires c.Normal() && c.Active() && InRange(c, q) && q.debt - AllowedBurstBytes(c, q, queueBytes) == excess
    ensures WaitUs(c, q, queueBytes, true) == 0 <==> excess <= 0.0
    ensures excess > 0.0 ==>
              forall us: nat :: us >= WaitUs(c, q, queueBytes, true) <==>
                                PaidOff(RateBytesPerSec(c, q, queueBytes), us) >= excess
  {
    WaitZero(c, q, queueBytes);
    hide RateBytesPerSec, AllowedBurstBytes, InRange;
    if excess > 0.0 {
      WaitNonNegative(c, q, queueBytes, true);
      WaitCovers(c, q, queueBytes);
    }
  }

  /**
   What a refusal costs. Right after it an accounted packet may go at once only where the debt cap
   is within the burst. Otherwise the wait is the time that pays off the larger of the refused
   packet, a millisecond of the rate, and what was owed above the burst, as far as the cap leaves room.
   */
  lemma BlockedWait(c: Config, p: Pacer, bytes: nat, queueBytes: nat, now: int)
    requires c.Normal() && c.Active() && InRange(c, p) && p.last <= now
    ensures var u, q := UpdateBudget(c, p, now, queueBytes), Step(c, p, Blocked(bytes, queueBytes, now));
            var rate, burst := RateBytesPerSec(c, u, queueBytes), AllowedBurstBytes(c, u, queueBytes);
            var cap := MaxDebtBytes(c, u, queueBytes);
            var wait := WaitUs(c, Step(c, q, Query(queueBytes, true, now)), queueBytes, true);
            var least := MaxReal(bytes as real, rate / 1000.0);
            && (wait == 0 <==> cap <= burst)
            && (cap > burst ==>
                  forall us: nat :: us >= wait <==>
                                    PaidOff(rate, us) >= MinReal(MaxReal(u.debt - burst, least), cap - burst))
  {
    var e := Blocked(bytes, queueBytes, now);
    var u, q := UpdateBudget(c, p, now, queueBytes), Step(c, p, e);
    UpdateInRange(c, p, now, queueBytes);
    StepInRange(c, p, e);
    DerivedRanges(c, u, queueBytes);
    hide UpdateBudget, AdjustedRateBps, TopRate, TopBurst, TopDebt, BaseDebt;
    var rate, burst := RateBytesPerSec(c, u, queueBytes), AllowedBurstBytes(c, u, queueBytes);
    var cap := MaxDebtBytes(c, u, queueBytes);
    var least := MaxReal(bytes as real, rate / 1000.0);
    BackedOff(c, u, bytes, queueBytes);
    assert RateBytesPerSec(c, q, queueBytes) == rate && AllowedBurstBytes(c, q, queueBytes) == burst;
    hide RateBytesPerSec, AllowedBurstBytes, MaxDebtBytes, InRange;
    AskedAgain(c, q, queueBytes, now);
    WaitForDebt(c, q, queueBytes, MinReal(MaxReal(u.debt - burst, least), cap - burst));
  }

  lemma BackedOff(c: Config, u: Pacer, bytes: nat, queueBytes: nat)
    requires c.Normal() && c.Active() && c.pacingBps <= u.bps <= TopBps(c)
    ensures var rate, burst := RateBytesPerSec(c, u, queueBytes), AllowedBurstBytes(c, u, queueBytes);
            var cap, least := MaxDebtBytes(c, u, queueBytes), MaxReal(bytes as real, rate / 1000.0);
            BackOff(c, u, bytes, queueBytes)
            == u.(debt := burst + MinReal(MaxReal(u.debt - burst, least), cap - burst))
  {
    DerivedRanges(c, u, queueBytes);
    hide RateBytesPerSec, AllowedBurstBytes, MaxDebtBytes, TopRate, TopBurst, TopDebt, BaseDebt, TopBps;
  }

  /** Asking at the same instant with the same queue changes nothing. */
  lemma AskedAgain(c: Config, q: Pacer, queueBytes: nat, now: int)
    requires c.Normal() && q.last == now && q.bps == AdjustedRateBps(c, queueBytes)
    ensures Step(c, q, Query(queueBytes, true, now)) == q
  {
    hide AdjustedRateBps;
  }

  /**
   What an accounted packet costs: right after it the next may go at once as long as debt and packet,
   up to the cap, are within the burst, and otherwise waits for the excess.
   */
  lemma SentWait(c: Config, p: Pacer, bytes: nat, queueBytes: nat, now: int)
    requires c.Normal() && c.Active() && InRange(c, p) && p.last <= now
    ensures var u, q := UpdateBudget(c, p, now, queueBytes), Step(c, p, Sent(bytes, true, queueBytes, now));
            var rate, burst := RateBytesPerSec(c, u, queueBytes), AllowedBurstBytes(c, u, queueBytes);
            var cap := MaxDebtBytes(c, u, queueBytes);
            var wait := WaitUs(c, Step(c, q, Query(queueBytes, true, now)), queueBytes, true);
            var excess := MinReal(u.debt + bytes as real, cap) - burst;
            && (wait == 0 <==> excess <= 0.0)
            && (excess > 0.0 ==> forall us: nat :: us >= wait <==> PaidOff(rate, us) >= excess)
  {
    var e := Sent(bytes, true, queueBytes, now);
    var u, q := UpdateBudget(c, p, now, queueBytes), Step(c, p, e);
    UpdateInRange(c, p, now, queueBytes);
    StepInRange(c, p, e);
    hide UpdateBudget, AdjustedRateBps;
    assert RateBytesPerSec(c, q, queueBytes) == RateBytesPerSec(c, u, queueBytes);
    assert AllowedBurstBytes(c, q, queueBytes) == AllowedBurstBytes(c, u, queueBytes);
    hide RateBytesPerSec, AllowedBurstBytes, MaxDebtBytes, InRange;
    AskedAgain(c, q, queueBytes, now);
    WaitForDebt(c, q, queueBytes, MinReal(u.debt + bytes as real, MaxDebtBytes(c, u, queueBytes))
                                  - AllowedBurstBytes(c, u, queueBytes));
  }

  /** What is outside the account, and anything while the pacer is off, leaves it as a question would. */
  lemma OnlyAccountedCosts(c: Config, p: Pacer, bytes: nat, accounted: bool, queueBytes: nat, now: int)
    requires c.Normal()
    ensures !accounted || !c.enabled || c.pacingBps == 0 ==>
      Step(c, p, Sent(bytes, accounted, queueBytes, now)) == Step(c, p, Query(queueBytes, accounted, now))
    ensures !c.enabled || c.pacingBps == 0 ==>
      Step(c, p, Blocked(bytes, queueBytes, now)) == Step(c, p, Query(queueBytes, accounted, now))
  {
    hide UpdateBudget, MaxDebtBytes, AllowedBurstBytes, RateBytesPerSec;
  }

  /** At 8 Mbit/s a refused packet of 1200 bytes holds the next one up for 1200 us. */
  lemma RefusalCosts(t: int)
    ensures var c := Config(true, 8000000, 5, 63000, 500, 150, 2.0);
            var q := Step(c, Fresh(c, t), Blocked(1200, 0, t));
            q.debt == 2200.0 && WaitUs(c, Step(c, q, Query(0, true, t)), 0, true) == 1200
  {
    assert AdjustedRateBps(Config(true, 8000000, 5, 63000, 500, 150, 2.0), 0) == 8000000;
  }

  /** The rate drains the queue within its time limit, but for the fraction of a bit cut off, or is at its top. */
  lemma RateDrainsQueue(c: Config, queueBytes: nat)
    requires c.Normal() && c.Active()
    ensures var rate := AdjustedRateBps(c, queueBytes);
            && (c.queueTimeLimitMs == 0 || queueBytes == 0 ==> rate == c.pacingBps)
            && (c.queueTimeLimitMs > 0 ==>
                  && (rate == TopBps(c) || 8000 * queueBytes < (rate + 1) * c.queueTimeLimitMs)
                  && (rate == c.pacingBps || rate * c.queueTimeLimitMs <= 8000 * queueBytes))
  {
    var base, limit := c.pacingBps as real, c.queueTimeLimitMs;
    ScaleUp(base, c.maxDrainMultiplier);
    EmptyQueueRate(c);
    if limit > 0 && queueBytes > 0 {
      var x := queueBytes as real * 8.0 * 1000.0 / limit as real;
      hide MaxBps;
      WholeBetween(x, c.pacingBps, MaxBps(c));
      var rate := AdjustedRateBps(c, queueBytes);
      assert rate == Whole(Clamp(MaxReal(base, x), base, MaxBps(c)));
      hide AdjustedRateBps, TopBps, Whole, Clamp, MaxReal;
      QuotientLimits(queueBytes, limit, rate);
    }
  }

  lemma WholeBetween(x: real, low: nat, high: real)
    requires low as real <= high && low <= MAX_UINT64
    ensures var w := Whole(Clamp(MaxReal(low as real, x), low as real, high));
            && (w == Whole(high) || x < (w + 1) as real)
            && (w == low || w as real <= x)
  {}

  lemma QuotientLimits(queueBytes: nat, limit: nat, rate: int)
    requires limit > 0
    ensures var x := queueBytes as real * 8.0 * 1000.0 / limit as real;
            && (x < (rate + 1) as real ==> 8000 * queueBytes < (rate + 1) * limit)
            && (rate as real <= x ==> rate * limit <= 8000 * queueBytes)
  {
    var x, l := queueBytes as real * 8.0 * 1000.0 / limit as real, limit as real;
    assert x * l == (8000 * queueBytes) as real;
    assert ((rate + 1) * limit) as real == (rate + 1) as real * l;
    assert (rate * limit) as real == rate as real * l;
    if x < (rate + 1) as real {
      TimesStrict(x, (rate + 1) as real, l);
    }
    if rate as real <= x {
      TimesMono(rate as real, x, l);
    }
  }

  // ---- the class -------------------------------------------------------------------------

  datatype PacerStats = PacerStats(adjustedPacingBps: nat, debtUs: int, expectedQueueUs: int)

  /** Rate, and how long debt and queue take at that rate. */
  function StatsOf(c: Config, p: Pacer, queueBytes: nat): PacerStats {
    var rate := RateBytesPerSec(c, p, queueBytes);
    if rate <= 0.0 then PacerStats(p.bps, 0, 0)
    else PacerStats(p.bps, Ceil(MaxReal(0.0, p.debt) * 1000000.0 / rate), Ceil(queueBytes as real * 1000000.0 / rate))
  }

  /** The reported times are the whole microseconds that pay off the debt, and the queue, at the rate. */
  lemma StatsAreTimes(c: Config, p: Pacer, queueBytes: nat)
    requires c.Normal() && c.Active() && InRange(c, p)
    ensures var s, rate := StatsOf(c, p, queueBytes), RateBytesPerSec(c, p, queueBytes);
            && s.adjustedPacingBps == p.bps
            && (forall us: nat :: us >= s.debtUs <==> PaidOff(rate, us) >= p.debt)
            && (forall us: nat :: us >= s.expectedQueueUs <==> PaidOff(rate, us) >= queueBytes as real)
  {
    DerivedRanges(c, p, queueBytes);
    var s, rate := StatsOf(c, p, queueBytes), RateBytesPerSec(c, p, queueBytes);
    hide RateBytesPerSec, AllowedBurstBytes, MaxDebtBytes, TopRate, TopBurst, TopDebt, BaseDebt;
    assert s.debtUs == Ceil(p.debt * 1000000.0 / rate);
    assert s.expectedQueueUs == Ceil(queueBytes as real * 1000000.0 / rate);
    hide StatsOf, Ceil, PaidOff;
    forall us: nat ensures us >= s.debtUs <==> PaidOff(rate, us) >= p.debt {
      TimeFor(rate, p.debt, us);
    }
    forall us: nat ensures us >= s.expectedQueueUs <==> PaidOff(rate, us) >= queueBytes as real {
      TimeFor(rate, queueBytes as real, us);
    }
  }

  lemma TimeFor(rate: real, bytes: real, us: nat)
    requires rate > 0.0 && bytes >= 0.0
    ensures us >= Ceil(bytes * 1000000.0 / rate) <==> PaidOff(rate, us) >= bytes
  {
    var x := bytes * 1000000.0 / rate;
    if bytes > 0.0 {
      QuotientPositive(bytes * 1000000.0, rate);
      assert MaxReal(0.0, x) == x;
      PaidEnough(rate, bytes, Ceil(x), us);
    } else {
      assert x == 0.0;
      PaidOffNonNegative(rate, us);
    }
  }

  class WebRtcLikePacer {
    var config: Config
    var mediaDebtBytes: real
    var adjustedPacingBps: nat
    var lastProcess: int
    var lastSend: int

    function State(): Pacer
      reads this
    {
      Pacer(mediaDebtBytes, adjustedPacingBps, lastProcess)
    }

    constructor (now: int)
      ensures config == Config(true, 0, 5, 63000, 500, 150, 2.0) && config.Normal()
      ensures State() == Pacer(0.0, 0, now) && lastSend == now
    {
      config := Config(true, 0, 5, 63000, 500, 150, 2.0);
      mediaDebtBytes, adjustedPacingBps, lastProcess, lastSend := 0.0, 0, now, now;
    }

    /** A fresh start: no debt, the configured rate. With a legal configuration this is in range. */
    method Reset(now: int)
      requires config.Normal()
      modifies this
      ensures config == old(config) && State() == Fresh(config, now) && lastSend == now
      ensures config.Active() ==> InRange(config, State())
    {
      mediaDebtBytes := 0.0;
      adjustedPacingBps := config.pacingBps;
      lastProcess := now;
      lastSend := now;
      StartInRange(config, now);
    }

    method SetConfig(c: Config)
      requires c.pacingBps <= MAX_UINT64
      modifies this
      ensures config.Normal()
      ensures config == if c.maxDrainMultiplier < 1.0 then c.(maxDrainMultiplier := 1.0) else c
      ensures State() == old(State()).(bps := AdjustedRateBps(config, 0))
    {
      config := c;
      if config.maxDrainMultiplier < 1.0 {
        config := config.(maxDrainMultiplier := 1.0);
      }
      AdjustedInRange(config, 0);
      adjustedPacingBps := AdjustedRateBps(config, 0);
    }

    method Update(now: int, queueBytes: nat)
      requires config.Normal()
      modifies `mediaDebtBytes, `adjustedPacingBps, `lastProcess
      ensures State() == UpdateBudget(config, old(State()), now, queueBytes)
    {
      if now < lastProcess {
        lastProcess := now;
        return;
      }
      AdjustedInRange(config, queueBytes);
      adjustedPacingBps := AdjustedRateBps(config, queueBytes);
      var elapsed := (now - lastProcess) / 1000;
      lastProcess := now;
      if elapsed <= 0 {
        return;
      }
      var rate := RateBytesPerSec(config, State(), queueBytes);
      if rate <= 0.0 {
        mediaDebtBytes := 0.0;
        return;
      }
      var us := if elapsed < MAX_ELAPSED_US then elapsed else MAX_ELAPSED_US;
      mediaDebtBytes := mediaDebtBytes - PaidOff(rate, us);
      mediaDebtBytes := Clamp(mediaDebtBytes, 0.0, MaxDebtBytes(config, State(), queueBytes));
    }

    method TimeUntilNextSend(queueBytes: nat, accounted: bool, now: int) returns (us: int)
      requires config.Normal()
      modifies `mediaDebtBytes, `adjustedPacingBps, `lastProcess
      ensures State() == Step(config, old(State()), Query(queueBytes, accounted, now))
      ensures us == WaitUs(config, State(), queueBytes, accounted)
    {
      Update(now, queueBytes);
      us := WaitUs(config, State(), queueBytes, accounted);
    }

    method OnPacketSent(bytes: nat, accounted: bool, queueBytes: nat, now: int)
      requires config.Normal()
      modifies this
      ensures config == old(config) && lastSend == now
      ensures State() == Step(config, old(State()), Sent(bytes, accounted, queueBytes, now))
    {
      Update(now, queueBytes);
      if config.Active() && accounted {
        mediaDebtBytes := mediaDebtBytes + bytes as real;
        mediaDebtBytes := MinReal(mediaDebtBytes, MaxDebtBytes(config, State(), queueBytes));
      }
      lastSend := now;
    }

    method OnBlocked(bytes: nat, queueBytes: nat, now: int)
      requires config.Normal()
      modifies this
      ensures config == old(config) && lastSend == now
      ensures State() == Step(config, old(State()), Blocked(bytes, queueBytes, now))
    {
      Update(now, queueBytes);
      if config.Active() {
        var rate := RateBytesPerSec(config, State(), queueBytes);
        var cooldown := if rate > 0.0 then rate * 1.0 / 1000.0 else bytes as real;
        var least := AllowedBurstBytes(config, State(), queueBytes) + MaxReal(bytes as real, cooldown);
        mediaDebtBytes := Clamp(MaxReal(mediaDebtBytes, least), 0.0, MaxDebtBytes(config, State(), queueBytes));
      }
      lastSend := now;
    }

    method GetStats(queueBytes: nat, now: int) returns (r: PacerStats)
      requires config.Normal()
      modifies `mediaDebtBytes, `adjustedPacingBps, `lastProcess
      ensures State() == Step(config, old(State()), Stats(queueBytes, now))
      ensures r == StatsOf(config, State(), queueBytes)
    {
      Update(now, queueBytes);
      r := PacerStats(adjustedPacingBps, 0, 0);
      var rate := RateBytesPerSec(config, State(), queueBytes);
      if rate > 0.0 {
        r := PacerStats(adjustedPacingBps, Ceil(MaxReal(0.0, mediaDebtBytes) * 1000000.0 / rate),
                        Ceil(queueBytes as real * 1000000.0 / rate));
      }
    }
  }

  lemma StartInRange(c: Config, now: int)
    requires c.Normal()
    ensures c.Active() ==> InRange(c, Fresh(c, now))
  {
    TopWithinMultiple(c);
    hide TopBps;
    if c.Active() {
      DerivedRanges(c, Fresh(c, now), 0);
    }
  }
}
