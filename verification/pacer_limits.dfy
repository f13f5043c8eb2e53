/**
 When the pacer bounds what a disciplined sender gets out, and when it does not: exactly, at one
 instant and over time. The debt cap (max_debt_ms) forgives whatever is charged beyond it.
 */
module PacerLimits {
  import opened Numbers
  import opened Pacers

  // ---- at one instant --------------------------------------------------------------------

  ghost predicate AllAt(events: seq<Event>, t: int) {
    forall i :: 0 <= i < |events| ==> events[i].now == t
  }

  /** A disciplined run at one instant, from a reset, of packets up to a size. */
  ghost predicate AtOnce(c: Config, size: nat, t: int, events: seq<Event>)
    requires c.Normal()
  {
    Disciplined(c, Fresh(c, t), events, false) && PacketsUpTo(events, size) && Restarts(events) == 0 && AllAt(events, t)
  }

  ghost predicate BurstWithin(c: Config, size: nat, t: int, most: real)
    requires c.Normal()
  {
    forall events :: AtOnce(c, size, t, events) ==> SentBytes(events) as real <= most
  }

  ghost predicate BurstBounded(c: Config, size: nat, t: int)
    requires c.Normal()
  {
    exists most: real :: BurstWithin(c, size, t, most)
  }

  /** What may still go out at once with this debt. */
  function Slack(c: Config, size: nat, debt: real): real {
    if debt <= TopBurst(c) then TopBurst(c) - debt + size as real else 0.0
  }

  lemma NoTimeNoPay(c: Config, p: Pacer, queueBytes: nat)
    requires c.Normal()
    ensures UpdateBudget(c, p, p.last, queueBytes) == p.(bps := AdjustedRateBps(c, queueBytes))
  {}

  lemma SlackStep(c: Config, p: Pacer, e: Event, cleared: bool, size: nat)
    requires c.Normal() && c.Active() && InRange(c, p) && e.now == p.last && !e.Restart? && TopBurst(c) < BaseDebt(c)
    requires e.Sent? && e.accounted ==> cleared && e.bytes <= size
    requires cleared ==> p.debt <= TopBurst(c)
    ensures SentBytes([e]) as real <= Slack(c, size, p.debt) - Slack(c, size, Step(c, p, e).debt)
  {
    assert [e][1..] == [];
    hide UpdateBudget, AdjustedRateBps, TopBps;
    NoTimeNoPay(c, p, e.queueBytes);
    UpdateInRange(c, p, e.now, e.queueBytes);
    DerivedRanges(c, UpdateBudget(c, p, e.now, e.queueBytes), e.queueBytes);
    hide RateBytesPerSec, TopRate, TopBurst, BaseDebt, TopDebt, MaxDebtBytes, AllowedBurstBytes;
  }

  lemma {:induction false} SlackRun(c: Config, p: Pacer, events: seq<Event>, cleared: bool, size: nat)
    requires c.Normal() && c.Active() && InRange(c, p) && TopBurst(c) < BaseDebt(c)
    requires cleared ==> p.debt <= TopBurst(c)
    requires Disciplined(c, p, events, cleared) && PacketsUpTo(events, size) && Restarts(events) == 0
    requires AllAt(events, p.last)
    ensures SentBytes(events) as real <= Slack(c, size, p.debt)
    decreases |events|
  {
    hide *;
    if |events| == 0 {
      assert events == [];
      NothingRun(c, p, size);
      SlackNonNegative(c, size, p.debt);
    } else {
      var e, rest := events[0], events[1..];
      AllAtTail(events, p.last);
      assert Ordered(events, p.last) by { AllAtOrdered(events, p.last); }
      RunUnfolds(c, p, events, cleared, size);
      RestartsTail(events);
      SlackStep(c, p, e, cleared, size);
      StepInRange(c, p, e);
      StepCleared(c, p, e, cleared);
      SlackRun(c, Step(c, p, e), rest, ClearedAfter(c, p, e, cleared), size);
    }
  }

  lemma SlackNonNegative(c: Config, size: nat, debt: real)
    ensures Slack(c, size, debt) >= 0.0
  {
    hide TopBurst;
  }

  lemma AllAtTail(events: seq<Event>, t: int)
    requires AllAt(events, t) && |events| > 0
    ensures events[0].now == t && AllAt(events[1..], t)
  {}

  lemma AllAtOrdered(events: seq<Event>, t: int)
    requires AllAt(events, t)
    ensures Ordered(events, t)
  {}

  lemma RestartsTail(events: seq<Event>)
    requires Restarts(events) == 0 && |events| > 0
    ensures !events[0].Restart? && Restarts(events[1..]) == 0
  {}

  /** Asked with a queue so long that the rate is at its top, charged with an empty one, n times over. */
  function Flood(queueBytes: nat, size: nat, t: int, n: nat): seq<Event> {
    if n == 0 then []
    else [Query(queueBytes, true, t), Sent(size, true, 0, t)] + Flood(queueBytes, size, t, n - 1)
  }

  /** A question at the top rate and the charge at the base rate that follows it. */
  lemma Spent(c: Config, p: Pacer, queueBytes: nat, bytes: nat)
    requires c.Normal() && c.Active() && InRange(c, p) && p.debt <= TopBurst(c)
    requires AdjustedRateBps(c, queueBytes) == TopBps(c)
    ensures var ask, send := Query(queueBytes, true, p.last), Sent(bytes, true, 0, p.last);
            var q := Step(c, p, ask);
            && q.last == p.last && ClearedAfter(c, p, ask, false)
            && Step(c, q, send) == Pacer(MinReal(p.debt + bytes as real, BaseDebt(c)), c.pacingBps, p.last)
    ensures InRange(c, Pacer(MinReal(p.debt + bytes as real, BaseDebt(c)), c.pacingBps, p.last))
  {
    var ask, send := Query(queueBytes, true, p.last), Sent(bytes, true, 0, p.last);
    hide UpdateBudget, AdjustedRateBps, TopBps;
    NoTimeNoPay(c, p, queueBytes);
    StepInRange(c, p, ask);
    var q := Step(c, p, ask);
    assert q == p.(bps := TopBps(c));
    AtTopBurst(c, q, queueBytes);
    WaitZero(c, q, queueBytes);
    NoTimeNoPay(c, q, 0);
    EmptyQueueRate(c);
    StepInRange(c, q, send);
    hide WaitUs, BurstAt;
    assert MaxDebtBytes(c, q.(bps := c.pacingBps), 0) == BaseDebt(c);
  }

  lemma AtTopBurst(c: Config, q: Pacer, queueBytes: nat)
    requires q.bps == TopBps(c) > 0
    ensures AllowedBurstBytes(c, q, queueBytes) == TopBurst(c) && RateBytesPerSec(c, q, queueBytes) == TopRate(c)
  {}

  lemma {:induction false} FloodRuns(c: Config, p: Pacer, queueBytes: nat, size: nat, n: nat)
    requires c.Normal() && c.Active() && InRange(c, p) && p.debt <= BaseDebt(c) <= TopBurst(c)
    requires AdjustedRateBps(c, queueBytes) == TopBps(c)
    ensures var run := Flood(queueBytes, size, p.last, n);
            && Disciplined(c, p, run, false) && PacketsUpTo(run, size) && Restarts(run) == 0 && AllAt(run, p.last)
            && SentBytes(run) == n * size
    decreases n
  {
    if n > 0 {
      var ask, send := Query(queueBytes, true, p.last), Sent(size, true, 0, p.last);
      var rest := Flood(queueBytes, size, p.last, n - 1);
      Spent(c, p, queueBytes, size);
      hide Step, ClearedAfter, InRange, BaseDebt, TopBurst, TopBps, AdjustedRateBps;
      FloodRuns(c, Step(c, Step(c, p, ask), send), queueBytes, size, n - 1);
      var run := Flood(queueBytes, size, p.last, n);
      assert run[0] == ask && run[1..] == [send] + rest && ([send] + rest)[1..] == rest;
      assert n * size == (n - 1) * size + size;
    }
  }

  /**
   What goes out at one instant is bounded if and only if the largest burst, at the top rate, is
   below the debt that the base rate allows; it is then within that burst and one packet.
   */
  lemma BurstBoundedExactly(c: Config, size: nat, t: int)
    requires c.Normal() && c.Active() && size > 0
    ensures TopBurst(c) < BaseDebt(c) ==> BurstWithin(c, size, t, Headroom(c, size))
    ensures BurstBounded(c, size, t) <==> TopBurst(c) < BaseDebt(c)
  {
    var p := Fresh(c, t);
    StartInRange(c, t);
    hide TopBurst, BaseDebt, InRange, Disciplined, PacketsUpTo, Restarts, AllAt, SentBytes;
    BurstNonNegative(c);
    if TopBurst(c) < BaseDebt(c) {
      forall events | AtOnce(c, size, t, events) ensures SentBytes(events) as real <= Headroom(c, size) {
        SlackRun(c, p, events, false, size);
      }
      assert BurstWithin(c, size, t, Headroom(c, size));
    } else {
      var queueBytes := TopReached(c);
      forall most: real ensures !BurstWithin(c, size, t, most) {
        var n := if most < 0.0 then 0 else most.Floor + 1;
        FloodRuns(c, p, queueBytes, size, n);
        var run := Flood(queueBytes, size, t, n);
        assert n * size >= n;
        assert AtOnce(c, size, t, run) && SentBytes(run) as real > most;
      }
    }
  }

  // ---- over time -------------------------------------------------------------------------

  /** A disciplined run in time order, from a reset at t, of packets up to a size. */
  ghost predicate InTime(c: Config, size: nat, t: int, events: seq<Event>)
    requires c.Normal()
  {
    Disciplined(c, Fresh(c, t), events, false) && PacketsUpTo(events, size) && Restarts(events) == 0
      && Ordered(events, t)
  }

  function End(events: seq<Event>, t: int): int {
    if |events| == 0 then t else events[|events| - 1].now
  }

  ghost predicate RateWithin(c: Config, size: nat, t: int, most: real)
    requires c.Normal()
  {
    forall events :: InTime(c, size, t, events) ==> SentBytes(events) as real <= most + TopBytes(c, End(events, t) - t)
  }

  /** What every run sends exceeds the top rate by a bounded amount at most. */
  ghost predicate RateBounded(c: Config, size: nat, t: int)
    requires c.Normal()
  {
    exists most: real :: RateWithin(c, size, t, most)
  }

  /**
   Grains: one bit per second for one microsecond, an 8 000 000th of a byte. Debts that consist of
   whole bytes and whole microseconds at the top rate are whole grains.
   */
  function Byte(): nat {
    8000000
  }

  function Bytes(grains: int): real {
    grains as real / 8000000.0
  }

  function CapGrains(c: Config): nat {
    c.pacingBps * c.maxDebtMs * 1000
  }

  /** The smallest difference that whole bytes and whole microseconds at the top rate can make. */
  function FinestStep(c: Config): (g: nat)
    requires c.Normal()
    ensures g > 0 && TopBps(c) % g == 0 && Byte() % g == 0
  {
    TopWithinMultiple(c);
    GcdDivides(TopBps(c), Byte());
    Gcd(TopBps(c), Byte())
  }

  lemma BytesAdd(a: int, b: int)
    ensures Bytes(a + b) == Bytes(a) + Bytes(b)
  {}

  lemma BytesMono(a: int, b: int)
    ensures a <= b <==> Bytes(a) <= Bytes(b)
  {}

  lemma BytesOfBytes(n: int)
    ensures Bytes(n * Byte()) == n as real
  {}

  lemma BytesOfTime(c: Config, us: nat)
    ensures Bytes(us * TopBps(c)) == PaidOff(TopRate(c), us)
  {
    hide TopBps;
    var top := TopBps(c) as real;
    assert (us * TopBps(c)) as real == us as real * top;
    assert top / 8.0 * us as real == us as real * top / 8.0;
  }

  lemma BytesOfCap(c: Config)
    ensures Bytes(CapGrains(c)) == BaseDebt(c)
  {
    assert CapGrains(c) as real == c.pacingBps as real * c.maxDebtMs as real * 1000.0;
    assert c.pacingBps as real / 8.0 * c.maxDebtMs as real == c.pacingBps as real * c.maxDebtMs as real / 8.0;
  }

  // ---- bounded ---------------------------------------------------------------------------

  /** The microseconds it takes to pay off the largest counted debt at the top rate. */
  function CapTime(c: Config): nat
    requires c.Normal() && c.Active()
  {
    TopPositive(c);
    (CapGrains(c) + TopBps(c) - 1) / TopBps(c)
  }

  /** Two ways to keep account of the grains sent ahead of the top rate. */
  datatype Account = InSteps(cap: int) | InMicroseconds

  /**
   In steps, what is ahead is a multiple of the finest step, and no more than the debt shows. In
   microseconds, it is no more than the time that pays off the debt is worth.
   */
  ghost predicate Accounted(c: Config, debt: real, ahead: int, account: Account)
    requires c.Normal()
  {
    match account
    case InSteps(cap) =>
      ahead % FinestStep(c) == 0 && Bytes(ahead) <= Bytes(cap) - BaseDebt(c) + Counted(debt, BaseDebt(c))
    case InMicroseconds =>
      forall us: nat :: PaidOff(TopRate(c), us) >= Counted(debt, BaseDebt(c)) ==> ahead <= us * TopBps(c)
  }

  /**
   In steps, a cap in steps, and room above it for less than one. In microseconds, no burst, and
   packets that are worth no more than the time that pays off the cap.
   */
  ghost predicate NoRoom(c: Config, size: nat, account: Account)
    requires c.Normal() && c.Active()
  {
    match account
    case InSteps(cap) =>
      && cap % FinestStep(c) == 0 && Bytes(cap) >= BaseDebt(c)
      && Headroom(c, size) < BaseDebt(c) + Bytes(FinestStep(c))
    case InMicroseconds => TopBurst(c) == 0.0 && size * Byte() <= CapTime(c) * TopBps(c)
  }

  /** The passing of time. */
  lemma TimeAccounted(c: Config, p: Pacer, now: int, queueBytes: nat, ahead: int, account: Account)
    returns (ahead': int)
    requires c.Normal() && c.Active() && InRange(c, p) && p.last <= now && Accounted(c, p.debt, ahead, account)
    ensures Accounted(c, UpdateBudget(c, p, now, queueBytes).debt, ahead', account)
    ensures 0.0 <= Bytes(ahead') - Bytes(ahead) + TopBytes(c, now - p.last)
  {
    assert 0.0 <= BaseDebt(c) by { DerivedRanges(c, p, queueBytes); }
    hide *;
    var rate, us, maxDebt := UpdateShape(c, p, now, queueBytes);
    ahead' := TimeTaken(c, now - p.last, us, ahead);
    PaidMono(rate, TopRate(c), us);
    ClampPays(p.debt, PaidOff(rate, us), maxDebt, BaseDebt(c));
    PaidOffAccounted(c, p.debt, UpdateBudget(c, p, now, queueBytes).debt, us, ahead, account);
  }

  /** Whole microseconds at the top rate are no more than the time that has passed. */
  lemma TimeTaken(c: Config, span: int, us: nat, ahead: int) returns (ahead': int)
    requires c.Normal() && 0.0 < TopRate(c) && 1000 * us <= span
    ensures ahead' == ahead - us * TopBps(c)
    ensures 0.0 <= Bytes(ahead') - Bytes(ahead) + TopBytes(c, span)
  {
    hide *;
    ahead' := ahead - us * TopBps(c);
    BytesAdd(ahead', us * TopBps(c));
    BytesOfTime(c, us);
    PaidWithinSpan(TopRate(c), TopRate(c), us, span);
    TopBytesIs(c, span);
  }

  lemma PaidOffAccounted(c: Config, debt: real, debt': real, us: nat, ahead: int, account: Account)
    requires c.Normal() && Accounted(c, debt, ahead, account)
    requires Counted(debt', BaseDebt(c)) >= Counted(debt, BaseDebt(c)) - PaidOff(TopRate(c), us)
    ensures Accounted(c, debt', ahead - us * TopBps(c), account)
  {
    hide FinestStep, TopRate, TopBps, BaseDebt, Counted, PaidOff, Bytes;
    match account {
      case InSteps(cap) =>
        StepsStay(c, ahead, us);
        BytesAdd(ahead - us * TopBps(c), us * TopBps(c));
        BytesOfTime(c, us);
      case InMicroseconds =>
        forall m: nat | PaidOff(TopRate(c), m) >= Counted(debt', BaseDebt(c))
          ensures ahead - us * TopBps(c) <= m * TopBps(c)
        {
          PaidOffAdd(TopRate(c), m, us);
          assert PaidOff(TopRate(c), m + us) >= Counted(debt, BaseDebt(c));
          assert (m + us) * TopBps(c) == m * TopBps(c) + us * TopBps(c);
        }
    }
  }

  lemma PaidOffAdd(rate: real, m: nat, n: nat)
    ensures PaidOff(rate, m + n) == PaidOff(rate, m) + PaidOff(rate, n)
  {
    assert rate * (m + n) as real == rate * m as real + rate * n as real;
  }

  lemma PaidMono(a: real, b: real, us: nat)
    requires 0.0 <= a <= b
    ensures 0.0 <= PaidOff(a, us) <= PaidOff(b, us)
  {
    Scale(a, b, us as real);
    Scale(0.0, a, us as real);
  }

  lemma StepsStay(c: Config, ahead: int, us: nat)
    requires c.Normal() && ahead % FinestStep(c) == 0
    ensures (ahead - us * TopBps(c)) % FinestStep(c) == 0
  {
    var g := FinestStep(c);
    hide FinestStep, TopBps;
    ModProduct(TopBps(c), 0 - us, g);
    ModSum((0 - us) * TopBps(c), ahead, g);
    assert (0 - us) * TopBps(c) == -(us * TopBps(c));
  }

  lemma BytesStay(c: Config, ahead: int, bytes: nat)
    requires c.Normal() && ahead % FinestStep(c) == 0
    ensures (ahead + bytes * Byte()) % FinestStep(c) == 0
  {
    var g := FinestStep(c);
    hide FinestStep, Byte;
    ModProduct(Byte(), bytes, g);
    ModSum(ahead, bytes * Byte(), g);
  }

  lemma WholeSteps(c: Config, ahead: int, cap: int)
    requires c.Normal() && ahead % FinestStep(c) == 0 && cap % FinestStep(c) == 0
    requires ahead < cap + FinestStep(c)
    ensures ahead <= cap
  {
    var g := FinestStep(c);
    hide FinestStep;
    NextMultiple(ahead, cap, g);
  }

  /** A packet charged: what the cap forgives does not make a step, or the time is worth the packet. */
  lemma SendAccounted(c: Config, size: nat, debt: real, bytes: nat, limit: real, ahead: int, account: Account)
    requires c.Normal() && c.Active() && Accounted(c, debt, ahead, account) && NoRoom(c, size, account)
    requires 0.0 <= debt <= TopBurst(c) && bytes <= size && limit >= BaseDebt(c)
    ensures Accounted(c, MinReal(debt + bytes as real, limit), ahead + bytes * Byte(), account)
  {
    match account {
      case InSteps(cap) => SendInSteps(c, size, debt, bytes, limit, ahead, cap);
      case InMicroseconds => SendInMicroseconds(c, size, debt, bytes, limit, ahead);
    }
  }

  lemma SendInSteps(c: Config, size: nat, debt: real, bytes: nat, limit: real, ahead: int, cap: int)
    requires c.Normal() && c.Active() && Accounted(c, debt, ahead, InSteps(cap)) && NoRoom(c, size, InSteps(cap))
    requires 0.0 <= debt <= TopBurst(c) && bytes <= size && limit >= BaseDebt(c)
    ensures Accounted(c, MinReal(debt + bytes as real, limit), ahead + bytes * Byte(), InSteps(cap))
  {
    hide FinestStep, TopBurst, BaseDebt, Byte, Bytes;
    var ahead' := ahead + bytes * Byte();
    BytesStay(c, ahead, bytes);
    BytesAdd(ahead, bytes * Byte());
    BytesOfBytes(bytes);
    if debt + bytes as real > BaseDebt(c) {
      BytesAdd(cap, FinestStep(c));
      BytesMono(cap + FinestStep(c), ahead');
      WholeSteps(c, ahead', cap);
      BytesMono(ahead', cap);
    }
  }

  lemma SendInMicroseconds(c: Config, size: nat, debt: real, bytes: nat, limit: real, ahead: int)
    requires c.Normal() && c.Active() && Accounted(c, debt, ahead, InMicroseconds) && NoRoom(c, size, InMicroseconds)
    requires 0.0 <= debt <= TopBurst(c) && bytes <= size && limit >= BaseDebt(c)
    ensures Accounted(c, MinReal(debt + bytes as real, limit), ahead + bytes * Byte(), InMicroseconds)
  {
    var debt' := MinReal(debt + bytes as real, limit);
    NoDebtNothingAhead(c, debt, ahead);
    hide TopRate, TopBps, TopBurst, BaseDebt, PaidOff, Bytes, Byte, CapTime;
    forall us: nat | PaidOff(TopRate(c), us) >= Counted(debt', BaseDebt(c))
      ensures ahead + bytes * Byte() <= us * TopBps(c)
    {
      BytesOfTime(c, us);
      if bytes as real <= BaseDebt(c) {
        BytesOfBytes(bytes);
        BytesMono(bytes * Byte(), us * TopBps(c));
      } else {
        BytesOfCap(c);
        BytesMono(CapGrains(c), us * TopBps(c));
        CapTimeLeast(c, us);
        ByteSize();
        MulLe(bytes, size, Byte());
      }
    }
  }

  lemma NoDebtNothingAhead(c: Config, debt: real, ahead: int)
    requires c.Normal() && Accounted(c, debt, ahead, InMicroseconds) && debt <= 0.0 && BaseDebt(c) >= 0.0
    ensures ahead <= 0
  {
    assert PaidOff(TopRate(c), 0) >= Counted(debt, BaseDebt(c)) by { hide TopRate, BaseDebt; }
    assert 0 * TopBps(c) == 0;
  }

  /** No time that pays off the cap is shorter than CapTime. */
  lemma CapTimeLeast(c: Config, us: nat)
    requires c.Normal() && c.Active()
    ensures CapGrains(c) <= CapTime(c) * TopBps(c)
    ensures CapGrains(c) <= us * TopBps(c) ==> CapTime(c) * TopBps(c) <= us * TopBps(c)
  {
    TopPositive(c);
    hide TopBps, CapGrains;
    CeilingLeast(CapGrains(c), TopBps(c), us);
  }

  lemma StepAccounted(c: Config, p: Pacer, e: Event, cleared: bool, size: nat, ahead: int, account: Account)
    returns (ahead': int)
    requires c.Normal() && c.Active() && InRange(c, p) && p.last <= e.now && !e.Restart?
    requires e.Sent? && e.accounted ==> cleared && e.bytes <= size
    requires cleared ==> p.debt <= TopBurst(c)
    requires Accounted(c, p.debt, ahead, account) && NoRoom(c, size, account)
    ensures Accounted(c, Step(c, p, e).debt, ahead', account)
    ensures SentBytes([e]) as real <= Bytes(ahead') - Bytes(ahead) + TopBytes(c, e.now - p.last)
  {
    assert [e][1..] == [];
    hide UpdateBudget, AdjustedRateBps, TopBps, Accounted, NoRoom, Bytes, TopBytes;
    ahead' := TimeAccounted(c, p, e.now, e.queueBytes, ahead, account);
    UpdateInRange(c, p, e.now, e.queueBytes);
    var u := UpdateBudget(c, p, e.now, e.queueBytes);
    DerivedRanges(c, u, e.queueBytes);
    hide RateBytesPerSec, TopRate, TopBurst, BaseDebt, TopDebt, MaxDebtBytes, AllowedBurstBytes;
    if e.Sent? && e.accounted {
      SendAccounted(c, size, u.debt, e.bytes, MaxDebtBytes(c, u, e.queueBytes), ahead', account);
      BytesAdd(ahead', e.bytes * Byte());
      BytesOfBytes(e.bytes);
      ahead' := ahead' + e.bytes * Byte();
    } else {
      MoreDebtAccounted(c, u.debt, Step(c, p, e).debt, ahead', account);
    }
  }

  lemma MoreDebtAccounted(c: Config, debt: real, debt': real, ahead: int, account: Account)
    requires c.Normal() && Accounted(c, debt, ahead, account) && (debt' >= debt || debt' >= BaseDebt(c))
    ensures Accounted(c, debt', ahead, account)
  {
    hide FinestStep, BaseDebt, Bytes, PaidOff, TopRate, TopBps;
  }

  lemma {:induction false} RunAccounted(c: Config, p: Pacer, events: seq<Event>, cleared: bool, size: nat,
                                        ahead: int, account: Account)
      returns (ahead': int)
    requires c.Normal() && c.Active() && InRange(c, p) && (cleared ==> p.debt <= TopBurst(c))
    requires Disciplined(c, p, events, cleared) && PacketsUpTo(events, size) && Restarts(events) == 0
    requires Ordered(events, p.last)
    requires Accounted(c, p.debt, ahead, account) && NoRoom(c, size, account)
    ensures var q := RunPacer(c, p, events);
            && Accounted(c, q.debt, ahead', account)
            && SentBytes(events) as real <= Bytes(ahead') - Bytes(ahead) + TopBytes(c, q.last - p.last)
    decreases |events|
  {
    hide *;
    if |events| == 0 {
      assert events == [];
      NothingRun(c, p, size);
      TopBytesZero(c);
      ahead' := ahead;
    } else {
      var e, rest := events[0], events[1..];
      RunUnfolds(c, p, events, cleared, size);
      RestartsTail(events);
      StepInRange(c, p, e);
      StepCleared(c, p, e, cleared);
      var between := StepAccounted(c, p, e, cleared, size, ahead, account);
      var p1 := Step(c, p, e);
      ahead' := RunAccounted(c, p1, rest, ClearedAfter(c, p, e, cleared), size, between, account);
      TopBytesAdd(c, e.now - p.last, RunPacer(c, p1, rest).last - e.now);
    }
  }

  /** A run kept account of exceeds the top rate by what is ahead at its end. */
  lemma RunAhead(c: Config, size: nat, t: int, events: seq<Event>, account: Account) returns (debt: real, ahead: int)
    requires c.Normal() && c.Active() && InTime(c, size, t, events)
    requires Accounted(c, 0.0, 0, account) && NoRoom(c, size, account)
    ensures Accounted(c, debt, ahead, account)
    ensures SentBytes(events) as real <= Bytes(ahead) + TopBytes(c, End(events, t) - t)
  {
    var p := Fresh(c, t);
    StartInRange(c, t);
    BytesOfBytes(0);
    hide InRange, Disciplined, PacketsUpTo, Restarts, Ordered, SentBytes, RunPacer, TopBytes, TopBurst, NoRoom;
    hide Accounted, Bytes;
    ahead := RunAccounted(c, p, events, false, size, 0, account);
    debt := RunPacer(c, p, events).debt;
    if |events| > 0 {
      LastTime(c, p, events);
    } else {
      assert events == [];
      NothingRun(c, p, size);
    }
  }

  /** Room for less than one step means a bounded rate. */
  lemma LittleRoomIsBounded(c: Config, size: nat, t: int)
    requires c.Normal() && c.Active() && Headroom(c, size) < BaseDebt(c) + Bytes(FinestStep(c))
    ensures RateWithin(c, size, t, BaseDebt(c) + Bytes(FinestStep(c)))
  {
    var cap := RoundUp(CapGrains(c), FinestStep(c));
    BytesOfCap(c);
    BytesMono(CapGrains(c), cap);
    BytesAdd(CapGrains(c), FinestStep(c));
    BytesMono(cap, CapGrains(c) + FinestStep(c));
    StartInRange(c, t);
    DerivedRanges(c, Fresh(c, t), 0);
    BytesOfBytes(0);
    hide TopBurst, BaseDebt, FinestStep, CapGrains, InTime, SentBytes, TopBytes, Bytes;
    ModStep(0, 0, FinestStep(c));
    assert Accounted(c, 0.0, 0, InSteps(cap));
    forall events | InTime(c, size, t, events)
      ensures SentBytes(events) as real <= BaseDebt(c) + Bytes(FinestStep(c)) + TopBytes(c, End(events, t) - t)
    {
      var debt, ahead := RunAhead(c, size, t, events, InSteps(cap));
    }
  }

  /** Without a burst, packets no larger than the time to pay off the cap is worth mean a bounded rate. */
  lemma SmallPacketsBounded(c: Config, size: nat, t: int)
    requires c.Normal() && c.Active() && TopBurst(c) == 0.0 && size * Byte() <= CapTime(c) * TopBps(c)
    ensures RateWithin(c, size, t, Bytes(CapTime(c) * TopBps(c)))
  {
    var most := CapTime(c) * TopBps(c);
    StartInRange(c, t);
    DerivedRanges(c, Fresh(c, t), 0);
    hide TopBurst, BaseDebt, CapTime, TopBps, InTime, SentBytes, TopBytes, Bytes, TopRate, PaidOff;
    TopPositive(c);
    assert Accounted(c, 0.0, 0, InMicroseconds) by {
      forall us: nat ensures 0 <= us * TopBps(c) {
        MulLe(0, us, TopBps(c));
      }
    }
    forall events | InTime(c, size, t, events)
      ensures SentBytes(events) as real <= Bytes(most) + TopBytes(c, End(events, t) - t)
    {
      var debt, ahead := RunAhead(c, size, t, events, InMicroseconds);
      BytesOfTime(c, CapTime(c));
      BytesOfCap(c);
      CapTimeLeast(c, 0);
      BytesMono(CapGrains(c), most);
      BytesMono(ahead, most);
    }
  }

  // ---- unbounded -------------------------------------------------------------------------

  /** A disciplined run in time order from p to q, without restarts, of packets up to a size. */
  ghost predicate Leads(c: Config, size: nat, p: Pacer, events: seq<Event>, cleared: bool, q: Pacer)
    requires c.Normal()
    decreases |events|
  {
    if |events| == 0 then p == q
    else
      var e := events[0];
      && p.last <= e.now && !e.Restart? && (e.Sent? && e.accounted ==> cleared && e.bytes <= size)
      && Leads(c, size, Step(c, p, e), events[1..], ClearedAfter(c, p, e, cleared), q)
  }

  lemma {:induction false} LeadsIsRun(c: Config, size: nat, p: Pacer, events: seq<Event>, cleared: bool, q: Pacer)
    requires c.Normal() && c.Active() && InRange(c, p) && Leads(c, size, p, events, cleared, q)
    ensures Disciplined(c, p, events, cleared) && PacketsUpTo(events, size) && Restarts(events) == 0
    ensures Ordered(events, p.last) && RunPacer(c, p, events) == q && End(events, p.last) == q.last
    decreases |events|
  {
    hide Step, ClearedAfter, InRange;
    if |events| > 0 {
      StepInRange(c, p, events[0]);
      LeadsIsRun(c, size, Step(c, p, events[0]), events[1..], ClearedAfter(c, p, events[0], cleared), q);
    }
  }

  /** A permission more does no harm. */
  lemma {:induction false} LeadsCleared(c: Config, size: nat, p: Pacer, events: seq<Event>, cleared: bool, q: Pacer)
    requires c.Normal() && Leads(c, size, p, events, false, q)
    ensures Leads(c, size, p, events, cleared, q)
    decreases |events|
  {
    if |events| > 0 && cleared {
      var e := events[0];
      hide Step, WaitUs;
      if e.Stats? {
        LeadsCleared(c, size, Step(c, p, e), events[1..], true, q);
      }
    }
  }

  lemma {:induction false} LeadsJoin(c: Config, size: nat, p: Pacer, a: seq<Event>, cleared: bool, q: Pacer,
                                     b: seq<Event>, r: Pacer)
    requires c.Normal() && Leads(c, size, p, a, cleared, q) && Leads(c, size, q, b, false, r)
    ensures Leads(c, size, p, a + b, cleared, r) && SentBytes(a + b) == SentBytes(a) + SentBytes(b)
    decreases |a|
  {
    hide Step, ClearedAfter;
    if |a| == 0 {
      assert a + b == b;
      LeadsCleared(c, size, q, b, cleared, r);
    } else {
      assert (a + b)[0] == a[0] && (a + b)[1..] == a[1..] + b;
      LeadsJoin(c, size, Step(c, p, a[0]), a[1..], ClearedAfter(c, p, a[0], cleared), q, b, r);
    }
  }

  /** Some run from p to q sends this many grains more than the top rate and the rise of the debt explain. */
  ghost predicate Gains(c: Config, size: nat, p: Pacer, q: Pacer, gain: int)
    requires c.Normal()
  {
    exists events :: Leads(c, size, p, events, false, q) && Explained(c, p, q, gain, events)
  }

  ghost predicate Explained(c: Config, p: Pacer, q: Pacer, gain: int, events: seq<Event>) {
    SentBytes(events) as real == TopBytes(c, q.last - p.last) + q.debt - p.debt + Bytes(gain)
  }

  lemma GainsNothing(c: Config, size: nat, p: Pacer)
    requires c.Normal()
    ensures Gains(c, size, p, p, 0)
  {
    hide TopRate;
    assert Leads(c, size, p, [], false, p);
    TopBytesZero(c);
    assert Explained(c, p, p, 0, []);
  }

  lemma GainsAdd(c: Config, size: nat, p: Pacer, q: Pacer, r: Pacer, m: int, n: int)
    requires c.Normal() && Gains(c, size, p, q, m) && Gains(c, size, q, r, n)
    ensures Gains(c, size, p, r, m + n)
  {
    var a :| Leads(c, size, p, a, false, q) && Explained(c, p, q, m, a);
    var b :| Leads(c, size, q, b, false, r) && Explained(c, q, r, n, b);
    hide Leads, Explained;
    LeadsJoin(c, size, p, a, false, q, b, r);
    ExplainedAdd(c, p, q, r, m, n, a, b);
  }

  lemma ExplainedAdd(c: Config, p: Pacer, q: Pacer, r: Pacer, m: int, n: int, a: seq<Event>, b: seq<Event>)
    requires Explained(c, p, q, m, a) && Explained(c, q, r, n, b) && SentBytes(a + b) == SentBytes(a) + SentBytes(b)
    ensures Explained(c, p, r, m + n, a + b)
  {
    TopBytesAdd(c, q.last - p.last, r.last - q.last);
    BytesAdd(m, n);
    hide TopBytes, SentBytes, Bytes;
  }

  function BurstGrains(c: Config): int {
    (TopBurst(c) * 8000000.0).Floor
  }

  lemma WithinBurst(c: Config, d: int)
    ensures d <= BurstGrains(c) <==> Bytes(d) <= TopBurst(c)
  {
    hide TopBurst;
  }

  /** The pacer is in range with this debt, which is not above what the base rate allows. */
  ghost predicate Owes(c: Config, p: Pacer, d: int) {
    InRange(c, p) && p.debt == Bytes(d) && 0 <= d <= CapGrains(c)
  }

  /** One question is a run, and so is a question with the packet it lets through. */
  lemma ShortRuns(c: Config, size: nat, p: Pacer, ask: Event, send: Event)
    requires c.Normal() && ask.Query? && ask.now >= p.last
    ensures Leads(c, size, p, [ask], false, Step(c, p, ask)) && SentBytes([ask]) == 0
    ensures var q := Step(c, p, ask);
            send.Sent? && send.accounted && send.bytes <= size && send.now >= q.last
              && ClearedAfter(c, p, ask, false) ==>
            Leads(c, size, p, [ask, send], false, Step(c, q, send)) && SentBytes([ask, send]) == send.bytes
  {
    hide Step, ClearedAfter;
    var q := Step(c, p, ask);
    assert [ask, send][1..] == [send] && [send][1..] == [] && [ask][1..] == [];
    assert Leads(c, size, q, [], ClearedAfter(c, p, ask, false), q);
    if send.Sent? && send.accounted && send.bytes <= size && send.now >= q.last && ClearedAfter(c, p, ask, false) {
      var r := Step(c, q, send);
      assert Leads(c, size, r, [], ClearedAfter(c, q, send, true), r);
      assert Leads(c, size, q, [send], true, r);
      assert SentBytes([send]) == send.bytes;
    }
  }

  /** A microsecond passes; what is left of it when there is no debt any more is lost. */
  lemma Wait(c: Config, size: nat, p: Pacer, d: int) returns (q: Pacer, d': int)
    requires c.Normal() && c.Active() && Owes(c, p, d)
    ensures d' == if d >= TopBps(c) then d - TopBps(c) else 0
    ensures Owes(c, q, d') && Gains(c, size, p, q, d - TopBps(c) - d')
  {
    TopWithinMultiple(c);
    BytesMono(TopBps(c), d);
    OwesIs(c, p, d);
    hide *;
    var queueBytes := TopReached(c);
    BytesOfTime(c, 1);
    MicrosecondAtTop(c, p, queueBytes);
    var e := Query(queueBytes, true, p.last + 1000);
    StepInRange(c, p, e);
    QueryStep(c, p, e);
    q := Step(c, p, e);
    d' := if d >= TopBps(c) then d - TopBps(c) else 0;
    BytesAdd(d - TopBps(c), TopBps(c));
    BytesAdd(d - TopBps(c) - d', d');
    BytesOfBytes(0);
    assert q.debt == Bytes(d');
    OwesIs(c, q, d');
    ShortRuns(c, size, p, e, e);
    MicrosecondBytes(c);
    GainsBy(c, size, p, q, d - TopBps(c) - d', [e]);
  }

  lemma OwesIs(c: Config, p: Pacer, d: int)
    ensures Owes(c, p, d) <==> InRange(c, p) && p.debt == Bytes(d) && 0 <= d <= CapGrains(c)
  {}

  lemma GainsBy(c: Config, size: nat, p: Pacer, q: Pacer, gain: int, events: seq<Event>)
    requires c.Normal() && Leads(c, size, p, events, false, q)
    requires SentBytes(events) as real == TopBytes(c, q.last - p.last) + q.debt - p.debt + Bytes(gain)
    ensures Gains(c, size, p, q, gain)
  {
    hide Leads;
    assert Explained(c, p, q, gain, events);
  }

  lemma QueryStep(c: Config, p: Pacer, e: Event)
    requires c.Normal() && e.Query?
    ensures Step(c, p, e) == UpdateBudget(c, p, e.now, e.queueBytes)
  {}

  lemma MicrosecondBytes(c: Config)
    ensures TopBytes(c, 1000) == PaidOff(TopRate(c), 1)
  {}

  lemma MicrosecondAtTop(c: Config, p: Pacer, queueBytes: nat)
    requires c.Normal() && c.Active() && InRange(c, p) && AdjustedRateBps(c, queueBytes) == TopBps(c)
    ensures var paid := PaidOff(TopRate(c), 1);
            UpdateBudget(c, p, p.last + 1000, queueBytes)
            == Pacer(if p.debt >= paid then p.debt - paid else 0.0, TopBps(c), p.last + 1000)
  {
    AdjustedInRange(c, queueBytes);
    PaidMono(TopRate(c), TopRate(c), 1);
    hide TopBps, AdjustedRateBps, PaidOff;
  }

  /** A packet goes out. */
  lemma Send(c: Config, size: nat, p: Pacer, d: int, bytes: nat) returns (q: Pacer, d': int)
    requires c.Normal() && c.Active() && Owes(c, p, d) && d <= BurstGrains(c) && bytes <= size
    ensures d' == (if d + bytes * Byte() <= CapGrains(c) then d + bytes * Byte() else CapGrains(c))
    ensures Owes(c, q, d') && Gains(c, size, p, q, d + bytes * Byte() - d')
  {
    hide *;
    OwesIs(c, p, d);
    WithinBurst(c, d);
    var queueBytes := TopReached(c);
    Spent(c, p, queueBytes, bytes);
    var more := bytes * Byte();
    BytesOfBytes(bytes);
    BytesAdd(d, more);
    BytesOfCap(c);
    BytesMono(d + more, CapGrains(c));
    d' := if d + more <= CapGrains(c) then d + more else CapGrains(c);
    ByteSize();
    q := Pacer(MinReal(p.debt + bytes as real, BaseDebt(c)), c.pacingBps, p.last);
    MinRealIs(p.debt + bytes as real, BaseDebt(c));
    OwesIs(c, q, d');
    BytesAdd(d', d + more - d');
    TopBytesZero(c);
    var ask, send := Query(queueBytes, true, p.last), Sent(bytes, true, 0, p.last);
    ShortRuns(c, size, p, ask, send);
    GainsBy(c, size, p, q, d + more - d', [ask, send]);
  }

  lemma ByteSize()
    ensures Byte() > 0
  {}

  lemma MinRealIs(a: real, b: real)
    ensures MinReal(a, b) == if a <= b then a else b
  {}

  /** Waiting, a whole number of microseconds, until the debt is below one microsecond's worth. */
  lemma {:induction false} WaitLong(c: Config, size: nat, p: Pacer, d: int) returns (q: Pacer, d': int)
    requires c.Normal() && c.Active() && Owes(c, p, d)
    ensures Owes(c, q, d') && Gains(c, size, p, q, 0)
    ensures TopBps(c) > 0 && d' == d % TopBps(c) && (d' - d) % FinestStep(c) == 0
    decreases d
  {
    hide *;
    TopPositive(c);
    OwesIs(c, p, d);
    if d < TopBps(c) {
      q, d' := p, d;
      GainsNothing(c, size, p);
      ModStep(0, 0, FinestStep(c));
      DivModUnique(d, TopBps(c), 0, d);
    } else {
      var q1, d1 := Wait(c, size, p, d);
      q, d' := WaitLong(c, size, q1, d1);
      GainsAdd(c, size, p, q1, q, 0, 0);
      StepsStay(c, d' - d1, 1);
      ModStep(d1, 1, TopBps(c));
    }
  }

  lemma TopPositive(c: Config)
    requires c.Normal() && c.Active()
    ensures TopBps(c) > 0
  {
    TopWithinMultiple(c);
  }

  /**
   A microsecond's wait where the debt allows one, a packet of one byte where it does not: the
   debt goes round modulo their sum, unless a packet runs into the cap, and that is a gain.
   */
  lemma {:induction false} GoRound(c: Config, size: nat, p: Pacer, d: int, k: nat)
    returns (q: Pacer, d': int, gain: nat)
    requires c.Normal() && c.Active() && Owes(c, p, d) && size > 0
    requires TopBps(c) <= BurstGrains(c) && d < TopBps(c) + Byte()
    ensures Owes(c, q, d') && Gains(c, size, p, q, gain)
    ensures TopBps(c) + Byte() > 0 && (gain > 0 || d' == (d + k * Byte()) % (TopBps(c) + Byte()))
    decreases k
  {
    hide *;
    TopPositive(c);
    ByteSize();
    OwesIs(c, p, d);
    var top, one := TopBps(c), Byte();
    if k == 0 {
      q, d', gain := p, d, 0;
      GainsNothing(c, size, p);
      DivModUnique(d, top + one, 0, d);
    } else {
      var q1, d1, gain1;
      if d >= top {
        q1, d1 := Wait(c, size, p, d);
        gain1 := 0;
        RoundDown(d, k, top, one);
      } else {
        q1, d1 := Send(c, size, p, d, 1);
        gain1 := d + one - d1;
        RoundUpwards(d, k, one);
      }
      if gain1 > 0 {
        q, d', gain := q1, d1, gain1;
      } else {
        q, d', gain := GoRound(c, size, q1, d1, k - 1);
        GainsAdd(c, size, p, q1, q, 0, gain);
      }
    }
  }

  lemma RoundDown(d: int, k: nat, top: int, one: int)
    requires k > 0 && top + one > 0
    ensures (d - top + (k - 1) * one) % (top + one) == (d + k * one) % (top + one)
  {
    assert d - top + (k - 1) * one == d + k * one + (-1) * (top + one);
    ModStep(d + k * one, -1, top + one);
  }

  lemma RoundUpwards(d: int, k: nat, one: int)
    requires k > 0
    ensures d + 1 * one + (k - 1) * one == d + k * one
  {}

  /** One-byte packets, below the burst and the cap. */
  lemma {:induction false} FillUp(c: Config, size: nat, p: Pacer, d: int, n: nat) returns (q: Pacer)
    requires c.Normal() && c.Active() && Owes(c, p, d) && size > 0
    requires d + n * Byte() <= BurstGrains(c) && d + n * Byte() <= CapGrains(c)
    ensures Owes(c, q, d + n * Byte()) && Gains(c, size, p, q, 0)
    decreases n
  {
    hide *;
    ByteSize();
    if n == 0 {
      q := p;
      GainsNothing(c, size, p);
    } else {
      assert n * Byte() == Byte() + (n - 1) * Byte();
      assert (n - 1) * Byte() >= 0 by { MulLe(0, n - 1, Byte()); }
      var q1, d1 := Send(c, size, p, d, 1);
      q := FillUp(c, size, q1, d1, n - 1);
      GainsAdd(c, size, p, q1, q, 0, 0);
    }
  }

  /** Room for a step or more: the debt of the last send below the burst, and where to turn to get there. */
  lemma Target(top: nat, one: nat, g: nat, burst: nat, d: nat) returns (last: nat, r: nat, n: nat, k: nat)
    requires top > 0 && one > 0 && g == Gcd(top, one) && top <= burst
    ensures g > 0 && burst - g < last <= burst
    ensures last == r + n * one && r < one && (d + k * one) % (top + one) == r
  {
    hide Gcd;
    GcdDivides(top, one);
    DivisorSmall(top, g);
    last := burst - (burst - d) % g;
    r, n := last % one, last / one;
    assert last == n * one + r;
    var q := (burst - d) / g;
    assert burst - d == q * g + (burst - d) % g;
    assert last - d == q * g;
    ModStep(0, q, g);
    ModStep(0, 0, g);
    ModProduct(one, -(n as int), g);
    ModSum(last - d, -(n as int) * one, g);
    assert r - d == (last - d) + -(n as int) * one;
    k := ReachResidue(top, one, d, r);
  }

  /** With room for a step, one more round gains at least a grain. */
  lemma Round(c: Config, size: nat, p: Pacer, d: int) returns (q: Pacer, d': int, gain: nat)
    requires c.Normal() && c.Active() && Owes(c, p, d) && size > 0
    requires TopBps(c) <= BurstGrains(c) < CapGrains(c)
    requires BurstGrains(c) + size * Byte() >= CapGrains(c) + FinestStep(c)
    ensures Owes(c, q, d') && Gains(c, size, p, q, gain) && gain > 0
  {
    TopPositive(c);
    var g := FinestStep(c);
    assert g == Gcd(TopBps(c), Byte());
    hide *;
    ByteSize();
    var q1, d1 := WaitLong(c, size, p, d);
    OwesIs(c, q1, d1);
    var last, r, n, k := Target(TopBps(c), Byte(), g, BurstGrains(c), d1);
    var q2, d2, gain2 := GoRound(c, size, q1, d1, k);
    GainsAdd(c, size, p, q1, q2, 0, gain2);
    if gain2 > 0 {
      q, d', gain := q2, d2, gain2;
    } else {
      var q3 := FillUp(c, size, q2, d2, n);
      GainsAdd(c, size, p, q2, q3, 0, 0);
      q, d' := Send(c, size, q3, last, size);
      gain := last + size * Byte() - d';
      GainsAdd(c, size, p, q3, q, 0, gain);
    }
  }

  lemma {:induction false} Rounds(c: Config, size: nat, p: Pacer, d: int, n: nat) returns (q: Pacer, d': int, gain: nat)
    requires c.Normal() && c.Active() && Owes(c, p, d) && size > 0
    requires TopBps(c) <= BurstGrains(c) < CapGrains(c)
    requires BurstGrains(c) + size * Byte() >= CapGrains(c) + FinestStep(c)
    ensures Owes(c, q, d') && Gains(c, size, p, q, gain) && gain >= n
    decreases n
  {
    hide *;
    if n == 0 {
      q, d', gain := p, d, 0;
      GainsNothing(c, size, p);
    } else {
      var q1, d1, gain1 := Round(c, size, p, d);
      var rest;
      q, d', rest := Rounds(c, size, q1, d1, n - 1);
      gain := gain1 + rest;
      GainsAdd(c, size, p, q1, q, gain1, rest);
    }
  }

  lemma RoomInGrains(c: Config, size: nat)
    requires c.Normal() && PaidOff(TopRate(c), 1) <= TopBurst(c) < BaseDebt(c)
    requires Headroom(c, size) >= BaseDebt(c) + Bytes(FinestStep(c))
    ensures TopBps(c) <= BurstGrains(c) < CapGrains(c)
    ensures BurstGrains(c) + size * Byte() >= CapGrains(c) + FinestStep(c)
  {
    BytesOfTime(c, 1);
    WithinBurst(c, TopBps(c));
    BytesOfCap(c);
    WithinBurst(c, CapGrains(c));
    BytesOfBytes(size);
    var left := CapGrains(c) + FinestStep(c) - size * Byte();
    BytesAdd(left, size * Byte());
    BytesAdd(CapGrains(c), FinestStep(c));
    WithinBurst(c, left);
    hide TopBps, TopBurst, BaseDebt, FinestStep, CapGrains, BurstGrains, PaidOff, Bytes, Byte;
  }

  /** Without a burst: a packet into the cap, and the microseconds that pay it off. */
  lemma RoundToZero(c: Config, size: nat, p: Pacer) returns (q: Pacer, gain: nat)
    requires c.Normal() && c.Active() && Owes(c, p, 0) && BurstGrains(c) == 0
    requires size * Byte() > CapTime(c) * TopBps(c)
    ensures Owes(c, q, 0) && Gains(c, size, p, q, gain) && gain > 0
  {
    CapTimeLeast(c, 0);
    WholeMicroseconds(c);
    hide *;
    var q1, d1 := Send(c, size, p, 0, size);
    var gain1 := size * Byte() - d1;
    var q2, d2 := WaitLong(c, size, q1, d1);
    GainsAdd(c, size, p, q1, q2, gain1, 0);
    if d2 == 0 {
      q, gain := q2, gain1;
    } else {
      var d3;
      q, d3 := Wait(c, size, q2, d2);
      gain := gain1 + (d2 - TopBps(c));
      GainsAdd(c, size, p, q2, q, gain1, d2 - TopBps(c));
    }
  }

  /** CapTime in whole microseconds, and one more for what is left. */
  lemma WholeMicroseconds(c: Config)
    requires c.Normal() && c.Active()
    ensures TopBps(c) > 0
    ensures var rest := CapGrains(c) % TopBps(c);
            CapTime(c) * TopBps(c) == CapGrains(c) + if rest == 0 then 0 else TopBps(c) - rest
  {
    TopPositive(c);
    hide TopBps, CapGrains;
    CeilingIs(CapGrains(c), TopBps(c));
  }

  lemma {:induction false} RoundsToZero(c: Config, size: nat, p: Pacer, n: nat) returns (q: Pacer, gain: nat)
    requires c.Normal() && c.Active() && Owes(c, p, 0) && BurstGrains(c) == 0
    requires size * Byte() > CapTime(c) * TopBps(c)
    ensures Owes(c, q, 0) && Gains(c, size, p, q, gain) && gain >= n
    decreases n
  {
    hide *;
    if n == 0 {
      q, gain := p, 0;
      GainsNothing(c, size, p);
    } else {
      var q1, gain1 := RoundToZero(c, size, p);
      var rest;
      q, rest := RoundsToZero(c, size, q1, n - 1);
      gain := gain1 + rest;
      GainsAdd(c, size, p, q1, q, gain1, rest);
    }
  }

  /** Some run gains at least so many grains. */
  ghost predicate GainsAtLeast(c: Config, size: nat, p: Pacer, n: nat)
    requires c.Normal()
  {
    exists q, d, gain :: Owes(c, q, d) && Gains(c, size, p, q, gain) && gain >= n
  }

  /** A gain is sent beyond what the top rate explains. */
  lemma GainIsSent(c: Config, size: nat, t: int, n: nat) returns (events: seq<Event>)
    requires c.Normal() && c.Active() && GainsAtLeast(c, size, Fresh(c, t), n)
    ensures InTime(c, size, t, events) && SentBytes(events) as real >= Bytes(n) + TopBytes(c, End(events, t) - t)
  {
    var p := Fresh(c, t);
    StartInRange(c, t);
    hide InRange, Leads, Owes, Disciplined, PacketsUpTo, Ordered, Restarts, RunPacer, TopBytes, SentBytes, Bytes;
    var q, d, gain :| Owes(c, q, d) && Gains(c, size, p, q, gain) && gain >= n;
    OwesIs(c, q, d);
    BytesMono(0, d);
    BytesMono(n, gain);
    BytesOfBytes(0);
    events :| Leads(c, size, p, events, false, q) && Explained(c, p, q, gain, events);
    LeadsIsRun(c, size, p, events, false, q);
  }

  /** Gains without end are not bounded. */
  lemma EndlessGains(c: Config, size: nat, t: int)
    requires c.Normal() && c.Active() && forall n :: GainsAtLeast(c, size, Fresh(c, t), n)
    ensures !RateBounded(c, size, t)
  {
    hide InTime, GainsAtLeast, TopBytes, SentBytes, End;
    forall most: real ensures !RateWithin(c, size, t, most) {
      var n := if most < 0.0 then 0 else (most * 8000000.0).Floor + 1;
      var events := GainIsSent(c, size, t, n);
      assert SentBytes(events) as real > most + TopBytes(c, End(events, t) - t);
    }
  }

  lemma FreshOwesNothing(c: Config, t: int)
    requires c.Normal() && c.Active()
    ensures Owes(c, Fresh(c, t), 0)
  {
    StartInRange(c, t);
    BytesOfBytes(0);
    hide InRange;
  }

  /** Room for a step: round after round gains on the top rate, without end. */
  lemma RoomIsUnbounded(c: Config, size: nat, t: int)
    requires c.Normal() && c.Active() && size > 0 && PaidOff(TopRate(c), 1) <= TopBurst(c) < BaseDebt(c)
    requires Headroom(c, size) >= BaseDebt(c) + Bytes(FinestStep(c))
    ensures !RateBounded(c, size, t)
  {
    hide *;
    RoomInGrains(c, size);
    FreshOwesNothing(c, t);
    forall n ensures GainsAtLeast(c, size, Fresh(c, t), n) {
      var q, d, gain := Rounds(c, size, Fresh(c, t), 0, n);
      GainedAtLeast(c, size, Fresh(c, t), n, q, d, gain);
    }
    EndlessGains(c, size, t);
  }

  lemma GainedAtLeast(c: Config, size: nat, p: Pacer, n: nat, q: Pacer, d: int, gain: int)
    requires c.Normal() && Owes(c, q, d) && Gains(c, size, p, q, gain) && gain >= n
    ensures GainsAtLeast(c, size, p, n)
  {}

  /** Without a burst: packets worth more than the time that pays off the cap gain without end. */
  lemma LargePacketsUnbounded(c: Config, size: nat, t: int)
    requires c.Normal() && c.Active() && TopBurst(c) == 0.0 && size * Byte() > CapTime(c) * TopBps(c)
    ensures !RateBounded(c, size, t)
  {
    assert BurstGrains(c) == 0;
    hide *;
    FreshOwesNothing(c, t);
    forall n ensures GainsAtLeast(c, size, Fresh(c, t), n) {
      var q, gain := RoundsToZero(c, size, Fresh(c, t), n);
      GainedAtLeast(c, size, Fresh(c, t), n, q, 0, gain);
    }
    EndlessGains(c, size, t);
  }

  /** What is bounded over time is bounded at one instant. */
  lemma RateBoundsBurst(c: Config, size: nat, t: int)
    requires c.Normal() && RateBounded(c, size, t)
    ensures BurstBounded(c, size, t)
  {
    var most :| RateWithin(c, size, t, most);
    TopBytesZero(c);
    hide Disciplined, PacketsUpTo, Restarts, SentBytes, TopBytes, Fresh;
    forall events | AtOnce(c, size, t, events) ensures SentBytes(events) as real <= most {
      AllAtOrdered(events, t);
      assert InTime(c, size, t, events) && End(events, t) == t;
    }
    assert BurstWithin(c, size, t, most);
  }

  /** The largest burst and one packet fit the base debt, less than one finest step over. */
  predicate FitsSteps(c: Config, size: nat)
    requires c.Normal()
  {
    Headroom(c, size) < BaseDebt(c) + Bytes(FinestStep(c))
  }

  /** A packet is worth no more than the whole microseconds in which the top rate pays off the base debt. */
  predicate FitsMicroseconds(c: Config, size: nat)
    requires c.Normal() && c.Active()
  {
    size * Byte() <= CapTime(c) * TopBps(c)
  }

  /** There is a burst, below a microsecond's worth of the top rate and below the base debt. */
  predicate TinyBurst(c: Config) {
    0.0 < TopBurst(c) < PaidOff(TopRate(c), 1) && TopBurst(c) < BaseDebt(c)
  }

  lemma ExactlyWithBurst(c: Config, size: nat, t: int)
    requires c.Normal() && c.Active() && size > 0
    requires PaidOff(TopRate(c), 1) <= TopBurst(c) || BaseDebt(c) <= TopBurst(c)
    ensures RateBounded(c, size, t) <==> FitsSteps(c, size)
  {
    var g := FinestStep(c);
    assert Bytes(g) <= 1.0 by {
      DivisorSmall(Byte(), g);
      hide FinestStep;
    }
    hide FinestStep, TopBurst, BaseDebt, Bytes, PaidOff, BurstBounded, RateWithin;
    if FitsSteps(c, size) {
      LittleRoomIsBounded(c, size, t);
      assert RateWithin(c, size, t, BaseDebt(c) + Bytes(g));
    } else if TopBurst(c) < BaseDebt(c) {
      RoomIsUnbounded(c, size, t);
    } else {
      BurstBoundedExactly(c, size, t);
      if RateBounded(c, size, t) {
        RateBoundsBurst(c, size, t);
      }
    }
  }

  lemma ExactlyWithoutBurst(c: Config, size: nat, t: int)
    requires c.Normal() && c.Active() && TopBurst(c) == 0.0
    ensures RateBounded(c, size, t) <==> FitsMicroseconds(c, size)
  {
    hide TopBurst, CapTime, TopBps, RateWithin, Byte;
    if FitsMicroseconds(c, size) {
      SmallPacketsBounded(c, size, t);
      assert RateWithin(c, size, t, Bytes(CapTime(c) * TopBps(c)));
    } else {
      LargePacketsUnbounded(c, size, t);
    }
  }

  /**
   The exact condition of rate conformance: when a disciplined sender exceeds the top rate over
   time by a bounded amount only. With a burst, it and one packet have to fit the base debt, less
   than one finest step over; without one, the packet has to be worth no more than the time that
   pays off the base debt. Otherwise there are runs that gain on the top rate for ever.
   */
  lemma RateBoundedExactly(c: Config, size: nat, t: int)
    requires c.Normal() && c.Active() && size > 0 && !TinyBurst(c)
    ensures RateBounded(c, size, t) <==> if TopBurst(c) == 0.0 then FitsMicroseconds(c, size) else FitsSteps(c, size)
  {
    BurstNonNegative(c);
    hide TopBurst, BaseDebt, PaidOff, RateBounded, FitsMicroseconds, FitsSteps;
    if TopBurst(c) == 0.0 {
      ExactlyWithoutBurst(c, size, t);
    } else {
      ExactlyWithBurst(c, size, t);
    }
  }

  /** The burst is 0 exactly with a window of 0 ms, and tiny only under a cap of less than a microsecond's worth. */
  lemma TinyBurstsAreCapped(c: Config)
    requires c.Normal() && c.Active()
    ensures TopBurst(c) == 0.0 <==> c.sendBurstIntervalMs == 0
    ensures TinyBurst(c) ==> 0 < c.maxBurstBytes && c.maxBurstBytes as real < PaidOff(TopRate(c), 1)
  {
    TopPositive(c);
    hide TopBps;
    assert PaidOff(TopRate(c), 1) == TopRate(c) / 1000000.0;
    assert TopRate(c) > 0.0;
    var window := MinReal(c.sendBurstIntervalMs as real, 1.0);
    assert window == if c.sendBurstIntervalMs == 0 then 0.0 else 1.0;
    assert TopRate(c) * window == if c.sendBurstIntervalMs == 0 then 0.0 else TopRate(c);
  }

  // ---- configurations that the loader accepts --------------------------------------------

  /** 20 Mbit/s, a debt cap of 1 ms, up to twice the rate: no bound, not even at one instant. */
  lemma ShortDebtUnbounded(size: nat, t: int)
    requires size > 0
    ensures var c := Config(true, 20000000, 5, 63000, 1, 150, 2.0);
            c.Normal() && c.Active() && !BurstBounded(c, size, t) && !RateBounded(c, size, t)
  {
    var c := Config(true, 20000000, 5, 63000, 1, 150, 2.0);
    assert TopBps(c) == 40000000;
    assert TopBurst(c) == 5000.0 && BaseDebt(c) == 2500.0;
    hide *;
    assert c.Normal() && c.Active();
    BurstBoundedExactly(c, size, t);
    if RateBounded(c, size, t) {
      RateBoundsBurst(c, size, t);
    }
  }

  /** 20 Mbit/s, a debt cap of 3 ms, up to 2.6 times the rate: bounded at every instant, not over time. */
  lemma BurstBoundedOnly(t: int)
    ensures var c := Config(true, 20000000, 5, 63000, 3, 150, 2.6);
            c.Normal() && c.Active() && BurstBounded(c, 1227, t) && !RateBounded(c, 1227, t)
  {
    var c := Config(true, 20000000, 5, 63000, 3, 150, 2.6);
    assert TopBps(c) == 52000000;
    assert TopBurst(c) == 6500.0 && BaseDebt(c) == 7500.0 && Headroom(c, 1227) == 7727.0
           && PaidOff(TopRate(c), 1) == 6.5;
    assert Bytes(FinestStep(c)) <= 1.0 by { DivisorSmall(Byte(), FinestStep(c)); }
    hide *;
    assert c.Normal() && c.Active();
    BurstBoundedExactly(c, 1227, t);
    RateBoundedExactly(c, 1227, t);
  }

  /** 8 Mbit/s without a burst window: packets of 1227 bytes need a debt cap of 2 ms. */
  lemma NoBurstWindow(debtMs: nat, t: int)
    ensures var c := Config(true, 8000000, 0, 63000, debtMs, 150, 1.0);
            c.Normal() && c.Active() && (RateBounded(c, 1227, t) <==> debtMs >= 2)
  {
    var c := Config(true, 8000000, 0, 63000, debtMs, 150, 1.0);
    assert TopBps(c) == 8000000 && TopBurst(c) == 0.0;
    assert CapGrains(c) == debtMs * 8000000000;
    assert CapTime(c) == debtMs * 1000;
    ExactlyWithoutBurst(c, 1227, t);
  }

  /** 4 kbit/s and a debt cap of 20 s: after one packet the wait is above two seconds, and once is not enough. */
  lemma WaitFallsShort(t: int, later: int)
    requires later >= t + 1000 * 2453000
    ensures var c := Config(true, 4000, 5, 63000, 20000, 150, 1.0);
            var ask := Query(0, true, t);
            var p := Step(c, Step(c, Fresh(c, t), ask), Sent(1227, true, 0, t));
            && ClearedAfter(c, Fresh(c, t), ask, false)
            && WaitUs(c, UpdateBudget(c, p, t, 0), 0, true) == 2453000
            && WaitUs(c, UpdateBudget(c, UpdateBudget(c, p, t, 0), later, 0), 0, true) > 0
  {
    assert AdjustedRateBps(Config(true, 4000, 5, 63000, 20000, 150, 1.0), 0) == 4000;
  }
}
