/**
 The send thread of src/udp/udp_manager.cpp (sendThreadMain): peek, ask the pacer, pop, send,
 and hand a refused datagram back. Other threads act whenever the thread holds no lock: they push,
 change limits, stop the queue, or reset the session. Every reading of the steady clock, every
 answer of the socket and everything the others do is arbitrary.
 */
module SendLoop {
  import opened FrameWindows
  import opened SendBooks
  import opened SendQueueSpec
  import opened SendQueueRuns
  import opened SendQueues
  import opened Subsequences
  import opened VideoGroups
  import opened Wrappers
  import P = Pacers

  /** The accounted wire bytes among the items. */
  function AccountedBytes(items: seq<QueueItem>, pacingEnabled: bool): nat {
    if |items| == 0 then 0
    else AccountedBytes(items[..|items| - 1], pacingEnabled) + AccountedCharge(items[|items| - 1], pacingEnabled)
  }

  function AccountedCharge(item: QueueItem, pacingEnabled: bool): nat {
    if item.pacingAccounted && pacingEnabled then item.wireBytes else 0
  }

  lemma AccountedSnoc(items: seq<QueueItem>, item: QueueItem, pacingEnabled: bool)
    ensures AccountedBytes(items + [item], pacingEnabled)
         == AccountedBytes(items, pacingEnabled) + AccountedCharge(item, pacingEnabled)
  {
    assert (items + [item])[..|items|] == items;
  }

  lemma {:induction false} SentSnoc(events: seq<P.Event>, e: P.Event)
    ensures P.SentBytes(events + [e]) == P.SentBytes(events) + (if e.Sent? && e.accounted then e.bytes else 0)
    decreases |events|
  {
    if |events| == 0 {
      assert events + [e] == [e] && [e][1..] == [];
    } else {
      assert (events + [e])[1..] == events[1..] + [e];
      SentSnoc(events[1..], e);
    }
  }

  /** The priorities a queue stores are the ones its lanes use. */
  lemma QueuedIsNormalized(q: SendQueue, i: nat)
    requires q.Valid() && i < |q.queue|
    ensures Normalized(q.queue[i]) == q.queue[i]
  {
    hide Balanced, Charges, SendQueue.CountersExact;
    assert q.Sound();
  }

  lemma NextInside(q: seq<QueueItem>, i: nat)
    requires IsNext(q, i)
    ensures i < |q|
  {}

  /** A popped item is in flight. */
  lemma TakenInOrder(s: RunState, item: QueueItem, rest: seq<QueueItem>)
    requires InOrder(s) && s.inflight == []
    requires exists i: nat :: IsNext(s.queue, i) && item == s.queue[i] && rest == s.queue[..i] + s.queue[i + 1..]
    ensures InOrder(s.(queue := rest, inflight := [item]))
  {
    hide InOrder;
    var i: nat :| IsNext(s.queue, i) && item == s.queue[i] && rest == s.queue[..i] + s.queue[i + 1..];
    TakeKeepsOrder(s, s.(queue := rest, inflight := [item]), i);
  }

  // ---- which frame is protected ----------------------------------------------------------

  /** The thread's current frame, how many packets of it were sent, and the queue's protected group. */
  datatype Guard = Guard(frame: nat, packets: nat, protectedGroup: nat)

  /** What happens to it: a video packet is tried, it was sent, the frame ends, the queue is cleared. */
  datatype GuardEvent = Begin(frame: nat) | Went | FrameEnd | QueueCleared

  function GuardStep(g: Guard, e: GuardEvent): Guard {
    match e
    case Begin(frame) => if g.packets == 0 then Guard(frame, 0, frame) else g
    case Went => g.(packets := g.packets + 1)
    case FrameEnd =>
      Guard(0, 0, if g.packets > 0 && g.protectedGroup == g.frame then NO_PROTECTED_GROUP else g.protectedGroup)
    case QueueCleared => g.(protectedGroup := NO_PROTECTED_GROUP)
  }

  function RunGuard(history: seq<GuardEvent>): Guard {
    if |history| == 0 then Guard(0, 0, NO_PROTECTED_GROUP)
    else GuardStep(RunGuard(Before(history)), Last(history))
  }

  function Before(history: seq<GuardEvent>): seq<GuardEvent>
    requires |history| > 0
  {
    history[..|history| - 1]
  }

  function Last(history: seq<GuardEvent>): GuardEvent
    requires |history| > 0
  {
    history[|history| - 1]
  }

  /** The history without the clears. */
  function FrameSteps(history: seq<GuardEvent>): seq<GuardEvent> {
    if |history| == 0 then []
    else FrameSteps(Before(history)) + if Last(history).QueueCleared? then [] else [Last(history)]
  }

  /** What an item that was handled means for the frame in progress. */
  function StepsFor(item: QueueItem, result: SendResult): seq<GuardEvent> {
    if item.stream != Video then []
    else if item.kind == GroupEnd then [FrameEnd]
    else [Begin(item.groupId)] + if result == Sent then [Went] else []
  }

  function StepsOf(outcomes: seq<Outcome>): seq<GuardEvent> {
    if |outcomes| == 0 then []
    else
      var o := outcomes[|outcomes| - 1];
      StepsOf(outcomes[..|outcomes| - 1]) + StepsFor(o.item, o.result)
  }

  lemma FrameStepsSnoc(history: seq<GuardEvent>, e: GuardEvent)
    ensures FrameSteps(history + [e]) == FrameSteps(history) + if e.QueueCleared? then [] else [e]
  {
    assert Before(history + [e]) == history && Last(history + [e]) == e;
  }

  lemma StepsOfSnoc(outcomes: seq<Outcome>, o: Outcome)
    ensures StepsOf(outcomes + [o]) == StepsOf(outcomes) + StepsFor(o.item, o.result)
  {
    assert (outcomes + [o])[..|outcomes|] == outcomes;
  }

  /** The thread's books, as values. */
  datatype Books = Books(outcomes: seq<Outcome>, events: seq<P.Event>, sent: seq<QueueItem>, pushed: seq<QueueItem>,
                         guards: seq<GuardEvent>, taken: multiset<QueueItem>, accepted: multiset<QueueItem>,
                         earlier: (multiset<QueueItem>, multiset<QueueItem>), running: bool)

  /** Complete but for the item in flight, the steps of its frame so far, and what the pacer is still to be told. */
  ghost predicate BooksAgree(b: Books, pacingEnabled: bool, inflight: seq<QueueItem>, steps: seq<GuardEvent>,
                           due: seq<Report>)
  {
    && Accounts(b.outcomes, inflight, b.sent, b.pushed, b.taken, b.accepted, b.earlier, b.running)
    && FrameSteps(b.guards) == StepsOf(b.outcomes) + steps
    && Told(b.events) + due == DueFor(b.outcomes, pacingEnabled)
  }

  /** A video packet has been tried, and the socket has not answered yet. */
  predicate Trying(history: seq<GuardEvent>)
    decreases |history|
  {
    |history| > 0 && (Last(history).Begin? || (Last(history).QueueCleared? && Trying(Before(history))))
  }

  /** Only what was tried is sent. */
  predicate Legal(history: seq<GuardEvent>)
    decreases |history|
  {
    |history| == 0 || (Legal(Before(history)) && (Last(history).Went? ==> Trying(Before(history))))
  }

  /** The k-th event is a frame's first packet: nothing has been sent since the last frame's end. */
  ghost predicate IsFirst(history: seq<GuardEvent>, k: int) {
    0 <= k < |history| && history[k].Begin? && RunGuard(history[..k]).packets == 0
  }

  /** The queue has been cleared since the last first packet. */
  ghost predicate ClearedSinceFirst(history: seq<GuardEvent>) {
    exists i :: 0 <= i < |history| && history[i].QueueCleared? && NoFirstAfter(history, i)
  }

  ghost predicate NoFirstAfter(history: seq<GuardEvent>, i: int) {
    forall k :: i < k < |history| ==> !IsFirst(history, k)
  }

  /** The history with one more event. */
  ghost function Noted(history: seq<GuardEvent>, e: GuardEvent): (r: seq<GuardEvent>)
    requires Legal(history) && (e.Went? ==> Trying(history))
    ensures r == history + [e] && Legal(r) && RunGuard(r) == GuardStep(RunGuard(history), e)
    ensures Trying(r) == (e.Begin? || (e.QueueCleared? && Trying(history)))
  {
    assert Before(history + [e]) == history && Last(history + [e]) == e;
    history + [e]
  }

  lemma FirstInPrefix(history: seq<GuardEvent>, n: nat, k: int)
    requires k < n <= |history|
    ensures IsFirst(history[..n], k) <==> IsFirst(history, k)
  {
    hide RunGuard;
    if 0 <= k {
      assert history[..n][..k] == history[..k];
    }
  }

  lemma ClearedSnoc(history: seq<GuardEvent>)
    requires |history| > 0
    ensures ClearedSinceFirst(history) <==>
            Last(history).QueueCleared? || (!IsFirst(history, |history| - 1) && ClearedSinceFirst(Before(history)))
  {
    var n := |history| - 1;
    forall k | k < n ensures IsFirst(Before(history), k) <==> IsFirst(history, k) {
      FirstInPrefix(history, n, k);
    }
    hide IsFirst;
    if Last(history).QueueCleared? {
      assert NoFirstAfter(history, n);
    }
    if !IsFirst(history, n) && ClearedSinceFirst(Before(history)) {
      var i :| 0 <= i < n && Before(history)[i].QueueCleared? && NoFirstAfter(Before(history), i);
      assert NoFirstAfter(history, i);
    }
    if ClearedSinceFirst(history) && !Last(history).QueueCleared? {
      var i :| 0 <= i <= n && history[i].QueueCleared? && NoFirstAfter(history, i);
      assert Before(history)[i].QueueCleared? && NoFirstAfter(Before(history), i);
    }
  }

  /**
   The frame in progress is the protected one exactly when the queue has not been cleared since
   its first packet was tried; otherwise no frame is.
   */
  lemma {:induction false} ProtectedUnlessCleared(history: seq<GuardEvent>)
    requires Legal(history)
    ensures var g := RunGuard(history);
            g.packets > 0 || Trying(history) ==>
            g.protectedGroup == if ClearedSinceFirst(history) then NO_PROTECTED_GROUP else g.frame
    decreases |history|
  {
    hide ClearedSinceFirst;
    if |history| > 0 {
      ProtectedUnlessCleared(Before(history));
      ClearedSnoc(history);
    }
  }

  /**
   A session reset in the middle of frame f: the next session's first frame g goes out without
   protection, since the thread still counts packets of f. Its end puts things right for the next.
   */
  lemma ResetLeavesUnprotected(f: nat, g: nat, h: nat)
    ensures var history := [Begin(f), Went, QueueCleared, Begin(g), Went];
            && Legal(history) && ClearedSinceFirst(history)
            && RunGuard(history) == Guard(f, 2, NO_PROTECTED_GROUP)
            && RunGuard(history + [FrameEnd, Begin(h)]) == Guard(h, 0, h)
  {
    var h2 := Noted(Noted([], Begin(f)), Went);
    var h3 := Noted(h2, QueueCleared);
    var h5 := Noted(Noted(h3, Begin(g)), Went);
    var h7 := Noted(Noted(h5, FrameEnd), Begin(h));
    assert RunGuard([]) == Guard(0, 0, NO_PROTECTED_GROUP);
    assert h5 == [Begin(f), Went, QueueCleared, Begin(g), Went] && h7 == h5 + [FrameEnd, Begin(h)];
    assert h5[2].QueueCleared? && NoFirstAfter(h5, 2) by {
      assert h5[..3] == h3;
    }
  }

  /** Until the frame ends, nothing brings the protection back. */
  lemma {:induction false} UnprotectedUntilFrameEnd(history: seq<GuardEvent>, more: seq<GuardEvent>)
    requires RunGuard(history).packets > 0
    requires forall k :: 0 <= k < |more| ==> !more[k].FrameEnd?
    ensures var g := RunGuard(history + [QueueCleared] + more);
            g.packets > 0 && g.frame == RunGuard(history).frame && g.protectedGroup == NO_PROTECTED_GROUP
    decreases |more|
  {
    var cleared := history + [QueueCleared];
    if |more| == 0 {
      assert cleared + more == cleared && Before(cleared) == history;
    } else {
      assert Before(cleared + more) == cleared + Before(more) && Last(cleared + more) == Last(more);
      UnprotectedUntilFrameEnd(history, Before(more));
    }
  }

  /** Nothing but clearing happened in between. */
  ghost predicate OnlyCleared(before: seq<GuardEvent>, after: seq<GuardEvent>) {
    before <= after && forall k :: |before| <= k < |after| ==> after[k].QueueCleared?
  }

  /** What other threads do to the queue. */
  predicate ByOthers(acts: seq<Act>) {
    forall k :: 0 <= k < |acts| ==> acts[k].Push? || acts[k].SetLimits? || acts[k].Clear?
  }

  /** Unless they clear, they take nothing from the protected frame. */
  lemma OthersSpare(w: Window, acts: seq<Act>)
    requires ByOthers(acts) && !Exposed(acts, true)
    ensures !LosesIn(w, acts, w.protectedGroup)
  {
    OthersSequenced(acts, w.protectedGroup);
    SafeUnexposed(w, acts, w.protectedGroup, true);
  }

  lemma {:induction false} OthersSequenced(acts: seq<Act>, frame: nat)
    requires ByOthers(acts)
    ensures Sequenced(acts, frame, true)
    decreases |acts|
  {
    if |acts| > 0 {
      OthersSequenced(acts[1..], frame);
    }
  }

  lemma NothingDone(w: Window)
    ensures DoAll(w, []) == w && !Exposed([], true)
  {}

  lemma {:induction false} OneMoreAct(w: Window, acts: seq<Act>, a: Act)
    requires ByOthers(acts) && ByOthers([a])
    ensures DoAll(w, acts + [a]) == Do(DoAll(w, acts), a) && ByOthers(acts + [a])
    ensures Exposed(acts + [a], true) <==> Exposed(acts, true) || a.Clear?
    decreases |acts|
  {
    hide Do;
    if |acts| == 0 {
      assert acts + [a] == [a] && [a][1..] == [];
    } else {
      assert (acts + [a])[0] == acts[0] && (acts + [a])[1..] == acts[1..] + [a];
      OneMoreAct(Do(w, acts[0]), acts[1..], a);
    }
  }

  /**
   The pacer is asked about an audio packet outside its account and lets it go. Before the pop the
   session is reset and a video packet pushed: that one is taken, and goes out unasked.
   */
  lemma UnaskedInTheGap(c: P.Config, p: P.Pacer, t: int, audio: QueueItem, video: QueueItem)
    requires c.Normal() && audio.stream == Audio && !audio.pacingAccounted
    requires video.stream == Video && video.kind == Datagram && video.pacingAccounted && video.priority == 2
    ensures var w := Window([audio], NO_PROTECTED_GROUP, 0, 0);
            && IsNext(w.queue, 0) && DoAll(w, [Clear, Push([video])]).queue == [video] && IsNext([video], 0)
    ensures var events := [P.Query(0, false, t), P.Restart(t), P.Sent(video.wireBytes, true, 0, t)];
            P.Unasked(c, p, events, false) == 1
  {
    var w := Window([audio], NO_PROTECTED_GROUP, 0, 0);
    OnePacket(w, video);
    hide Do;
    DoBoth(w, Clear, Push([video]));
    ThreeEvents(c, p, P.Query(0, false, t), P.Restart(t), P.Sent(video.wireBytes, true, 0, t));
  }

  lemma DoBoth(w: Window, a: Act, b: Act)
    ensures DoAll(w, [a, b]) == Do(Do(w, a), b)
  {
    hide Do;
    assert [a, b][1..] == [b] && [b][1..] == [];
    assert DoAll(Do(Do(w, a), b), []) == Do(Do(w, a), b);
    assert DoAll(Do(w, a), [b]) == Do(Do(w, a), b);
  }

  lemma PlainBatch(video: QueueItem)
    requires video.kind == Datagram && video.priority == 2
    ensures Backlog([], [video], NO_PROTECTED_GROUP) == [video]
  {
    NoEnd(video);
    OneNormalized(video);
    hide LastGroupEnd, AllNormalized, Trimmed;
    assert [] + [video] == [video];
  }

  lemma NoEnd(video: QueueItem)
    requires video.kind == Datagram
    ensures LastGroupEnd([video]) == None
  {
    var batch := [video];
    assert |batch[..0]| == 0;
  }

  lemma OneNormalized(item: QueueItem)
    requires item.priority == 2
    ensures AllNormalized([item]) == [item]
  {}

  lemma OnePacket(w: Window, video: QueueItem)
    requires w.maxPackets == 0 && w.maxBytes == 0
    requires video.stream == Video && video.kind == Datagram && video.priority == 2
    ensures Do(Do(w, Clear), Push([video])).queue == [video]
  {
    PlainBatch(video);
    hide Backlog, Evicted;
    EvictionStops([video], NO_PROTECTED_GROUP, 0, 0);
  }

  lemma RestartKeeps(c: P.Config, p: P.Pacer, restart: P.Event)
    requires c.Normal() && restart.Restart?
    ensures P.ClearedAfter(c, p, restart, false) == false
  {}

  lemma ThreeEvents(c: P.Config, p: P.Pacer, ask: P.Event, restart: P.Event, send: P.Event)
    requires c.Normal() && ask.Query? && !ask.accounted && restart.Restart? && send.Sent? && send.accounted
    ensures P.Unasked(c, p, [ask, restart, send], false) == 1
  {
    hide P.Step;
    assert [ask, restart, send][1..] == [restart, send] && [restart, send][1..] == [send] && [send][1..] == [];
    assert !P.ClearedAfter(c, p, ask, false);
    var q := P.Step(c, p, ask);
    var r := P.Step(c, q, restart);
    hide P.ClearedAfter;
    assert P.Unasked(c, P.Step(c, r, send), [], P.ClearedAfter(c, r, send, false)) == 0;
    assert P.Unasked(c, r, [send], false) == 1;
    assert P.Unasked(c, q, [restart, send], false) == 1 by { RestartKeeps(c, q, restart); }
  }

  lemma StepBook(b: Books, c: Books, pacingEnabled: bool, inflight: seq<QueueItem>, steps: seq<GuardEvent>,
                 e: GuardEvent, more: seq<GuardEvent>)
    requires BooksAgree(b, pacingEnabled, inflight, steps, []) && c == b.(guards := b.guards + [e]) && !e.QueueCleared?
    requires more == steps + [e]
    ensures BooksAgree(c, pacingEnabled, inflight, more, [])
  {
    hide FrameSteps, StepsOf, Told, DueFor, Accounts;
    FrameStepsSnoc(b.guards, e);
  }

  lemma ClearsBook(b: Books, c: Books, pacingEnabled: bool, inflight: seq<QueueItem>, steps: seq<GuardEvent>,
                   due: seq<Report>)
    requires BooksAgree(b, pacingEnabled, inflight, steps, due) && c == b.(guards := b.guards + [QueueCleared])
    ensures BooksAgree(c, pacingEnabled, inflight, steps, due)
  {
    hide FrameSteps, StepsOf, Told, DueFor, Accounts;
    FrameStepsSnoc(b.guards, QueueCleared);
  }

  lemma PushBook(b: Books, c: Books, pacingEnabled: bool, inflight: seq<QueueItem>, steps: seq<GuardEvent>,
                 due: seq<Report>, items: seq<QueueItem>)
    requires BooksAgree(b, pacingEnabled, inflight, steps, due)
    requires c == b.(pushed := b.pushed + items, accepted := b.accepted + multiset(items))
    ensures BooksAgree(c, pacingEnabled, inflight, steps, due)
  {
    hide FrameSteps, StepsOf, Told, DueFor;
  }

  lemma HaltBook(b: Books, c: Books, pacingEnabled: bool, inflight: seq<QueueItem>, steps: seq<GuardEvent>,
                 due: seq<Report>)
    requires BooksAgree(b, pacingEnabled, inflight, steps, due) && c == b.(running := false)
    ensures BooksAgree(c, pacingEnabled, inflight, steps, due)
  {
    hide FrameSteps, StepsOf, Told, DueFor;
    forall k | 0 <= k < |c.outcomes| ensures HandedBack(c.outcomes[k], false) {
      assert HandedBack(b.outcomes[k], b.running);
    }
  }

  /** An outcome is booked: its item is in flight no longer, its steps are done, and the pacer is to hear of it. */
  lemma OutcomeBook(b: Books, c: Books, pacingEnabled: bool, o: Outcome)
    requires BooksAgree(b, pacingEnabled, [o.item], StepsFor(o.item, o.result), []) && HandedBack(o, b.running)
    requires c == b.(outcomes := b.outcomes + [o], sent := b.sent + (if o.result == Sent then [o.item] else []),
                     accepted := b.accepted + if o.back then multiset{o.item} else multiset{})
    ensures BooksAgree(c, pacingEnabled, [], [], ReportFor(o, pacingEnabled))
  {
    hide FrameSteps, StepsOf, Told, DueFor, SentOf, ItemsOf, BackOf, StepsFor, HandedBack;
    OutcomeSnoc(b.outcomes, o, pacingEnabled);
    StepsOfSnoc(b.outcomes, o);
  }

  lemma NothingPushed(q: seq<QueueItem>, items: seq<QueueItem>)
    ensures Subseq(q, q + []) && (items == [] ==> AllNormalized(items) == [])
  {
    SubseqSelf(q);
    assert q + [] == q;
  }

  lemma BagIs(q: seq<QueueItem>, accepted: multiset<QueueItem>)
    ensures Bag(q) == multiset(q) && accepted + Bag([]) == accepted
  {}

  lemma StepsForDatagram(item: QueueItem, result: SendResult)
    requires item.kind == Datagram
    ensures StepsFor(item, result)
         == if item.stream != Video then [] else if result == Sent then [Begin(item.groupId), Went]
            else [Begin(item.groupId)]
  {}

  lemma NoneAdded(sent: seq<QueueItem>, accepted: multiset<QueueItem>)
    ensures sent + [] == sent && accepted + multiset{} == accepted
  {}

  lemma TakeBook(b: Books, c: Books, pacingEnabled: bool, item: QueueItem)
    requires BooksAgree(b, pacingEnabled, [], [], []) && c == b.(taken := b.taken + multiset{item})
    ensures BooksAgree(c, pacingEnabled, [item], [], [])
  {
    hide FrameSteps, StepsOf, Told, DueFor;
  }

  /** A call into the pacer that reports nothing. */
  lemma QuietBook(b: Books, c: Books, pacingEnabled: bool, inflight: seq<QueueItem>, steps: seq<GuardEvent>,
                  due: seq<Report>, e: P.Event)
    requires BooksAgree(b, pacingEnabled, inflight, steps, due) && c == b.(events := b.events + [e])
    requires ReportIn(e) == []
    ensures BooksAgree(c, pacingEnabled, inflight, steps, due)
  {
    hide FrameSteps, StepsOf, Told, DueFor, Accounts;
    ToldSnoc(b.events, e);
    assert Told(b.events) + [] == Told(b.events);
  }

  /** The pacer has heard of it. */
  lemma ReportBook(b: Books, c: Books, pacingEnabled: bool, due: seq<Report>)
    requires BooksAgree(b, pacingEnabled, [], [], due) && c == b.(events := c.events)
    requires Told(c.events) == Told(b.events) + due
    ensures BooksAgree(c, pacingEnabled, [], [], [])
  {
    hide FrameSteps, StepsOf, Told, DueFor, Accounts;
  }

  /** Why a turn took no further item. */
  datatype RoundEnd = NothingThere | PacerWaits(accounted: bool, wait: int) | SocketRefused | BatchFull

  class SendThread {
    const queue: SendQueue
    const pacer: P.WebRtcLikePacer
    const config: P.Config
    const pacingEnabled: bool
    const maxBatch: nat
    var clock: int
    var currentFrame: nat
    var currentPackets: nat

    // The calls into the pacer since `start`, the items accepted, the items sent, and what befell
    // the frame in progress.
    ghost const start: P.Pacer
    ghost var events: seq<P.Event>
    ghost var pushed: seq<QueueItem>
    ghost var sent: seq<QueueItem>
    ghost var guards: seq<GuardEvent>
    // What became of each item taken, in order, and what the queue had given out and taken in before.
    ghost var outcomes: seq<Outcome>
    ghost const earlier: (multiset<QueueItem>, multiset<QueueItem>)

    /** The thread starts by resetting the pacer. */
    constructor (queue: SendQueue, pacer: P.WebRtcLikePacer, pacingEnabled: bool, maxBatch: nat, now: int)
      requires queue.Valid() && queue.queue == [] && pacer.config.Normal() && queue.protectedGroup == NO_PROTECTED_GROUP
      modifies pacer
      ensures this.queue == queue && this.pacer == pacer && config == pacer.config == old(pacer.config)
      ensures Valid() && events == [] && pushed == [] && sent == [] && guards == [] && start == P.Fresh(config, now)
      ensures outcomes == [] && earlier == (queue.taken, queue.accepted)
    {
      this.queue, this.pacer, this.config := queue, pacer, pacer.config;
      this.pacingEnabled, this.maxBatch, this.clock := pacingEnabled, maxBatch, now;
      currentFrame, currentPackets := 0, 0;
      start, events, pushed, sent, guards := P.Fresh(pacer.config, now), [], [], [], [];
      outcomes, earlier := [], (queue.taken, queue.accepted);
      new;
      pacer.Reset(now);
      RunKeepsOrder([RunState([], [], [], [])], 0);
    }

    /** The history of pacer calls: in time order, and explaining the pacer's state. */
    ghost predicate Paced()
      reads `clock, `events, `sent, pacer
    {
      && config.Normal() && pacer.config == config
      && pacer.State() == P.RunPacer(config, start, events)
      && P.Ordered(events, start.last)
      && start.last <= clock && (forall i :: 0 <= i < |events| ==> events[i].now <= clock)
      && P.SentBytes(events) == AccountedBytes(sent, pacingEnabled)
    }

    /** The pacer's last answer still allows an accounted packet. */
    ghost predicate Cleared()
      reads `events
    {
      config.Normal() && P.ClearedAtEnd(config, start, events, false)
    }

    /** Every lane is sent in push order. */
    ghost predicate Lined(inflight: seq<QueueItem>)
      reads `pushed, `sent, queue`queue
    {
      InOrder(RunState(queue.queue, inflight, pushed, sent))
    }

    /** The history explains which frame is in progress and, while the queue runs, which is protected. */
    ghost predicate Guarded()
      reads `currentFrame, `currentPackets, `guards, queue`running, queue`protectedGroup
    {
      && Legal(guards)
      && (queue.running ==> RunGuard(guards) == Guard(currentFrame, currentPackets, queue.protectedGroup))
    }

    ghost predicate Valid()
      reads this, queue, pacer
    {
      queue.Valid() && Paced() && Lined([]) && Guarded() && Booked([], [], [])
    }

    ghost function TheBooks(): Books
      reads `outcomes, `events, `sent, `pushed, `guards, queue`taken, queue`accepted, queue`running
    {
      Books(outcomes, events, sent, pushed, guards, queue.taken, queue.accepted, earlier, queue.running)
    }

    /** The books are complete but for what is listed. */
    ghost predicate Booked(inflight: seq<QueueItem>, steps: seq<GuardEvent>, due: seq<Report>)
      reads `outcomes, `events, `sent, `pushed, `guards, queue`taken, queue`accepted, queue`running
    {
      BooksAgree(TheBooks(), pacingEnabled, inflight, steps, due)
    }

    /** The frame in progress is protected exactly when the queue has not been cleared since its first packet. */
    lemma FrameIsProtected(item: QueueItem)
      requires Guarded() && queue.running && currentPackets > 0
      requires item.stream == Video && item.groupId == currentFrame < NO_PROTECTED_GROUP
      ensures IsProtected(item, queue.protectedGroup) <==> !ClearedSinceFirst(guards)
    {
      hide RunGuard, ClearedSinceFirst;
      ProtectedUnlessCleared(guards);
    }

    /** The accounted packets sent so far that the pacer was not asked about. */
    ghost function Unasked(): nat
      reads `events
    {
      if config.Normal() then P.Unasked(config, start, events, false) else 0
    }

    predicate Accounted(item: QueueItem) {
      item.pacingAccounted && pacingEnabled
    }

    ghost function Now(): Window
      reads queue`queue, queue`protectedGroup, queue`maxPackets, queue`maxBytes
    {
      Window(queue.queue, queue.protectedGroup, queue.maxPackets, queue.maxBytes)
    }

    method Tick()
      requires Paced()
      modifies `clock
      ensures Paced() && clock >= old(clock)
    {
      hide P.RunPacer, P.Unasked, P.SentBytes, AccountedBytes;
      var now :| now >= clock;
      clock := now;
    }

    /** Adds one pacer call, made now, to the history. */
    ghost method Record(e: P.Event, before: P.Pacer, item: seq<QueueItem>)
      requires config.Normal() && pacer.config == config && pacer.State() == P.Step(config, before, e)
      requires before == P.RunPacer(config, start, events)
      requires P.Ordered(events, start.last) && start.last <= clock
      requires forall i :: 0 <= i < |events| ==> events[i].now <= clock
      requires P.SentBytes(events) == AccountedBytes(sent, pacingEnabled)
      requires e.now == clock
      requires |item| == (if e.Sent? then 1 else 0)
      requires e.Sent? ==> e.bytes == item[0].wireBytes && e.accounted == (item[0].pacingAccounted && pacingEnabled)
      modifies `events, `sent
      ensures Paced() && events == old(events) + [e] && sent == old(sent) + item
      ensures Cleared() == P.ClearedAfter(config, before, e, old(Cleared()))
      ensures Unasked() == old(Unasked()) + if P.IsUnasked(e, old(Cleared())) then 1 else 0
      ensures Told(events) == Told(old(events)) + ReportIn(e)
    {
      hide P.Step, P.RunPacer, P.Unasked, P.ClearedAtEnd, P.ClearedAfter, P.SentBytes, AccountedBytes, Told, ReportIn;
      ToldSnoc(events, e);
      P.ExtendRun(config, start, events, false, e);
      SentSnoc(events, e);
      if |item| == 1 {
        assert item == [item[0]];
        AccountedSnoc(sent, item[0], pacingEnabled);
      } else {
        assert sent + item == sent;
      }
      events, sent := events + [e], sent + item;
    }

    /** update_pacer_stats. */
    method UpdatePacerStats(queueBytes: nat)
      requires Paced()
      modifies `clock, `events, `sent, pacer
      ensures Paced() && sent == old(sent) && Cleared() == old(Cleared()) && Unasked() == old(Unasked())
      ensures clock >= old(clock) && Told(events) == Told(old(events))
      ensures |events| == |old(events)| + 1 && events[..|old(events)|] == old(events)
    {
      hide Told, P.RunPacer, P.Unasked, P.ClearedAtEnd, P.SentBytes, P.UpdateBudget, AccountedBytes;
      Tick();
      ghost var before := pacer.State();
      var stats := pacer.GetStats(queueBytes, clock);
      Record(P.Stats(queueBytes, clock), before, []);
    }

    /** The event is a question about such an item, and this the pacer's answer to it. */
    ghost predicate IsAnswer(e: P.Event, before: P.Pacer, accounted: bool, wait: int) {
      && e.Query? && e.accounted == accounted && config.Normal()
      && wait == P.WaitUs(config, P.Step(config, before, e), e.queueBytes, accounted)
    }

    /** Asks the pacer how long the item with this flag has to wait. */
    method Ask(accounted: bool, queueBytes: nat) returns (wait: int)
      requires Paced()
      modifies `clock, `events, `sent, pacer
      ensures Paced() && sent == old(sent) && Unasked() == old(Unasked()) && clock >= old(clock)
      ensures wait >= 0 && (accounted && wait == 0 ==> Cleared()) && Told(events) == Told(old(events))
      ensures |events| == |old(events)| + 2 && events[..|old(events)|] == old(events)
      ensures IsAnswer(events[|old(events)|], old(pacer.State()), accounted, wait)
    {
      hide Told, P.RunPacer, P.Unasked, P.ClearedAtEnd, P.SentBytes, P.UpdateBudget, P.WaitUs, AccountedBytes;
      Tick();
      ghost var before := pacer.State();
      wait := pacer.TimeUntilNextSend(queueBytes, accounted, clock);
      P.WaitNonNegative(config, pacer.State(), queueBytes, accounted);
      Record(P.Query(queueBytes, accounted, clock), before, []);
      UpdatePacerStats(queueBytes);
    }

    /** onPacketSent: a packet counts as unasked exactly if no answer of 0 allows it. */
    method ReportSent(item: QueueItem, queueBytes: nat)
      requires Paced()
      modifies `clock, `events, `sent, pacer
      ensures Paced() && sent == old(sent) + [item] && clock >= old(clock)
      ensures Unasked() == old(Unasked()) + if Accounted(item) && !old(Cleared()) then 1 else 0
      ensures |events| == |old(events)| + 2 && events[..|old(events)|] == old(events)
      ensures events[|old(events)|].Sent? && events[|old(events)|].bytes == item.wireBytes
              && events[|old(events)|].accounted == Accounted(item)
      ensures Told(events) == Told(old(events)) + [Charged(item.wireBytes, Accounted(item))]
    {
      hide Told, P.RunPacer, P.Unasked, P.ClearedAtEnd, P.SentBytes, P.UpdateBudget, P.Charge, AccountedBytes;
      Tick();
      ghost var before := pacer.State();
      pacer.OnPacketSent(item.wireBytes, Accounted(item), queueBytes, clock);
      Record(P.Sent(item.wireBytes, Accounted(item), queueBytes, clock), before, [item]);
      UpdatePacerStats(queueBytes);
    }

    method ReportBlocked(item: QueueItem, queueBytes: nat)
      requires Paced()
      modifies `clock, `events, `sent, pacer
      ensures Paced() && sent == old(sent) && Unasked() == old(Unasked()) && clock >= old(clock)
      ensures |events| == |old(events)| + 2 && events[..|old(events)|] == old(events)
      ensures events[|old(events)|].Blocked? && events[|old(events)|].bytes == item.wireBytes
      ensures Told(events) == Told(old(events)) + [Refused(item.wireBytes)]
    {
      hide Told, P.RunPacer, P.Unasked, P.ClearedAtEnd, P.SentBytes, P.UpdateBudget, P.BackOff, AccountedBytes;
      Tick();
      ghost var before := pacer.State();
      pacer.OnBlocked(item.wireBytes, queueBytes, clock);
      Record(P.Blocked(item.wireBytes, queueBytes, clock), before, []);
      UpdatePacerStats(queueBytes);
    }

    /**
     Other threads, for as long as the send thread holds no lock: any number of batches pushed,
     limits changed, the queue stopped, or the session reset, which clears the queue and restarts
     the pacer. While the queue runs they do what the listed sections do; unless one of them is a
     clear, the protected frame loses nothing.
     */
    method Interference(ghost inflight: seq<QueueItem>, ghost steps: seq<GuardEvent>, ghost due: seq<Report>)
      returns (ghost acts: seq<Act>)
      requires queue.Valid() && Paced() && Lined(inflight) && Guarded() && Booked(inflight, steps, due)
      modifies `clock, `events, `sent, `pushed, `guards, pacer, queue
      ensures queue.Valid() && Paced() && Lined(inflight) && Guarded() && Booked(inflight, steps, due)
      ensures queue.taken == old(queue.taken) && sent == old(sent) && clock >= old(clock)
      ensures Cleared() == old(Cleared()) && Unasked() == old(Unasked())
      ensures OnlyCleared(old(guards), guards) && Trying(guards) == Trying(old(guards))
      ensures queue.running ==> old(queue.running) && Now() == DoAll(old(Now()), acts)
      ensures ByOthers(acts) && (guards == old(guards) <==> !Exposed(acts, true))
      ensures guards == old(guards) ==> !LosesIn(old(Now()), acts, old(queue.protectedGroup))
    {
      hide SendQueue.Valid, SendThread.Paced, SendThread.Lined, SendThread.Guarded, SendThread.Cleared;
      hide SendThread.Unasked;
      hide SendThread.Booked, Trying, DoAll, Do, Exposed, LosesIn;
      var turns :| turns >= 0;
      acts := [];
      NothingDone(Now());
      for turn := 0 to turns
        invariant queue.Valid() && Paced() && Lined(inflight) && Guarded() && Booked(inflight, steps, due)
        invariant queue.taken == old(queue.taken) && sent == old(sent) && clock >= old(clock)
        invariant Cleared() == old(Cleared()) && Unasked() == old(Unasked())
        invariant OnlyCleared(old(guards), guards) && Trying(guards) == Trying(old(guards))
        invariant queue.running ==> old(queue.running) && Now() == DoAll(old(Now()), acts)
        invariant ByOthers(acts) && (guards == old(guards) <==> !Exposed(acts, true))
      {
        var choice: int := *;
        ghost var act: Act;
        if choice == 0 {
          act := ChangeLimits(inflight, steps, due);
        } else if choice == 1 {
          Halt(inflight, steps, due);
          continue;
        } else if choice == 2 {
          act := ResetQueue(inflight, steps, due);
        } else if choice == 3 {
          RestartPacer(inflight, steps, due);
          continue;
        } else {
          act := Producer(inflight, steps, due);
        }
        OneMoreAct(old(Now()), acts, act);
        acts := acts + [act];
      }
      if !Exposed(acts, true) {
        OthersSpare(old(Now()), acts);
      }
    }

    /** The queue's part of a session reset. */
    method ResetQueue(ghost inflight: seq<QueueItem>, ghost steps: seq<GuardEvent>, ghost due: seq<Report>)
      returns (ghost act: Act)
      requires queue.Valid() && Lined(inflight) && Guarded() && Booked(inflight, steps, due)
      modifies `guards, queue
      ensures queue.Valid() && Lined(inflight) && Guarded() && Booked(inflight, steps, due) && queue.queue == []
      ensures queue.taken == old(queue.taken) && queue.running == old(queue.running)
      ensures guards == old(guards) + [QueueCleared] && Trying(guards) == Trying(old(guards))
      ensures act == Clear && Now() == Do(old(Now()), act)
    {
      hide SendQueue.Valid, InOrder, Subseq, BooksAgree, RunGuard, Trying, Legal, Before, Last;
      ghost var b := TheBooks();
      ghost var s := RunState(queue.queue, inflight, pushed, sent);
      SubseqNothing(queue.queue + []);
      queue.Clear();
      ProduceKeepsOrder(s, RunState(queue.queue, inflight, pushed, sent), []);
      guards := Noted(guards, QueueCleared);
      ClearsBook(b, TheBooks(), pacingEnabled, inflight, steps, due);
      act := Clear;
    }

    /** The pacer's part of a session reset; a permission given before it stays good. */
    method RestartPacer(ghost inflight: seq<QueueItem>, ghost steps: seq<GuardEvent>, ghost due: seq<Report>)
      requires Paced() && Booked(inflight, steps, due)
      modifies `clock, `events, `sent, pacer
      ensures Booked(inflight, steps, due)
      ensures Paced() && sent == old(sent) && clock >= old(clock)
      ensures Cleared() == old(Cleared()) && Unasked() == old(Unasked())
      ensures events == old(events) + [P.Restart(clock)]
    {
      hide Told, BooksAgree, P.RunPacer, P.Unasked, P.ClearedAtEnd, P.SentBytes, P.UpdateBudget, AccountedBytes;
      Tick();
      ghost var before := pacer.State();
      pacer.Reset(clock);
      ghost var b := TheBooks();
      Record(P.Restart(clock), before, []);
      QuietBook(b, TheBooks(), pacingEnabled, inflight, steps, due, P.Restart(clock));
    }

    /** A producer's batch. */
    method Producer(ghost inflight: seq<QueueItem>, ghost steps: seq<GuardEvent>, ghost due: seq<Report>)
      returns (ghost act: Act)
      requires queue.Valid() && Lined(inflight) && Guarded() && Booked(inflight, steps, due)
      modifies `pushed, queue
      ensures queue.Valid() && Lined(inflight) && Guarded() && Booked(inflight, steps, due)
      ensures queue.taken == old(queue.taken) && queue.running == old(queue.running)
      ensures act.Push? && (queue.running ==> Now() == Do(old(Now()), act))
      ensures pushed == old(pushed) + if queue.running then AllNormalized(act.items) else []
    {
      hide SendQueue.Valid, InOrder, BooksAgree, AllNormalized, Bag, Do;
      var items: seq<QueueItem> := *;
      act := Push(items);
      ghost var s, b := RunState(queue.queue, inflight, pushed, sent), TheBooks();
      ghost var w := Now();
      ghost var taken := if queue.running then AllNormalized(items) else [];
      PushAll(items);
      pushed := pushed + taken;
      BagIs(AllNormalized(items), b.accepted);
      PushBook(b, TheBooks(), pacingEnabled, inflight, steps, due, taken);
      ProduceKeepsOrder(s, RunState(queue.queue, inflight, pushed, sent), taken);
    }

    method PushAll(items: seq<QueueItem>)
      requires queue.Valid()
      modifies queue
      ensures queue.Valid()
      ensures queue.taken == old(queue.taken) && queue.running == old(queue.running)
      ensures queue.protectedGroup == old(queue.protectedGroup)
      ensures queue.accepted == if queue.running then old(queue.accepted) + Bag(AllNormalized(items))
                                else old(queue.accepted)
      ensures queue.running ==> Now() == Do(old(Now()), Push(items))
      ensures Subseq(queue.queue, old(queue.queue) + if queue.running then AllNormalized(items) else [])
    {
      hide SendQueue.Valid, Subseq, Collect, WithinLimits, ProtectedItems, Backlog, Enforced, Evicted, Bag;
      ghost var before := queue.queue;
      queue.PushBatch(items);
      if queue.running && items != [] {
        PushOutcome(before, items, queue.queue, queue.protectedGroup, queue.maxPackets, queue.maxBytes);
      } else {
        NothingPushed(before, items);
      }
    }

    method ChangeLimits(ghost inflight: seq<QueueItem>, ghost steps: seq<GuardEvent>, ghost due: seq<Report>)
      returns (ghost act: Act)
      requires queue.Valid() && Lined(inflight) && Booked(inflight, steps, due)
      modifies queue`maxPackets, queue`maxBytes
      ensures queue.Valid() && Lined(inflight) && Booked(inflight, steps, due)
      ensures act.SetLimits? && Now() == Do(old(Now()), act)
    {
      hide SendQueue.Valid, InOrder, BooksAgree;
      var packets: nat, bytes: nat :| packets >= 0 && bytes >= 0;
      queue.SetLimits(packets, bytes);
      act := SetLimits(packets, bytes);
    }

    method Halt(ghost inflight: seq<QueueItem>, ghost steps: seq<GuardEvent>, ghost due: seq<Report>)
      requires queue.Valid() && Lined(inflight) && Guarded() && Booked(inflight, steps, due)
      modifies queue
      ensures queue.taken == old(queue.taken)
      ensures queue.Valid() && Lined(inflight) && Guarded() && Booked(inflight, steps, due) && !queue.running
    {
      hide SendQueue.Valid, InOrder, Subseq, Legal, RunGuard, BooksAgree;
      ghost var b := TheBooks();
      ghost var s := RunState(queue.queue, inflight, pushed, sent);
      SubseqNothing(queue.queue + []);
      queue.Stop();
      HaltBook(b, TheBooks(), pacingEnabled, inflight, steps, due);
      ProduceKeepsOrder(s, RunState(queue.queue, inflight, pushed, sent), []);
    }

    /** flush_frame: the end of a frame of which something was sent lifts its protection. */
    method FlushFrame()
      requires queue.Valid() && Guarded()
      modifies `currentFrame, `currentPackets, `guards, queue`protectedGroup
      ensures queue.Valid() && Guarded() && currentFrame == 0 && currentPackets == 0
      ensures guards == old(guards) + [FrameEnd]
      ensures queue.protectedGroup
           == if old(currentPackets) > 0 && old(queue.protectedGroup) == old(currentFrame) then NO_PROTECTED_GROUP
              else old(queue.protectedGroup)
    {
      hide SendQueue.Valid, RunGuard, Trying, Legal, Before, Last;
      if currentPackets > 0 {
        queue.ClearProtectedVideoGroup(currentFrame);
      }
      currentFrame, currentPackets := 0, 0;
      guards := Noted(guards, FrameEnd);
    }

    /** send_datagram: the first packet of a frame protects it; the result is the socket's answer. */
    method SendDatagram(item: QueueItem, answer: SendResult) returns (result: SendResult)
      requires queue.Valid() && Paced() && Lined([item]) && Guarded() && Booked([item], [], [])
      requires item.kind == Datagram
      modifies `clock, `currentFrame, `currentPackets, `events, `sent, `pushed, `guards, pacer, queue
      ensures queue.Valid() && Paced() && Lined([item]) && Guarded() && Booked([item], StepsFor(item, result), [])
      ensures result == answer && queue.taken == old(queue.taken)
      ensures sent == old(sent) && clock >= old(clock)
      ensures Cleared() == old(Cleared()) && Unasked() == old(Unasked())
      ensures currentPackets == old(currentPackets) + (if item.stream == Video && result == Sent then 1 else 0)
      ensures currentFrame
           == if item.stream == Video && old(currentPackets) == 0 then item.groupId else old(currentFrame)
    {
      hide SendQueue.Valid, SendThread.Paced, SendThread.Lined, SendThread.Guarded, SendThread.Cleared;
      hide SendThread.Unasked, SendThread.Booked, Trying;
      ghost var steps: seq<GuardEvent> := [];
      if item.stream == Video {
        TryPacket(item);
        steps := [Begin(item.groupId)];
      }
      ghost var acts := Interference([item], steps, []);
      result := answer;
      StepsForDatagram(item, result);
      if item.stream == Video && result == Sent {
        CountPacket(item);
      }
    }

    method TryPacket(item: QueueItem)
      requires queue.Valid() && Guarded() && Booked([item], [], [])
      modifies `currentFrame, `guards, queue`protectedGroup
      ensures queue.Valid() && Guarded() && Trying(guards) && Booked([item], [Begin(item.groupId)], [])
      ensures currentFrame == if currentPackets == 0 then item.groupId else old(currentFrame)
    {
      hide SendQueue.Valid, RunGuard, Trying, Legal, Before, Last, BooksAgree;
      ghost var b := TheBooks();
      if currentPackets == 0 {
        currentFrame := item.groupId;
        queue.SetProtectedVideoGroup(item.groupId);
      }
      guards := Noted(guards, Begin(item.groupId));
      StepBook(b, TheBooks(), pacingEnabled, [item], [], Begin(item.groupId), [Begin(item.groupId)]);
    }

    method CountPacket(item: QueueItem)
      requires Guarded() && Trying(guards) && Booked([item], [Begin(item.groupId)], [])
      modifies `currentPackets, `guards
      ensures Guarded() && currentPackets == old(currentPackets) + 1
      ensures Booked([item], [Begin(item.groupId), Went], [])
    {
      hide SendQueue.Valid, RunGuard, Trying, Legal, Before, Last, BooksAgree;
      ghost var b := TheBooks();
      currentPackets := currentPackets + 1;
      guards := Noted(guards, Went);
      StepBook(b, TheBooks(), pacingEnabled, [item], [Begin(item.groupId)], Went, [Begin(item.groupId), Went]);
    }

    /** handle_queue_item: a group's end is never sent, and ends the frame if it is a video group's. */
    method HandleItem(item: QueueItem, answer: SendResult) returns (result: SendResult)
      requires queue.Valid() && Paced() && Lined([item]) && Guarded() && Booked([item], [], [])
      modifies `clock, `currentFrame, `currentPackets, `events, `sent, `pushed, `guards, pacer, queue
      ensures queue.Valid() && Paced() && Lined([item]) && Guarded() && Booked([item], StepsFor(item, result), [])
      ensures queue.taken == old(queue.taken) && sent == old(sent) && clock >= old(clock)
      ensures Cleared() == old(Cleared()) && Unasked() == old(Unasked())
      ensures result == Answered(item, answer)
      ensures item.kind == GroupEnd && item.stream == Video ==> currentFrame == 0 && currentPackets == 0
      ensures item.stream != Video ==> currentFrame == old(currentFrame) && currentPackets == old(currentPackets)
    {
      hide SendQueue.Valid, SendThread.Paced, SendThread.Guarded, SendThread.Cleared, SendThread.Unasked, InOrder;
      hide BooksAgree;
      if item.kind == GroupEnd {
        if item.stream == Video {
          ghost var b := TheBooks();
          FlushFrame();
          StepBook(b, TheBooks(), pacingEnabled, [item], [], FrameEnd, [FrameEnd]);
        }
        return DroppedBySocket;
      }
      result := SendDatagram(item, answer);
    }

    /** Reads the queue's size; what it reads may be out of date when it is used. */
    method ReadStatus(ghost inflight: seq<QueueItem>, ghost steps: seq<GuardEvent>, ghost due: seq<Report>)
      returns (queueBytes: nat)
      requires queue.Valid() && Paced() && Lined(inflight) && Guarded() && Booked(inflight, steps, due)
      modifies `clock, `events, `sent, `pushed, `guards, pacer, queue
      ensures queue.Valid() && Paced() && Lined(inflight) && Guarded() && Booked(inflight, steps, due)
      ensures queue.taken == old(queue.taken) && sent == old(sent) && clock >= old(clock)
      ensures Cleared() == old(Cleared()) && Unasked() == old(Unasked())
    {
      hide SendQueue.Valid, SendThread.Paced, SendThread.Lined, SendThread.Guarded, SendThread.Cleared;
      hide SendThread.Unasked, SendThread.Booked;
      ghost var before := Interference(inflight, steps, due);
      queueBytes := queue.queueBytes;
      ghost var after := Interference(inflight, steps, due);
    }

    /** The item has its outcome; what the pacer is to hear of it is still due. */
    ghost predicate Settled(was: seq<Outcome>, item: QueueItem, result: SendResult)
      reads `outcomes
    {
      |outcomes| == |was| + 1 && outcomes[..|was|] == was
      && outcomes[|was|].item == item && outcomes[|was|].result == result
    }

    /** A refused datagram goes back to the front, unless the queue has been stopped. */
    method HandBack(item: QueueItem)
      requires queue.Valid() && Lined([item]) && Guarded() && Normalized(item) == item
      requires Booked([item], StepsFor(item, WouldBlock), [])
      modifies queue, `outcomes
      ensures queue.Valid() && Lined([]) && Guarded() && Booked([], [], [Refused(item.wireBytes)])
      ensures queue.queue == if queue.running then [item] + old(queue.queue) else old(queue.queue)
      ensures queue.running == old(queue.running) && queue.taken == old(queue.taken)
      ensures Settled(old(outcomes), item, WouldBlock)
    {
      hide SendQueue.Valid, InOrder, BooksAgree, StepsFor;
      ghost var b := TheBooks();
      ghost var s := RunState(queue.queue, [item], pushed, sent);
      queue.RequeueFront(item);
      FinishKeepsOrder(s, RunState(queue.queue, [], pushed, sent),
                       if queue.running then WouldBlock else DroppedBySocket);
      ghost var o := Outcome(item, WouldBlock, queue.running);
      outcomes := outcomes + [o];
      NoneAdded(b.sent, b.accepted);
      OutcomeBook(b, TheBooks(), pacingEnabled, o);
    }

    /** Books a sent packet. */
    method Charge(item: QueueItem, queueBytes: nat)
      requires queue.Valid() && Paced() && Lined([item]) && Guarded() && Booked([item], StepsFor(item, Sent), [])
      modifies `clock, `events, `sent, `outcomes, pacer
      ensures Valid() && clock >= old(clock) && sent == old(sent) + [item]
      ensures Unasked() == old(Unasked()) + if Accounted(item) && !old(Cleared()) then 1 else 0
      ensures |events| >= 2 && events[|events| - 2].Sent? && events[|events| - 2].bytes == item.wireBytes
              && events[|events| - 2].accounted == Accounted(item)
      ensures Settled(old(outcomes), item, Sent)
    {
      hide SendQueue.Valid, SendThread.Paced, SendThread.Cleared, SendThread.Unasked, InOrder, BooksAgree, Told;
      hide StepsFor;
      ghost var b := TheBooks();
      ghost var s := RunState(queue.queue, [item], pushed, sent);
      ReportSent(item, queueBytes);
      FinishKeepsOrder(s, RunState(queue.queue, [], pushed, sent), Sent);
      ghost var o := Outcome(item, Sent, false);
      outcomes := outcomes + [o];
      NoneAdded(b.sent, b.accepted);
      OutcomeBook(b, b.(outcomes := outcomes, sent := sent), pacingEnabled, o);
      ReportBook(b.(outcomes := outcomes, sent := sent), TheBooks(), pacingEnabled, ReportFor(o, pacingEnabled));
    }

    method Forget(ghost item: QueueItem)
      requires Lined([item]) && Booked([item], StepsFor(item, DroppedBySocket), [])
      modifies `outcomes
      ensures Lined([]) && Booked([], [], []) && Settled(old(outcomes), item, DroppedBySocket)
    {
      hide InOrder, BooksAgree, StepsFor;
      ghost var b := TheBooks();
      FinishKeepsOrder(RunState(queue.queue, [item], pushed, sent), RunState(queue.queue, [], pushed, sent),
                       DroppedBySocket);
      ghost var o := Outcome(item, DroppedBySocket, false);
      outcomes := outcomes + [o];
      NoneAdded(b.sent, b.accepted);
      OutcomeBook(b, TheBooks(), pacingEnabled, o);
    }

    /** A refused datagram's report reaches the pacer. */
    method Refuse(item: QueueItem, queueBytes: nat)
      requires queue.Valid() && Paced() && Lined([]) && Guarded() && Booked([], [], [Refused(item.wireBytes)])
      modifies `clock, `events, `sent, pacer
      ensures Valid() && sent == old(sent) && Unasked() == old(Unasked()) && clock >= old(clock)
      ensures |events| >= 2 && events[|events| - 2].Blocked? && events[|events| - 2].bytes == item.wireBytes
    {
      hide SendQueue.Valid, SendThread.Paced, SendThread.Unasked, InOrder, BooksAgree, Told;
      ghost var b := TheBooks();
      ReportBlocked(item, queueBytes);
      ReportBook(b, TheBooks(), pacingEnabled, [Refused(item.wireBytes)]);
    }

    /** Books the outcome: a sent packet is charged, a refused one goes back and the pacer backs off. */
    method Settle(item: QueueItem, result: SendResult)
      requires queue.Valid() && Paced() && Lined([item]) && Guarded() && Normalized(item) == item
      requires Booked([item], StepsFor(item, result), [])
      modifies `clock, `events, `sent, `pushed, `guards, `outcomes, pacer, queue
      ensures Valid() && clock >= old(clock) && queue.taken == old(queue.taken)
      ensures sent == if result == Sent then old(sent) + [item] else old(sent)
      ensures Unasked() == old(Unasked()) + if result == Sent && Accounted(item) && !old(Cleared()) then 1 else 0
      ensures Settled(old(outcomes), item, result)
      ensures match result
              case Sent => |events| >= 2 && events[|events| - 2].Sent? && events[|events| - 2].bytes == item.wireBytes
                           && events[|events| - 2].accounted == Accounted(item)
              case WouldBlock => |events| >= 2 && events[|events| - 2].Blocked?
                                 && events[|events| - 2].bytes == item.wireBytes
              case DroppedBySocket => events == old(events)
    {
      hide SendQueue.Valid, SendThread.Paced, SendThread.Lined, SendThread.Guarded, SendThread.Cleared;
      hide SendThread.Unasked, SendThread.Booked, StepsFor;
      var queueBytes;
      match result {
        case Sent =>
          queueBytes := ReadStatus([item], StepsFor(item, Sent), []);
          Charge(item, queueBytes);
        case WouldBlock =>
          HandBack(item);
          queueBytes := ReadStatus([], [], [Refused(item.wireBytes)]);
          Refuse(item, queueBytes);
        case DroppedBySocket =>
          Forget(item);
      }
    }

    /** Peeks, and asks the pacer about what it sees, by then perhaps no longer the next item. */
    method MayGo() returns (go: bool, ghost seen: Option<QueueItem>, ghost wait: int)
      requires Valid()
      modifies `clock, `events, `sent, `pushed, `guards, pacer, queue
      ensures Valid() && clock >= old(clock) && queue.taken == old(queue.taken) && sent == old(sent)
      ensures Unasked() == old(Unasked())
      ensures seen.Some? <==> old(queue.running) && old(queue.queue) != []
      ensures seen.Some? ==>
        exists i: nat :: IsNext(old(queue.queue), i) && seen.value == Normalized(old(queue.queue)[i])
      ensures go <==> seen.Some? && wait == 0
      ensures go && Accounted(seen.value) ==> Cleared()
      ensures seen.None? ==> events == old(events) && (!queue.running || queue.queue == [])
      ensures seen.Some? ==> wait >= 0 && JustAnswered(Accounted(seen.value), wait)
    {
      hide SendQueue.Valid, SendThread.Paced, SendThread.Lined, SendThread.Guarded, SendThread.Cleared;
      hide SendThread.Unasked, SendThread.Booked;
      hide SendThread.IsAnswer, IsNext;
      go, wait := false, 0;
      var next := queue.PeekPrioritized();
      seen := next;
      if next.None? {
        return;
      }
      var queueBytes := ReadStatus([], [], []);
      ghost var before := events;
      PacerIsRun();
      var waitFor := AskFor(Accounted(next.value), queueBytes);
      wait := waitFor;
      go := waitFor <= 0;
      assert events[..|events| - 2] == before;
    }

    /** The last thing the pacer was asked is about such an item, and this was its answer. */
    ghost predicate JustAnswered(accounted: bool, wait: int)
      reads `events
    {
      && |events| >= 2 && config.Normal()
      && IsAnswer(events[|events| - 2], P.RunPacer(config, start, events[..|events| - 2]), accounted, wait)
    }

    /** The question, in the thread's books. */
    method AskFor(accounted: bool, queueBytes: nat) returns (wait: int)
      requires Paced() && Booked([], [], [])
      modifies `clock, `events, `sent, pacer
      ensures Paced() && Booked([], [], [])
      ensures sent == old(sent) && Unasked() == old(Unasked()) && clock >= old(clock)
      ensures wait >= 0 && (accounted && wait == 0 ==> Cleared())
      ensures |events| == |old(events)| + 2 && events[..|old(events)|] == old(events)
      ensures IsAnswer(events[|old(events)|], old(pacer.State()), accounted, wait)
    {
      hide SendThread.Paced, SendThread.Unasked, SendThread.Cleared, SendThread.IsAnswer, BooksAgree, Told;
      ghost var b := TheBooks();
      wait := Ask(accounted, queueBytes);
      assert Told(b.events) + [] == Told(b.events);
      ReportBook(b, TheBooks(), pacingEnabled, []);
    }

    lemma PacerIsRun()
      requires Paced()
      ensures config.Normal() && pacer.State() == P.RunPacer(config, start, events)
    {
      hide P.RunPacer;
    }

    /** The pop: what it takes is in its stored form, and in flight in order. */
    method Take() returns (popped: Option<QueueItem>)
      requires Valid()
      modifies queue`queue, queue`queueBytes, queue`taken
      ensures popped.Some? <==> old(queue.running) && old(queue.queue) != []
      ensures popped.None? ==> Valid() && queue.taken == old(queue.taken)
      ensures popped.None? ==> !queue.running || queue.queue == []
      ensures popped.Some? ==>
        && queue.Valid() && Paced() && Lined([popped.value]) && Guarded() && Booked([popped.value], [], [])
        && queue.taken == old(queue.taken) + multiset{popped.value} && Normalized(popped.value) == popped.value
        && exists i: nat :: IsNext(old(queue.queue), i) && popped.value == old(queue.queue)[i]
    {
      hide SendQueue.Valid, SendThread.Paced, InOrder, IsNext, BooksAgree;
      ghost var q, b := queue.queue, TheBooks();
      forall i: nat | IsNext(q, i)
        ensures i < |q| && Normalized(q[i]) == q[i]
        ensures InOrder(RunState(q[..i] + q[i + 1..], [q[i]], pushed, sent))
      {
        NextInside(q, i);
        QueuedIsNormalized(queue, i);
        TakenInOrder(RunState(q, [], pushed, sent), q[i], q[..i] + q[i + 1..]);
      }
      popped := queue.PopPrioritized();
      if popped.Some? {
        TakeBook(b, TheBooks(), pacingEnabled, popped.value);
      }
    }

    /**
     One turn of the inner loop, once the pacer has let `seen` go. Others may act between its peek
     and the pop, so another item may be taken; a packet goes out unasked only if it is accounted
     and the one asked about was not. What is taken gets the socket's answer. The batch goes on only
     if the item peeked at then may be sent, and stops only for one of the reasons listed.
     */
    method ProcessOne(ghost seen: QueueItem, answer: SendResult)
      returns (more: bool, ghost item: Option<QueueItem>, ghost next: Option<QueueItem>, ghost end: RoundEnd)
      requires Valid() && (Accounted(seen) ==> Cleared())
      modifies this, queue, pacer
      ensures Valid() && clock >= old(clock)
      ensures item.None? ==> queue.taken == old(queue.taken) && outcomes == old(outcomes)
      ensures item.Some? ==>
        && queue.taken == old(queue.taken) + multiset{item.value}
        && Settled(old(outcomes), item.value, Answered(item.value, answer))
      ensures Unasked() > old(Unasked()) ==>
        Unasked() == old(Unasked()) + 1 && item.Some? && Accounted(item.value) && !Accounted(seen)
      ensures more ==> item.Some? && next.Some? && (Accounted(next.value) ==> Cleared())
      ensures !more ==> !end.BatchFull? && Explains(end)
    {
      hide SendQueue.Valid, SendThread.Paced, SendThread.Lined, SendThread.Guarded, SendThread.Cleared;
      hide SendThread.Unasked, SendThread.Booked, StepsFor;
      hide SendThread.IsAnswer, IsNext;
      more, next, end := false, None, NothingThere;
      ghost var peekToPop := Interference([], [], []);
      var popped := Take();
      item := popped;
      if popped.None? {
        return;
      }
      var taken := popped.value;
      ghost var popToProtection := Interference([taken], [], []);
      var result := HandleItem(taken, answer);
      Settle(taken, result);
      ghost var settled := Interference([], [], []);
      if result == WouldBlock {
        end := SocketRefused;
        return;
      }
      ghost var wait;
      more, next, wait := MayGo();
      end := if next.Some? then PacerWaits(Accounted(next.value), wait) else NothingThere;
    }

    /** At the end of a turn: why no further item was taken. */
    ghost predicate Explains(end: RoundEnd)
      reads `events, `outcomes, queue`running, queue`queue
    {
      match end
      case NothingThere => !queue.running || queue.queue == []
      case PacerWaits(accounted, wait) => wait > 0 && JustAnswered(accounted, wait)
      case SocketRefused => |outcomes| > 0 && outcomes[|outcomes| - 1].result == WouldBlock
      case BatchFull => true
    }

    function Batch(): (n: nat)
      ensures n == maxBatch || (maxBatch == 0 && n == 1)
    {
      if maxBatch > 1 then maxBatch else 1
    }

    /**
     One turn of the outer loop: up to a batch of items, each allowed by the pacer and each with
     the socket's next answer. The turn ends early only where nothing is queued, the pacer asks for
     a wait, or the socket has refused an item.
     */
    method Round(answers: seq<SendResult>) returns (ghost end: RoundEnd)
      requires Valid() && |answers| >= Batch()
      modifies this, queue, pacer
      ensures Valid() && clock >= old(clock)
      ensures |old(outcomes)| <= |outcomes| <= |old(outcomes)| + Batch() && outcomes[..|old(outcomes)|] == old(outcomes)
      ensures forall k :: |old(outcomes)| <= k < |outcomes| ==>
        outcomes[k].result == Answered(outcomes[k].item, answers[k - |old(outcomes)|])
      ensures Explains(end) && (end == BatchFull ==> |outcomes| == |old(outcomes)| + Batch())
    {
      hide SendThread.Valid, SendThread.Cleared, SendThread.IsAnswer, SendThread.JustAnswered, IsNext, Answered;
      var more;
      ghost var seen, wait;
      more, seen, wait := MayGo();
      end := if seen.Some? then PacerWaits(Accounted(seen.value), wait) else NothingThere;
      var processed := 0;
      while more && processed < Batch()
        invariant Valid() && clock >= old(clock) && processed <= Batch()
        invariant more ==> seen.Some? && (Accounted(seen.value) ==> Cleared())
        invariant |outcomes| <= |old(outcomes)| + processed && (more ==> |outcomes| == |old(outcomes)| + processed)
        invariant |old(outcomes)| <= |outcomes| && outcomes[..|old(outcomes)|] == old(outcomes)
        invariant forall k :: |old(outcomes)| <= k < |outcomes| ==>
          outcomes[k].result == Answered(outcomes[k].item, answers[k - |old(outcomes)|])
        invariant !more ==> !end.BatchFull? && Explains(end)
      {
        ghost var item;
        ghost var before := outcomes;
        more, item, seen, end := ProcessOne(seen.value, answers[processed]);
        processed := processed + 1;
      }
      if more {
        end := BatchFull;
      }
    }

    /** Between two turns, and while waiting, other threads act. */
    method Pause()
      requires Valid()
      modifies `clock, `events, `sent, `pushed, `guards, pacer, queue
      ensures Valid() && clock >= old(clock)
    {
      hide SendQueue.Valid, SendThread.Paced, SendThread.Lined, SendThread.Guarded, SendThread.Cleared;
      hide SendThread.Unasked, SendThread.Booked;
      ghost var acts := Interference([], [], []);
    }

    /** The whole run of the thread, for as many turns as it is allowed. */
    method SendThreadMain(turns: seq<seq<SendResult>>)
      requires Valid() && forall t :: 0 <= t < |turns| ==> |turns[t]| >= Batch()
      modifies this, queue, pacer
      ensures Valid() && clock >= old(clock)
      ensures |old(outcomes)| <= |outcomes| && outcomes[..|old(outcomes)|] == old(outcomes)
    {
      hide SendThread.Valid, SendThread.Explains;
      for t := 0 to |turns|
        invariant Valid() && clock >= old(clock)
        invariant |old(outcomes)| <= |outcomes| && outcomes[..|old(outcomes)|] == old(outcomes)
      {
        ghost var end := Round(turns[t]);
        Pause();
      }
    }

    /**
     At any point of any run: what the queue held when the thread started and what was pushed
     since is still queued, sent, lost at the socket, evicted or cleared, each item exactly as
     often as it went in. While the queue runs, every datagram the socket refused for now has gone
     back. The pacer has been told of each datagram sent or refused, once and in order, and the
     frames in progress have been what the items handled made them.
     */
    lemma NothingVanishes()
      requires Valid()
      ensures earlier.1 + multiset(pushed)
           == earlier.0 + multiset(queue.queue) + multiset(sent) + LostOf(outcomes) + queue.evicted + queue.cleared
      ensures sent == SentOf(outcomes)
      ensures forall k :: 0 <= k < |outcomes| ==> HandedBack(outcomes[k], queue.running)
      ensures Told(events) == DueFor(outcomes, pacingEnabled)
      ensures FrameSteps(guards) == StepsOf(outcomes)
    {
      hide SendThread.Paced, InOrder, Legal, RunGuard, FrameSteps, StepsOf, Told, DueFor, LostOf, SentOf;
      hide SendQueue.CountersExact, Charges, Balanced;
      QueueBalances();
      PushedIsSomewhere(outcomes, sent, pushed, queue.queue, queue.taken, queue.accepted, queue.evicted,
                        queue.cleared, earlier, queue.running);
      assert Told(events) + [] == Told(events) && StepsOf(outcomes) + [] == StepsOf(outcomes);
    }

    lemma QueueBalances()
      requires queue.Valid()
      ensures Balanced(queue.accepted, queue.queue, queue.evicted, queue.taken, queue.cleared)
    {
      hide Balanced, Charges, SendQueue.CountersExact;
      assert queue.Sound();
    }

    /**
     What the loop achieves, at any point of any run and for every window of it: the accounted
     bytes sent are within the burst and one packet, once more for every session reset in the
     window, one packet for each that the pacer was not asked about, and the top rate; and every
     lane has been sent in push order.
     */
    lemma RunIsConformant(i: nat, j: nat, size: nat)
      requires Valid() && i < j <= |events|
      requires config.Active() && start == P.Fresh(config, start.last)
      requires P.Headroom(config, size) <= P.BaseDebt(config)
      requires P.PacketsUpTo(events, size)
      ensures P.SentBytes(events[i..j]) as real
           <= (1 + P.Restarts(events[i..j])) as real * P.Headroom(config, size)
              + (P.UnaskedIn(config, start, events, i, j) * size) as real
              + P.TopBytes(config, events[j - 1].now - events[i].now)
      ensures P.UnaskedIn(config, start, events, i, j) <= Unasked()
      ensures P.SentBytes(events) == AccountedBytes(sent, pacingEnabled)
      ensures forall p: nat :: Subseq(Lane(sent, p), Lane(pushed, p))
    {
      hide SendQueue.Valid, P.Unasked, P.UnaskedIn, P.RunPacer, P.SentBytes, P.Restarts, AccountedBytes, P.Ordered;
      hide P.PacketsUpTo, InOrder, Subseq, Only, Legal, RunGuard, SendThread.Booked;
      P.StartInRange(config, start.last);
      P.WindowConformance(config, start, events, i, j, size);
      SentInOrder(RunState(queue.queue, [], pushed, sent));
    }
  }
}
