/**
 The books of the send thread: what became of every item it took, what the pacer was told, and
 where every item pushed has gone.
 */
module SendBooks {
  import opened SendQueueSpec
  import opened SendQueueRuns
  import opened SendQueues
  import P = Pacers

  /** An item taken, the socket's answer to it, and whether it went back into the queue. */
  datatype Outcome = Outcome(item: QueueItem, result: SendResult, back: bool)

  /** What the pacer is told about a datagram: it was sent, or refused for now. */
  datatype Report = Charged(bytes: nat, accounted: bool) | Refused(bytes: nat)

  /** Only datagrams are offered to the socket. */
  function Answered(item: QueueItem, answer: SendResult): SendResult {
    if item.kind == GroupEnd then DroppedBySocket else answer
  }

  function SentOf(outcomes: seq<Outcome>): seq<QueueItem> {
    if |outcomes| == 0 then []
    else
      var o := outcomes[|outcomes| - 1];
      SentOf(outcomes[..|outcomes| - 1]) + if o.result == Sent then [o.item] else []
  }

  function ItemsOf(outcomes: seq<Outcome>): multiset<QueueItem> {
    if |outcomes| == 0 then multiset{}
    else ItemsOf(outcomes[..|outcomes| - 1]) + multiset{outcomes[|outcomes| - 1].item}
  }

  function BackOf(outcomes: seq<Outcome>): multiset<QueueItem> {
    if |outcomes| == 0 then multiset{}
    else
      var o := outcomes[|outcomes| - 1];
      BackOf(outcomes[..|outcomes| - 1]) + if o.back then multiset{o.item} else multiset{}
  }

  /** Taken, and neither sent nor handed back. */
  function LostOf(outcomes: seq<Outcome>): multiset<QueueItem> {
    if |outcomes| == 0 then multiset{}
    else
      var o := outcomes[|outcomes| - 1];
      LostOf(outcomes[..|outcomes| - 1]) + if o.result == Sent || o.back then multiset{} else multiset{o.item}
  }

  function ReportFor(o: Outcome, pacingEnabled: bool): seq<Report> {
    match o.result
    case Sent => [Charged(o.item.wireBytes, o.item.pacingAccounted && pacingEnabled)]
    case WouldBlock => [Refused(o.item.wireBytes)]
    case DroppedBySocket => []
  }

  function DueFor(outcomes: seq<Outcome>, pacingEnabled: bool): seq<Report> {
    if |outcomes| == 0 then []
    else
      DueFor(outcomes[..|outcomes| - 1], pacingEnabled) + ReportFor(outcomes[|outcomes| - 1], pacingEnabled)
  }

  function ReportIn(e: P.Event): seq<Report> {
    match e
    case Sent(bytes, accounted, _, _) => [Charged(bytes, accounted)]
    case Blocked(bytes, _, _) => [Refused(bytes)]
    case _ => []
  }

  /** What the calls into the pacer report. */
  function Told(events: seq<P.Event>): seq<Report> {
    if |events| == 0 then [] else Told(events[..|events| - 1]) + ReportIn(events[|events| - 1])
  }

  lemma ToldSnoc(events: seq<P.Event>, e: P.Event)
    ensures Told(events + [e]) == Told(events) + ReportIn(e)
  {
    assert (events + [e])[..|events|] == events;
  }

  lemma OutcomeSnoc(outcomes: seq<Outcome>, o: Outcome, pacingEnabled: bool)
    ensures var more := outcomes + [o];
            && SentOf(more) == SentOf(outcomes) + (if o.result == Sent then [o.item] else [])
            && ItemsOf(more) == ItemsOf(outcomes) + multiset{o.item}
            && BackOf(more) == BackOf(outcomes) + (if o.back then multiset{o.item} else multiset{})
            && DueFor(more, pacingEnabled) == DueFor(outcomes, pacingEnabled) + ReportFor(o, pacingEnabled)
  {
    assert (outcomes + [o])[..|outcomes|] == outcomes;
  }

  /** An item goes back only when refused, and while the queue runs every refused one has gone back. */
  ghost predicate HandedBack(o: Outcome, running: bool) {
    (o.back ==> o.result == WouldBlock) && (running && o.result == WouldBlock ==> o.back)
  }

  /**
   Since the thread's start the queue has given out the items with an outcome and the one in
   flight, and has taken in what was pushed and what was handed back.
   */
  ghost predicate Accounts(outcomes: seq<Outcome>, inflight: seq<QueueItem>, sent: seq<QueueItem>,
                           pushed: seq<QueueItem>, taken: multiset<QueueItem>, accepted: multiset<QueueItem>,
                           earlier: (multiset<QueueItem>, multiset<QueueItem>), running: bool)
  {
    && sent == SentOf(outcomes)
    && taken == earlier.0 + ItemsOf(outcomes) + multiset(inflight)
    && accepted == earlier.1 + multiset(pushed) + BackOf(outcomes)
    && (forall k :: 0 <= k < |outcomes| ==> HandedBack(outcomes[k], running))
  }

  /** What was taken was sent, lost or handed back. */
  lemma {:induction false} Fates(outcomes: seq<Outcome>)
    requires forall k :: 0 <= k < |outcomes| ==> HandedBack(outcomes[k], false)
    ensures ItemsOf(outcomes) == multiset(SentOf(outcomes)) + LostOf(outcomes) + BackOf(outcomes)
    decreases |outcomes|
  {
    if |outcomes| > 0 {
      Fates(outcomes[..|outcomes| - 1]);
    }
  }

  /**
   Nothing vanishes: with what the queue held before, everything pushed is still queued, sent,
   lost at the socket, evicted or cleared, exactly as often as it was pushed.
   */
  lemma PushedIsSomewhere(outcomes: seq<Outcome>, sent: seq<QueueItem>, pushed: seq<QueueItem>,
                          queue: seq<QueueItem>, taken: multiset<QueueItem>, accepted: multiset<QueueItem>,
                          evicted: multiset<QueueItem>, cleared: multiset<QueueItem>,
                          earlier: (multiset<QueueItem>, multiset<QueueItem>), running: bool)
    requires Accounts(outcomes, [], sent, pushed, taken, accepted, earlier, running)
    requires Balanced(accepted, queue, evicted, taken, cleared)
    ensures earlier.1 + multiset(pushed)
         == earlier.0 + multiset(queue) + multiset(sent) + LostOf(outcomes) + evicted + cleared
  {
    forall k | 0 <= k < |outcomes| ensures HandedBack(outcomes[k], false) {
      assert HandedBack(outcomes[k], running);
    }
    Fates(outcomes);
    Cancel(earlier.1 + multiset(pushed), BackOf(outcomes),
           earlier.0 + multiset(queue) + multiset(sent) + LostOf(outcomes) + evicted + cleared);
  }

  lemma Cancel(a: multiset<QueueItem>, b: multiset<QueueItem>, c: multiset<QueueItem>)
    requires a + b == c + b
    ensures a == c
  {
    assert (a + b) - b == a && (c + b) - b == c;
  }
}
