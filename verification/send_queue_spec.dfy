/**
 What the send queue of src/udp/send_queue.cpp means: items, their five priority lanes, and
 the pure questions its methods ask of the deque.
 */
module SendQueueSpec {
  import opened Gf256
  import opened Subsequences

  datatype Kind = Datagram | GroupEnd
  datatype Stream = Video | Audio | Other

  const LOWEST_PRIORITY: nat := 4
  const MAX_QUEUED_VIDEO_GROUPS: nat := 4
  const NO_PROTECTED_GROUP: nat := 0xFFFF_FFFF

  datatype QueueItem = QueueItem(
    kind: Kind,
    stream: Stream,
    groupId: nat,
    packetSeq: nat,
    streamKey: nat,
    priority: nat,
    pacingAccounted: bool,
    isKeyframe: bool,
    isFecParity: bool,
    enqueueSteadyUs: nat,
    frameCaptureSteadyUs: nat,
    bytes: seq<byte>,
    wireBytes: nat)

  function NormalizePriority(priority: nat): nat {
    if priority < LOWEST_PRIORITY then priority else LOWEST_PRIORITY
  }

  function Normalized(item: QueueItem): QueueItem {
    item.(priority := NormalizePriority(item.priority))
  }

  function AllNormalized(items: seq<QueueItem>): (r: seq<QueueItem>)
    ensures |r| == |items| && forall i :: 0 <= i < |r| ==> r[i] == Normalized(items[i])
  {
    seq(|items|, i requires 0 <= i < |items| => Normalized(items[i]))
  }

  /** The bytes an item is charged for. */
  function Charge(item: QueueItem): nat {
    if item.kind == Datagram then item.wireBytes else 0
  }

  function Charges(q: seq<QueueItem>): nat {
    if |q| == 0 then 0 else Charges(q[..|q| - 1]) + Charge(q[|q| - 1])
  }

  function WireBytes(datagrams: seq<QueueItem>): nat {
    if |datagrams| == 0 then 0
    else WireBytes(datagrams[..|datagrams| - 1]) + datagrams[|datagrams| - 1].wireBytes
  }

  /** The queue's charge is what its datagrams take on the wire; the ends of groups cost nothing. */
  lemma {:induction false} ChargesAreWireBytes(q: seq<QueueItem>)
    ensures Charges(q) == WireBytes(Only(q, (item: QueueItem) => item.kind == Datagram))
    decreases |q|
  {
    if |q| > 0 {
      var before, f := q[..|q| - 1], (item: QueueItem) => item.kind == Datagram;
      ChargesAreWireBytes(before);
      var some := Only(before, f);
      assert (some + [q[|q| - 1]])[..|some|] == some;
      assert some + [] == some;
    }
  }

  lemma {:induction false} ChargesConcat(a: seq<QueueItem>, b: seq<QueueItem>)
    ensures Charges(a + b) == Charges(a) + Charges(b)
    decreases |b|
  {
    if |b| == 0 {
      assert a + b == a;
    } else {
      ChargesConcat(a, b[..|b| - 1]);
      assert (a + b)[..|a + b| - 1] == a + b[..|b| - 1];
    }
  }

  lemma ChargesRemove(q: seq<QueueItem>, i: nat)
    requires i < |q|
    ensures Charges(q) == Charges(q[..i] + q[i + 1..]) + Charge(q[i])
  {
    hide Charges;
    assert q == q[..i] + ([q[i]] + q[i + 1..]);
    ChargesConcat(q[..i], [q[i]] + q[i + 1..]);
    ChargesConcat([q[i]], q[i + 1..]);
    ChargesConcat(q[..i], q[i + 1..]);
    ChargesOne(q[i]);
  }

  lemma ChargesOne(item: QueueItem)
    ensures Charges([item]) == Charge(item)
  {
    assert [item][..0] == [];
  }

  // ---- five lanes ------------------------------------------------------------------------

  predicate InLane(item: QueueItem, priority: nat) {
    NormalizePriority(item.priority) == priority
  }

  /** The FIFO of one priority level. */
  function Lane(q: seq<QueueItem>, priority: nat): seq<QueueItem> {
    Only(q, (item: QueueItem) => InLane(item, priority))
  }

  lemma LaneConcat(a: seq<QueueItem>, b: seq<QueueItem>, priority: nat)
    ensures Lane(a + b, priority) == Lane(a, priority) + Lane(b, priority)
  {
    OnlyConcat(a, b, (item: QueueItem) => InLane(item, priority));
  }

  lemma LaneOfOne(item: QueueItem, priority: nat)
    ensures Lane([item], priority) == if InLane(item, priority) then [item] else []
  {
    var one := [item];
    assert one[..0] == [];
    assert Lane(one[..0], priority) == [];
    assert Lane(one, priority) == Lane(one[..0], priority) + (if InLane(item, priority) then [item] else []);
  }

  /** Position i holds the oldest item of the most urgent lane in use. */
  ghost predicate IsNext(q: seq<QueueItem>, i: nat) {
    && i < |q|
    && (forall j :: 0 <= j < i ==> NormalizePriority(q[j].priority) > NormalizePriority(q[i].priority))
    && (forall j :: i < j < |q| ==> NormalizePriority(q[j].priority) >= NormalizePriority(q[i].priority))
  }

  lemma EmptyLane(q: seq<QueueItem>, priority: nat)
    requires forall j :: 0 <= j < |q| ==> !InLane(q[j], priority)
    ensures Lane(q, priority) == []
  {
    if |q| > 0 {
      EmptyLane(q[..|q| - 1], priority);
    }
  }

  /**
   Taking the selected item is a dequeue of five independent FIFOs served lowest number
   first: every more urgent lane is empty, the item is the head of its own lane, and no other
   lane changes.
   */
  lemma TakeNext(q: seq<QueueItem>, i: nat)
    requires IsNext(q, i)
    ensures var rest := q[..i] + q[i + 1..];
            var p := NormalizePriority(q[i].priority);
            && (forall k :: 0 <= k < p ==> Lane(q, k) == [])
            && Lane(q, p) == [q[i]] + Lane(rest, p)
            && (forall k :: 0 <= k && k != p ==> Lane(q, k) == Lane(rest, k))
  {
    var rest, p := q[..i] + q[i + 1..], NormalizePriority(q[i].priority);
    forall k: nat | k != p ensures Lane(q, k) == Lane(rest, k) {
      OtherLane(q, i, k);
    }
    forall k: nat | k < p ensures Lane(q, k) == [] {
      EmptyLane(q, k);
    }
    OwnLane(q, i);
  }

  /** The lanes around an item. */
  lemma LanesAround(q: seq<QueueItem>, i: nat, k: nat)
    requires i < |q|
    ensures Lane(q, k) == Lane(q[..i], k) + (if InLane(q[i], k) then [q[i]] else []) + Lane(q[i + 1..], k)
    ensures Lane(q[..i] + q[i + 1..], k) == Lane(q[..i], k) + Lane(q[i + 1..], k)
  {
    hide Lane, InLane;
    var a, b := q[..i], q[i + 1..];
    assert q == a + ([q[i]] + b);
    LaneConcat(a, [q[i]] + b, k);
    LaneConcat([q[i]], b, k);
    LaneConcat(a, b, k);
    LaneOfOne(q[i], k);
  }

  lemma OtherLane(q: seq<QueueItem>, i: nat, k: nat)
    requires i < |q| && !InLane(q[i], k)
    ensures Lane(q, k) == Lane(q[..i] + q[i + 1..], k)
  {
    hide Lane;
    LanesAround(q, i, k);
    assert Lane(q[..i], k) + [] == Lane(q[..i], k);
  }

  /** Nothing of the item's own lane comes before it. */
  lemma OwnLane(q: seq<QueueItem>, i: nat)
    requires IsNext(q, i)
    ensures var p := NormalizePriority(q[i].priority);
            Lane(q, p) == [q[i]] + Lane(q[..i] + q[i + 1..], p)
  {
    var p := NormalizePriority(q[i].priority);
    EmptyLane(q[..i], p);
    hide Lane;
    LanesAround(q, i, p);
    assert [] + [q[i]] == [q[i]] && [] + Lane(q[i + 1..], p) == Lane(q[i + 1..], p);
  }

  /** Handing a just-taken item back at the front restores every lane. */
  lemma RequeueRestores(q: seq<QueueItem>, i: nat, priority: nat)
    requires IsNext(q, i)
    ensures Lane([q[i]] + (q[..i] + q[i + 1..]), priority) == Lane(q, priority)
  {
    TakeNext(q, i);
    LaneConcat([q[i]], q[..i] + q[i + 1..], priority);
    LaneOfOne(q[i], priority);
    var rest := q[..i] + q[i + 1..];
    if priority != NormalizePriority(q[i].priority) {
      assert Lane(q, priority) == [] + Lane(rest, priority);
    }
  }

  /** The selected position is unique, so the order of service is determined. */
  lemma NextUnique(q: seq<QueueItem>, i: nat, j: nat)
    requires IsNext(q, i) && IsNext(q, j)
    ensures i == j
  {
    var a, b := NormalizePriority(q[i].priority), NormalizePriority(q[j].priority);
    assert i < j ==> a > b && b >= a;
    assert j < i ==> b > a && a >= b;
  }
}
