/**
 From an encoded frame to its datagrams and back (src/udp/udp_manager.cpp, processFrame):
 fragments and parity payloads behind 27-byte headers, and the theorem that a receiver can
 rebuild the frame from any datagrams that miss at most r per group.
 */
module VideoFrames {
  import opened CauchyCode
  import opened Fec
  import opened Gf256
  import opened InputQueues
  import opened Numbers
  import opened PacketCodec
  import opened SendQueueSpec
  import opened SendQueues

  const VIDEO_PACKET_TYPE: nat := 1
  const VIDEO_STREAM_KEY: nat := 2
  const VIDEO_PRIORITY: nat := 2

  /** Fragments, groups and parities per group; no groups means no parity. */
  datatype Plan = Plan(total: nat, groups: nat, r: nat) {
    function Count(): nat {
      total + groups * r
    }
  }

  /** The number of fragments, cut to a uint16 as the source does. */
  function TotalFragments(size: nat, maxPayload: nat): nat
    requires maxPayload > 0
  {
    ((size + maxPayload - 1) / maxPayload) % 0x1_0000
  }

  /** Table 1 has a row for the fragment count, and it asks for parity. */
  predicate AsksParity(table: FecTable, tableId: byte, total: nat)
    requires table.Shaped()
  {
    tableId == 1 && table.loaded && total < 256 && table.groupsByN[total] > 0 && table.rByN[total] > 0
  }

  /** The parity datagrams the table's row asks for. */
  function ParityDatagrams(table: FecTable, tableId: byte, total: nat): nat
    requires table.Shaped()
  {
    if AsksParity(table, tableId, total) then table.groupsByN[total] as nat * table.rByN[total] as nat else 0
  }

  function PlanFor(table: FecTable, tableId: byte, size: nat, maxPayload: nat): (plan: Plan)
    requires table.Shaped() && maxPayload > 0
    ensures plan.total == TotalFragments(size, maxPayload)
    ensures AsksParity(table, tableId, plan.total) ==>
              plan.groups == table.groupsByN[plan.total] && plan.r == table.rByN[plan.total]
    ensures !AsksParity(table, tableId, plan.total) ==> plan.groups == 0 && plan.r == 0
  {
    var total := TotalFragments(size, maxPayload);
    match GetParams(table, tableId, total)
    case None => Plan(total, 0, 0)
    case Some((groups, r)) => Plan(total, groups, r)
  }

  /** The bytes of source fragment n. */
  function Fragment(data: seq<byte>, maxPayload: nat, n: nat): seq<byte> {
    if n * maxPayload >= |data| then [] else data[n * maxPayload..Min(n * maxPayload + maxPayload, |data|)]
  }

  /** Datagram n carries source fragment n, or parity row (n - total) / groups of group (n - total) mod groups. */
  ghost predicate IsPayload(payload: seq<byte>, data: seq<byte>, plan: Plan, maxPayload: nat, n: nat) {
    if n < plan.total then payload == Fragment(data, maxPayload, n)
    else
      && plan.groups > 0 && |payload| == maxPayload
      && IsParityPayload(payload, data, plan.total, plan.groups, (n - plan.total) % plan.groups,
                         (n - plan.total) / plan.groups, maxPayload)
  }

  function Header(frame: InputFrame, frameId: nat, firstSeq: nat, tableId: byte, plan: Plan, maxPayload: nat,
                  n: nat): VideoHeader {
    VideoHeader(
      VIDEO_PACKET_TYPE,
      (firstSeq + n) % 0x1_0000,
      frame.ntpTimestamp % 0x1_0000_0000_0000_0000,
      frameId % 0x1_0000_0000,
      n % 0x1_0000,
      plan.total % 0x1_0000,
      (if n < plan.total then |Fragment(frame.data, maxPayload, n)| else maxPayload) % 0x1_0000,
      |frame.data| % 0x1_0000_0000,
      if plan.groups > 0 then tableId else 0,
      if frame.keyframe then 1 else 0)
  }

  /** What datagram n of a frame looks like on the wire. */
  ghost predicate IsDatagram(bytes: seq<byte>, frame: InputFrame, frameId: nat, firstSeq: nat, tableId: byte,
                             plan: Plan, maxPayload: nat, n: nat)
  {
    && |bytes| >= HEADER_BYTES
    && bytes == EncodeHeader(Header(frame, frameId, firstSeq, tableId, plan, maxPayload, n)) + bytes[HEADER_BYTES..]
    && IsPayload(bytes[HEADER_BYTES..], frame.data, plan, maxPayload, n)
  }

  ghost predicate IsVideoItem(item: QueueItem, frame: InputFrame, frameId: nat, firstSeq: nat, plan: Plan, now: nat,
                              n: nat) {
    && item.kind == Datagram && item.stream == Video && item.groupId == frameId
    && item.streamKey == VIDEO_STREAM_KEY && item.priority == VIDEO_PRIORITY && item.pacingAccounted
    && item.isKeyframe == frame.keyframe && item.isFecParity == (n >= plan.total)
    && item.wireBytes == |item.bytes| && item.frameCaptureSteadyUs == frame.captureTimestampUs
    && item.packetSeq == (firstSeq + n) % 0x1_0000 && item.enqueueSteadyUs == now
  }

  ghost predicate IsGroupEnd(item: QueueItem, frame: InputFrame, frameId: nat, now: nat) {
    && item.kind == GroupEnd && item.stream == Video && item.groupId == frameId
    && item.priority == VIDEO_PRIORITY && !item.pacingAccounted && !item.isKeyframe && !item.isFecParity
    && item.streamKey == VIDEO_STREAM_KEY && item.frameCaptureSteadyUs == frame.captureTimestampUs
    && item.enqueueSteadyUs == now && item.bytes == [] && item.wireBytes == 0
  }

  /** The sources, then so many parity datagrams, then the end of the frame. */
  ghost predicate SourcesThenParity(batch: seq<QueueItem>, total: nat, parities: nat) {
    && |batch| == total + parities + 1
    && (forall n :: 0 <= n < |batch| ==> (batch[n].isFecParity <==> total <= n < total + parities))
    && (forall n :: 0 <= n < |batch| ==> (batch[n].kind == GroupEnd <==> n == |batch| - 1))
  }

  /** The datagrams of a frame in FragmentIndex order. */
  ghost predicate IsDatagrams(list: seq<seq<byte>>, frame: InputFrame, frameId: nat, firstSeq: nat, tableId: byte,
                              plan: Plan, maxPayload: nat)
  {
    && |list| == plan.Count()
    && forall n :: 0 <= n < |list| ==> IsDatagram(list[n], frame, frameId, firstSeq, tableId, plan, maxPayload, n)
  }

  class UdpManager {
    const fec: FecV2
    const table: FecTable
    const fecTableId: byte
    const maxPayload: nat
    const sendQueue: SendQueue
    var frameId: nat
    var packetSeq: nat

    ghost function Repr(): set<object> {
      {this, fec} + fec.tables.Repr()
    }

    ghost predicate Valid()
      reads this, fec, fec.tables.Repr(), sendQueue
    {
      && fec.Valid() && table.Shaped() && sendQueue.Valid()
      && sendQueue !in Repr()
      && frameId < 0x1_0000_0000 && packetSeq < 0x1_0000
    }

    constructor (table: FecTable, fecTableId: byte, maxPayload: nat)
      requires table.Shaped()
      ensures Valid() && frameId == 0 && packetSeq == 0
    {
      fec := new FecV2();
      this.table, this.fecTableId, this.maxPayload := table, fecTableId, maxPayload;
      sendQueue := new SendQueue();
      frameId, packetSeq := 0, 0;
    }

    /** packet_seq_num_.fetch_add(1) */
    method NextSeq(ghost firstSeq: nat, ghost n: nat) returns (s: nat)
      requires packetSeq == (firstSeq + n) % 0x1_0000
      modifies `packetSeq
      ensures s == (firstSeq + n) % 0x1_0000 && packetSeq == (firstSeq + n + 1) % 0x1_0000
    {
      s := packetSeq;
      packetSeq := (packetSeq + 1) % 0x1_0000;
    }

    /** The header of datagram n, with the sequence number just drawn. */
    function HeaderFor(frame: InputFrame, id: nat, plan: Plan, n: nat, s: nat, payloadLength: nat): VideoHeader {
      VideoHeader(VIDEO_PACKET_TYPE, s, frame.ntpTimestamp % 0x1_0000_0000_0000_0000, id, n % 0x1_0000, plan.total,
                  payloadLength % 0x1_0000, |frame.data| % 0x1_0000_0000,
                  if plan.groups > 0 then fecTableId else 0, if frame.keyframe then 1 else 0)
    }

    /** A queue item for the datagram; its parity flag says whether it carries parity. */
    function ItemFor(frame: InputFrame, id: nat, s: nat, parity: bool, now: nat, bytes: seq<byte>): QueueItem {
      QueueItem(Datagram, Video, id, s, VIDEO_STREAM_KEY, VIDEO_PRIORITY, true, frame.keyframe, parity, now,
                frame.captureTimestampUs, bytes, |bytes|)
    }

    function EndFor(frame: InputFrame, id: nat, now: nat): QueueItem {
      QueueItem(GroupEnd, Video, id, 0, VIDEO_STREAM_KEY, VIDEO_PRIORITY, false, false, false, now,
                frame.captureTimestampUs, [], 0)
    }

    lemma EndMatches(frame: InputFrame, id: nat, now: nat)
      ensures IsGroupEnd(EndFor(frame, id, now), frame, id, now)
    {}

    lemma BatchIsSorted(batch: seq<QueueItem>, frame: InputFrame, id: nat, firstSeq: nat, plan: Plan, now: nat)
      requires table.Shaped() && maxPayload > 0 && plan == PlanFor(table, fecTableId, |frame.data|, maxPayload)
      requires |batch| == plan.Count() + 1
      requires forall n :: 0 <= n < plan.Count() ==> IsVideoItem(batch[n], frame, id, firstSeq, plan, now, n)
      requires IsGroupEnd(batch[plan.Count()], frame, id, now)
      ensures SourcesThenParity(batch, plan.total, ParityDatagrams(table, fecTableId, plan.total))
    {
      assert plan.groups * plan.r == ParityDatagrams(table, fecTableId, plan.total);
      hide PlanFor, ParityDatagrams;
    }

    method Packet(frame: InputFrame, id: nat, plan: Plan, n: nat, payload: seq<byte>, ghost firstSeq: nat, s: nat)
      returns (bytes: seq<byte>)
      requires n < plan.Count() && plan.total < 0x1_0000 && id < 0x1_0000_0000 && s == (firstSeq + n) % 0x1_0000
      requires IsPayload(payload, frame.data, plan, maxPayload, n)
      ensures IsDatagram(bytes, frame, id, firstSeq, fecTableId, plan, maxPayload, n)
    {
      hide EncodeHeader, IsParityPayload, Fragment;
      HeaderMatches(frame, id, plan, n, payload, firstSeq, s);
      var header := HeaderFor(frame, id, plan, n, s, |payload|);
      hide Header, UdpManager.HeaderFor, IsPayload;
      bytes := BuildVideoPacket(header, payload);
      assert bytes[HEADER_BYTES..] == payload;
    }

    lemma HeaderMatches(frame: InputFrame, id: nat, plan: Plan, n: nat, payload: seq<byte>, firstSeq: nat, s: nat)
      requires n < plan.Count() && plan.total < 0x1_0000 && id < 0x1_0000_0000 && s == (firstSeq + n) % 0x1_0000
      requires IsPayload(payload, frame.data, plan, maxPayload, n)
      ensures var h := HeaderFor(frame, id, plan, n, s, |payload|);
              h == Header(frame, id, firstSeq, fecTableId, plan, maxPayload, n) && h.InRange()
    {
      hide Fragment, IsParityPayload;
    }

    /** enqueue_source for every fragment. */
    method SourceItems(frame: InputFrame, id: nat, plan: Plan, ghost firstSeq: nat, now: nat)
      returns (batch: seq<QueueItem>)
      requires plan.total < 0x1_0000 && id < 0x1_0000_0000 && packetSeq == firstSeq % 0x1_0000
      modifies `packetSeq
      ensures packetSeq == (firstSeq + plan.total) % 0x1_0000
      ensures |batch| == plan.total
      ensures forall n :: 0 <= n < plan.total ==>
        && IsVideoItem(batch[n], frame, id, firstSeq, plan, now, n)
        && IsDatagram(batch[n].bytes, frame, id, firstSeq, fecTableId, plan, maxPayload, n)
    {
      hide IsDatagram;
      batch := [];
      for n := 0 to plan.total
        invariant packetSeq == (firstSeq + n) % 0x1_0000 && |batch| == n
        invariant forall k :: 0 <= k < n ==>
          && IsVideoItem(batch[k], frame, id, firstSeq, plan, now, k)
          && IsDatagram(batch[k].bytes, frame, id, firstSeq, fecTableId, plan, maxPayload, k)
      {
        var s := NextSeq(firstSeq, n);
        var bytes := Packet(frame, id, plan, n, Fragment(frame.data, maxPayload, n), firstSeq, s);
        batch := batch + [ItemFor(frame, id, s, false, now, bytes)];
      }
    }

    /** The parity datagrams: payload q belongs to row q / groups of group q mod groups. */
    method ParityItems(frame: InputFrame, id: nat, plan: Plan, ghost firstSeq: nat, now: nat, payloads: seq<seq<byte>>)
      returns (batch: seq<QueueItem>)
      requires plan.total < 0x1_0000 && id < 0x1_0000_0000 && packetSeq == (firstSeq + plan.total) % 0x1_0000
      requires plan.groups > 0 && |payloads| == plan.groups * plan.r
      requires forall q :: 0 <= q < |payloads| ==> IsPayload(payloads[q], frame.data, plan, maxPayload, plan.total + q)
      modifies `packetSeq
      ensures packetSeq == (firstSeq + plan.Count()) % 0x1_0000
      ensures |batch| == plan.groups * plan.r
      ensures forall q :: 0 <= q < |batch| ==>
        && IsVideoItem(batch[q], frame, id, firstSeq, plan, now, plan.total + q)
        && IsDatagram(batch[q].bytes, frame, id, firstSeq, fecTableId, plan, maxPayload, plan.total + q)
    {
      hide IsDatagram, IsPayload;
      batch := [];
      for q := 0 to |payloads|
        invariant packetSeq == (firstSeq + plan.total + q) % 0x1_0000 && |batch| == q
        invariant forall k :: 0 <= k < q ==>
          && IsVideoItem(batch[k], frame, id, firstSeq, plan, now, plan.total + k)
          && IsDatagram(batch[k].bytes, frame, id, firstSeq, fecTableId, plan, maxPayload, plan.total + k)
      {
        var s := NextSeq(firstSeq, plan.total + q);
        var bytes := Packet(frame, id, plan, plan.total + q, payloads[q], firstSeq, s);
        batch := batch + [ItemFor(frame, id, s, true, now, bytes)];
      }
    }

    /** Everything processFrame hands to the send queue for one frame. */
    method BuildBatch(frame: InputFrame, now: nat) returns (batch: seq<QueueItem>)
      requires Valid() && maxPayload > 0
      modifies `frameId, `packetSeq, fec`cache, fec.tables.Repr()
      ensures Valid()
      ensures var plan := PlanFor(table, fecTableId, |frame.data|, maxPayload);
              && frameId == (old(frameId) + 1) % 0x1_0000_0000
              && packetSeq == (old(packetSeq) + plan.Count()) % 0x1_0000
              && |batch| == plan.Count() + 1
              && (forall n :: 0 <= n < plan.Count() ==>
                    && IsVideoItem(batch[n], frame, old(frameId), old(packetSeq), plan, now, n)
                    && IsDatagram(batch[n].bytes, frame, old(frameId), old(packetSeq), fecTableId, plan, maxPayload, n))
              && IsGroupEnd(batch[plan.Count()], frame, old(frameId), now)
      ensures var total := TotalFragments(|frame.data|, maxPayload);
              SourcesThenParity(batch, total, ParityDatagrams(table, fecTableId, total))
    {
      hide IsDatagram, IsVideoItem, IsGroupEnd, SourcesThenParity, ParityDatagrams, IsParityPayload, SendQueue.Valid;
      hide FecV2.Valid;
      ghost var firstSeq := packetSeq;
      var plan := PlanFor(table, fecTableId, |frame.data|, maxPayload);
      var id := frameId;
      frameId := (frameId + 1) % 0x1_0000_0000;
      batch := SourceItems(frame, id, plan, firstSeq, now);
      if plan.groups > 0 {
        var payloads := ParityPayloads(frame, plan);
        var parity := ParityItems(frame, id, plan, firstSeq, now, payloads);
        batch := batch + parity;
      }
      var end := EndFor(frame, id, now);
      EndMatches(frame, id, now);
      batch := batch + [end];
      BatchIsSorted(batch, frame, id, firstSeq, plan, now);
    }

    /** The zero-filled shells of the parity datagrams, filled in place by the encoder. */
    method ParityPayloads(frame: InputFrame, plan: Plan) returns (payloads: seq<seq<byte>>)
      requires fec.Valid() && maxPayload > 0 && table.Shaped()
      requires plan == PlanFor(table, fecTableId, |frame.data|, maxPayload) && plan.groups > 0
      modifies fec`cache, fec.tables.Repr()
      ensures fec.Valid() && |payloads| == plan.groups * plan.r
      ensures forall q :: 0 <= q < |payloads| ==> IsPayload(payloads[q], frame.data, plan, maxPayload, plan.total + q)
    {
      hide FecV2.Valid, IsParityPayload, GetParams;
      payloads := fec.FillShells(frame.data, plan.total, plan.groups, plan.r, maxPayload);
      if |frame.data| == 0 {
        NothingToProtect(payloads, plan, maxPayload);
      }
    }

    /** processFrame: nothing at all without a payload budget, otherwise one batch for the queue. */
    method ProcessFrame(frame: InputFrame, now: nat) returns (ghost batch: seq<QueueItem>)
      requires Valid()
      modifies `frameId, `packetSeq, fec`cache, fec.tables.Repr(), sendQueue
      ensures Valid()
      ensures maxPayload == 0 ==> batch == [] && unchanged(sendQueue) && unchanged(this)
      ensures maxPayload > 0 ==>
        var total := TotalFragments(|frame.data|, maxPayload);
        SourcesThenParity(batch, total, ParityDatagrams(table, fecTableId, total))
      ensures maxPayload > 0 ==>
        var plan := PlanFor(table, fecTableId, |frame.data|, maxPayload);
        && frameId == (old(frameId) + 1) % 0x1_0000_0000
        && packetSeq == (old(packetSeq) + plan.Count()) % 0x1_0000
        && |batch| == plan.Count() + 1
        && (forall n :: 0 <= n < plan.Count() ==>
              && IsVideoItem(batch[n], frame, old(frameId), old(packetSeq), plan, now, n)
              && IsDatagram(batch[n].bytes, frame, old(frameId), old(packetSeq), fecTableId, plan, maxPayload, n))
        && IsGroupEnd(batch[plan.Count()], frame, old(frameId), now)
        && (sendQueue.running ==>
              Enforced(Backlog(old(sendQueue.queue), batch, sendQueue.protectedGroup), sendQueue.queue,
                       sendQueue.protectedGroup, sendQueue.maxPackets, sendQueue.maxBytes)
              && sendQueue.queue == Evicted(Backlog(old(sendQueue.queue), batch, sendQueue.protectedGroup),
                                            sendQueue.protectedGroup, sendQueue.maxPackets, sendQueue.maxBytes))
    {
      hide IsDatagram, IsVideoItem, IsGroupEnd, SourcesThenParity, ParityDatagrams, SendQueue.Valid, FecV2.Valid;
      hide Enforced, Backlog, Evicted, PlanFor;
      batch := [];
      if maxPayload == 0 {
        return;
      }
      var items := BuildBatch(frame, now);
      sendQueue.PushBatch(items);
      batch := items;
    }
  }

  /** An empty frame has no fragments, and zero bytes are its parity. */
  lemma NothingToProtect(payloads: seq<seq<byte>>, plan: Plan, maxPayload: nat)
    requires plan.total == 0 && plan.groups > 0
    requires forall q :: 0 <= q < |payloads| ==> |payloads[q]| == maxPayload
    requires forall q, b :: 0 <= q < |payloads| && 0 <= b < maxPayload ==> payloads[q][b] == 0
    ensures forall q :: 0 <= q < |payloads| ==>
      IsParityPayload(payloads[q], [], plan.total, plan.groups, q % plan.groups, q / plan.groups, maxPayload)
  {
    forall q, b | 0 <= q < |payloads| && 0 <= b < maxPayload
      ensures payloads[q][b]
           == ParityByte(GroupBytes([], maxPayload, plan.groups, q % plan.groups, b, 0), q / plan.groups)
    {
      ParityByteOfNothing([], maxPayload, plan.groups, q % plan.groups, b, q / plan.groups);
    }
  }
}
