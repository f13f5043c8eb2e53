/**
 What the datagrams of a frame are for: fragment indices never clash, the sources concatenate
 to the frame, and any received datagrams that miss at most r of each group determine the frame.
 */
module FrameRecovery {
  import opened CauchyCode
  import opened Counting
  import opened Fec
  import opened Gf256
  import opened InputQueues
  import opened Numbers
  import opened PacketCodec
  import opened VideoFrames

  // ---- fragmentation ---------------------------------------------------------------------

  /** The source payloads 0..n-1 end to end. */
  function Joined(data: seq<byte>, maxPayload: nat, n: nat): seq<byte> {
    if n == 0 then [] else Joined(data, maxPayload, n - 1) + Fragment(data, maxPayload, n - 1)
  }

  lemma {:induction false} JoinedPrefix(data: seq<byte>, maxPayload: nat, n: nat)
    requires maxPayload > 0
    ensures Joined(data, maxPayload, n) == data[..Min(n * maxPayload, |data|)]
  {
    if n > 0 {
      JoinedPrefix(data, maxPayload, n - 1);
      hide Min;
      FragmentFollows(data, maxPayload, n - 1);
    }
  }

  lemma FragmentFollows(data: seq<byte>, maxPayload: nat, n: nat)
    requires maxPayload > 0
    ensures data[..Min(n * maxPayload, |data|)] + Fragment(data, maxPayload, n)
         == data[..Min((n + 1) * maxPayload, |data|)]
  {
    var at := n * maxPayload;
    assert (n + 1) * maxPayload == at + maxPayload;
    if at < |data| {
      var end := Min(at + maxPayload, |data|);
      assert data[..end] == data[..at] + data[at..end];
    }
  }

  lemma CeilingCovers(size: nat, m: nat)
    requires m > 0
    ensures var t := (size + m - 1) / m; size <= t * m && (t > 0 ==> (t - 1) * m < size)
  {
    var t := (size + m - 1) / m;
    assert size + m - 1 == t * m + (size + m - 1) % m;
    if t > 0 {
      assert (t - 1) * m == t * m - m;
    }
  }

  lemma FragmentCount(size: nat, m: nat)
    requires m > 0
    ensures size <= 0xFFFF * m <==> (size + m - 1) / m <= 0xFFFF
  {
    CeilingCovers(size, m);
    var t := (size + m - 1) / m;
    if t <= 0xFFFF {
      MulLe(t, 0xFFFF, m);
    } else {
      MulLe(0xFFFF, t - 1, m);
    }
  }

  /** The source payloads carry the whole frame exactly when the fragment count fits its 16 bits. */
  lemma SourcesCarryFrame(data: seq<byte>, maxPayload: nat)
    requires maxPayload > 0
    ensures Joined(data, maxPayload, TotalFragments(|data|, maxPayload)) == data <==> |data| <= 0xFFFF * maxPayload
  {
    var t := (|data| + maxPayload - 1) / maxPayload;
    var cut := TotalFragments(|data|, maxPayload);
    CutCount(|data|, maxPayload);
    JoinedPrefix(data, maxPayload, cut);
    CeilingCovers(|data|, maxPayload);
    FragmentCount(|data|, maxPayload);
    hide Joined, TotalFragments;
    PrefixIsWhole(data, Min(cut * maxPayload, |data|));
    if t > 0xFFFF {
      MulLe(cut, t - 1, maxPayload);
    }
  }

  lemma PrefixIsWhole(data: seq<byte>, n: nat)
    requires n <= |data|
    ensures data[..n] == data <==> n == |data|
  {}

  /** The 16-bit count loses whole turns. */
  lemma CutCount(size: nat, maxPayload: nat)
    requires maxPayload > 0
    ensures var t := (size + maxPayload - 1) / maxPayload;
            && (t <= 0xFFFF ==> TotalFragments(size, maxPayload) == t)
            && (t > 0xFFFF ==> TotalFragments(size, maxPayload) < t)
  {}

  lemma PlanFits(table: FecTable, tableId: byte, size: nat, maxPayload: nat)
    requires table.Shaped() && maxPayload > 0
    ensures var plan := PlanFor(table, tableId, size, maxPayload);
            plan.total < 0x1_0000 && plan.Count() < 0x1_0000
  {
    var plan := PlanFor(table, tableId, size, maxPayload);
    if plan.groups > 0 {
      MulLe(plan.groups, 255, plan.r);
      MulLe(plan.r, 255, 255);
    }
  }

  /** The header of a datagram, read back by the receiver. */
  lemma DatagramHeader(bytes: seq<byte>, frame: InputFrame, frameId: nat, firstSeq: nat, tableId: byte, plan: Plan,
                       maxPayload: nat, n: nat)
    requires IsDatagram(bytes, frame, frameId, firstSeq, tableId, plan, maxPayload, n)
    ensures |bytes| >= HEADER_BYTES
    ensures DecodeHeader(bytes) == Header(frame, frameId, firstSeq, tableId, plan, maxPayload, n)
  {
    hide EncodeHeader, DecodeHeader, IsPayload;
    DecodeEncode(Header(frame, frameId, firstSeq, tableId, plan, maxPayload, n), bytes[HEADER_BYTES..]);
  }

  /** The receiver finds datagram n under FragmentIndex n: indices are distinct. */
  lemma FragmentIndexIsPosition(list: seq<seq<byte>>, frame: InputFrame, frameId: nat, firstSeq: nat, table: FecTable,
                                tableId: byte, maxPayload: nat, n: nat)
    requires table.Shaped() && maxPayload > 0
    requires var plan := PlanFor(table, tableId, |frame.data|, maxPayload);
             IsDatagrams(list, frame, frameId, firstSeq, tableId, plan, maxPayload)
    requires n < |list|
    ensures |list[n]| >= HEADER_BYTES && DecodeHeader(list[n]).fragmentIndex == n
    ensures DecodeHeader(list[n]).framePayloadLength == |frame.data| % 0x1_0000_0000
  {
    var plan := PlanFor(table, tableId, |frame.data|, maxPayload);
    assert |list| == plan.Count() && IsDatagram(list[n], frame, frameId, firstSeq, tableId, plan, maxPayload, n);
    hide *;
    PlanFits(table, tableId, |frame.data|, maxPayload);
    DatagramHeader(list[n], frame, frameId, firstSeq, tableId, plan, maxPayload, n);
    HeaderNames(frame, frameId, firstSeq, tableId, plan, maxPayload, n);
  }

  /** Every field of datagram n, as the receiver reads it off the wire. */
  lemma DatagramFields(list: seq<seq<byte>>, frame: InputFrame, frameId: nat, firstSeq: nat, table: FecTable,
                       tableId: byte, maxPayload: nat, n: nat)
    requires table.Shaped() && maxPayload > 0 && frameId < 0x1_0000_0000
    requires var plan := PlanFor(table, tableId, |frame.data|, maxPayload);
             IsDatagrams(list, frame, frameId, firstSeq, tableId, plan, maxPayload)
    requires n < |list|
    ensures |list[n]| >= HEADER_BYTES
    ensures var h, total := DecodeHeader(list[n]), TotalFragments(|frame.data|, maxPayload);
            && h.packetType == 1 && h.packetSeqNum == (firstSeq + n) % 0x1_0000
            && h.timestamp == frame.ntpTimestamp % 0x1_0000_0000_0000_0000
            && h.frameId == frameId && h.fragmentIndex == n && h.totalFragments == total
            && h.payloadLength == (|list[n]| - HEADER_BYTES) % 0x1_0000
            && h.framePayloadLength == |frame.data| % 0x1_0000_0000
            && h.fecTableId == (if AsksParity(table, tableId, total) then tableId else 0)
            && h.keyframeFlag in {0, 1} && (h.keyframeFlag == 1 <==> frame.keyframe)
  {
    var plan := PlanFor(table, tableId, |frame.data|, maxPayload);
    assert |list| == plan.Count() && IsDatagram(list[n], frame, frameId, firstSeq, tableId, plan, maxPayload, n);
    assert plan.groups > 0 <==> AsksParity(table, tableId, plan.total);
    hide *;
    PlanFits(table, tableId, |frame.data|, maxPayload);
    DatagramHeader(list[n], frame, frameId, firstSeq, tableId, plan, maxPayload, n);
    HeaderFields(list[n], frame, frameId, firstSeq, tableId, plan, maxPayload, n);
  }

  lemma HeaderFields(d: seq<byte>, frame: InputFrame, frameId: nat, firstSeq: nat, tableId: byte, plan: Plan,
                     maxPayload: nat, n: nat)
    requires IsDatagram(d, frame, frameId, firstSeq, tableId, plan, maxPayload, n)
    requires n < 0x1_0000 && frameId < 0x1_0000_0000 && plan.total < 0x1_0000
    ensures var h := Header(frame, frameId, firstSeq, tableId, plan, maxPayload, n);
            && h.packetType == 1 && h.packetSeqNum == (firstSeq + n) % 0x1_0000
            && h.timestamp == frame.ntpTimestamp % 0x1_0000_0000_0000_0000
            && h.frameId == frameId && h.fragmentIndex == n && h.totalFragments == plan.total
            && h.payloadLength == (|d| - HEADER_BYTES) % 0x1_0000
            && h.framePayloadLength == |frame.data| % 0x1_0000_0000
            && h.fecTableId == (if plan.groups > 0 then tableId else 0)
            && h.keyframeFlag in {0, 1} && (h.keyframeFlag == 1 <==> frame.keyframe)
  {
    hide EncodeHeader, IsParityPayload, Fragment;
  }

  lemma HeaderNames(frame: InputFrame, frameId: nat, firstSeq: nat, tableId: byte, plan: Plan, maxPayload: nat, n: nat)
    requires n < 0x1_0000
    ensures var h := Header(frame, frameId, firstSeq, tableId, plan, maxPayload, n);
            h.fragmentIndex == n && h.framePayloadLength == |frame.data| % 0x1_0000_0000
  {
    hide Fragment;
  }

  // ---- recovery --------------------------------------------------------------------------

  /** Where symbol s of a group travels: its k sources first, then its parities. */
  function Position(plan: Plan, g: nat, s: nat): nat
    requires plan.groups > 0
  {
    var k := GroupSize(plan.total, plan.groups, g);
    if s < k then g + s * plan.groups else plan.total + ((s - k) * plan.groups + g)
  }

  lemma PositionInRange(plan: Plan, g: nat, s: nat)
    requires g < plan.groups && s < GroupSize(plan.total, plan.groups, g) + plan.r
    ensures Position(plan, g, s) < plan.Count()
    ensures s < GroupSize(plan.total, plan.groups, g) <==> Position(plan, g, s) < plan.total
  {
    var k := GroupSize(plan.total, plan.groups, g);
    GroupSizeNext(plan.total, plan.groups, g, s);
    if s >= k {
      FlatIndex(s - k, g, plan.groups, plan.r);
    }
  }

  /** The symbols of a group whose datagrams did not arrive. */
  ghost function Lost(list: seq<seq<byte>>, plan: Plan, received: set<seq<byte>>, g: nat): (lost: set<nat>)
    requires |list| == plan.Count() && g < plan.groups
    ensures lost <= Below(GroupSize(plan.total, plan.groups, g) + plan.r)
  {
    set s | s in Below(GroupSize(plan.total, plan.groups, g) + plan.r)
            && (PositionInRange(plan, g, s); list[Position(plan, g, s)] !in received)
  }

  /** At most r datagrams of each group are missing; without parity, no source is. */
  ghost predicate LossWithin(list: seq<seq<byte>>, plan: Plan, received: set<seq<byte>>)
    requires |list| == plan.Count()
  {
    && (plan.groups == 0 ==> forall n :: 0 <= n < plan.total ==> list[n] in received)
    && (forall g :: 0 <= g < plan.groups ==> |Lost(list, plan, received, g)| <= plan.r)
  }

  /** The table never asks for more sources or parities in a group than the field tells apart. */
  ghost predicate FitsField(table: FecTable)
    requires table.Shaped()
  {
    forall total, g :: 0 <= total < 256 && table.groupsByN[total] > 0 && 0 <= g < table.groupsByN[total] ==>
      GroupSize(total, table.groupsByN[total], g) <= 128 && table.rByN[total] <= 128
  }

  lemma ReceivedSymbols(list: seq<seq<byte>>, plan: Plan, received: set<seq<byte>>, g: nat) returns (got: set<nat>)
    requires |list| == plan.Count() && g < plan.groups && |Lost(list, plan, received, g)| <= plan.r
    ensures var k := GroupSize(plan.total, plan.groups, g);
            got <= Below(k + plan.r) && |got| >= k
    ensures forall s :: s in got ==>
              s < GroupSize(plan.total, plan.groups, g) + plan.r
              && Position(plan, g, s) < plan.Count() && list[Position(plan, g, s)] in received
  {
    hide GroupSize, Position, Lost, Below;
    var all := Below(GroupSize(plan.total, plan.groups, g) + plan.r);
    var lost := Lost(list, plan, received, g);
    got := all - lost;
    BelowSize(GroupSize(plan.total, plan.groups, g) + plan.r);
    DifferenceSize(all, lost);
    forall s | s in got
      ensures Position(plan, g, s) < plan.Count() && list[Position(plan, g, s)] in received
    {
      NotLost(list, plan, received, g, s);
    }
  }

  lemma DifferenceSize(all: set<nat>, lost: set<nat>)
    requires lost <= all
    ensures |all - lost| == |all| - |lost|
  {
    assert all == (all - lost) + lost;
  }

  lemma NotLost(list: seq<seq<byte>>, plan: Plan, received: set<seq<byte>>, g: nat, s: nat)
    requires |list| == plan.Count() && g < plan.groups && s < GroupSize(plan.total, plan.groups, g) + plan.r
    requires s !in Lost(list, plan, received, g)
    ensures Position(plan, g, s) < plan.Count() && list[Position(plan, g, s)] in received
  {
    PositionInRange(plan, g, s);
  }

  lemma SomethingArrived(list: seq<seq<byte>>, plan: Plan, received: set<seq<byte>>) returns (n: nat)
    requires |list| == plan.Count() && plan.total > 0 && LossWithin(list, plan, received)
    ensures n < plan.Count() && list[n] in received
  {
    if plan.groups == 0 {
      n := 0;
    } else {
      var got := ReceivedSymbols(list, plan, received, 0);
      GroupSizeNext(plan.total, plan.groups, 0, 0);
      assert got != {};
      var s :| s in got;
      n := Position(plan, 0, s);
    }
  }

  /** A padded byte is the fragment's byte, or zero past its end. */
  lemma PaddedFragment(data: seq<byte>, maxPayload: nat, n: nat, b: nat)
    requires b < maxPayload
    ensures var f := Fragment(data, maxPayload, n);
            PaddedByte(data, maxPayload, n, b) == if b < |f| then f[b] else 0
  {}

  /** Equal payloads at a position mean equal symbols of the group at every byte position. */
  lemma SamePayloadSameSymbol(data1: seq<byte>, data2: seq<byte>, payload: seq<byte>, plan: Plan, maxPayload: nat,
                              g: nat, s: nat, b: nat)
    requires g < plan.groups && s < GroupSize(plan.total, plan.groups, g) + plan.r && b < maxPayload
    requires IsPayload(payload, data1, plan, maxPayload, Position(plan, g, s))
    requires IsPayload(payload, data2, plan, maxPayload, Position(plan, g, s))
    ensures var k := GroupSize(plan.total, plan.groups, g);
            Symbol(GroupBytes(data1, maxPayload, plan.groups, g, b, k), s)
            == Symbol(GroupBytes(data2, maxPayload, plan.groups, g, b, k), s)
  {
    hide ParityByte, Fragment, PaddedByte, GroupSize;
    var k := GroupSize(plan.total, plan.groups, g);
    PositionInRange(plan, g, s);
    if s < k {
      PaddedFragment(data1, maxPayload, g + s * plan.groups, b);
      PaddedFragment(data2, maxPayload, g + s * plan.groups, b);
    } else {
      FlatIndex(s - k, g, plan.groups, plan.r);
    }
  }

  /** Byte b of the group's j-th source reads the same in both frames. */
  ghost predicate SameByte(data1: seq<byte>, data2: seq<byte>, plan: Plan, maxPayload: nat, g: nat, j: nat, b: nat) {
    PaddedByte(data1, maxPayload, g + j * plan.groups, b) == PaddedByte(data2, maxPayload, g + j * plan.groups, b)
  }

  /** What travels at this position is a payload of both frames. */
  ghost predicate SymbolArrived(payloads: seq<seq<byte>>, data1: seq<byte>, data2: seq<byte>, plan: Plan,
                                maxPayload: nat, n: nat) {
    && n < |payloads|
    && IsPayload(payloads[n], data1, plan, maxPayload, n) && IsPayload(payloads[n], data2, plan, maxPayload, n)
  }

  /** The symbols of the group that arrived. */
  ghost predicate AllArrived(payloads: seq<seq<byte>>, data1: seq<byte>, data2: seq<byte>, plan: Plan,
                             maxPayload: nat, g: nat, got: set<nat>)
    requires plan.groups > 0
  {
    forall s :: s in got ==> SymbolArrived(payloads, data1, data2, plan, maxPayload, Position(plan, g, s))
  }

  /** One group, one byte position: the received symbols give back all its source bytes. */
  lemma GroupRecovered(data1: seq<byte>, data2: seq<byte>, payloads: seq<seq<byte>>, plan: Plan, maxPayload: nat,
                       g: nat, got: set<nat>, b: nat)
    requires g < plan.groups && b < maxPayload && |payloads| == plan.Count()
    requires GroupSize(plan.total, plan.groups, g) <= 128 && plan.r <= 128
    requires got <= Below(GroupSize(plan.total, plan.groups, g) + plan.r)
    requires |got| >= GroupSize(plan.total, plan.groups, g)
    requires AllArrived(payloads, data1, data2, plan, maxPayload, g, got)
    ensures forall j: nat :: j < GroupSize(plan.total, plan.groups, g) ==>
      SameByte(data1, data2, plan, maxPayload, g, j, b)
  {
    hide GroupSize, IsPayload, PaddedByte, Symbol, Position;
    var k := GroupSize(plan.total, plan.groups, g);
    var x1 := GroupBytes(data1, maxPayload, plan.groups, g, b, k);
    var x2 := GroupBytes(data2, maxPayload, plan.groups, g, b, k);
    forall s | s in got ensures Symbol(x1, s) == Symbol(x2, s) {
      SamePayloadSameSymbol(data1, data2, payloads[Position(plan, g, s)], plan, maxPayload, g, s, b);
    }
    AnyKSymbolsDecode(x1, x2, plan.r, got);
    forall j: nat | j < k ensures SameByte(data1, data2, plan, maxPayload, g, j, b) {
      assert x1[j] == x2[j];
    }
  }

  /** A frame, the counters it was sent under, and its datagrams. */
  datatype Transmission = Transmission(frame: InputFrame, frameId: nat, firstSeq: nat, list: seq<seq<byte>>)

  /** The list is what processFrame sends for the frame. */
  ghost predicate IsTransmission(t: Transmission, table: FecTable, tableId: byte, maxPayload: nat)
    requires table.Shaped() && maxPayload > 0
  {
    && |t.frame.data| < 0x1_0000_0000
    && IsDatagrams(t.list, t.frame, t.frameId, t.firstSeq, tableId,
                   PlanFor(table, tableId, |t.frame.data|, maxPayload), maxPayload)
  }

  /** A datagram common to two transmissions sits at the same index, and both frames have the same size. */
  lemma SameDatagram(t1: Transmission, t2: Transmission, received: set<seq<byte>>, table: FecTable, tableId: byte,
                     maxPayload: nat, n: nat)
    requires table.Shaped() && maxPayload > 0
    requires IsTransmission(t1, table, tableId, maxPayload) && IsTransmission(t2, table, tableId, maxPayload)
    requires received <= Elements(t2.list) && n < |t1.list| && t1.list[n] in received
    ensures n < |t2.list| && t1.list[n] == t2.list[n] && |t1.frame.data| == |t2.frame.data|
  {
    hide DecodeHeader, IsDatagrams, PlanFor;
    assert t1.list[n] in Elements(t2.list);
    var m: nat :| m < |t2.list| && t2.list[m] == t1.list[n];
    FragmentIndexIsPosition(t1.list, t1.frame, t1.frameId, t1.firstSeq, table, tableId, maxPayload, n);
    FragmentIndexIsPosition(t2.list, t2.frame, t2.frameId, t2.firstSeq, table, tableId, maxPayload, m);
  }

  ghost function Payloads(list: seq<seq<byte>>): (p: seq<seq<byte>>)
    ensures |p| == |list|
    ensures forall n :: 0 <= n < |list| && |list[n]| >= HEADER_BYTES ==> p[n] == list[n][HEADER_BYTES..]
  {
    seq(|list|, n requires 0 <= n < |list| => if |list[n]| >= HEADER_BYTES then list[n][HEADER_BYTES..] else [])
  }

  /** Every byte of the data is a padded byte of some fragment of some group. */
  lemma BytesFromGroups(data1: seq<byte>, data2: seq<byte>, plan: Plan, maxPayload: nat)
    requires |data1| == |data2| && maxPayload > 0 && plan.groups > 0 && |data1| <= plan.total * maxPayload
    requires forall g, j, b ::
      0 <= g < plan.groups && 0 <= j < GroupSize(plan.total, plan.groups, g) && 0 <= b < maxPayload ==>
      SameByte(data1, data2, plan, maxPayload, g, j, b)
    ensures data1 == data2
  {
    hide GroupSize, PaddedByte;
    forall i | 0 <= i < |data1| ensures data1[i] == data2[i] {
      var n, b := ByteOfFragment(data1, maxPayload, i);
      PaddedAt(data1, maxPayload, n, b, i);
      PaddedAt(data2, maxPayload, n, b, i);
      if n >= plan.total {
        MulLe(plan.total, n, maxPayload);
      }
      var g, j := SourceOfGroup(plan, n);
      assert SameByte(data1, data2, plan, maxPayload, g, j, b);
    }
  }

  lemma ByteOfFragment(data: seq<byte>, maxPayload: nat, i: nat) returns (n: nat, b: nat)
    requires maxPayload > 0
    ensures i == n * maxPayload + b && b < maxPayload
  {
    n, b := i / maxPayload, i % maxPayload;
  }

  lemma PaddedAt(data: seq<byte>, maxPayload: nat, n: nat, b: nat, i: nat)
    requires i < |data| && i == n * maxPayload + b
    ensures PaddedByte(data, maxPayload, n, b) == data[i]
  {}

  lemma SourceOfGroup(plan: Plan, n: nat) returns (g: nat, j: nat)
    requires plan.groups > 0 && n < plan.total
    ensures g < plan.groups && n == g + j * plan.groups && j < GroupSize(plan.total, plan.groups, g)
  {
    j, g := n / plan.groups, n % plan.groups;
    GroupSizeNext(plan.total, plan.groups, g, j);
  }

  lemma BytesFromSources(data1: seq<byte>, data2: seq<byte>, maxPayload: nat, n: nat)
    requires forall k :: 0 <= k < n ==> Fragment(data1, maxPayload, k) == Fragment(data2, maxPayload, k)
    ensures Joined(data1, maxPayload, n) == Joined(data2, maxPayload, n)
  {
    hide Fragment;
    if n > 0 {
      BytesFromSources(data1, data2, maxPayload, n - 1);
    }
  }

  /** All byte positions of all groups agree. */
  lemma AllGroupsRecovered(list: seq<seq<byte>>, data1: seq<byte>, data2: seq<byte>, plan: Plan, maxPayload: nat,
                           received: set<seq<byte>>)
    requires |list| == plan.Count() && LossWithin(list, plan, received) && plan.groups > 0 && plan.r <= 128
    requires forall g :: 0 <= g < plan.groups ==> GroupSize(plan.total, plan.groups, g) <= 128
    requires forall n :: 0 <= n < |list| && list[n] in received ==>
      && IsPayload(Payloads(list)[n], data1, plan, maxPayload, n)
      && IsPayload(Payloads(list)[n], data2, plan, maxPayload, n)
    ensures forall g, j, b ::
      0 <= g < plan.groups && 0 <= j < GroupSize(plan.total, plan.groups, g) && 0 <= b < maxPayload ==>
      SameByte(data1, data2, plan, maxPayload, g, j, b)
  {
    hide IsPayload, PaddedByte, GroupSize, Position, Payloads;
    forall g: nat, j: nat, b: nat | g < plan.groups && j < GroupSize(plan.total, plan.groups, g) && b < maxPayload
      ensures SameByte(data1, data2, plan, maxPayload, g, j, b)
    {
      var got := ReceivedSymbols(list, plan, received, g);
      GroupRecovered(data1, data2, Payloads(list), plan, maxPayload, g, got, b);
    }
  }

  /** What arrived is a payload of both frames at its index. */
  lemma ArrivedPayloads(t1: Transmission, t2: Transmission, received: set<seq<byte>>, table: FecTable, tableId: byte,
                        maxPayload: nat, n: nat)
    requires table.Shaped() && maxPayload > 0
    requires IsTransmission(t1, table, tableId, maxPayload) && IsTransmission(t2, table, tableId, maxPayload)
    requires received <= Elements(t2.list) && n < |t1.list| && t1.list[n] in received
    ensures var plan := PlanFor(table, tableId, |t1.frame.data|, maxPayload);
            && IsPayload(Payloads(t1.list)[n], t1.frame.data, plan, maxPayload, n)
            && IsPayload(Payloads(t1.list)[n], t2.frame.data, plan, maxPayload, n)
  {
    hide PlanFor, IsPayload, EncodeHeader;
    SameDatagram(t1, t2, received, table, tableId, maxPayload, n);
  }

  lemma PlanCovers(table: FecTable, tableId: byte, size: nat, maxPayload: nat)
    requires table.Shaped() && FitsField(table) && maxPayload > 0 && 0 < size <= 0xFFFF * maxPayload
    ensures var plan := PlanFor(table, tableId, size, maxPayload);
            && size <= plan.total * maxPayload && plan.total > 0
            && (plan.groups > 0 ==> plan.r <= 128)
            && forall g :: 0 <= g < plan.groups ==> GroupSize(plan.total, plan.groups, g) <= 128
  {
    FragmentCount(size, maxPayload);
    CeilingCovers(size, maxPayload);
    var plan := PlanFor(table, tableId, size, maxPayload);
    assert plan.groups > 0 ==> GroupSize(plan.total, plan.groups, 0) <= 128;
  }

  /**
   End-to-end recovery. Take any two frames whose transmissions contain the datagrams that
   arrived. If, of the first transmission, each group misses at most r datagrams, the two
   frames are the same: what arrived determines the frame.
   */
  lemma FrameRecovered(t1: Transmission, t2: Transmission, received: set<seq<byte>>, table: FecTable, tableId: byte,
                       maxPayload: nat)
    requires table.Shaped() && FitsField(table) && maxPayload > 0
    requires IsTransmission(t1, table, tableId, maxPayload) && IsTransmission(t2, table, tableId, maxPayload)
    requires 0 < |t1.frame.data| <= 0xFFFF * maxPayload
    requires received <= Elements(t1.list) && received <= Elements(t2.list)
    requires LossWithin(t1.list, PlanFor(table, tableId, |t1.frame.data|, maxPayload), received)
    ensures t1.frame.data == t2.frame.data
  {
    var plan := PlanFor(table, tableId, |t1.frame.data|, maxPayload);
    PlanCovers(table, tableId, |t1.frame.data|, maxPayload);
    hide PlanFor, IsPayload, LossWithin, FitsField, GroupSize;
    assert |t1.list| == plan.Count();
    hide IsTransmission;
    var first := SomethingArrived(t1.list, plan, received);
    SameDatagram(t1, t2, received, table, tableId, maxPayload, first);
    forall n: nat | n < |t1.list| && t1.list[n] in received
      ensures IsPayload(Payloads(t1.list)[n], t1.frame.data, plan, maxPayload, n)
      ensures IsPayload(Payloads(t1.list)[n], t2.frame.data, plan, maxPayload, n)
    {
      ArrivedPayloads(t1, t2, received, table, tableId, maxPayload, n);
    }
    if plan.groups > 0 {
      AllGroupsRecovered(t1.list, t1.frame.data, t2.frame.data, plan, maxPayload, received);
      BytesFromGroups(t1.frame.data, t2.frame.data, plan, maxPayload);
    } else {
      NoParityRecovered(t1.list, t1.frame.data, t2.frame.data, plan, maxPayload, received);
    }
  }

  lemma NoParityRecovered(list: seq<seq<byte>>, data1: seq<byte>, data2: seq<byte>, plan: Plan, maxPayload: nat,
                          received: set<seq<byte>>)
    requires |list| == plan.Count() && LossWithin(list, plan, received) && plan.groups == 0
    requires |data1| == |data2| <= plan.total * maxPayload && maxPayload > 0
    requires forall n :: 0 <= n < |list| && list[n] in received ==>
      && IsPayload(Payloads(list)[n], data1, plan, maxPayload, n)
      && IsPayload(Payloads(list)[n], data2, plan, maxPayload, n)
    ensures data1 == data2
  {
    forall n | 0 <= n < plan.total ensures Fragment(data1, maxPayload, n) == Fragment(data2, maxPayload, n) {
      assert list[n] in received;
    }
    BytesFromSources(data1, data2, maxPayload, plan.total);
    JoinedPrefix(data1, maxPayload, plan.total);
    JoinedPrefix(data2, maxPayload, plan.total);
  }
}
