/**
 The losses a frame survives, exactly: what arrived determines the frame if and only if each group
 misses at most r datagrams (none, without parity). `FrameRecovery` has one half; here a second
 frame is built, of the same size and under the same header, that what arrived does not exclude.
 It differs in the first byte of fragments only, which is never padding.
 */
module FrameLosses {
  import opened CauchyCode
  import opened CodeTightness
  import opened Counting
  import opened Fec
  import opened FrameRecovery
  import opened Gf256
  import opened Numbers
  import opened PacketCodec
  import opened VideoFrames

  // ---- the other frame's transmission ----------------------------------------------------

  ghost function PayloadOf(data: seq<byte>, plan: Plan, maxPayload: nat, n: nat): (p: seq<byte>)
    requires maxPayload > 0 && n < plan.Count()
    ensures IsPayload(p, data, plan, maxPayload, n)
  {
    if n < plan.total then Fragment(data, maxPayload, n)
    else
      assert plan.groups > 0;
      ParityOf(data, plan, maxPayload, (n - plan.total) % plan.groups, (n - plan.total) / plan.groups)
  }

  ghost function ParityOf(data: seq<byte>, plan: Plan, maxPayload: nat, g: nat, row: nat): (p: seq<byte>)
    requires plan.groups > 0
    ensures |p| == maxPayload && IsParityPayload(p, data, plan.total, plan.groups, g, row, maxPayload)
  {
    var k := GroupSize(plan.total, plan.groups, g);
    seq(maxPayload, b requires 0 <= b < maxPayload =>
      ParityByte(GroupBytes(data, maxPayload, plan.groups, g, b, k), row))
  }

  lemma SameLength(data1: seq<byte>, data2: seq<byte>, maxPayload: nat, n: nat)
    requires |data1| == |data2|
    ensures |Fragment(data1, maxPayload, n)| == |Fragment(data2, maxPayload, n)|
  {}

  /** The first transmission with other data; what arrived is as it was. */
  ghost function Datagram(t: Transmission, data: seq<byte>, received: set<seq<byte>>, tableId: byte, plan: Plan,
                          maxPayload: nat, n: nat): seq<byte>
    requires maxPayload > 0 && n < |t.list| == plan.Count()
  {
    if t.list[n] in received then t.list[n]
    else
      EncodeHeader(Header(t.frame.(data := data), t.frameId, t.firstSeq, tableId, plan, maxPayload, n))
      + PayloadOf(data, plan, maxPayload, n)
  }

  lemma DatagramIs(t: Transmission, data: seq<byte>, received: set<seq<byte>>, tableId: byte, plan: Plan,
                   maxPayload: nat, n: nat)
    requires maxPayload > 0 && n < |t.list| == plan.Count() && |data| == |t.frame.data|
    requires IsDatagram(t.list[n], t.frame, t.frameId, t.firstSeq, tableId, plan, maxPayload, n)
    requires t.list[n] in received ==> IsPayload(t.list[n][HEADER_BYTES..], data, plan, maxPayload, n)
    ensures var d := Datagram(t, data, received, tableId, plan, maxPayload, n);
            IsDatagram(d, t.frame.(data := data), t.frameId, t.firstSeq, tableId, plan, maxPayload, n)
  {
    hide IsPayload, PayloadOf, Fragment;
    SameLength(t.frame.data, data, maxPayload, n);
    var frame := t.frame.(data := data);
    var header := Header(frame, t.frameId, t.firstSeq, tableId, plan, maxPayload, n);
    assert header == Header(t.frame, t.frameId, t.firstSeq, tableId, plan, maxPayload, n);
    hide Header;
    EncodedLength(header);
    hide EncodeHeader;
    var d := Datagram(t, data, received, tableId, plan, maxPayload, n);
    if t.list[n] !in received {
      assert d[HEADER_BYTES..] == PayloadOf(data, plan, maxPayload, n);
    }
  }

  lemma EncodedLength(header: VideoHeader)
    ensures |EncodeHeader(header)| == HEADER_BYTES
  {}

  ghost function OtherList(t: Transmission, data: seq<byte>, received: set<seq<byte>>, tableId: byte, plan: Plan,
                           maxPayload: nat): (list: seq<seq<byte>>)
    requires maxPayload > 0 && |t.list| == plan.Count()
    ensures |list| == |t.list|
    ensures forall n :: 0 <= n < |list| ==> list[n] == Datagram(t, data, received, tableId, plan, maxPayload, n)
  {
    seq(|t.list|, n requires 0 <= n < |t.list| => Datagram(t, data, received, tableId, plan, maxPayload, n))
  }

  /** Other data of the same size that explain what arrived can have been sent. */
  lemma OtherTransmission(t: Transmission, data: seq<byte>, received: set<seq<byte>>, table: FecTable, tableId: byte,
                          maxPayload: nat) returns (other: Transmission)
    requires table.Shaped() && maxPayload > 0 && IsTransmission(t, table, tableId, maxPayload)
    requires |data| == |t.frame.data| && received <= Elements(t.list)
    requires var plan := PlanFor(table, tableId, |t.frame.data|, maxPayload);
             forall n :: 0 <= n < |t.list| && t.list[n] in received ==>
               |t.list[n]| >= HEADER_BYTES && IsPayload(t.list[n][HEADER_BYTES..], data, plan, maxPayload, n)
    ensures IsTransmission(other, table, tableId, maxPayload) && other.frame.data == data
    ensures received <= Elements(other.list)
  {
    var plan := PlanFor(table, tableId, |t.frame.data|, maxPayload);
    hide PlanFor, IsDatagram, IsPayload, Datagram;
    var list := OtherList(t, data, received, tableId, plan, maxPayload);
    other := Transmission(t.frame.(data := data), t.frameId, t.firstSeq, list);
    forall n | 0 <= n < |list|
      ensures IsDatagram(list[n], other.frame, t.frameId, t.firstSeq, tableId, plan, maxPayload, n)
    {
      DatagramIs(t, data, received, tableId, plan, maxPayload, n);
    }
    forall x | x in received ensures x in Elements(list) {
      var n :| 0 <= n < |t.list| && t.list[n] == x;
      DatagramKept(t, data, received, tableId, plan, maxPayload, n);
      assert list[n] == x;
    }
  }

  lemma DatagramKept(t: Transmission, data: seq<byte>, received: set<seq<byte>>, tableId: byte, plan: Plan,
                     maxPayload: nat, n: nat)
    requires maxPayload > 0 && n < |t.list| == plan.Count() && t.list[n] in received
    ensures Datagram(t, data, received, tableId, plan, maxPayload, n) == t.list[n]
  {}

  lemma SamePadded(data1: seq<byte>, data2: seq<byte>, maxPayload: nat, n: nat)
    requires |data1| == |data2| && maxPayload > 0
    requires forall b :: 0 <= b < maxPayload ==>
      PaddedByte(data1, maxPayload, n, b) == PaddedByte(data2, maxPayload, n, b)
    ensures Fragment(data1, maxPayload, n) == Fragment(data2, maxPayload, n)
  {
    SameLength(data1, data2, maxPayload, n);
    var f1, f2 := Fragment(data1, maxPayload, n), Fragment(data2, maxPayload, n);
    assert |f1| <= maxPayload;
    forall b | 0 <= b < |f1| ensures f1[b] == f2[b] {
      PaddedFragment(data1, maxPayload, n, b);
      PaddedFragment(data2, maxPayload, n, b);
    }
  }

  // ---- without parity --------------------------------------------------------------------

  /** The first byte of a fragment is real data. */
  lemma FirstByteInside(size: nat, maxPayload: nat, n: nat)
    requires maxPayload > 0 && 0 < size <= 0xFFFF * maxPayload && n < TotalFragments(size, maxPayload)
    ensures n * maxPayload < size
  {
    FragmentCount(size, maxPayload);
    CeilingCovers(size, maxPayload);
    var t := (size + maxPayload - 1) / maxPayload;
    assert TotalFragments(size, maxPayload) == t;
    MulLe(n, t - 1, maxPayload);
  }

  lemma OtherFragment(data: seq<byte>, maxPayload: nat, n: nat, x: byte, k: nat)
    requires maxPayload > 0 && n * maxPayload < |data| && k != n
    ensures Fragment(data[n * maxPayload := x], maxPayload, k) == Fragment(data, maxPayload, k)
  {
    var data' := data[n * maxPayload := x];
    forall b | 0 <= b < maxPayload ensures PaddedByte(data, maxPayload, k, b) == PaddedByte(data', maxPayload, k, b) {
      if k * maxPayload + b == n * maxPayload {
        DivModUnique(n * maxPayload, maxPayload, k, b);
        DivModUnique(n * maxPayload, maxPayload, n, 0);
      }
    }
    SamePadded(data, data', maxPayload, k);
  }

  // ---- with parity -----------------------------------------------------------------------

  /** The first byte of the j-th fragment of group g, changed by c[j]. */
  ghost function Changed(data: seq<byte>, plan: Plan, maxPayload: nat, g: nat, c: seq<byte>): (changed: seq<byte>)
    requires plan.groups > 0 && maxPayload > 0
    ensures |changed| == |data|
    ensures forall i :: 0 <= i < |data| ==> changed[i] == ChangedAt(data, plan, maxPayload, g, c, i)
  {
    seq(|data|, i requires 0 <= i < |data| => ChangedAt(data, plan, maxPayload, g, c, i))
  }

  ghost function ChangedAt(data: seq<byte>, plan: Plan, maxPayload: nat, g: nat, c: seq<byte>, i: nat): byte
    requires plan.groups > 0 && maxPayload > 0 && i < |data|
  {
    if i % maxPayload == 0 && (i / maxPayload) % plan.groups == g && (i / maxPayload) / plan.groups < |c|
    then Add(data[i], c[(i / maxPayload) / plan.groups]) else data[i]
  }

  lemma ChangedPadded(data: seq<byte>, plan: Plan, maxPayload: nat, g: nat, c: seq<byte>, h: nat, j: nat, b: nat)
    requires plan.groups > 0 && maxPayload > 0 && h < plan.groups && b < maxPayload
    requires (h + j * plan.groups) * maxPayload < |data| && (h == g ==> j < |c|)
    ensures var n := h + j * plan.groups;
            PaddedByte(Changed(data, plan, maxPayload, g, c), maxPayload, n, b) ==
            if b == 0 && h == g then Add(PaddedByte(data, maxPayload, n, 0), c[j])
            else PaddedByte(data, maxPayload, n, b)
  {
    hide Add;
    var n := h + j * plan.groups;
    DivModUnique(n, plan.groups, j, h);
    DivModUnique(n * maxPayload + b, maxPayload, n, b);
  }

  /** What that does to a byte position of a group. */
  lemma ChangedBytes(data: seq<byte>, plan: Plan, maxPayload: nat, g: nat, c: seq<byte>, h: nat, b: nat)
    requires plan.groups > 0 && maxPayload > 0 && g < plan.groups && h < plan.groups && b < maxPayload
    requires |c| == GroupSize(plan.total, plan.groups, g)
    requires forall n :: 0 <= n < plan.total ==> n * maxPayload < |data|
    ensures var k := GroupSize(plan.total, plan.groups, h);
            var before := GroupBytes(data, maxPayload, plan.groups, h, b, k);
            GroupBytes(Changed(data, plan, maxPayload, g, c), maxPayload, plan.groups, h, b, k) ==
            if b == 0 && h == g then Difference(before, c) else before
  {
    hide GroupSize, PaddedByte, Changed, Add;
    var k := GroupSize(plan.total, plan.groups, h);
    var before := GroupBytes(data, maxPayload, plan.groups, h, b, k);
    var after := GroupBytes(Changed(data, plan, maxPayload, g, c), maxPayload, plan.groups, h, b, k);
    forall j | 0 <= j < k ensures after[j] == if b == 0 && h == g then Add(before[j], c[j]) else before[j] {
      GroupSizeNext(plan.total, plan.groups, h, j);
      ChangedPadded(data, plan, maxPayload, g, c, h, j, b);
    }
  }

  /** A symbol of a group, at every byte position, that a change does not show in. */
  ghost predicate SymbolKept(data: seq<byte>, changed: seq<byte>, plan: Plan, maxPayload: nat, h: nat, s: nat)
    requires plan.groups > 0
  {
    forall b :: 0 <= b < maxPayload ==>
      Symbol(GroupBytes(changed, maxPayload, plan.groups, h, b, GroupSize(plan.total, plan.groups, h)), s)
      == Symbol(GroupBytes(data, maxPayload, plan.groups, h, b, GroupSize(plan.total, plan.groups, h)), s)
  }

  lemma UnseenKept(data: seq<byte>, plan: Plan, maxPayload: nat, g: nat, c: seq<byte>, h: nat, s: nat)
    requires plan.groups > 0 && maxPayload > 0 && g < plan.groups && h < plan.groups
    requires |c| == GroupSize(plan.total, plan.groups, g) && (h == g ==> Symbol(c, s) == 0)
    requires forall n :: 0 <= n < plan.total ==> n * maxPayload < |data|
    ensures SymbolKept(data, Changed(data, plan, maxPayload, g, c), plan, maxPayload, h, s)
  {
    hide GroupSize, Changed, Symbol, GroupBytes, Add;
    var k := GroupSize(plan.total, plan.groups, h);
    var changed := Changed(data, plan, maxPayload, g, c);
    forall b | 0 <= b < maxPayload
      ensures Symbol(GroupBytes(changed, maxPayload, plan.groups, h, b, k), s)
           == Symbol(GroupBytes(data, maxPayload, plan.groups, h, b, k), s)
    {
      ChangedBytes(data, plan, maxPayload, g, c, h, b);
      if b == 0 && h == g {
        var before := GroupBytes(data, maxPayload, plan.groups, h, b, k);
        SymbolLinear(before, c, s);
        AddZero(Symbol(before, s));
      }
    }
  }

  /** A source that is kept is the same fragment, a parity that is kept the same payload. */
  lemma KeptPayload(payload: seq<byte>, data: seq<byte>, changed: seq<byte>, plan: Plan, maxPayload: nat, h: nat,
                    s: nat)
    requires plan.groups > 0 && maxPayload > 0 && |changed| == |data| && h < plan.groups
    requires s < GroupSize(plan.total, plan.groups, h) + plan.r && SymbolKept(data, changed, plan, maxPayload, h, s)
    requires IsPayload(payload, data, plan, maxPayload, Position(plan, h, s))
    ensures IsPayload(payload, changed, plan, maxPayload, Position(plan, h, s))
  {
    hide GroupSize, PaddedByte, Fragment, ParityByte;
    var k := GroupSize(plan.total, plan.groups, h);
    PositionInRange(plan, h, s);
    if s < k {
      var n := Position(plan, h, s);
      forall b | 0 <= b < maxPayload
        ensures PaddedByte(data, maxPayload, n, b) == PaddedByte(changed, maxPayload, n, b)
      {
        assert Symbol(GroupBytes(data, maxPayload, plan.groups, h, b, k), s) == PaddedByte(data, maxPayload, n, b);
        assert Symbol(GroupBytes(changed, maxPayload, plan.groups, h, b, k), s)
             == PaddedByte(changed, maxPayload, n, b);
      }
      SamePadded(data, changed, maxPayload, n);
    } else {
      FlatIndex(s - k, h, plan.groups, plan.r);
      forall b | 0 <= b < maxPayload
        ensures payload[b] == ParityByte(GroupBytes(changed, maxPayload, plan.groups, h, b, k), s - k)
      {
        assert Symbol(GroupBytes(data, maxPayload, plan.groups, h, b, k), s)
            == Symbol(GroupBytes(changed, maxPayload, plan.groups, h, b, k), s);
      }
    }
  }

  /** Every datagram carries a symbol of a group. */
  lemma SymbolAt(plan: Plan, n: nat) returns (h: nat, s: nat)
    requires plan.groups > 0 && n < plan.Count()
    ensures h < plan.groups && s < GroupSize(plan.total, plan.groups, h) + plan.r && Position(plan, h, s) == n
  {
    if n < plan.total {
      h, s := SourceOfGroup(plan, n);
    } else {
      hide GroupSize;
      var row;
      h, row := RowAndGroup(n - plan.total, plan.groups, plan.r);
      s := GroupSize(plan.total, plan.groups, h) + row;
    }
  }

  lemma RowAndGroup(q: nat, groups: nat, r: nat) returns (h: nat, row: nat)
    requires groups > 0 && q < groups * r
    ensures h < groups && row < r && q == row * groups + h
  {
    h, row := q % groups, q / groups;
    QuotientRemainder(q, groups);
    if row >= r {
      MulLe(r, row, groups);
    }
  }

  /** Symbol s of the group is on its way, and its datagram arrived. */
  ghost predicate Arrives(list: seq<seq<byte>>, plan: Plan, received: set<seq<byte>>, g: nat, s: nat)
    requires plan.groups > 0
  {
    && s < GroupSize(plan.total, plan.groups, g) + plan.r && Position(plan, g, s) < |list|
    && list[Position(plan, g, s)] in received
  }

  /** The symbols of a group that arrived: fewer than its sources when more than r are lost. */
  lemma TooFewSymbols(list: seq<seq<byte>>, plan: Plan, received: set<seq<byte>>, g: nat) returns (got: set<nat>)
    requires |list| == plan.Count() && g < plan.groups && |Lost(list, plan, received, g)| > plan.r
    ensures |got| < GroupSize(plan.total, plan.groups, g)
    ensures forall s: nat :: Arrives(list, plan, received, g, s) ==> s in got
  {
    hide GroupSize, Position, Arrives, Lost, Below;
    var all := Below(GroupSize(plan.total, plan.groups, g) + plan.r);
    var lost := Lost(list, plan, received, g);
    got := all - lost;
    BelowSize(GroupSize(plan.total, plan.groups, g) + plan.r);
    DifferenceSize(all, lost);
    forall s: nat | Arrives(list, plan, received, g, s) ensures s in got {
      ArrivedNotLost(list, plan, received, g, s);
    }
  }

  lemma ArrivedNotLost(list: seq<seq<byte>>, plan: Plan, received: set<seq<byte>>, g: nat, s: nat)
    requires |list| == plan.Count() && g < plan.groups && Arrives(list, plan, received, g, s)
    ensures s < GroupSize(plan.total, plan.groups, g) + plan.r && s !in Lost(list, plan, received, g)
  {
    hide GroupSize, Position;
  }

  lemma ChangedDiffers(data: seq<byte>, plan: Plan, maxPayload: nat, g: nat, c: seq<byte>)
    requires plan.groups > 0 && maxPayload > 0 && g < plan.groups && !AllZero(c)
    requires |c| == GroupSize(plan.total, plan.groups, g)
    requires forall n :: 0 <= n < plan.total ==> n * maxPayload < |data|
    ensures Changed(data, plan, maxPayload, g, c) != data
  {
    hide GroupSize, PaddedByte, Changed, Add;
    var k := GroupSize(plan.total, plan.groups, g);
    var j :| 0 <= j < k && c[j] != 0;
    var before := GroupBytes(data, maxPayload, plan.groups, g, 0, k);
    ChangedBytes(data, plan, maxPayload, g, c, g, 0);
    ChangedByte(before, c, j);
  }

  /** A group that misses more than r: other data explain what arrived. */
  lemma OtherData(list: seq<seq<byte>>, data: seq<byte>, plan: Plan, maxPayload: nat, received: set<seq<byte>>, g: nat)
      returns (other: seq<byte>)
    requires maxPayload > 0 && |list| == plan.Count() && g < plan.groups && |Lost(list, plan, received, g)| > plan.r
    requires forall n :: 0 <= n < plan.total ==> n * maxPayload < |data|
    requires forall n :: 0 <= n < |list| ==> IsPayload(Payloads(list)[n], data, plan, maxPayload, n)
    ensures |other| == |data| && other != data
    ensures forall n :: 0 <= n < |list| && list[n] in received ==>
      IsPayload(Payloads(list)[n], other, plan, maxPayload, n)
  {
    hide IsPayload, GroupSize, Symbol, Changed, Position, Payloads, Lost;
    var k := GroupSize(plan.total, plan.groups, g);
    var got := TooFewSymbols(list, plan, received, g);
    var c := UnseenChange(k, got);
    other := Changed(data, plan, maxPayload, g, c);
    ChangedDiffers(data, plan, maxPayload, g, c);
    forall n | 0 <= n < |list| && list[n] in received ensures IsPayload(Payloads(list)[n], other, plan, maxPayload, n) {
      var h, s := SymbolAt(plan, n);
      UnseenKept(data, plan, maxPayload, g, c, h, s);
      KeptPayload(Payloads(list)[n], data, other, plan, maxPayload, h, s);
    }
  }

  /** What arrived leaves one frame only. */
  ghost predicate FrameDetermined(t: Transmission, received: set<seq<byte>>, table: FecTable, tableId: byte,
                                  maxPayload: nat)
    requires table.Shaped() && maxPayload > 0
  {
    forall other :: IsTransmission(other, table, tableId, maxPayload) && received <= Elements(other.list) ==>
      other.frame.data == t.frame.data
  }

  /** More losses than that leave a second frame of the same size. */
  lemma TwoFrames(t: Transmission, received: set<seq<byte>>, table: FecTable, tableId: byte, maxPayload: nat)
      returns (other: Transmission)
    requires table.Shaped() && maxPayload > 0 && IsTransmission(t, table, tableId, maxPayload)
    requires 0 < |t.frame.data| <= 0xFFFF * maxPayload && received <= Elements(t.list)
    requires !LossWithin(t.list, PlanFor(table, tableId, |t.frame.data|, maxPayload), received)
    ensures IsTransmission(other, table, tableId, maxPayload) && received <= Elements(other.list)
    ensures |other.frame.data| == |t.frame.data| && other.frame.data != t.frame.data
  {
    var data, list := t.frame.data, t.list;
    var plan := PlanFor(table, tableId, |data|, maxPayload);
    forall n: nat | n < plan.total ensures n * maxPayload < |data| {
      FirstByteInside(|data|, maxPayload, n);
    }
    hide PlanFor, IsPayload, EncodeHeader, Header, Lost;
    forall n | 0 <= n < |list| ensures IsPayload(Payloads(list)[n], data, plan, maxPayload, n) {
      assert IsDatagram(list[n], t.frame, t.frameId, t.firstSeq, tableId, plan, maxPayload, n);
    }
    var data';
    if plan.groups > 0 {
      var g: nat :| g < plan.groups && |Lost(list, plan, received, g)| > plan.r;
      data' := OtherData(list, data, plan, maxPayload, received, g);
    } else {
      var n: nat :| n < plan.total && list[n] !in received;
      data' := WithoutParity(list, data, plan, maxPayload, received, n);
    }
    other := OtherTransmission(t, data', received, table, tableId, maxPayload);
  }

  lemma WithoutParity(list: seq<seq<byte>>, data: seq<byte>, plan: Plan, maxPayload: nat, received: set<seq<byte>>,
                      n: nat)
      returns (other: seq<byte>)
    requires maxPayload > 0 && |list| == plan.Count() && plan.groups == 0
    requires n < plan.total && list[n] !in received && n * maxPayload < |data|
    requires forall k :: 0 <= k < |list| ==> IsPayload(Payloads(list)[k], data, plan, maxPayload, k)
    ensures |other| == |data| && other != data
    ensures forall k :: 0 <= k < |list| && list[k] in received ==>
      IsPayload(Payloads(list)[k], other, plan, maxPayload, k)
  {
    hide Fragment, Payloads;
    var x: byte := (data[n * maxPayload] as nat + 1) % 256;
    other := data[n * maxPayload := x];
    assert other[n * maxPayload] != data[n * maxPayload];
    forall k | 0 <= k < |list| && list[k] in received ensures IsPayload(Payloads(list)[k], other, plan, maxPayload, k) {
      assert IsPayload(Payloads(list)[k], data, plan, maxPayload, k);
      OtherFragment(data, maxPayload, n, x, k);
    }
  }

  /**
   End to end and exactly: what arrived of a frame determines it if and only if each group misses
   at most r of its datagrams, and none where there is no parity.
   */
  lemma FrameDeterminedExactly(t: Transmission, received: set<seq<byte>>, table: FecTable, tableId: byte,
                               maxPayload: nat)
    requires table.Shaped() && FitsField(table) && maxPayload > 0 && IsTransmission(t, table, tableId, maxPayload)
    requires 0 < |t.frame.data| <= 0xFFFF * maxPayload && received <= Elements(t.list)
    ensures FrameDetermined(t, received, table, tableId, maxPayload)
       <==> LossWithin(t.list, PlanFor(table, tableId, |t.frame.data|, maxPayload), received)
  {
    hide IsTransmission, PlanFor, FitsField, Elements;
    ListLength(t, table, tableId, maxPayload);
    hide LossWithin;
    if LossWithin(t.list, PlanFor(table, tableId, |t.frame.data|, maxPayload), received) {
      forall other | IsTransmission(other, table, tableId, maxPayload) && received <= Elements(other.list)
        ensures other.frame.data == t.frame.data
      {
        FrameRecovered(t, other, received, table, tableId, maxPayload);
      }
    } else {
      var other := TwoFrames(t, received, table, tableId, maxPayload);
    }
  }

  lemma ListLength(t: Transmission, table: FecTable, tableId: byte, maxPayload: nat)
    requires table.Shaped() && maxPayload > 0 && IsTransmission(t, table, tableId, maxPayload)
    ensures |t.list| == PlanFor(table, tableId, |t.frame.data|, maxPayload).Count()
  {}
}
