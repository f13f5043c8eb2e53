/**
 Finding I slices in an encoded packet, containsH264ISlice of src/video/video_encoder.cpp: the
 scanner, the removal of emulation-prevention bytes and the Exp-Golomb reader at work together.
 */
module SliceTypes {
  import opened AnnexB
  import opened EmulationPrevention
  import opened ExpGolomb
  import opened Gf256
  import opened Numbers
  import opened Wrappers

  const HEADER_BYTES: nat := 96

  /** The slice type the packet scan reads from a unit's bytes, if the unit is a slice. */
  function SliceTypeOf(nal: seq<byte>): Option<nat> {
    if |nal| < 2 || (nal[0] % 32 != 1 && nal[0] % 32 != 5) then None
    else
      var bits := Stream(Strip(nal[1..], 0, HEADER_BYTES));
      var firstMb := ReadAt(bits, 0);
      if firstMb.0.None? || firstMb.1 > |bits| then None else ReadAt(bits, firstMb.1).0
  }

  /**
   A unit is read as a slice of type v if and only if its header byte is that of a slice and its
   payload, through the 96 bytes kept, begins with two Exp-Golomb codes, the second one ue(v).
   */
  lemma SliceTypeExactly(nal: seq<byte>, v: nat)
    ensures SliceTypeOf(nal) == Some(v)
            <==> |nal| >= 2 && nal[0] % 32 in {1, 5} && v <= UINT32 - 2
                 && exists firstMb: nat :: BeginsWith(Stream(Strip(nal[1..], 0, HEADER_BYTES)), firstMb, v)
  {
    hide Stream, Strip, ReadAt, UeCode, BeginsWith;
    if |nal| >= 2 && nal[0] % 32 in {1, 5} {
      var data := Strip(nal[1..], 0, HEADER_BYTES);
      ReadStops(Stream(data), 0);
      TwoCodes(data, v);
      assert SliceTypeOf(nal) == Some(v)
             <==> v <= UINT32 - 2 && exists firstMb: nat :: BeginsWith(Stream(data), firstMb, v);
      assert data == Strip(nal[1..], 0, HEADER_BYTES);
    }
  }

  ghost predicate BeginsWith(bits: Bits, firstMb: nat, v: nat) {
    firstMb <= UINT32 - 2 && UeCode(firstMb) + UeCode(v) <= bits
  }

  lemma TwoCodes(data: seq<byte>, v: nat)
    ensures var bits := Stream(data);
            var first := ReadAt(bits, 0);
            (first.0.Some? && first.1 <= |bits| && ReadAt(bits, first.1).0 == Some(v))
            <==> v <= UINT32 - 2 && exists firstMb: nat :: BeginsWith(bits, firstMb, v)
  {
    hide Stream, ReadAt, UeCode, BeginsWith;
    var bits := Stream(data);
    var first := ReadAt(bits, 0);
    ReadStops(bits, 0);
    if first.0.Some? {
      var m := first.0.value;
      ReadOnlyCodes(bits, 0);
      ReaderAcceptsExactlyCodes(data, first.1, v);
      Joined(bits, m, v);
    }
    forall firstMb: nat | BeginsWith(bits, firstMb, v)
      ensures first == (Some(firstMb), |UeCode(firstMb)|) {
      Joined(bits, firstMb, v);
      ReaderAcceptsExactlyCodes(data, 0, firstMb);
      ReadOnlyCodes(bits, 0);
    }
  }

  lemma Joined(bits: Bits, firstMb: nat, v: nat)
    ensures var n := |UeCode(firstMb)|;
            BeginsWith(bits, firstMb, v)
            <==> firstMb <= UINT32 - 2 && n + |UeCode(v)| <= |bits| && bits[..n] == UeCode(firstMb)
                 && bits[n..n + |UeCode(v)|] == UeCode(v)
  {
    hide UeCode;
    var a, b := UeCode(firstMb), UeCode(v);
    if |a| + |b| <= |bits| {
      assert bits[..|a| + |b|] == bits[..|a|] + bits[|a|..|a| + |b|];
      assert (a + b)[..|a|] == a && (a + b)[|a|..] == b;
    }
  }

  predicate IsISlice(nal: seq<byte>) {
    var t := SliceTypeOf(nal);
    t.Some? && t.value % 5 == 2
  }

  method ContainsH264ISlice(d: seq<byte>, format: StreamFormat) returns (found: bool)
    ensures found <==> exists nal :: IsISlice(nal) && nal in match format
                                                             case AnnexBFormat => EncoderNals(d, 0)
                                                             case Avcc => PrefixedNals(d, 0)
                                                             case Unknown => []
  {
    hide EncoderNals, PrefixedNals, IsISlice;
    var nals := EncoderForEachNal(d, format);
    found := false;
    for k := 0 to |nals|
      invariant found <==> exists i :: 0 <= i < k && IsISlice(nals[i])
    {
      if !found {
        found := ScanUnit(nals[k]);
      }
    }
  }

  /** The callback, for one unit. */
  method ScanUnit(nal: seq<byte>) returns (found: bool)
    ensures found <==> IsISlice(nal)
  {
    hide Stream, ReadAt, Strip;
    if |nal| < 2 {
      return false;
    }
    var nalUnitType := nal[0] % 32;
    if nalUnitType != 1 && nalUnitType != 5 {
      return false;
    }
    var rbsp := new byte[HEADER_BYTES](_ => 0);
    var n := RbspPrefix(nal[1..], rbsp);
    var reader := new BitReader(rbsp[..n]);
    ReadStops(Stream(rbsp[..n]), 0);
    var firstMb := reader.ReadUE();
    if firstMb.None? {
      return false;
    }
    var sliceType := reader.ReadUE();
    if sliceType.None? {
      return false;
    }
    found := sliceType.value % 5 == 2;
  }

  predicate IsIdr(nal: seq<byte>, h265: bool) {
    if h265 then |nal| >= 2 && nal[0] / 2 % 64 in {19, 20, 21} else |nal| >= 1 && nal[0] % 32 == 5
  }

  /**
   By the unit headers of H.264, section 7.3.1, and H.265, section 7.3.1.2: in H.264 the one type
   5, in H.265, whose header has a second byte, the types 19 to 21.
   */
  lemma IdrTypes(forbidden: nat, refIdc: nat, layerBit: nat, nalType: nat, rest: seq<byte>)
    requires forbidden < 2 && refIdc < 4 && layerBit < 2
    ensures nalType < 32 ==> (IsIdr([forbidden * 128 + refIdc * 32 + nalType] + rest, false) <==> nalType == 5)
    ensures nalType < 64 ==>
      (IsIdr([forbidden * 128 + nalType * 2 + layerBit] + rest, true) <==> rest != [] && 19 <= nalType <= 21)
    ensures !IsIdr([], false) && !IsIdr([], true)
  {
    if nalType < 64 {
      TypeField(forbidden, nalType, layerBit);
    }
    if nalType < 32 {
      LowBits(forbidden * 4 + refIdc, nalType);
    }
  }

  lemma LowBits(high: nat, nalType: nat)
    requires nalType < 32
    ensures (high * 32 + nalType) % 32 == nalType
  {}

  lemma TypeField(forbidden: nat, nalType: nat, layerBit: nat)
    requires nalType < 64 && layerBit < 2
    ensures (forbidden * 128 + nalType * 2 + layerBit) / 2 % 64 == nalType
  {
    assert (forbidden * 128 + nalType * 2 + layerBit) / 2 == forbidden * 64 + nalType;
  }

  /** containsH264IdrNal and containsH265IdrNal: whether the packet is a keyframe. */
  method ContainsIdrNal(d: seq<byte>, format: StreamFormat, h265: bool) returns (found: bool)
    ensures found <==> exists nal :: IsIdr(nal, h265) && nal in match format
                                                                 case AnnexBFormat => EncoderNals(d, 0)
                                                                 case Avcc => PrefixedNals(d, 0)
                                                                 case Unknown => []
  {
    hide EncoderNals, PrefixedNals, IsIdr;
    var nals := EncoderForEachNal(d, format);
    found := false;
    for k := 0 to |nals|
      invariant found <==> exists i :: 0 <= i < k && IsIdr(nals[i], h265)
    {
      if IsIdr(nals[k], h265) {
        found := true;
      }
    }
  }

  // ---- what it finds ---------------------------------------------------------------------

  /** A coded slice: its header byte, and a payload that starts with ue(firstMb) ue(sliceType). */
  datatype Slice = Slice(header: byte, firstMb: nat, sliceType: nat, rbsp: seq<byte>)

  /** The slice type is one of the ten of the standard; the payload is arbitrary behind it. */
  ghost predicate Coded(s: Slice) {
    && (s.header % 32 == 1 || s.header % 32 == 5)
    && s.firstMb <= UINT32 - 2 && s.sliceType <= 9
    && var code := UeCode(s.firstMb) + UeCode(s.sliceType);
       |code| <= 8 * |s.rbsp| && Stream(s.rbsp)[..|code|] == code
  }

  function UnitOf(s: Slice): (nal: seq<byte>)
    ensures |nal| > 0
  {
    [s.header] + Escape(s.rbsp, 0)
  }

  lemma StreamPrefix(data: seq<byte>, n: nat)
    requires n <= |data|
    ensures Stream(data[..n]) == Stream(data)[..8 * n]
  {
    hide Pow2;
    forall k | 0 <= k < 8 * n ensures BitOf(data[..n], k) == BitOf(data, k) {
      assert data[..n][k / 8] == data[k / 8];
    }
  }

  /** The codes of a slice header take at most 70 bits. */
  lemma HeaderLength(s: Slice)
    requires s.firstMb <= UINT32 - 2 && s.sliceType <= 9
    ensures |UeCode(s.firstMb)| <= 63 && |UeCode(s.sliceType)| <= 7
  {
    hide Digits;
    ShortCode(s.firstMb);
    var k := Log2(s.sliceType + 1);
    if k >= 4 {
      PowMono(4, k);
      PowOf3();
    }
  }

  /** The header of every coded slice is read back: the 96 bytes kept are always enough. */
  lemma SliceTypeFound(s: Slice)
    requires Coded(s)
    ensures SliceTypeOf(UnitOf(s)) == Some(s.sliceType)
  {
    hide Stream, ReadAt, Strip, Escape, UeCode;
    var nal, c0, c1 := UnitOf(s), UeCode(s.firstMb), UeCode(s.sliceType);
    HeaderLength(s);
    StripInvertsEscape(s.rbsp, HEADER_BYTES);
    assert nal[1..] == Escape(s.rbsp, 0);
    EscapeGrows(s.rbsp, 0);
    CodeNotEmpty(s.firstMb);
    var n := Min(HEADER_BYTES, |s.rbsp|);
    StreamPrefix(s.rbsp, n);
    var bits := Stream(s.rbsp[..n]);
    var code := c0 + c1;
    assert bits[..|code|] == code;
    assert bits[0..|c0|] == code[..|c0|] == c0;
    assert bits[|c0|..|c0| + |c1|] == code[|c0|..] == c1;
    ReadInvertsCode(bits, 0, s.firstMb);
    ReadInvertsCode(bits, |c0|, s.sliceType);
  }

  lemma CodeNotEmpty(v: nat)
    ensures |UeCode(v)| > 0
  {
    hide Digits, Log2, Pow2;
  }

  lemma {:induction false} EscapeGrows(rbsp: seq<byte>, zeros: nat)
    ensures |Escape(rbsp, zeros)| >= |rbsp|
    decreases |rbsp|
  {
    if |rbsp| > 0 {
      EscapeGrows(rbsp[1..], if zeros >= 2 && rbsp[0] <= 3 then Count(0, rbsp[0]) else Count(zeros, rbsp[0]));
    }
  }

  // ---- a whole packet --------------------------------------------------------------------

  /** No byte 1 behind two zeros, when zeros zero bytes come first. */
  ghost predicate Clean(d: seq<byte>, zeros: nat)
    decreases |d|
  {
    |d| == 0 || (!(zeros >= 2 && d[0] == 1) && Clean(d[1..], Count(zeros, d[0])))
  }

  lemma {:induction false} EscapeIsClean(rbsp: seq<byte>, zeros: nat)
    ensures Clean(Escape(rbsp, zeros), zeros)
    decreases |rbsp|
  {
    if |rbsp| > 0 {
      var b, rest := rbsp[0], rbsp[1..];
      var zeros' := if zeros >= 2 && b <= 3 then Count(0, b) else Count(zeros, b);
      var tail := Escape(rest, zeros');
      EscapeIsClean(rest, zeros');
      assert ([b] + tail)[1..] == tail && ([3, b] + tail)[1..] == [b] + tail;
    }
  }

  lemma {:induction false} EscapeKeepsLast(rbsp: seq<byte>, zeros: nat)
    requires |rbsp| > 0
    ensures var e := Escape(rbsp, zeros); |e| > 0 && e[|e| - 1] == rbsp[|rbsp| - 1]
    decreases |rbsp|
  {
    if |rbsp| > 1 {
      EscapeKeepsLast(rbsp[1..], if zeros >= 2 && rbsp[0] <= 3 then Count(0, rbsp[0]) else Count(zeros, rbsp[0]));
    }
  }

  lemma {:induction false} CleanHasNoCode(d: seq<byte>, zeros: nat, i: nat)
    requires Clean(d, zeros) && i + 3 <= |d|
    ensures !(d[i] == 0 && d[i + 1] == 0 && d[i + 2] == 1)
    decreases i
  {
    if i > 0 {
      CleanHasNoCode(d[1..], Count(zeros, d[0]), i - 1);
    } else {
      assert d[1..][0] == d[1] && d[1..][1..][0] == d[2];
      assert Clean(d[1..][1..], Count(Count(zeros, d[0]), d[1]));
    }
  }

  /** What a packet holds: slices, and units of other types such as parameter sets. */
  datatype Unit = SliceUnit(slice: Slice) | OtherUnit(nal: seq<byte>)

  function NalOf(u: Unit): (nal: seq<byte>) {
    match u
    case SliceUnit(slice) => UnitOf(slice)
    case OtherUnit(nal) => nal
  }

  /**
   A slice's payload ends in its stop bit, so its last byte is not zero. A unit of another type
   holds no start code and does not end in a zero byte either.
   */
  ghost predicate Written(u: Unit) {
    match u
    case SliceUnit(slice) => Coded(slice) && |slice.rbsp| > 0 && slice.rbsp[|slice.rbsp| - 1] != 0
    case OtherUnit(nal) =>
      |nal| > 0 && nal[0] % 32 != 1 && nal[0] % 32 != 5 && !HasCode(nal) && nal[|nal| - 1] != 0
  }

  /** Slice types 2 and 7 are I. */
  predicate HoldsISlice(u: Unit) {
    u.SliceUnit? && u.slice.sliceType % 5 == 2
  }

  function Packet(units: seq<Unit>, longs: seq<bool>): (framed: seq<Framed>)
    requires |longs| == |units|
    ensures |framed| == |units| && forall k :: 0 <= k < |framed| ==> framed[k] == Framed(longs[k], NalOf(units[k]))
  {
    seq(|units|, k requires 0 <= k < |units| => Framed(longs[k], NalOf(units[k])))
  }

  /** Escaping is what makes every unit framable. */
  lemma UnitFramable(s: Slice)
    requires Coded(s) && |s.rbsp| > 0 && s.rbsp[|s.rbsp| - 1] != 0
    ensures !HasCode(UnitOf(s)) && UnitOf(s)[|UnitOf(s)| - 1] != 0
  {
    hide Stream, UeCode, Escape;
    var nal := UnitOf(s);
    EscapeIsClean(s.rbsp, 0);
    EscapeKeepsLast(s.rbsp, 0);
    assert nal[1..] == Escape(s.rbsp, 0);
    assert Clean(nal, 0);
    hide Coded, Clean, UnitOf;
    forall i | 0 <= i && i + 3 <= |nal| ensures !(nal[i] == 0 && nal[i + 1] == 0 && nal[i + 2] == 1) {
      CleanHasNoCode(nal, 0, i);
    }
  }

  /** A unit can be framed, and is taken for an I slice exactly if it is one. */
  lemma UnitScan(u: Unit)
    requires Written(u)
    ensures var nal := NalOf(u);
            && !HasCode(nal) && |nal| > 0 && nal[|nal| - 1] != 0
            && (IsISlice(nal) <==> HoldsISlice(u))
  {
    hide Coded, UnitOf, HasCode, Strip, Stream, ReadAt;
    if u.SliceUnit? {
      UnitFramable(u.slice);
      SliceTypeFound(u.slice);
      hide SliceTypeOf;
    }
  }

  /** For every packet, with its units in any mix of start codes: an I slice is found exactly when there is one. */
  lemma PacketScan(units: seq<Unit>, longs: seq<bool>)
    requires |longs| == |units| && forall k :: 0 <= k < |units| ==> Written(units[k])
    ensures (exists nal :: IsISlice(nal) && nal in EncoderNals(Join(Packet(units, longs)), 0))
            <==> exists k :: 0 <= k < |units| && HoldsISlice(units[k])
  {
    hide Written, NalOf, EncoderNals, ModuleNals, IsISlice, HoldsISlice, HasCode, Join;
    var framed := Packet(units, longs);
    forall k | 0 <= k < |units|
      ensures !HasCode(framed[k].nal) && |framed[k].nal| > 0 && framed[k].nal[|framed[k].nal| - 1] != 0
      ensures IsISlice(framed[k].nal) <==> HoldsISlice(units[k])
    {
      UnitScan(units[k]);
    }
    ScannersInvertJoin([], framed);
    assert [] + Join(framed) == Join(framed);
    var nals := Nals(framed);
    if k :| 0 <= k < |units| && HoldsISlice(units[k]) {
      assert nals[k] == framed[k].nal && nals[k] in nals;
    }
  }
}
