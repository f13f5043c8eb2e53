/**
 The video packet layout of src/udp/packet_codec.cpp: little-endian writers, the 27-byte
 header, and the reader a receiver needs to take a datagram apart again.
 */
module PacketCodec {
  import opened Gf256

  // ---- little-endian fields --------------------------------------------------------------

  function U8(v: nat): (s: seq<byte>)
    ensures |s| == 1
  {
    [v % 256]
  }

  function U16(v: nat): (s: seq<byte>)
    ensures |s| == 2
  {
    [v % 256, v / 0x100 % 256]
  }

  function U32(v: nat): (s: seq<byte>)
    ensures |s| == 4
  {
    [v % 256, v / 0x100 % 256, v / 0x1_0000 % 256, v / 0x100_0000 % 256]
  }

  function U64(v: nat): (s: seq<byte>)
    ensures |s| == 8
  {
    U32(v % 0x1_0000_0000) + U32(v / 0x1_0000_0000 % 0x1_0000_0000)
  }

  function ReadLE(s: seq<byte>): nat {
    if |s| == 0 then 0 else s[0] + 256 * ReadLE(s[1..])
  }

  lemma ReadU8(v: nat)
    requires v < 0x100
    ensures ReadLE(U8(v)) == v
  {
    assert U8(v)[1..] == [];
  }

  lemma {:induction false} ReadPair(a: byte, s: seq<byte>)
    ensures ReadLE([a] + s) == a + 256 * ReadLE(s)
  {
    assert ([a] + s)[1..] == s;
  }

  lemma ReadU16(v: nat)
    requires v < 0x1_0000
    ensures ReadLE(U16(v)) == v
  {
    var hi := v / 0x100;
    ReadU8(hi);
    ReadPair(v % 256, U8(hi));
    assert U16(v) == [v % 256] + U8(hi);
  }

  lemma SplitU32(v: nat)
    requires v < 0x1_0000_0000
    ensures var hi, mid := v / 0x1_0000, v / 0x100 % 256;
            U32(v) == [v % 256] + ([mid] + U16(hi)) && v == v % 256 + 256 * (mid + 256 * hi)
  {
    var hi := v / 0x1_0000;
    assert v / 0x1_0000 % 256 == hi % 256;
    assert v / 0x100_0000 == hi / 0x100;
  }

  lemma ReadU32(v: nat)
    requires v < 0x1_0000_0000
    ensures ReadLE(U32(v)) == v
  {
    var hi := v / 0x1_0000;
    ReadU16(hi);
    var mid := v / 0x100 % 256;
    ReadPair(mid, U16(hi));
    ReadPair(v % 256, [mid] + U16(hi));
    SplitU32(v);
    hide ReadLE, U32, U16;
  }

  lemma ReadFour(s: seq<byte>, t: seq<byte>)
    requires |s| == 4
    ensures ReadLE(s + t) == ReadLE(s) + 0x1_0000_0000 * ReadLE(t)
  {
    assert s + t == [s[0]] + ([s[1]] + ([s[2]] + ([s[3]] + t)));
    assert s == [s[0]] + ([s[1]] + ([s[2]] + ([s[3]] + [])));
    hide ReadLE;
    var a := [s[3]] + t;
    var b := [s[2]] + a;
    var c := [s[1]] + b;
    ReadPair(s[3], t);
    ReadPair(s[2], a);
    ReadPair(s[1], b);
    ReadPair(s[0], c);
    var a' := [s[3]] + [];
    var b' := [s[2]] + a';
    var c' := [s[1]] + b';
    ReadPair(s[3], []);
    ReadPair(s[2], a');
    ReadPair(s[1], b');
    ReadPair(s[0], c');
    ReadNothing();
  }

  lemma ReadNothing()
    ensures ReadLE([]) == 0
  {}

  lemma SplitU64(v: nat)
    requires v < 0x1_0000_0000_0000_0000
    ensures var lo, hi := v % 0x1_0000_0000, v / 0x1_0000_0000;
            hi < 0x1_0000_0000 && U64(v) == U32(lo) + U32(hi) && v == lo + 0x1_0000_0000 * hi
  {
    hide U32;
  }

  lemma ReadU64(v: nat)
    requires v < 0x1_0000_0000_0000_0000
    ensures ReadLE(U64(v)) == v
  {
    hide U32, U64, ReadLE;
    SplitU64(v);
    var lo: nat, hi: nat := v % 0x1_0000_0000, v / 0x1_0000_0000;
    ReadU32(lo);
    ReadU32(hi);
    ReadFour(U32(lo), U32(hi));
  }

  // ---- the video header ------------------------------------------------------------------

  /** The header fields; the comments give the widths the source stores them in. */
  datatype VideoHeader = VideoHeader(
    packetType: nat,          // uint8
    packetSeqNum: nat,        // uint16
    timestamp: nat,           // uint64
    frameId: nat,             // uint32
    fragmentIndex: nat,       // uint16
    totalFragments: nat,      // uint16
    payloadLength: nat,       // uint16
    framePayloadLength: nat,  // uint32
    fecTableId: nat,          // uint8
    keyframeFlag: nat)        // uint8
  {
    predicate InRange() {
      && packetType < 0x100 && packetSeqNum < 0x1_0000 && timestamp < 0x1_0000_0000_0000_0000
      && frameId < 0x1_0000_0000 && fragmentIndex < 0x1_0000 && totalFragments < 0x1_0000
      && payloadLength < 0x1_0000 && framePayloadLength < 0x1_0000_0000 && fecTableId < 0x100 && keyframeFlag < 0x100
    }
  }

  const HEADER_BYTES: nat := 27

  function EncodeHeader(h: VideoHeader): (s: seq<byte>)
    ensures |s| == HEADER_BYTES
  {
    U8(h.packetType) + U16(h.packetSeqNum) + U64(h.timestamp) + U32(h.frameId)
    + U16(h.fragmentIndex) + U16(h.totalFragments) + U16(h.payloadLength)
    + U32(h.framePayloadLength) + U8(h.fecTableId) + U8(h.keyframeFlag)
  }

  /** What a receiver reads from the first 27 bytes of a datagram. */
  function DecodeHeader(s: seq<byte>): VideoHeader
    requires |s| >= HEADER_BYTES
  {
    VideoHeader(ReadLE(s[0..1]), ReadLE(s[1..3]), ReadLE(s[3..11]), ReadLE(s[11..15]), ReadLE(s[15..17]),
                ReadLE(s[17..19]), ReadLE(s[19..21]), ReadLE(s[21..25]), ReadLE(s[25..26]), ReadLE(s[26..27]))
  }

  /** A receiver gets back every header field, and the payload after them. */
  lemma DecodeEncode(h: VideoHeader, payload: seq<byte>)
    requires h.InRange()
    ensures DecodeHeader(EncodeHeader(h) + payload) == h
    ensures (EncodeHeader(h) + payload)[HEADER_BYTES..] == payload
  {
    var s := EncodeHeader(h) + payload;
    hide U8, U16, U32, U64, ReadLE;
    ReadU8(h.packetType);
    ReadU16(h.packetSeqNum);
    ReadU64(h.timestamp);
    ReadU32(h.frameId);
    ReadU16(h.fragmentIndex);
    ReadU16(h.totalFragments);
    ReadU16(h.payloadLength);
    ReadU32(h.framePayloadLength);
    ReadU8(h.fecTableId);
    ReadU8(h.keyframeFlag);
    assert s[0..1] == U8(h.packetType);
    assert s[1..3] == U16(h.packetSeqNum);
    assert s[3..11] == U64(h.timestamp);
    assert s[11..15] == U32(h.frameId);
    assert s[15..17] == U16(h.fragmentIndex);
    assert s[17..19] == U16(h.totalFragments);
    assert s[19..21] == U16(h.payloadLength);
    assert s[21..25] == U32(h.framePayloadLength);
    assert s[25..26] == U8(h.fecTableId);
    assert s[26..27] == U8(h.keyframeFlag);
  }

  /** The value of n bytes from position i on, the least significant byte first. */
  function Value(s: seq<byte>, i: nat, n: nat): nat
    requires i + n <= |s|
  {
    if n == 0 then 0 else Value(s, i, n - 1) + s[i + n - 1] * Weight(n - 1)
  }

  /** The weight of a byte: 256 to its position. */
  function Weight(n: nat): nat {
    if n == 0 then 1 else 256 * Weight(n - 1)
  }

  lemma {:induction false} ValueFromFirst(s: seq<byte>, i: nat, n: nat)
    requires 0 < n && i + n <= |s|
    ensures Value(s, i, n) == s[i] + 256 * Value(s, i + 1, n - 1)
    decreases n
  {
    if n > 1 {
      ValueFromFirst(s, i, n - 1);
      LastByte(s, i, n);
      LastByte(s, i + 1, n - 1);
      hide Value, Weight;
      Heavier(s[i + n - 1], n - 2);
    } else {
      assert Value(s, i, 0) == 0 && Value(s, i + 1, 0) == 0 && Weight(0) == 1;
    }
  }

  lemma LastByte(s: seq<byte>, i: nat, n: nat)
    requires 0 < n && i + n <= |s|
    ensures Value(s, i, n) == Value(s, i, n - 1) + s[i + n - 1] * Weight(n - 1)
  {}

  lemma Heavier(x: nat, n: nat)
    ensures x * Weight(n + 1) == 256 * (x * Weight(n))
  {
    var w := Weight(n);
    assert Weight(n + 1) == 256 * w;
    assert x * (256 * w) == 256 * (x * w);
  }

  lemma {:induction false} ReadLEValue(s: seq<byte>, i: nat, n: nat)
    requires i + n <= |s|
    ensures ReadLE(s[i..i + n]) == Value(s, i, n)
    decreases n
  {
    if n > 0 {
      assert s[i..i + n][1..] == s[i + 1..i + 1 + (n - 1)];
      ReadLEValue(s, i + 1, n - 1);
      ValueFromFirst(s, i, n);
    }
  }

  /** Where each field stands on the wire, as a number with its least significant byte first. */
  lemma HeaderLayout(h: VideoHeader)
    requires h.InRange()
    ensures var s := EncodeHeader(h);
            && s[0] == h.packetType && Value(s, 1, 2) == h.packetSeqNum && Value(s, 3, 8) == h.timestamp
            && Value(s, 11, 4) == h.frameId && Value(s, 15, 2) == h.fragmentIndex && Value(s, 17, 2) == h.totalFragments
            && Value(s, 19, 2) == h.payloadLength && Value(s, 21, 4) == h.framePayloadLength
            && s[25] == h.fecTableId && s[26] == h.keyframeFlag
  {
    hide EncodeHeader, ReadLE, Value;
    var s := EncodeHeader(h);
    DecodeEncode(h, []);
    assert s + [] == s;
    ReadLEValue(s, 0, 1);
    ReadLEValue(s, 1, 2);
    ReadLEValue(s, 3, 8);
    ReadLEValue(s, 11, 4);
    ReadLEValue(s, 15, 2);
    ReadLEValue(s, 17, 2);
    ReadLEValue(s, 19, 2);
    ReadLEValue(s, 21, 4);
    ReadLEValue(s, 25, 1);
    ReadLEValue(s, 26, 1);
    OneByte(s, 0);
    OneByte(s, 25);
    OneByte(s, 26);
  }

  lemma OneByte(s: seq<byte>, i: nat)
    requires i < |s|
    ensures Value(s, i, 1) == s[i]
  {
    assert Value(s, i, 0) == 0 && Weight(0) == 1;
  }

  /** The writers append in order; without a payload the packet ends after the header. */
  method BuildVideoPacket(h: VideoHeader, payload: seq<byte>) returns (out: seq<byte>)
    requires h.InRange()
    ensures out == EncodeHeader(h) + payload
  {
    hide U8, U16, U32, U64;
    out := U8(h.packetType);
    out := out + U16(h.packetSeqNum);
    out := out + U64(h.timestamp);
    out := out + U32(h.frameId);
    out := out + U16(h.fragmentIndex);
    out := out + U16(h.totalFragments);
    out := out + U16(h.payloadLength);
    out := out + U32(h.framePayloadLength);
    out := out + U8(h.fecTableId);
    out := out + U8(h.keyframeFlag);
    out := out + payload;
  }
}
