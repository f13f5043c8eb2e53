/**
 The two NAL unit scanners, forEachNal of src/video/video_encoder.cpp and forEachNal of
 src/video/video_module.cpp. Both invert Annex B framing (ITU-T H.264, section B.1) and 4-byte
 length prefixes; they were written independently and differ on units left empty.
 */
module AnnexB {
  import opened Gf256

  datatype StreamFormat = AnnexBFormat | Avcc | Unknown

  /** is_start_code: the length of the start code at i, or 0. */
  function CodeAt(d: seq<byte>, i: nat): (n: nat)
    ensures n == 0 || n == 3 || n == 4
    ensures i + n <= |d| || n == 0
  {
    if i + 3 <= |d| && d[i] == 0 && d[i + 1] == 0 && d[i + 2] == 1 then 3
    else if i + 4 <= |d| && d[i] == 0 && d[i + 1] == 0 && d[i + 2] == 0 && d[i + 3] == 1 then 4
    else 0
  }

  /** The first position from i on where a start code with a byte behind it begins, or the end. */
  function NextCode(d: seq<byte>, i: nat): (e: nat)
    requires i <= |d|
    ensures i <= e <= |d|
    ensures forall j :: i <= j < e && j + 3 < |d| ==> CodeAt(d, j) == 0
    ensures e < |d| ==> e + 3 < |d| && CodeAt(d, e) > 0
    decreases |d| - i
  {
    if i + 3 >= |d| then |d| else if CodeAt(d, i) > 0 then i else NextCode(d, i + 1)
  }

  /** What the encoder's scanner emits from position i on. */
  function EncoderNals(d: seq<byte>, i: nat): seq<seq<byte>>
    decreases |d| - i
  {
    if i + 3 >= |d| then []
    else if CodeAt(d, i) == 0 then EncoderNals(d, i + 1)
    else
      var nal := i + CodeAt(d, i);
      if nal >= |d| then [] else [d[nal..NextCode(d, nal + 1)]] + EncoderNals(d, nal)
  }

  /** What the module's scanner emits from position i on. */
  function ModuleNals(d: seq<byte>, i: nat): seq<seq<byte>>
    decreases |d| - i
  {
    if i + 3 >= |d| then []
    else if CodeAt(d, i) == 0 then ModuleNals(d, i + 1)
    else
      var start := i + CodeAt(d, i);
      var end := NextCode(d, start);
      (if end > start then [d[start..end]] else []) + ModuleNals(d, end)
  }

  function BigEndian(d: seq<byte>, i: nat): nat
    requires i + 4 <= |d|
  {
    Word(d[i], d[i + 1], d[i + 2], d[i + 3])
  }

  function Word(b3: nat, b2: nat, b1: nat, b0: nat): nat {
    ((b3 * 256 + b2) * 256 + b1) * 256 + b0
  }

  /** Length-prefixed units; the first impossible length ends the scan. */
  function PrefixedNals(d: seq<byte>, i: nat): seq<seq<byte>>
    decreases |d| - i
  {
    if i + 4 > |d| then []
    else
      var n := BigEndian(d, i);
      if n == 0 || i + 4 + n > |d| then []
      else [d[i + 4..i + 4 + n]] + PrefixedNals(d, i + 4 + n)
  }

  // ---- the scanners ----------------------------------------------------------------------

  /** forEachNal of the encoder; the callback's calls are collected. */
  method EncoderForEachNal(d: seq<byte>, format: StreamFormat) returns (nals: seq<seq<byte>>)
    ensures nals == match format
                    case AnnexBFormat => EncoderNals(d, 0)
                    case Avcc => PrefixedNals(d, 0)
                    case Unknown => []
  {
    hide CodeAt, NextCode, PrefixedNals, EncoderNals;
    nals := [];
    if format == Avcc {
      nals := ScanPrefixed(d);
    }
    if format != AnnexBFormat {
      return;
    }
    var i := 0;
    assert [] + EncoderNals(d, 0) == EncoderNals(d, 0);
    while i + 3 < |d|
      invariant i <= |d| && nals + EncoderNals(d, i) == EncoderNals(d, 0)
      decreases |d| - i
    {
      var code := CodeAt(d, i);
      EncoderStep(d, i, nals);
      if code == 0 {
        i := i + 1;
        continue;
      }
      var nal := i + code;
      if nal >= |d| {
        i := nal;
        EncoderStep(d, i, nals);
        continue;
      }
      var end := FindNext(d, nal + 1);
      nals := nals + [d[nal..end]];
      i := nal;
    }
    EncoderStep(d, i, nals);
  }

  /** forEachNal of the module. */
  method ModuleForEachNal(d: seq<byte>, format: StreamFormat) returns (nals: seq<seq<byte>>)
    ensures nals == match format
                    case AnnexBFormat => ModuleNals(d, 0)
                    case Avcc => PrefixedNals(d, 0)
                    case Unknown => []
  {
    hide CodeAt, NextCode, PrefixedNals, ModuleNals;
    nals := [];
    if format == Avcc {
      nals := ScanPrefixed(d);
    }
    if format != AnnexBFormat {
      return;
    }
    var index := 0;
    assert [] + ModuleNals(d, 0) == ModuleNals(d, 0);
    while index + 3 < |d|
      invariant index <= |d| && nals + ModuleNals(d, index) == ModuleNals(d, 0)
      decreases |d| - index
    {
      var code := CodeAt(d, index);
      ModuleStep(d, index, nals);
      if code == 0 {
        index := index + 1;
        continue;
      }
      var start := index + code;
      var end := FindNext(d, start);
      if end > start {
        nals := nals + [d[start..end]];
      }
      index := end;
    }
    ModuleStep(d, index, nals);
  }

  function AfterUnit(d: seq<byte>, start: nat, nals: seq<seq<byte>>): seq<seq<byte>>
    requires start <= |d|
  {
    var end := NextCode(d, start);
    (if end > start then nals + [d[start..end]] else nals) + ModuleNals(d, end)
  }

  lemma ModuleStep(d: seq<byte>, i: nat, nals: seq<seq<byte>>)
    requires i <= |d|
    ensures i + 3 >= |d| ==> nals + ModuleNals(d, i) == nals
    ensures i + 3 < |d| && CodeAt(d, i) == 0 ==> nals + ModuleNals(d, i) == nals + ModuleNals(d, i + 1)
    ensures i + 3 < |d| && CodeAt(d, i) > 0 ==> nals + ModuleNals(d, i) == AfterUnit(d, i + CodeAt(d, i), nals)
  {
    hide CodeAt, NextCode;
    var code := CodeAt(d, i);
    if i + 3 < |d| && code > 0 {
      var end := NextCode(d, i + code);
      var rest := ModuleNals(d, end);
      var unit := if end > i + code then [d[i + code..end]] else [];
      assert ModuleNals(d, i) == unit + rest;
      hide *;
      Appended(nals, unit, rest);
    } else if i + 3 >= |d| {
      assert nals + [] == nals;
    }
  }

  lemma Appended(nals: seq<seq<byte>>, unit: seq<seq<byte>>, rest: seq<seq<byte>>)
    ensures nals + (unit + rest) == (nals + unit) + rest
    ensures unit == [] ==> nals + (unit + rest) == nals + rest
  {}

  lemma EncoderStep(d: seq<byte>, i: nat, nals: seq<seq<byte>>)
    requires i <= |d|
    ensures i + 3 >= |d| ==> nals + EncoderNals(d, i) == nals
    ensures i + 3 < |d| && CodeAt(d, i) == 0 ==> nals + EncoderNals(d, i) == nals + EncoderNals(d, i + 1)
    ensures var nal := i + CodeAt(d, i);
            i + 3 < |d| && nal > i ==>
              nals + EncoderNals(d, i)
              == if nal >= |d| then nals else (nals + [d[nal..NextCode(d, nal + 1)]]) + EncoderNals(d, nal)
  {
    hide CodeAt, NextCode;
    var nal := i + CodeAt(d, i);
    if i + 3 < |d| && nal > i && nal < |d| {
      var unit, rest := [d[nal..NextCode(d, nal + 1)]], EncoderNals(d, nal);
      assert EncoderNals(d, i) == unit + rest;
      hide *;
      Appended(nals, unit, rest);
    }
  }

  /** The inner loop of both: where the unit ends. */
  method FindNext(d: seq<byte>, from: nat) returns (end: nat)
    requires from <= |d|
    ensures end == NextCode(d, from)
  {
    hide CodeAt;
    var j := from;
    while j + 3 < |d|
      invariant from <= j <= |d| && NextCode(d, from) == NextCode(d, j)
    {
      if CodeAt(d, j) > 0 {
        return j;
      }
      j := j + 1;
    }
    end := |d|;
  }

  /** The length-prefix branch, the same in both. */
  method ScanPrefixed(d: seq<byte>) returns (nals: seq<seq<byte>>)
    ensures nals == PrefixedNals(d, 0)
  {
    nals := [];
    var offset := 0;
    while offset + 4 <= |d|
      invariant offset <= |d| && nals + PrefixedNals(d, offset) == PrefixedNals(d, 0)
      decreases |d| - offset
    {
      var n := BigEndian(d, offset);
      offset := offset + 4;
      if n == 0 || offset + n > |d| {
        return;
      }
      nals := nals + [d[offset..offset + n]];
      offset := offset + n;
    }
  }

  // ---- what they invert ------------------------------------------------------------------

  /** A unit and the start code in front of it. */
  datatype Framed = Framed(long: bool, nal: seq<byte>)

  function Code(long: bool): (r: seq<byte>)
    ensures |r| == 3 || |r| == 4
  {
    if long then [0, 0, 0, 1] else [0, 0, 1]
  }

  function Join(units: seq<Framed>): seq<byte> {
    if |units| == 0 then [] else Code(units[0].long) + units[0].nal + Join(units[1..])
  }

  function Nals(units: seq<Framed>): (r: seq<seq<byte>>)
    ensures |r| == |units| && forall i :: 0 <= i < |r| ==> r[i] == units[i].nal
  {
    seq(|units|, i requires 0 <= i < |units| => units[i].nal)
  }

  ghost predicate HasCode(d: seq<byte>) {
    exists i :: 0 <= i && i + 3 <= |d| && d[i] == 0 && d[i + 1] == 0 && d[i + 2] == 1
  }

  /**
   Units as section B.1 frames them: nonempty, no start code inside, and none ending in a zero
   byte, unless a 4-byte start code or the end of the stream follows it.
   */
  ghost predicate Framable(units: seq<Framed>) {
    forall i :: 0 <= i < |units| ==>
      && |units[i].nal| > 0 && !HasCode(units[i].nal)
      && (i + 1 < |units| && !units[i + 1].long ==> units[i].nal[|units[i].nal| - 1] != 0)
  }

  /** No start code begins inside a unit, whatever follows it. */
  lemma NoCodeInside(nal: seq<byte>, rest: seq<byte>, long: bool, tail: seq<byte>, j: nat)
    requires j < |nal| && !HasCode(nal)
    requires rest == [] || rest == Code(long) + tail
    requires rest != [] && !long ==> nal[|nal| - 1] != 0
    ensures CodeAt(nal + rest, j) == 0
  {
    var d := nal + rest;
    if rest != [] {
      assert forall k :: 0 <= k < |Code(long)| ==> d[|nal| + k] == Code(long)[k];
    }
    assert forall k :: 0 <= k < |nal| ==> d[k] == nal[k];
    assert forall k :: 0 <= k && k + 3 <= |nal| ==> !(nal[k] == 0 && nal[k + 1] == 0 && nal[k + 2] == 1);
  }

  /** A scan passes over bytes where no start code begins. */
  lemma {:induction false} SkipTo(d: seq<byte>, i: nat, e: nat)
    requires i <= e <= |d| && (forall j :: i <= j < e && j + 3 < |d| ==> CodeAt(d, j) == 0)
    requires e < |d| ==> e + 3 < |d| && CodeAt(d, e) > 0
    ensures NextCode(d, i) == e && EncoderNals(d, i) == EncoderNals(d, e) && ModuleNals(d, i) == ModuleNals(d, e)
    decreases e - i
  {
    hide CodeAt;
    if i < e {
      if i + 3 < |d| {
        SkipTo(d, i + 1, e);
      }
    }
  }

  lemma CodeShift(pre: seq<byte>, d: seq<byte>, i: nat)
    ensures CodeAt(pre + d, |pre| + i) == CodeAt(d, i)
  {
    assert forall k :: 0 <= k < |d| ==> (pre + d)[|pre| + k] == d[k];
  }

  lemma CodeReads(long: bool, tail: seq<byte>)
    ensures CodeAt(Code(long) + tail, 0) == |Code(long)|
  {
    assert forall k :: 0 <= k < |Code(long)| ==> (Code(long) + tail)[k] == Code(long)[k];
  }

  /** Both scanners emit a unit that holds no start code, and go on behind it. */
  lemma OneUnit(d: seq<byte>, i: nat, e: nat)
    requires i + 3 < |d| && CodeAt(d, i) > 0 && i + CodeAt(d, i) < e <= |d|
    requires forall j :: i + CodeAt(d, i) <= j < e && j + 3 < |d| ==> CodeAt(d, j) == 0
    requires e < |d| ==> e + 3 < |d| && CodeAt(d, e) > 0
    ensures EncoderNals(d, i) == [d[i + CodeAt(d, i)..e]] + EncoderNals(d, e)
    ensures ModuleNals(d, i) == [d[i + CodeAt(d, i)..e]] + ModuleNals(d, e)
  {
    hide CodeAt, NextCode;
    SkipTo(d, i + CodeAt(d, i), e);
    SkipTo(d, i + CodeAt(d, i) + 1, e);
  }

  /** Both scanners return exactly the framed units, whatever the mix of start codes. */
  lemma {:induction false} ScannersInvertJoin(pre: seq<byte>, units: seq<Framed>)
    requires Framable(units)
    ensures EncoderNals(pre + Join(units), |pre|) == Nals(units)
    ensures ModuleNals(pre + Join(units), |pre|) == Nals(units)
    decreases |units|
  {
    hide *;
    if |units| > 0 {
      var next := pre + Code(units[0].long) + units[0].nal;
      FirstUnit(pre, units);
      OneUnit(pre + Join(units), |pre|, |next|);
      assert Framable(units[1..]) by { FramableTail(units); }
      ScannersInvertJoin(next, units[1..]);
      assert Nals(units) == [units[0].nal] + Nals(units[1..]);
    } else {
      NoUnits(pre, units);
    }
  }

  lemma NoUnits(pre: seq<byte>, units: seq<Framed>)
    requires units == []
    ensures EncoderNals(pre + Join(units), |pre|) == [] && ModuleNals(pre + Join(units), |pre|) == []
  {}

  lemma FramableTail(units: seq<Framed>)
    requires Framable(units) && |units| > 0
    ensures Framable(units[1..])
  {
    forall i | 0 <= i < |units| - 1 ensures units[1..][i] == units[i + 1] {}
  }

  /** How a joined stream begins: a start code, its unit, and the rest. */
  lemma FirstUnit(pre: seq<byte>, units: seq<Framed>)
    requires Framable(units) && |units| > 0
    ensures var d, i, next := pre + Join(units), |pre|, pre + Code(units[0].long) + units[0].nal;
            && d == next + Join(units[1..])
            && 0 < CodeAt(d, i) == |Code(units[0].long)| && i + CodeAt(d, i) < |next| && i + 3 < |d|
            && d[i + CodeAt(d, i)..|next|] == units[0].nal
            && (forall j :: i + CodeAt(d, i) <= j < |next| ==> CodeAt(d, j) == 0)
            && (|next| < |d| ==> |next| + 3 < |d| && CodeAt(d, |next|) > 0)
  {
    hide *;
    var u, rest := units[0], Join(units[1..]);
    var code := Code(u.long);
    var d := pre + Join(units);
    JoinUnfolds(units);
    Regroup(pre, code, u.nal, rest);
    CodeShift(pre, code + (u.nal + rest), 0);
    CodeReads(u.long, u.nal + rest);
    NoCodeInUnit(pre + code, units);
    assert |pre + code| + |u.nal| == |pre + code + u.nal|;
  }

  lemma JoinUnfolds(units: seq<Framed>)
    requires |units| > 0
    ensures Join(units) == Code(units[0].long) + units[0].nal + Join(units[1..])
  {}

  lemma Regroup(pre: seq<byte>, code: seq<byte>, nal: seq<byte>, rest: seq<byte>)
    ensures var d := pre + (code + nal + rest);
            && d == (pre + code) + (nal + rest) && d == pre + (code + (nal + rest)) && d == (pre + code + nal) + rest
            && d[|pre| + |code|..|pre + code + nal|] == nal
  {
    var d := pre + (code + nal + rest);
    assert code + nal + rest == code + (nal + rest);
    assert d == (pre + code) + (nal + rest);
    assert d == (pre + code + nal) + rest;
    assert d[..|pre + code + nal|] == pre + code + nal;
  }

  /** In the joined stream, the next start code after a unit's own is the next unit's. */
  lemma NoCodeInUnit(pre: seq<byte>, units: seq<Framed>)
    requires Framable(units) && |units| > 0
    ensures var u, rest := units[0], Join(units[1..]);
            var d, e := pre + (u.nal + rest), |pre| + |u.nal|;
            && |u.nal| > 0 && (forall j :: |pre| <= j < e ==> CodeAt(d, j) == 0)
            && (e < |d| ==> e + 3 < |d| && CodeAt(d, e) > 0)
  {
    hide CodeAt, HasCode;
    var u, rest := units[0], Join(units[1..]);
    var d, e := pre + (u.nal + rest), |pre| + |u.nal|;
    var long, tail := false, [];
    if |units| > 1 {
      var next := units[1];
      long, tail := next.long, next.nal + Join(units[1..][1..]);
      assert rest == Code(long) + tail;
      assert d == (pre + u.nal) + rest;
      CodeShift(pre + u.nal, rest, 0);
      CodeReads(long, tail);
    }
    forall j | |pre| <= j < e ensures CodeAt(d, j) == 0 {
      NoCodeInside(u.nal, rest, long, tail, j - |pre|);
      CodeShift(pre, u.nal + rest, j - |pre|);
    }
  }

  // ---- where the scanners differ ---------------------------------------------------------

  /** A start code right behind another one, with a byte after it: an empty unit. */
  ghost predicate EmptyUnitAt(d: seq<byte>, j: nat) {
    j + 6 < |d| && CodeAt(d, j) == 3 && CodeAt(d, j + 3) > 0
  }

  ghost predicate EmptyUnitFrom(d: seq<byte>, i: nat) {
    exists j: nat :: i <= j && EmptyUnitAt(d, j)
  }

  /** A start code ends in the 3-byte code, and holds no other. */
  lemma CodeEnd(d: seq<byte>, i: nat)
    requires CodeAt(d, i) > 0
    ensures var h := i + CodeAt(d, i);
            forall j :: i <= j < h ==> (CodeAt(d, j) == 3 <==> j == h - 3)
  {}

  lemma EmptyUnitLater(d: seq<byte>, i: nat, e: nat)
    requires i <= e && forall j :: i <= j < e ==> !EmptyUnitAt(d, j)
    ensures EmptyUnitFrom(d, i) <==> EmptyUnitFrom(d, e)
  {
    hide EmptyUnitAt;
  }

  /** No start code, no unit. */
  lemma ScanNoCode(d: seq<byte>, i: nat)
    requires i + 3 < |d| && CodeAt(d, i) == 0
    ensures EncoderNals(d, i) == EncoderNals(d, i + 1) && ModuleNals(d, i) == ModuleNals(d, i + 1)
    ensures !EmptyUnitAt(d, i)
  {
    hide CodeAt, NextCode;
  }

  /** A start code ends the stream. */
  lemma ScanLastCode(d: seq<byte>, i: nat)
    requires i + 3 < |d| && CodeAt(d, i) > 0 && i + CodeAt(d, i) >= |d|
    ensures EncoderNals(d, i) == [] && ModuleNals(d, i) == [] && !EmptyUnitFrom(d, i)
  {
    hide CodeAt;
    assert EncoderNals(d, i) == [];
  }

  /** A start code right behind one: only the encoder's scanner emits anything for it. */
  lemma ScanEmptyUnit(d: seq<byte>, i: nat)
    requires i + 3 < |d| && CodeAt(d, i) > 0 && i + CodeAt(d, i) + 3 < |d| && CodeAt(d, i + CodeAt(d, i)) > 0
    ensures var h := i + CodeAt(d, i);
            && |EncoderNals(d, i)| == 1 + |EncoderNals(d, h)| && ModuleNals(d, i) == ModuleNals(d, h)
            && EmptyUnitFrom(d, i)
  {
    CodeEnd(d, i);
    hide CodeAt;
    assert EmptyUnitAt(d, i + CodeAt(d, i) - 3);
    assert [] + ModuleNals(d, i + CodeAt(d, i)) == ModuleNals(d, i + CodeAt(d, i));
  }

  /** A start code with a unit behind it holds no empty unit. */
  lemma ScanUnit(d: seq<byte>, i: nat, e: nat)
    requires i + 3 < |d| && CodeAt(d, i) > 0 && i + CodeAt(d, i) < e <= |d|
    requires forall j :: i + CodeAt(d, i) <= j < e && j + 3 < |d| ==> CodeAt(d, j) == 0
    ensures forall j :: i <= j < e ==> !EmptyUnitAt(d, j)
  {
    CodeEnd(d, i);
    hide CodeAt;
  }

  lemma {:induction false} ScanBoth(d: seq<byte>, i: nat)
    ensures |EncoderNals(d, i)| >= |ModuleNals(d, i)|
    ensures EmptyUnitFrom(d, i) ==> |EncoderNals(d, i)| > |ModuleNals(d, i)|
    ensures !EmptyUnitFrom(d, i) ==> EncoderNals(d, i) == ModuleNals(d, i)
    decreases |d| - i
  {
    hide CodeAt, NextCode, EncoderNals, ModuleNals, EmptyUnitFrom, EmptyUnitAt;
    var h := i + CodeAt(d, i);
    if i + 3 >= |d| {
      ScanDone(d, i);
    } else if CodeAt(d, i) == 0 {
      ScanNoCode(d, i);
      EmptyUnitLater(d, i, i + 1);
      ScanBoth(d, i + 1);
    } else if h >= |d| {
      ScanLastCode(d, i);
    } else if h + 3 < |d| && CodeAt(d, h) > 0 {
      ScanEmptyUnit(d, i);
      ScanBoth(d, h);
    } else {
      var e := NextCode(d, h);
      OneUnit(d, i, e);
      ScanUnit(d, i, e);
      EmptyUnitLater(d, i, e);
      ScanBoth(d, e);
    }
  }

  lemma ScanDone(d: seq<byte>, i: nat)
    requires i + 3 >= |d|
    ensures EncoderNals(d, i) == [] && ModuleNals(d, i) == [] && !EmptyUnitFrom(d, i)
  {
    hide CodeAt;
  }

  /** On every byte string the two scanners agree exactly when no unit is empty. */
  lemma ScannersAgree(d: seq<byte>)
    ensures EncoderNals(d, 0) == ModuleNals(d, 0) <==> !EmptyUnitFrom(d, 0)
  {
    ScanBoth(d, 0);
  }

  /** The smallest difference: an empty unit makes the encoder's scanner emit a start code as data. */
  lemma ScannersDiffer(x: byte)
    ensures var d := [0, 0, 1, 0, 0, 1, x];
            EncoderNals(d, 0) == [[0, 0, 1, x], [x]] && ModuleNals(d, 0) == [[x]]
  {
    var d := [0, 0, 1, 0, 0, 1, x];
    assert CodeAt(d, 0) == 3 && CodeAt(d, 3) == 3 && NextCode(d, 4) == 7 && NextCode(d, 3) == 3 && NextCode(d, 6) == 7;
    assert d[3..7] == [0, 0, 1, x] && d[6..7] == [x];
    assert NextCode(d, 7) == 7;
    assert EncoderNals(d, 6) == [] && ModuleNals(d, 7) == [];
    assert EncoderNals(d, 3) == [[x]] && ModuleNals(d, 3) == [[x]];
  }

  // ---- what they emit, on every byte string ----------------------------------------------

  /**
   A unit from s to e: behind a start code, up to the next start code with a byte behind it, or to
   the end. The search for that one begins `skip` bytes into the unit.
   */
  ghost predicate UnitAt(d: seq<byte>, s: nat, e: nat, skip: nat) {
    && 3 <= s < e <= |d| && CodeAt(d, s - 3) == 3
    && (forall j :: s + skip <= j < e && j + 3 < |d| ==> CodeAt(d, j) == 0)
    && (e < |d| ==> s + skip <= e && e + 3 < |d| && CodeAt(d, e) > 0)
  }

  ghost predicate IsUnit(d: seq<byte>, i: nat, nal: seq<byte>, skip: nat) {
    exists s: nat, e: nat :: i + 3 <= s && UnitAt(d, s, e, skip) && nal == d[s..e]
  }

  /**
   Framed well or not: the module's scanner emits exactly the units, and so does the encoder's,
   which begins to look for the end behind a unit's first byte.
   */
  lemma EmitsExactlyUnits(d: seq<byte>, nal: seq<byte>)
    ensures nal in ModuleNals(d, 0) <==> IsUnit(d, 0, nal, 0)
    ensures nal in EncoderNals(d, 0) <==> IsUnit(d, 0, nal, 1)
  {
    ModuleEmits(d, 0, nal);
    EncoderEmits(d, 0, nal);
  }

  lemma {:induction false} ModuleEmits(d: seq<byte>, i: nat, nal: seq<byte>)
    ensures nal in ModuleNals(d, i) <==> IsUnit(d, i, nal, 0)
    decreases |d| - i
  {
    hide CodeAt, NextCode, IsUnit, UnitAt;
    if i + 3 >= |d| {
      NoUnitLeft(d, i, nal, 0);
    } else if CodeAt(d, i) == 0 {
      UnitLater(d, i, nal, 0);
      ModuleEmits(d, i + 1, nal);
    } else {
      var start := i + CodeAt(d, i);
      var end := NextCode(d, start);
      ModuleEmits(d, end, nal);
      UnitHere(d, i, end, nal, 0);
    }
  }

  lemma {:induction false} EncoderEmits(d: seq<byte>, i: nat, nal: seq<byte>)
    ensures nal in EncoderNals(d, i) <==> IsUnit(d, i, nal, 1)
    decreases |d| - i
  {
    hide CodeAt, NextCode, IsUnit, UnitAt;
    if i + 3 >= |d| {
      NoUnitLeft(d, i, nal, 1);
    } else if CodeAt(d, i) == 0 {
      UnitLater(d, i, nal, 1);
      EncoderEmits(d, i + 1, nal);
    } else {
      var start := i + CodeAt(d, i);
      if start < |d| {
        EncoderEmits(d, start, nal);
        UnitHere(d, i, NextCode(d, start + 1), nal, 1);
      } else {
        LastCode(d, i, nal);
      }
    }
  }

  lemma NoUnitLeft(d: seq<byte>, i: nat, nal: seq<byte>, skip: nat)
    requires i + 3 >= |d|
    ensures !IsUnit(d, i, nal, skip)
  {}

  lemma UnitLater(d: seq<byte>, i: nat, nal: seq<byte>, skip: nat)
    requires CodeAt(d, i) == 0
    ensures IsUnit(d, i, nal, skip) <==> IsUnit(d, i + 1, nal, skip)
  {
    hide CodeAt;
  }

  lemma LastCode(d: seq<byte>, i: nat, nal: seq<byte>)
    requires CodeAt(d, i) > 0 && i + CodeAt(d, i) >= |d|
    ensures !IsUnit(d, i, nal, 1)
  {
    CodeEnd(d, i);
    hide CodeAt;
  }

  /** From a start code on: the unit behind it, if it has a byte, and those behind the next code. */
  lemma UnitHere(d: seq<byte>, i: nat, end: nat, nal: seq<byte>, skip: nat)
    requires CodeAt(d, i) > 0 && skip <= 1 && i + CodeAt(d, i) + skip <= |d|
    requires end == NextCode(d, i + CodeAt(d, i) + skip)
    ensures var start := i + CodeAt(d, i);
            IsUnit(d, i, nal, skip)
            <==> (end > start && nal == d[start..end]) || IsUnit(d, if skip == 0 then end else start, nal, skip)
  {
    var start := i + CodeAt(d, i);
    var from := if skip == 0 then end else start;
    CodeEnd(d, i);
    hide CodeAt, NextCode;
    if end > start {
      assert UnitAt(d, start, end, skip);
    }
    forall s: nat, e: nat | i + 3 <= s && UnitAt(d, s, e, skip)
      ensures (s == start && e == end) || from + 3 <= s
    {
      if s == start {
        assert e == end;
      } else {
        assert s - 3 >= start;
      }
    }
  }

  // ---- length prefixes -------------------------------------------------------------------

  function Prefix(n: nat): seq<byte>
    requires n < 0x1_0000_0000
  {
    [n / 256 / 256 / 256, n / 256 / 256 % 256, n / 256 % 256, n % 256]
  }

  /** Every unit has a length, and one that its prefix can hold. */
  predicate Prefixable(nals: seq<seq<byte>>) {
    forall i :: 0 <= i < |nals| ==> 0 < |nals[i]| < 0x1_0000_0000
  }

  lemma PrefixableTail(nals: seq<seq<byte>>)
    requires Prefixable(nals) && |nals| > 0
    ensures 0 < |nals[0]| < 0x1_0000_0000 && Prefixable(nals[1..])
  {}

  function JoinPrefixed(nals: seq<seq<byte>>): seq<byte>
    requires Prefixable(nals)
  {
    if |nals| == 0 then [] else Prefix(|nals[0]|) + nals[0] + JoinPrefixed(nals[1..])
  }

  lemma WordOfParts(n: nat)
    requires n < 0x1_0000_0000
    ensures var p := Prefix(n); Word(p[0], p[1], p[2], p[3]) == n
  {}

  lemma PrefixValue(n: nat, rest: seq<byte>, pre: seq<byte>)
    requires n < 0x1_0000_0000
    ensures BigEndian(pre + (Prefix(n) + rest), |pre|) == n
  {
    var d, p := pre + (Prefix(n) + rest), Prefix(n);
    WordOfParts(n);
    assert forall k :: 0 <= k < 4 ==> d[|pre| + k] == p[k];
    hide Prefix, Word;
  }

  /** One turn of the branch: the unit behind the prefix, then the rest. */
  lemma PrefixedStep(pre: seq<byte>, nal: seq<byte>, rest: seq<byte>)
    requires 0 < |nal| < 0x1_0000_0000
    ensures var d, next := pre + (Prefix(|nal|) + (nal + rest)), pre + Prefix(|nal|) + nal;
            d == next + rest && PrefixedNals(d, |pre|) == [nal] + PrefixedNals(d, |next|)
  {
    var d, next := pre + (Prefix(|nal|) + (nal + rest)), pre + Prefix(|nal|) + nal;
    PrefixValue(|nal|, nal + rest, pre);
    assert |Prefix(|nal|)| == 4;
    hide BigEndian, Prefix;
    assert d == next + rest;
    assert d[|pre| + 4..|next|] == nal;
  }

  /** No further unit: the prefix is cut short, holds 0, or more than there is. */
  predicate NoPrefixedUnit(d: seq<byte>, i: nat) {
    i + 4 > |d| || BigEndian(d, i) == 0 || i + 4 + BigEndian(d, i) > |d|
  }

  /** On every byte string: the units emitted make up its beginning, and no further one follows them. */
  lemma {:induction false} PrefixedExactly(d: seq<byte>, i: nat)
    requires i <= |d|
    ensures var nals := PrefixedNals(d, i);
            Prefixable(nals)
            && (var end := i + |JoinPrefixed(nals)|;
                end <= |d| && d[i..end] == JoinPrefixed(nals) && NoPrefixedUnit(d, end))
    decreases |d| - i
  {
    hide BigEndian, Prefix, Prefixable;
    if i + 4 <= |d| && BigEndian(d, i) != 0 && i + 4 + BigEndian(d, i) <= |d| {
      var n := BigEndian(d, i);
      var next := i + 4 + n;
      PrefixedExactly(d, next);
      var rest := PrefixedNals(d, next);
      PrefixRead(d, i);
      MorePrefixable(d[i + 4..next], rest);
      var end := next + |JoinPrefixed(rest)|;
      assert d[i..end] == d[i..i + 4] + d[i + 4..next] + d[next..end];
      assert ([d[i + 4..next]] + rest)[1..] == rest;
    } else {
      NonePrefixable();
    }
  }

  lemma NonePrefixable()
    ensures Prefixable([])
  {}

  lemma MorePrefixable(nal: seq<byte>, rest: seq<seq<byte>>)
    requires 0 < |nal| < 0x1_0000_0000 && Prefixable(rest)
    ensures Prefixable([nal] + rest)
  {}

  lemma PrefixRead(d: seq<byte>, i: nat)
    requires i + 4 <= |d|
    ensures BigEndian(d, i) < 0x1_0000_0000 && Prefix(BigEndian(d, i)) == d[i..i + 4]
  {
    var a: nat, b: nat, c: nat, e: nat := d[i], d[i + 1], d[i + 2], d[i + 3];
    var n := BigEndian(d, i);
    assert n / 256 == (a * 256 + b) * 256 + c && n / 256 / 256 == a * 256 + b;
    assert Prefix(n) == [a, b, c, e];
  }

  /** The length-prefix branch returns exactly the joined units. */
  lemma {:induction false} ScanInvertsPrefixes(pre: seq<byte>, nals: seq<seq<byte>>)
    requires Prefixable(nals)
    ensures PrefixedNals(pre + JoinPrefixed(nals), |pre|) == nals
    decreases |nals|
  {
    hide *;
    if |nals| > 0 {
      PrefixableTail(nals);
      var nal, rest := nals[0], JoinPrefixed(nals[1..]);
      PrefixedStep(pre, nal, rest);
      JoinPrefixedFront(nals);
      ScanInvertsPrefixes(pre + Prefix(|nal|) + nal, nals[1..]);
      assert nals == [nal] + nals[1..];
    } else {
      NothingJoined(pre, nals);
    }
  }

  lemma JoinPrefixedFront(nals: seq<seq<byte>>)
    requires Prefixable(nals) && |nals| > 0
    ensures Prefixable(nals[1..]) && 0 < |nals[0]| < 0x1_0000_0000
    ensures JoinPrefixed(nals) == Prefix(|nals[0]|) + (nals[0] + JoinPrefixed(nals[1..]))
  {
    hide Prefix;
    var a, b, c := Prefix(|nals[0]|), nals[0], JoinPrefixed(nals[1..]);
    assert a + b + c == a + (b + c);
  }

  lemma NothingJoined(pre: seq<byte>, nals: seq<seq<byte>>)
    requires nals == []
    ensures Prefixable(nals) && PrefixedNals(pre + JoinPrefixed(nals), |pre|) == nals
  {
    assert pre + [] == pre;
  }
}
