/**
 The parity builder of src/udp/fec_v2.cpp: a frame is cut into fragments of `symbolBytes`
 bytes, fragment n belongs to group n mod groups, and every parity payload is, byte by byte,
 a row of the Cauchy code over the fragments of its group. The last fragment may be short and
 is read as if padded with zeros.
 */
module Fec {
  import opened Gf256
  import opened Gf256Tables
  import opened CauchyCode
  import opened Numbers
  import opened Wrappers

  // ---- what the payloads mean ------------------------------------------------------------

  function AsUint8(n: nat): byte {
    n % 256
  }

  lemma OneMoreInUint8(n: nat)
    ensures (AsUint8(n) as nat + 1) % 256 == AsUint8(n + 1)
  {}

  /** How many of the fragments 0..total-1 fall into a group. */
  function GroupSize(total: nat, groups: nat, group: nat): nat
    requires 0 < groups
  {
    if group >= total then 0 else (total - 1 - group) / groups + 1
  }

  /** Byte b of fragment n, with everything past the end of the data read as zero. */
  function PaddedByte(data: seq<byte>, symbolBytes: nat, n: nat, b: nat): byte {
    if n * symbolBytes + b < |data| then data[n * symbolBytes + b] else 0
  }

  /** Byte position b of the first k fragments of a group. */
  ghost function GroupBytes(data: seq<byte>, symbolBytes: nat, groups: nat, group: nat, b: nat, k: nat): (s: seq<byte>)
    ensures |s| == k
    ensures forall j :: 0 <= j < k ==> s[j] == PaddedByte(data, symbolBytes, group + j * groups, b)
  {
    seq(k, j requires 0 <= j < k => PaddedByte(data, symbolBytes, group + j * groups, b))
  }

  /** The parity payload of one row of one group holds, at every byte position, that row's parity byte. */
  ghost predicate IsParityPayload(payload: seq<byte>, data: seq<byte>, total: nat, groups: nat, group: nat,
                                  parity: nat, symbolBytes: nat)
    requires 0 < groups && symbolBytes <= |payload|
  {
    forall b :: 0 <= b < symbolBytes ==>
      payload[b] == ParityByte(GroupBytes(data, symbolBytes, groups, group, b, GroupSize(total, groups, group)), parity)
  }

  ghost function Coef(row: nat, column: nat): byte {
    Inv(Add(Column(column), Row(row)))
  }

  ghost predicate IsCoefRow(s: seq<byte>, row: nat) {
    forall column :: 0 <= column < |s| ==> s[column] == Coef(row, column)
  }

  /** A row-major coefficient table with r rows of k entries. */
  ghost predicate IsCoefTable(s: seq<byte>, k: nat, r: nat) {
    && |s| == r * k
    && forall row :: 0 <= row < r ==> 0 <= row * k <= row * k + k <= |s| && IsCoefRow(s[row * k..row * k + k], row)
  }

  // ---- lemmas the loops rest on ----------------------------------------------------------

  lemma {:induction false} CauchySumSnoc(c: seq<byte>, x: seq<byte>, d: byte, z: byte, y: byte)
    requires |c| == |x|
    ensures CauchySum(c + [d], x + [z], y) == Add(CauchySum(c, x, y), Mul(d, Inv(Add(z, y))))
    decreases |c|
  {
    hide Add, Mul, Inv;
    var t := Mul(d, Inv(Add(z, y)));
    if |c| == 0 {
      AddComm(t, 0);
      assert (c + [d])[1..] == [] && (x + [z])[1..] == [];
    } else {
      CauchySumSnoc(c[1..], x[1..], d, z, y);
      assert (c + [d])[1..] == c[1..] + [d];
      assert (x + [z])[1..] == x[1..] + [z];
      AddAssoc(Mul(c[0], Inv(Add(x[0], y))), CauchySum(c[1..], x[1..], y), t);
    }
  }

  /** One more fragment adds its coefficient times its padded byte. */
  lemma ParityByteSnoc(data: seq<byte>, symbolBytes: nat, groups: nat, group: nat, b: nat, k: nat, row: nat)
    ensures ParityByte(GroupBytes(data, symbolBytes, groups, group, b, k + 1), row)
         == Add(ParityByte(GroupBytes(data, symbolBytes, groups, group, b, k), row),
                Mul(Coef(row, k), PaddedByte(data, symbolBytes, group + k * groups, b)))
  {
    hide Add, Mul, Inv, CauchySum, PaddedByte, Row;
    var s := GroupBytes(data, symbolBytes, groups, group, b, k);
    var v := PaddedByte(data, symbolBytes, group + k * groups, b);
    assert GroupBytes(data, symbolBytes, groups, group, b, k + 1) == s + [v];
    assert Columns(k + 1) == Columns(k) + [Column(k)];
    CauchySumSnoc(s, Columns(k), v, Column(k), Row(row));
    MulComm(v, Coef(row, k));
  }

  lemma GroupSizeNext(total: nat, groups: nat, group: nat, k: nat)
    requires 0 < groups
    ensures group + k * groups < total <==> k < GroupSize(total, groups, group)
  {
    if group < total {
      var q, m := (total - 1 - group) / groups, (total - 1 - group) % groups;
      assert total - 1 - group == q * groups + m;
      Within(total - 1 - group, q, m, groups, k);
    } else {
      Product(k, groups);
    }
  }

  lemma Within(n: nat, q: nat, m: nat, d: nat, k: nat)
    requires n == q * d + m && m < d
    ensures k * d <= n <==> k <= q
  {
    if k <= q {
      MulLe(k, q, d);
    } else {
      MulLe(q + 1, k, d);
    }
  }

  lemma Product(a: nat, b: nat)
    ensures a * b >= 0
  {}

  /** Groups never hold more fragments than a uint8 counts when the frame has at most 255 per group. */
  lemma GroupSizeBound(total: nat, groups: nat, group: nat)
    requires 0 < groups && total <= 255 * groups
    ensures GroupSize(total, groups, group) <= 255
  {
    if GroupSize(total, groups, group) > 255 {
      GroupSizeNext(total, groups, group, 255);
    }
  }

  lemma ParityByteOfNothing(data: seq<byte>, symbolBytes: nat, groups: nat, group: nat, b: nat, row: nat)
    ensures ParityByte(GroupBytes(data, symbolBytes, groups, group, b, 0), row) == 0
  {}

  /** Row-major numbering of the payloads. */
  lemma FlatIndex(parity: nat, group: nat, groups: nat, r: nat)
    requires group < groups && parity < r
    ensures parity * groups + group < groups * r
    ensures (parity * groups + group) / groups == parity
    ensures (parity * groups + group) % groups == group
  {
    MulLe(parity + 1, r, groups);
    DivModUnique(parity * groups + group, groups, parity, group);
  }

  /** The payload after the first k fragments of the group have been added. */
  ghost predicate IsPartialPayload(payload: seq<byte>, data: seq<byte>, groups: nat, group: nat, parity: nat,
                                   symbolBytes: nat, k: nat)
    requires symbolBytes <= |payload|
  {
    forall b :: 0 <= b < symbolBytes ==>
      payload[b] == ParityByte(GroupBytes(data, symbolBytes, groups, group, b, k), parity)
  }

  lemma PartialPayloadStart(payload: seq<byte>, data: seq<byte>, groups: nat, group: nat, parity: nat, symbolBytes: nat)
    requires symbolBytes <= |payload|
    requires forall b :: 0 <= b < symbolBytes ==> payload[b] == 0
    ensures IsPartialPayload(payload, data, groups, group, parity, symbolBytes, 0)
  {
    forall b | 0 <= b < symbolBytes
      ensures payload[b] == ParityByte(GroupBytes(data, symbolBytes, groups, group, b, 0), parity)
    {
      ParityByteOfNothing(data, symbolBytes, groups, group, b, parity);
    }
  }

  lemma FullPayload(payload: seq<byte>, data: seq<byte>, total: nat, groups: nat, group: nat, parity: nat,
                    symbolBytes: nat)
    requires 0 < groups && symbolBytes <= |payload|
    requires IsPartialPayload(payload, data, groups, group, parity, symbolBytes, GroupSize(total, groups, group))
    ensures IsParityPayload(payload, data, total, groups, group, parity, symbolBytes)
  {}

  /** Adding the bytes a fragment really has is adding its zero-padded bytes. */
  lemma PartialPayloadStep(before: seq<byte>, after: seq<byte>, data: seq<byte>, groups: nat, group: nat, parity: nat,
                           symbolBytes: nat, k: nat, offset: nat, chunk: nat)
    requires symbolBytes <= |before| == |after|
    requires IsPartialPayload(before, data, groups, group, parity, symbolBytes, k)
    requires offset == (group + k * groups) * symbolBytes
    requires chunk <= symbolBytes && (chunk > 0 ==> offset + chunk <= |data|)
    requires chunk < symbolBytes ==> |data| <= offset + chunk
    requires forall b :: 0 <= b < chunk ==> after[b] == Add(before[b], Mul(Coef(parity, k), data[offset + b]))
    requires forall b :: chunk <= b < symbolBytes ==> after[b] == before[b]
    ensures IsPartialPayload(after, data, groups, group, parity, symbolBytes, k + 1)
  {
    hide Add, Mul, Inv, ParityByte, Coef;
    forall b | 0 <= b < symbolBytes
      ensures after[b] == ParityByte(GroupBytes(data, symbolBytes, groups, group, b, k + 1), parity)
    {
      ParityByteSnoc(data, symbolBytes, groups, group, b, k, parity);
      MulZero(Coef(parity, k));
      AddZero(before[b]);
    }
  }

  /** Groups are interleaved: the member of the group with this rank. */
  ghost predicate IsSource(source: nat, groups: nat, group: nat, rank: nat) {
    source == group + rank * groups
  }

  lemma FirstSource(total: nat, groups: nat, group: nat)
    requires 0 < groups
    ensures IsSource(group, groups, group, 0) && (group < total <==> 0 < GroupSize(total, groups, group))
  {
    GroupSizeNext(total, groups, group, 0);
  }

  lemma NextSource(total: nat, groups: nat, group: nat, rank: nat, source: nat)
    requires 0 < groups && IsSource(source, groups, group, rank)
    ensures IsSource(source + groups, groups, group, rank + 1)
    ensures source + groups < total <==> rank + 1 < GroupSize(total, groups, group)
  {
    GroupSizeNext(total, groups, group, rank + 1);
  }

  lemma FirstRow(groups: nat, r: nat)
    ensures IsSource(0, groups, 0, 0) && 0 <= groups * r
    ensures forall start: nat :: IsSource(start, groups, 0, r) ==> start == groups * r
  {}

  lemma NextRow(groups: nat, r: nat, parity: nat, start: nat)
    requires parity < r && IsSource(start, groups, 0, parity)
    ensures IsSource(start + groups, groups, 0, parity + 1) && start + groups <= groups * r
  {
    MulLe(parity + 1, r, groups);
  }

  lemma CoefAt(s: seq<byte>, row: nat, column: nat)
    requires IsCoefRow(s, row) && column < |s|
    ensures s[column] == Coef(row, column)
  {}

  // ---- the encoder -----------------------------------------------------------------------

  /** The plan per fragment count: number of groups and parities per group. */
  datatype FecTable = FecTable(loaded: bool, groupsByN: seq<byte>, rByN: seq<byte>) {
    predicate Shaped() {
      |groupsByN| == 256 && |rByN| == 256
    }
  }

  /** The parameters for a frame, if parity is to be sent at all. */
  function GetParams(table: FecTable, tableId: byte, total: nat): (r: Option<(byte, byte)>)
    requires table.Shaped()
    ensures r.None? <==>
            !(tableId == 1 && table.loaded && total < 256) || 0 in {table.groupsByN[total], table.rByN[total]}
    ensures r.Some? ==> r.value == (table.groupsByN[total], table.rByN[total])
  {
    if tableId != 1 || total >= 256 || !table.loaded then None
    else if table.groupsByN[total] > 0 && table.rByN[total] > 0 then Some((table.groupsByN[total], table.rByN[total]))
    else None
  }

  /** The wanted payload buffers, as a modifies frame. */
  ghost function BufferSet(out: seq<array?<byte>>): (s: set<array<byte>>)
    ensures forall q :: 0 <= q < |out| && out[q] != null ==> out[q] in s
    ensures forall a :: a in s ==> a in out
  {
    set q | 0 <= q < |out| && out[q] != null :: out[q]
  }

  /** The guard of the encoder: something to protect, something to send, and room for it. */
  predicate Enabled(data: seq<byte>, groups: nat, r: nat, symbolBytes: nat, room: nat) {
    |data| != 0 && groups != 0 && r != 0 && symbolBytes != 0 && room >= groups * r
  }

  class FecV2 {
    const tables: Tables
    var cache: map<nat, seq<byte>>

    ghost predicate Valid()
      reads this, tables.Repr()
    {
      tables.Valid() && forall key :: key in cache ==> IsCoefTable(cache[key], key / 256, key % 256)
    }

    constructor ()
      ensures Valid() && fresh(tables.Repr())
    {
      tables := new Tables();
      cache := map[];
    }

    method BuildCoefRow(k: byte, row: byte) returns (s: seq<byte>)
      requires tables.Valid()
      modifies tables.Repr()
      ensures tables.Valid() && |s| == k && IsCoefRow(s, row)
    {
      hide Add, Inv, Tables.Valid;
      s := [];
      for column := 0 to k
        invariant tables.Valid() && |s| == column && IsCoefRow(s, row)
      {
        var x := column;
        var y := (0x80 + row as nat) % 256;
        var c := tables.InvByte(Add(x, y));
        s := s + [c];
      }
    }

    method BuildCoef(k: byte, r: byte) returns (coef: seq<byte>)
      requires tables.Valid()
      modifies tables.Repr()
      ensures tables.Valid() && IsCoefTable(coef, k, r)
    {
      coef := [];
      for row := 0 to r
        invariant tables.Valid() && IsCoefTable(coef, k, row)
      {
        var s := BuildCoefRow(k, row);
        CoefTableSnoc(coef, k, row, s);
        coef := coef + s;
      }
    }

    /** The coefficient table for k sources and r parities, computed once per (k, r). */
    method GetCoef(k: byte, r: byte) returns (coef: seq<byte>)
      requires Valid()
      modifies this`cache, tables.Repr()
      ensures Valid() && IsCoefTable(coef, k, r)
    {
      var key: nat := k as nat * 256 + r as nat;
      if key in cache {
        return cache[key];
      }
      coef := BuildCoef(k, r);
      cache := cache[key := coef];
    }

    /** The number of sources of every group, as a uint8 counts it, and its coefficient table. */
    method PrepareGroupCoefficients(total: nat, groups: byte, r: byte)
      returns (kByGroup: seq<byte>, coefByGroup: seq<Option<seq<byte>>>)
      requires Valid()
      modifies this`cache, tables.Repr()
      ensures Valid() && |kByGroup| == groups && |coefByGroup| == groups
      ensures forall g :: 0 <= g < groups ==>
        && kByGroup[g] == AsUint8(GroupSize(total, groups, g))
        && (kByGroup[g] == 0 ==> coefByGroup[g].None?)
        && (kByGroup[g] > 0 ==> coefByGroup[g].Some? && IsCoefTable(coefByGroup[g].value, kByGroup[g], r))
    {
      hide IsCoefTable, GroupSize, AsUint8;
      kByGroup, coefByGroup := [], [];
      for group := 0 to groups
        invariant Valid() && |kByGroup| == group && |coefByGroup| == group
        invariant forall g :: 0 <= g < group ==>
          && kByGroup[g] == AsUint8(GroupSize(total, groups, g))
          && (kByGroup[g] == 0 ==> coefByGroup[g].None?)
          && (kByGroup[g] > 0 ==> coefByGroup[g].Some? && IsCoefTable(coefByGroup[g].value, kByGroup[g], r))
      {
        var k := CountGroup(total, groups, group);
        kByGroup := kByGroup + [k];
        if k > 0 {
          var coef := GetCoef(k, r);
          coefByGroup := coefByGroup + [Some(coef)];
        } else {
          coefByGroup := coefByGroup + [None];
        }
      }
    }

    /** The inner counting loop: the count wraps at 256. */
    method CountGroup(total: nat, groups: byte, group: nat) returns (k: byte)
      requires 0 < groups
      ensures k == AsUint8(GroupSize(total, groups, group))
    {
      hide GroupSize;
      k := 0;
      var index := group;
      ghost var n: nat := 0;
      assert AsUint8(0) == 0;
      FirstSource(total, groups, group);
      hide IsSource, AsUint8;
      while index < total
        invariant IsSource(index, groups, group, n) && k == AsUint8(n) && n <= GroupSize(total, groups, group)
        invariant index < total <==> n < GroupSize(total, groups, group)
        decreases total + groups - index
      {
        NextSource(total, groups, group, n, index);
        OneMoreInUint8(n);
        k := (k as nat + 1) % 256;
        index := index + groups;
        n := n + 1;
      }
    }

    /** Adds what one fragment has of the symbol. */
    method AddFragment(data: seq<byte>, groups: byte, group: nat, parity: nat, symbolBytes: nat, local: nat,
                       source: nat, coef: byte, payload: array<byte>)
      requires tables.Valid() && payload !in tables.Repr() && symbolBytes <= payload.Length
      requires IsSource(source, groups, group, local) && coef == Coef(parity, local)
      requires IsPartialPayload(payload[..], data, groups, group, parity, symbolBytes, local)
      modifies tables.Repr(), payload
      ensures tables.Valid()
      ensures IsPartialPayload(payload[..], data, groups, group, parity, symbolBytes, local + 1)
      ensures forall b :: symbolBytes <= b < payload.Length ==> payload[b] == old(payload[b])
    {
      hide Add, Mul, IsPartialPayload, Coef, Tables.Valid;
      ghost var before := payload[..];
      var offset := source * symbolBytes;
      var chunk := if offset < |data| then Min(symbolBytes, |data| - offset) else 0;
      if chunk > 0 {
        tables.MulAdd(coef, data[offset..offset + chunk], payload, chunk);
      }
      PartialPayloadStep(before, payload[..], data, groups, group, parity, symbolBytes, local, offset, chunk);
    }

    /** Adds the fragments of one group, one after the other, into a zeroed payload. */
    method AccumulateGroup(data: seq<byte>, total: nat, groups: byte, group: nat, parity: nat, symbolBytes: nat,
                           coefRow: seq<byte>, payload: array<byte>)
      requires tables.Valid() && payload !in tables.Repr()
      requires 0 < groups && total <= 255 * groups && symbolBytes <= payload.Length
      requires |coefRow| == GroupSize(total, groups, group) && IsCoefRow(coefRow, parity)
      requires forall b :: 0 <= b < symbolBytes ==> payload[b] == 0
      modifies tables.Repr(), payload
      ensures tables.Valid()
      ensures IsParityPayload(payload[..], data, total, groups, group, parity, symbolBytes)
      ensures forall b :: symbolBytes <= b < payload.Length ==> payload[b] == old(payload[b])
    {
      hide *;
      var k := GroupSize(total, groups, group);
      var local: nat := 0;
      var source := group;
      PartialPayloadStart(payload[..], data, groups, group, parity, symbolBytes);
      FirstSource(total, groups, group);
      while source < total
        invariant tables.Valid()
        invariant IsSource(source, groups, group, local) && local <= k
        invariant source < total <==> local < k
        invariant IsPartialPayload(payload[..], data, groups, group, parity, symbolBytes, local)
        invariant forall b :: symbolBytes <= b < payload.Length ==> payload[b] == old(payload[b])
        decreases total + groups - source
      {
        CoefAt(coefRow, parity, local);
        AddFragment(data, groups, group, parity, symbolBytes, local, source, coefRow[local], payload);
        NextSource(total, groups, group, local, source);
        local, source := local + 1, source + groups;
      }
      FullPayload(payload[..], data, total, groups, group, parity, symbolBytes);
    }

    method FillPayload(data: seq<byte>, total: nat, groups: byte, group: nat, parity: nat, symbolBytes: nat,
                       r: byte, coef: Option<seq<byte>>, payload: array<byte>)
      requires tables.Valid() && payload !in tables.Repr()
      requires 0 < groups && total <= 255 * groups && symbolBytes <= payload.Length && parity < r
      requires coef.None? ==> GroupSize(total, groups, group) == 0
      requires coef.Some? ==> IsCoefTable(coef.value, GroupSize(total, groups, group), r)
      modifies tables.Repr(), payload
      ensures tables.Valid()
      ensures IsParityPayload(payload[..], data, total, groups, group, parity, symbolBytes)
      ensures forall b :: symbolBytes <= b < payload.Length ==> payload[b] == old(payload[b])
    {
      hide CauchySum;
      forall b | 0 <= b < symbolBytes {
        payload[b] := 0;
      }
      var k := GroupSize(total, groups, group);
      if coef.None? {
        PartialPayloadStart(payload[..], data, groups, group, parity, symbolBytes);
        FullPayload(payload[..], data, total, groups, group, parity, symbolBytes);
        return;
      }
      var coefRow := coef.value[parity * k..parity * k + k];
      AccumulateGroup(data, total, groups, group, parity, symbolBytes, coefRow, payload);
    }

    /** Payload buffers that do not overlap; null stands for a payload that is not wanted. */
    ghost predicate Buffers(out: seq<array?<byte>>, symbolBytes: nat)
    {
      && (forall q :: 0 <= q < |out| && out[q] != null ==> out[q].Length >= symbolBytes && out[q] !in tables.Repr())
      && (forall p, q :: 0 <= p < q < |out| && out[p] != null ==> out[p] != out[q])
    }

    /** The first n buffers hold their parity payloads. */
    ghost predicate Filled(data: seq<byte>, total: nat, groups: nat, symbolBytes: nat, out: seq<array?<byte>>, n: nat)
      requires 0 < groups && n <= |out| && Buffers(out, symbolBytes)
      reads BufferSet(out)
    {
      forall q :: 0 <= q < n && out[q] != null ==>
        IsParityPayload(out[q][..], data, total, groups, q % groups, q / groups, symbolBytes)
    }

    /** Buffer n = parity * groups + group gets its payload; no other buffer changes. */
    method FillNth(data: seq<byte>, total: nat, groups: byte, group: nat, parity: nat, symbolBytes: nat,
                   r: byte, coef: Option<seq<byte>>, out: seq<array?<byte>>, n: nat)
      requires Valid() && Buffers(out, symbolBytes) && n < |out|
      requires group < groups && parity < r && n == parity * groups + group && total <= 255 * groups
      requires Filled(data, total, groups, symbolBytes, out, n)
      requires coef.None? ==> GroupSize(total, groups, group) == 0
      requires coef.Some? ==> IsCoefTable(coef.value, GroupSize(total, groups, group), r)
      modifies tables.Repr(), if out[n] != null then {out[n]} else {}
      ensures Valid()
      ensures Filled(data, total, groups, symbolBytes, out, n + 1)
      ensures RestKept(symbolBytes, out, n + 1)
    {
      hide IsCoefTable, IsParityPayload, GroupSize, Tables.Valid;
      FlatIndex(parity, group, groups, r);
      if out[n] != null {
        FillPayload(data, total, groups, group, parity, symbolBytes, r, coef, out[n]);
      }
      assert forall q :: 0 <= q < |out| && q != n && out[q] != null ==> out[q][..] == old(out[q][..]);
    }

    /** Bytes past the symbol keep their values, and so do whole buffers from n on. */
    twostate predicate RestKept(symbolBytes: nat, out: seq<array?<byte>>, n: nat)
      reads BufferSet(out)
    {
      && (forall q, b :: 0 <= q < |out| && out[q] != null && symbolBytes <= b < out[q].Length ==>
            out[q][b] == old(out[q][b]))
      && (forall q :: n <= q < |out| && out[q] != null ==> out[q][..] == old(out[q][..]))
    }

    /** A table of the right size for every group that has fragments. */
    ghost predicate CoefsFor(coefByGroup: seq<Option<seq<byte>>>, total: nat, groups: nat, r: nat)
      requires 0 < groups
    {
      && |coefByGroup| == groups
      && forall g :: 0 <= g < groups ==>
           && (coefByGroup[g].None? ==> GroupSize(total, groups, g) == 0)
           && (coefByGroup[g].Some? ==> IsCoefTable(coefByGroup[g].value, GroupSize(total, groups, g), r))
    }

    method FillRow(data: seq<byte>, total: nat, groups: byte, parity: nat, symbolBytes: nat, r: byte,
                   coefByGroup: seq<Option<seq<byte>>>, out: seq<array?<byte>>, start: nat)
      requires Valid() && Buffers(out, symbolBytes)
      requires 0 < groups && total <= 255 * groups && parity < r && IsSource(start, groups, 0, parity)
      requires start + groups <= |out|
      requires CoefsFor(coefByGroup, total, groups, r)
      requires Filled(data, total, groups, symbolBytes, out, start)
      modifies tables.Repr(), BufferSet(out)
      ensures Valid()
      ensures Filled(data, total, groups, symbolBytes, out, start + groups)
      ensures RestKept(symbolBytes, out, start + groups)
    {
      hide IsCoefTable, Filled, GroupSize, Tables.Valid;
      for group := 0 to groups
        invariant Valid()
        invariant Filled(data, total, groups, symbolBytes, out, start + group)
        invariant RestKept(symbolBytes, out, start + group)
      {
        FillNth(data, total, groups, group, parity, symbolBytes, r, coefByGroup[group], out, start + group);
      }
    }

    method FillRows(data: seq<byte>, total: nat, groups: byte, symbolBytes: nat, r: byte,
                    coefByGroup: seq<Option<seq<byte>>>, out: seq<array?<byte>>)
      requires Valid() && Buffers(out, symbolBytes)
      requires 0 < groups && total <= 255 * groups && groups * r <= |out|
      requires CoefsFor(coefByGroup, total, groups, r)
      requires Filled(data, total, groups, symbolBytes, out, 0)
      modifies tables.Repr(), BufferSet(out)
      ensures Valid()
      ensures Filled(data, total, groups, symbolBytes, out, groups * r)
      ensures RestKept(symbolBytes, out, groups * r)
    {
      hide IsCoefTable, IsSource, FecV2.Filled, FecV2.Buffers, FecV2.Valid, GroupSize, Tables.Valid, FecV2.CoefsFor;
      var start: nat := 0;
      FirstRow(groups, r);
      for parity := 0 to r
        invariant Valid() && IsSource(start, groups, 0, parity) && start <= groups * r
        invariant Filled(data, total, groups, symbolBytes, out, start)
        invariant RestKept(symbolBytes, out, start)
      {
        NextRow(groups, r, parity, start);
        FillRow(data, total, groups, parity, symbolBytes, r, coefByGroup, out, start);
        start := start + groups;
      }
    }

    /** Buffer q receives parity row q / groups of group q mod groups; bytes past the symbol are left alone. */
    method BuildParityInto(data: seq<byte>, total: nat, groups: byte, r: byte, symbolBytes: nat, out: seq<array?<byte>>)
      requires Valid() && Buffers(out, symbolBytes)
      requires total <= 255 * groups
      modifies this`cache, tables.Repr(), BufferSet(out)
      ensures Valid()
      ensures Enabled(data, groups, r, symbolBytes, |out|) ==> Filled(data, total, groups, symbolBytes, out, groups * r)
      ensures RestKept(symbolBytes, out, if Enabled(data, groups, r, symbolBytes, |out|) then groups * r else 0)
    {
      if !Enabled(data, groups, r, symbolBytes, |out|) {
        return;
      }
      hide IsCoefTable, IsParityPayload, GroupSize, Tables.Valid;
      assert Filled(data, total, groups, symbolBytes, out, 0);
      var kByGroup, coefByGroup := PrepareGroupCoefficients(total, groups, r);
      forall g | 0 <= g < groups ensures GroupSize(total, groups, g) <= 255 {
        GroupSizeBound(total, groups, g);
      }
      FillRows(data, total, groups, symbolBytes, r, coefByGroup, out);
    }

    /** Zero-filled shells, filled in place: payload q is parity row q / groups of group q mod groups. */
    method FillShells(data: seq<byte>, total: nat, groups: byte, r: byte, symbolBytes: nat)
      returns (out: seq<seq<byte>>)
      requires Valid() && total <= 255 * groups && groups > 0 && r > 0 && symbolBytes > 0
      modifies this`cache, tables.Repr()
      ensures Valid() && |out| == groups * r
      ensures forall q :: 0 <= q < |out| ==> |out[q]| == symbolBytes
      ensures |data| > 0 ==>
        forall q :: 0 <= q < |out| ==> IsParityPayload(out[q], data, total, groups, q % groups, q / groups, symbolBytes)
      ensures |data| == 0 ==> forall q, b :: 0 <= q < |out| && 0 <= b < symbolBytes ==> out[q][b] == 0
    {
      hide IsParityPayload, IsCoefTable, Tables.Valid;
      var count := groups as nat * r as nat;
      var buffers := AllocateBuffers(count, symbolBytes);
      assert Buffers(buffers, symbolBytes) by {
        forall q | 0 <= q < |buffers| ensures buffers[q] !in tables.Repr() {
          assert fresh(buffers[q]);
        }
      }
      label Filling:
      BuildParityInto(data, total, groups, r, symbolBytes, buffers);
      assert |data| == 0 ==> forall q :: 0 <= q < count ==> buffers[q][..] == old@Filling(buffers[q][..]);
      out := Contents(buffers);
      assert |data| == 0 ==> forall q, b :: 0 <= q < count && 0 <= b < symbolBytes ==>
        out[q][b] == buffers[q][..][b] == old@Filling(buffers[q][b]);
    }

    method BuildParity(data: seq<byte>, total: nat, groups: byte, r: byte, symbolBytes: nat)
      returns (out: seq<seq<byte>>)
      requires Valid() && total <= 255 * groups
      modifies this`cache, tables.Repr()
      ensures Valid()
      ensures |data| == 0 || groups == 0 || r == 0 || symbolBytes == 0 ==> out == []
      ensures |data| > 0 && groups > 0 && r > 0 && symbolBytes > 0 ==>
        && |out| == groups * r
        && (forall q :: 0 <= q < |out| ==>
              && |out[q]| == symbolBytes
              && IsParityPayload(out[q], data, total, groups, q % groups, q / groups, symbolBytes))
    {
      hide IsParityPayload, IsCoefTable, Tables.Valid;
      out := [];
      if |data| > 0 && groups > 0 && r > 0 && symbolBytes > 0 {
        out := FillShells(data, total, groups, r, symbolBytes);
      }
    }
  }

  method Contents(buffers: seq<array?<byte>>) returns (out: seq<seq<byte>>)
    requires forall q :: 0 <= q < |buffers| ==> buffers[q] != null
    ensures |out| == |buffers| && forall q :: 0 <= q < |out| ==> out[q] == buffers[q][..]
  {
    out := [];
    for q := 0 to |buffers|
      invariant |out| == q && forall p :: 0 <= p < q ==> out[p] == buffers[p][..]
    {
      out := out + [buffers[q][..]];
    }
  }

  /** Fresh payload buffers, zero-filled as a resized vector is. */
  method AllocateBuffers(count: nat, symbolBytes: nat) returns (buffers: seq<array?<byte>>)
    ensures |buffers| == count
    ensures forall q :: 0 <= q < count ==> buffers[q] != null && fresh(buffers[q]) && buffers[q].Length == symbolBytes
    ensures forall q, b :: 0 <= q < count && 0 <= b < symbolBytes ==> buffers[q][b] == 0
    ensures forall p, q :: 0 <= p < q < count ==> buffers[p] != buffers[q]
  {
    buffers := [];
    for n := 0 to count
      invariant |buffers| == n
      invariant forall q :: 0 <= q < n ==> buffers[q] != null && fresh(buffers[q]) && buffers[q].Length == symbolBytes
      invariant forall p, q :: 0 <= p < q < n ==> buffers[p] != buffers[q]
      invariant forall q, b :: 0 <= q < n && 0 <= b < symbolBytes ==> buffers[q][b] == 0
    {
      var payload := new byte[symbolBytes](_ => 0);
      buffers := buffers + [payload];
    }
  }

  lemma CoefTableSnoc(coef: seq<byte>, k: nat, r: nat, s: seq<byte>)
    requires IsCoefTable(coef, k, r) && |s| == k && IsCoefRow(s, r)
    ensures IsCoefTable(coef + s, k, r + 1)
  {
    hide IsCoefRow;
    assert (r + 1) * k == r * k + k;
    forall row | 0 <= row < r + 1
      ensures 0 <= row * k <= row * k + k <= |coef + s| && IsCoefRow((coef + s)[row * k..row * k + k], row)
    {
      if row < r {
        assert (coef + s)[row * k..row * k + k] == coef[row * k..row * k + k];
      } else {
        assert (coef + s)[row * k..row * k + k] == s;
      }
    }
  }
}
