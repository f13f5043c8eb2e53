/**
 The Cauchy erasure code over GF(256), free of buffers: what one byte position of one group
 of symbols looks like, and when a receiver can recover it.
 */
module CauchyCode {
  import opened Counting
  import opened Gf256

  /** The sum over j of c[j] / (x[j] + y). */
  ghost function CauchySum(c: seq<byte>, x: seq<byte>, y: byte): byte
    requires |c| == |x|
    decreases |c|
  {
    if |c| == 0 then 0
    else Add(Mul(c[0], Inv(Add(x[0], y))), CauchySum(c[1..], x[1..], y))
  }

  ghost predicate Apart(x: seq<byte>, y: seq<byte>) {
    forall i, j :: 0 <= i < |x| && 0 <= j < |y| ==> x[i] != y[j]
  }

  ghost predicate AllZero(s: seq<byte>) {
    forall i :: 0 <= i < |s| ==> s[i] == 0
  }

  /** Multiplying through by a denominator: (1/d) * (d * a) == a. */
  lemma MulCancel(d: byte, a: byte)
    requires d != 0
    ensures Mul(Mul(a, Inv(d)), d) == a && Mul(Mul(a, d), Inv(d)) == a
  {
    hide *;
    MulAssoc(a, Inv(d), d);
    MulAssoc(a, d, Inv(d));
    MulComm(d, Inv(d));
    MulInv(d);
    MulOne(a);
  }

  /** The coefficient left for column x once column x0 has been eliminated with row y0. */
  ghost function Reduced(c: byte, x: byte, x0: byte, y0: byte): byte {
    Mul(Mul(c, Inv(Add(x, y0))), Add(x0, x))
  }

  lemma ReducedTimesDenominators(c: byte, x: byte, x0: byte, y0: byte, y: byte)
    requires x != y0 && x != y
    ensures var t := Mul(Reduced(c, x, x0, y0), Inv(Add(x, y)));
            && Mul(Add(x, y0), t) == Mul(Mul(c, Inv(Add(x, y))), Add(x0, x))
            && Mul(Add(x, y), t) == Mul(Mul(c, Inv(Add(x, y0))), Add(x0, x))
  {
    AddCancel(x, y0);
    AddCancel(x, y);
    var e0, e := Add(x, y0), Add(x, y);
    var p, q := Inv(e0), Inv(e);
    var w := Add(x0, x);
    var r := Reduced(c, x, x0, y0);
    assert r == Mul(Mul(c, p), w);
    hide *;
    MulComm(e0, Mul(r, q));
    MulExchange(r, q, e0);
    MulExchange(Mul(c, p), w, e0);
    MulCancel(e0, c);
    MulExchange(c, w, q);
    MulComm(e, Mul(r, q));
    MulCancel(e, r);
  }

  /** c/(x+z) * (x0+x) == (x0+z) * c/(x+z) + c. */
  lemma SplitNumerator(c: byte, x: byte, x0: byte, z: byte)
    requires x != z
    ensures Mul(Mul(c, Inv(Add(x, z))), Add(x0, x)) == Add(Mul(Add(x0, z), Mul(c, Inv(Add(x, z)))), c)
  {
    AddCancel(x, z);
    hide *;
    var e := Add(x, z);
    var f := Mul(c, Inv(e));
    assert Add(x0, x) == Add(Add(x0, z), e) by {
      AddSwapMiddle(x0, z, x, z);
      AddZero(z);
      AddZero(Add(x0, x));
    }
    MulAddRight(f, Add(x0, z), e);
    MulComm(f, Add(x0, z));
    MulCancel(e, c);
  }

  /** (y0+y) * (x0+x) / ((x+y0)(x+y)) == (x0+y)/(x+y) + (x0+y0)/(x+y0), times c. */
  lemma ReducedTerm(c: byte, x: byte, x0: byte, y0: byte, y: byte)
    requires x != y0 && x != y
    ensures Mul(Add(y0, y), Mul(Reduced(c, x, x0, y0), Inv(Add(x, y))))
         == Add(Mul(Add(x0, y), Mul(c, Inv(Add(x, y)))), Mul(Add(x0, y0), Mul(c, Inv(Add(x, y0)))))
  {
    hide *;
    var t := Mul(Reduced(c, x, x0, y0), Inv(Add(x, y)));
    assert Add(y0, y) == Add(Add(x, y0), Add(x, y)) by {
      AddSwapMiddle(x, y0, x, y);
      AddZero(x);
      AddZero(Add(y0, y));
    }
    MulAddLeft(Add(x, y0), Add(x, y), t);
    ReducedTimesDenominators(c, x, x0, y0, y);
    SplitNumerator(c, x, x0, y);
    SplitNumerator(c, x, x0, y0);
    var u := Mul(Add(x0, y), Mul(c, Inv(Add(x, y))));
    var v := Mul(Add(x0, y0), Mul(c, Inv(Add(x, y0))));
    AddSwapMiddle(u, c, v, c);
    AddZero(c);
    AddZero(Add(u, v));
  }

  ghost function ReducedAll(c: seq<byte>, x: seq<byte>, x0: byte, y0: byte): (r: seq<byte>)
    requires |c| == |x|
    ensures |r| == |c|
    ensures forall i :: 0 <= i < |c| ==> r[i] == Reduced(c[i], x[i], x0, y0)
  {
    seq(|c|, i requires 0 <= i < |c| => Reduced(c[i], x[i], x0, y0))
  }

  lemma {:induction false} ReducedSum(c: seq<byte>, x: seq<byte>, x0: byte, y0: byte, y: byte)
    requires |c| == |x|
    requires y0 !in x && y !in x
    ensures Mul(Add(y0, y), CauchySum(ReducedAll(c, x, x0, y0), x, y))
         == Add(Mul(Add(x0, y), CauchySum(c, x, y)), Mul(Add(x0, y0), CauchySum(c, x, y0)))
    decreases |c|
  {
    hide Add, Mul, Inv, Reduced;
    var r := ReducedAll(c, x, x0, y0);
    if |c| == 0 {
      MulZero(Add(y0, y));
      MulZero(Add(x0, y));
      MulZero(Add(x0, y0));
      AddZero(0);
    } else {
      ReducedSum(c[1..], x[1..], x0, y0, y);
      assert r[1..] == ReducedAll(c[1..], x[1..], x0, y0);
      ReducedTerm(c[0], x[0], x0, y0, y);
      var sy, s0 := CauchySum(c[1..], x[1..], y), CauchySum(c[1..], x[1..], y0);
      var ty, t0 := Mul(c[0], Inv(Add(x[0], y))), Mul(c[0], Inv(Add(x[0], y0)));
      MulAddRight(Add(y0, y), Mul(r[0], Inv(Add(x[0], y))), CauchySum(r[1..], x[1..], y));
      MulAddRight(Add(x0, y), ty, sy);
      MulAddRight(Add(x0, y0), t0, s0);
      AddSwapMiddle(Mul(Add(x0, y), ty), Mul(Add(x0, y0), t0), Mul(Add(x0, y), sy), Mul(Add(x0, y0), s0));
    }
  }

  /** The head of the sum, multiplied through by its own denominator, no longer depends on y. */
  lemma EliminatedHead(c: seq<byte>, x: seq<byte>, y: byte)
    requires 0 < |c| == |x| && x[0] != y && CauchySum(c, x, y) == 0
    ensures Mul(Add(x[0], y), CauchySum(c[1..], x[1..], y)) == c[0]
  {
    hide Add, Mul, Inv;
    var e := Add(x[0], y);
    AddCancel(x[0], y);
    var h, s := Mul(c[0], Inv(e)), CauchySum(c[1..], x[1..], y);
    AddCancel(h, s);
    MulComm(e, h);
    MulCancel(e, c[0]);
  }

  /**
   Every square submatrix of a Cauchy matrix is nonsingular: if sum_j c[j] / (x[j] + y)
   vanishes at as many points y as there are unknowns, the unknowns are all zero.
   */
  lemma {:induction false} CauchyNonsingular(c: seq<byte>, x: seq<byte>, y: seq<byte>)
    requires |c| == |x| <= |y|
    requires NoRepeats(x) && NoRepeats(y) && Apart(x, y)
    requires forall i :: 0 <= i < |y| ==> CauchySum(c, x, y[i]) == 0
    ensures AllZero(c)
    decreases |c|
  {
    hide Add, Mul, Inv, Reduced;
    if |c| > 0 {
      var x0, y0 := x[0], y[0];
      var cs, xs, ys := c[1..], x[1..], y[1..];
      var r := ReducedAll(cs, xs, x0, y0);
      EliminatedHead(c, x, y0);
      forall i | 0 <= i < |ys| ensures CauchySum(r, xs, ys[i]) == 0 {
        EliminatedHead(c, x, y[i + 1]);
        ReducedSum(cs, xs, x0, y0, ys[i]);
        AddCancel(c[0], c[0]);
        AddCancel(y0, ys[i]);
        MulNonZero(Add(y0, ys[i]), CauchySum(r, xs, ys[i]));
      }
      CauchyNonsingular(r, xs, ys);
      forall i | 0 <= i < |cs| ensures cs[i] == 0 {
        ReducedZero(cs[i], xs[i], x0, y0);
      }
      ZeroSum(cs, xs, y0);
      MulZero(Add(x0, y0));
      forall i | 0 <= i < |c| ensures c[i] == 0 {
        if i > 0 {
          assert c[i] == cs[i - 1];
        }
      }
    }
  }

  lemma ReducedZero(c: byte, x: byte, x0: byte, y0: byte)
    requires x != y0 && x != x0 && Reduced(c, x, x0, y0) == 0
    ensures c == 0
  {
    hide Add, Mul, Inv;
    AddCancel(x, y0);
    AddCancel(x0, x);
    MulInv(Add(x, y0));
    MulNonZero(Mul(c, Inv(Add(x, y0))), Add(x0, x));
    MulNonZero(c, Inv(Add(x, y0)));
  }

  lemma {:induction false} ZeroSum(c: seq<byte>, x: seq<byte>, y: byte)
    requires |c| == |x| && AllZero(c)
    ensures CauchySum(c, x, y) == 0
    decreases |c|
  {
    hide Add, Mul, Inv;
    if |c| > 0 {
      ZeroSum(c[1..], x[1..], y);
      MulZero(Inv(Add(x[0], y)));
      AddZero(0);
    }
  }

  // ---- one byte position of one group ----------------------------------------------------

  /** The field element that stands for source column j, and for parity row i, as uint8 values. */
  function Column(j: nat): byte {
    j % 256
  }

  function Row(i: nat): byte {
    (0x80 + i) % 256
  }

  ghost function Columns(k: nat): (x: seq<byte>)
    ensures |x| == k && forall j :: 0 <= j < k ==> x[j] == Column(j)
  {
    seq(k, j requires 0 <= j < k => Column(j))
  }

  /** Parity byte i of the source bytes s: the sum over j of s[j] * inv(j xor (0x80 + i)). */
  ghost function ParityByte(s: seq<byte>, i: nat): byte {
    CauchySum(s, Columns(|s|), Row(i))
  }

  /** Symbol n of the codeword: the sources first, then the parities. */
  ghost function Symbol(s: seq<byte>, n: nat): byte {
    if n < |s| then s[n] else ParityByte(s, n - |s|)
  }

  /** The two codewords carry the same bytes at the received positions. */
  ghost predicate SameSymbols(a: seq<byte>, b: seq<byte>, received: set<nat>) {
    forall n :: n in received ==> Symbol(a, n) == Symbol(b, n)
  }

  /** Any k of the k + r symbols tell the k source bytes. */
  ghost predicate Decodable(k: nat, r: nat) {
    forall a: seq<byte>, b: seq<byte>, received: set<nat> ::
      |a| == k && |b| == k && received <= Below(k + r) && |received| >= k && SameSymbols(a, b, received) ==> a == b
  }

  ghost function Difference(a: seq<byte>, b: seq<byte>): (d: seq<byte>)
    requires |a| == |b|
    ensures |d| == |a| && forall j :: 0 <= j < |a| ==> d[j] == Add(a[j], b[j])
  {
    seq(|a|, j requires 0 <= j < |a| => Add(a[j], b[j]))
  }

  lemma {:induction false} CauchySumLinear(a: seq<byte>, b: seq<byte>, x: seq<byte>, y: byte)
    requires |a| == |b| == |x|
    ensures CauchySum(Difference(a, b), x, y) == Add(CauchySum(a, x, y), CauchySum(b, x, y))
    decreases |a|
  {
    hide Add, Mul, Inv;
    if |a| == 0 {
      AddZero(0);
    } else {
      CauchySumLinear(a[1..], b[1..], x[1..], y);
      assert Difference(a, b)[1..] == Difference(a[1..], b[1..]);
      var q := Inv(Add(x[0], y));
      MulAddLeft(a[0], b[0], q);
      AddSwapMiddle(Mul(a[0], q), Mul(b[0], q), CauchySum(a[1..], x[1..], y), CauchySum(b[1..], x[1..], y));
    }
  }

  /** The nonzero entries of d, and the columns they stand in. */
  ghost function Support(d: seq<byte>): seq<byte> {
    if |d| == 0 then []
    else if d[0] == 0 then Support(d[1..])
    else [d[0]] + Support(d[1..])
  }

  ghost function SupportColumns(d: seq<byte>, x: seq<byte>): (s: seq<byte>)
    requires |d| == |x|
    ensures |s| == |Support(d)|
  {
    if |d| == 0 then []
    else if d[0] == 0 then SupportColumns(d[1..], x[1..])
    else [x[0]] + SupportColumns(d[1..], x[1..])
  }

  lemma {:induction false} SupportSum(d: seq<byte>, x: seq<byte>, y: byte)
    requires |d| == |x|
    ensures CauchySum(d, x, y) == CauchySum(Support(d), SupportColumns(d, x), y)
    decreases |d|
  {
    hide Add, Mul, Inv;
    if |d| > 0 {
      SupportSum(d[1..], x[1..], y);
      if d[0] == 0 {
        MulZero(Inv(Add(x[0], y)));
        AddZero(CauchySum(d[1..], x[1..], y));
      }
    }
  }

  lemma {:induction false} SupportColumnAt(d: seq<byte>, x: seq<byte>, v: byte) returns (j: nat)
    requires |d| == |x| && v in SupportColumns(d, x)
    ensures j < |x| && x[j] == v && d[j] != 0
    decreases |d|
  {
    if d[0] != 0 && v == x[0] {
      j := 0;
    } else {
      var i := SupportColumnAt(d[1..], x[1..], v);
      j := i + 1;
    }
  }

  lemma {:induction false} SupportColumnsDistinct(d: seq<byte>, x: seq<byte>)
    requires |d| == |x| && NoRepeats(x)
    ensures NoRepeats(SupportColumns(d, x))
    decreases |d|
  {
    if |d| > 0 {
      SupportColumnsDistinct(d[1..], x[1..]);
      forall v | v in SupportColumns(d[1..], x[1..]) ensures v != x[0] {
        var j := SupportColumnAt(d[1..], x[1..], v);
      }
      var tail := SupportColumns(d[1..], x[1..]);
      assert NoRepeats([x[0]] + tail) by {
        forall i | 0 <= i < |tail| ensures tail[i] != x[0] {
          assert tail[i] in tail;
        }
      }
    }
  }

  lemma {:induction false} SupportHead(d: seq<byte>)
    requires Support(d) != []
    ensures Support(d)[0] != 0
    decreases |d|
  {
    if d[0] == 0 {
      SupportHead(d[1..]);
    }
  }

  lemma {:induction false} SupportEmpty(d: seq<byte>)
    requires Support(d) == []
    ensures AllZero(d)
    decreases |d|
  {
    if |d| > 0 {
      SupportEmpty(d[1..]);
    }
  }

  /** The positions of the nonzero entries: as many as the support is long. */
  lemma SupportPositions(d: seq<byte>) returns (hit: set<nat>)
    requires |d| <= 256
    ensures |hit| == |Support(d)|
    ensures forall v :: v in hit ==> v < |d| && d[v] != 0
  {
    var x := Columns(|d|);
    SupportColumnsDistinct(d, x);
    var cols := SupportColumns(d, x);
    NoRepeatsSize(cols);
    hit := Elements(cols);
    forall v | v in hit ensures v < |d| && d[v] != 0 {
      var j := SupportColumnAt(d, x, v);
      assert v == j;
    }
  }

  /** There are at most as many nonzero differences as source symbols that were not received. */
  lemma SupportBound(d: seq<byte>, received: set<nat>)
    requires |d| <= 256 && received <= Below(|d|)
    requires forall j :: j in received ==> d[j] == 0
    ensures |Support(d)| + |received| <= |d|
  {
    var hit := SupportPositions(d);
    hide *;
    assert hit !! received;
    assert |hit + received| == |hit| + |received|;
    SubsetSize(hit + received, Below(|d|));
    BelowSize(|d|);
  }

  lemma ColumnsApart(k: nat, r: nat, y: seq<byte>)
    requires k <= 128 && r <= 128
    requires forall v :: v in y ==> exists i :: 0 <= i < r && v == Row(i)
    ensures Apart(Columns(k), y) && NoRepeats(Columns(k))
  {
    forall i, j | 0 <= i < k && 0 <= j < |y| ensures Columns(k)[i] != y[j] {
      assert y[j] in y;
      var n :| 0 <= n < r && y[j] == Row(n);
    }
  }

  /** The parity rows among the received positions, as field elements. */
  lemma ReceivedRows(k: nat, r: nat, parities: set<nat>) returns (y: seq<byte>)
    requires r <= 128 && forall n :: n in parities ==> k <= n < k + r
    ensures |y| == |parities| && NoRepeats(y)
    ensures forall v :: v in y ==> exists i :: 0 <= i < r && k + i in parities && v == Row(i)
  {
    var list := Listing(parities);
    forall i | 0 <= i < |list| ensures k <= list[i] < k + r && list[i] in parities {
      assert list[i] in list;
    }
    y := seq(|list|, i requires 0 <= i < |list| => Row(list[i] - k));
    forall v | v in y ensures exists i :: 0 <= i < r && k + i in parities && v == Row(i) {
      var n :| 0 <= n < |y| && y[n] == v;
      assert k + (list[n] - k) in parities;
    }
  }

  /** A row whose parity bytes agree sums the support of the difference to zero. */
  lemma AgreeingRow(a: seq<byte>, b: seq<byte>, i: nat)
    requires |a| == |b| && ParityByte(a, i) == ParityByte(b, i)
    ensures var d := Difference(a, b);
            CauchySum(Support(d), SupportColumns(d, Columns(|a|)), Row(i)) == 0
  {
    var d, x := Difference(a, b), Columns(|a|);
    SupportSum(d, x, Row(i));
    CauchySumLinear(a, b, x, Row(i));
    AddCancel(CauchySum(a, x, Row(i)), CauchySum(b, x, Row(i)));
  }

  lemma NoDifference(a: seq<byte>, b: seq<byte>)
    requires |a| == |b| && Support(Difference(a, b)) == []
    ensures a == b
  {
    var d := Difference(a, b);
    SupportEmpty(d);
    forall j | 0 <= j < |a| ensures a[j] == b[j] {
      assert d[j] == 0;
      AddCancel(a[j], b[j]);
    }
  }

  /** Received sources leave at most as many unknowns as there are received parities. */
  lemma UnknownsBound(a: seq<byte>, b: seq<byte>, r: nat, received: set<nat>)
    requires |a| == |b| <= 128
    requires received <= Below(|a| + r) && |received| >= |a| && SameSymbols(a, b, received)
    ensures |Support(Difference(a, b))| <= |received - Below(|a|)|
  {
    var k, d := |a|, Difference(a, b);
    var sources := received * Below(k);
    assert |received| == |sources| + |received - Below(k)| by {
      hide *;
      assert received == sources + (received - Below(k));
      assert sources !! (received - Below(k));
    }
    forall j | j in sources ensures d[j] == 0 {
      assert Symbol(a, j) == Symbol(b, j);
      AddCancel(a[j], b[j]);
    }
    SupportBound(d, sources);
  }

  lemma RowsVanish(a: seq<byte>, b: seq<byte>, r: nat, parities: set<nat>, y: seq<byte>)
    requires |a| == |b|
    requires SameSymbols(a, b, parities)
    requires forall v :: v in y ==> exists i :: 0 <= i < r && |a| + i in parities && v == Row(i)
    ensures var d := Difference(a, b);
            forall n :: 0 <= n < |y| ==> CauchySum(Support(d), SupportColumns(d, Columns(|a|)), y[n]) == 0
  {
    hide Difference, Support, SupportColumns, Columns, CauchySum, Symbol, Row;
    var k, d := |a|, Difference(a, b);
    forall n | 0 <= n < |y| ensures CauchySum(Support(d), SupportColumns(d, Columns(k)), y[n]) == 0 {
      assert y[n] in y;
      var i: nat :| 0 <= i < r && k + i in parities && y[n] == Row(i);
      AgreeingSymbol(a, b, i);
      AgreeingRow(a, b, i);
    }
  }

  lemma AgreeingSymbol(a: seq<byte>, b: seq<byte>, i: nat)
    requires |a| == |b| && Symbol(a, |a| + i) == Symbol(b, |a| + i)
    ensures ParityByte(a, i) == ParityByte(b, i)
  {}

  lemma SupportApart(d: seq<byte>, x: seq<byte>, y: seq<byte>)
    requires |d| == |x| && Apart(x, y)
    ensures Apart(SupportColumns(d, x), y)
  {
    var xs := SupportColumns(d, x);
    forall i, j | 0 <= i < |xs| && 0 <= j < |y| ensures xs[i] != y[j] {
      var n := SupportColumnAt(d, x, xs[i]);
    }
  }

  /** The source bytes are determined by any k symbols, for all sizes the field has room for. */
  lemma AnyKSymbolsDecode(a: seq<byte>, b: seq<byte>, r: nat, received: set<nat>)
    requires |a| == |b| <= 128 && r <= 128
    requires received <= Below(|a| + r) && |received| >= |a| && SameSymbols(a, b, received)
    ensures a == b
  {
    hide *;
    var k, d := |a|, Difference(a, b);
    var x := Columns(k);
    var parities := received - Below(k);
    UnknownsBound(a, b, r, received);
    ParityPositions(k, r, received);
    var y := ReceivedRows(k, r, parities);
    SameOnFewer(a, b, received, parities);
    RowsVanish(a, b, r, parities, y);
    ColumnsApart(k, r, y);
    SupportColumnsDistinct(d, x);
    SupportApart(d, x, y);
    CauchyNonsingular(Support(d), SupportColumns(d, x), y);
    ZeroSupport(d);
    NoDifference(a, b);
  }

  lemma ParityPositions(k: nat, r: nat, received: set<nat>)
    requires received <= Below(k + r)
    ensures forall n :: n in received - Below(k) ==> k <= n < k + r
  {}

  lemma SameOnFewer(a: seq<byte>, b: seq<byte>, received: set<nat>, fewer: set<nat>)
    requires SameSymbols(a, b, received) && fewer <= received
    ensures SameSymbols(a, b, fewer)
  {}

  /** The entries of a support are not zero, so if all of them are, there are none. */
  lemma ZeroSupport(d: seq<byte>)
    requires AllZero(Support(d))
    ensures Support(d) == []
  {
    if Support(d) != [] {
      SupportHead(d);
    }
  }

  lemma {:induction false} UnseenSum(c: seq<byte>, x: seq<byte>, y: byte)
    requires |c| == |x|
    requires forall j :: 0 <= j < |c| ==> c[j] == 0 || x[j] == y
    ensures CauchySum(c, x, y) == 0
    decreases |c|
  {
    hide Mul, Alpha;
    if |c| > 0 {
      UnseenSum(c[1..], x[1..], y);
      AddZero(y);
      MulZero(Inv(Add(x[0], y)));
      MulZero(c[0]);
      AddZero(0);
    }
  }

  ghost function Zeros(k: nat): (a: seq<byte>)
    ensures |a| == k && AllZero(a)
  {
    seq(k, j requires 0 <= j < k => 0)
  }

  lemma UnitParity(k: nat, c: nat, i: nat)
    requires c < k && Column(c) == Row(i)
    ensures ParityByte(Zeros(k), i) == 0 && ParityByte(Zeros(k)[c := 1], i) == 0
  {
    hide CauchySum;
    UnseenSum(Zeros(k), Columns(k), Row(i));
    UnseenSum(Zeros(k)[c := 1], Columns(k), Row(i));
  }

  /** Every source but column c, and one parity: k symbols in all. */
  ghost function AllButOne(k: nat, c: nat, i: nat): (received: set<nat>)
    requires c < k
    ensures |received| == k
    ensures forall n: nat :: n in received <==> (n < k && n != c) || n == k + i
  {
    BelowSize(k);
    assert k + i !in Below(k) - {c};
    Below(k) - {c} + {k + i}
  }

  lemma UnitSameSymbols(k: nat, c: nat, i: nat)
    requires c < k && Column(c) == Row(i)
    ensures SameSymbols(Zeros(k), Zeros(k)[c := 1], AllButOne(k, c, i))
  {
    UnitParity(k, c, i);
    hide ParityByte;
  }

  /** Where a column and a row share their field element, the parity does not see the column. */
  lemma SharedElementBreaksDecoding(k: nat, r: nat, c: nat, i: nat)
    requires c < k && i < r && Column(c) == Row(i)
    ensures !Decodable(k, r)
  {
    var a := Zeros(k);
    var b := a[c := 1];
    UnitSameSymbols(k, c, i);
    assert AllButOne(k, c, i) <= Below(k + r);
    assert a[c] != b[c];
    hide SameSymbols, Zeros, AllButOne, Below;
  }

  /**
   The coefficients inv(j xor (0x80 + i)) give a maximum distance separable code exactly up
   to 128 sources and 128 parities: beyond that some column meets a row with inv(0) == 0.
   */
  lemma DecodableExactly(k: nat, r: nat)
    ensures Decodable(k, r) <==> k == 0 || r == 0 || (k <= 128 && r <= 128)
  {
    if k > 0 && r > 0 && !(k <= 128 && r <= 128) {
      if k > 128 {
        SharedElementBreaksDecoding(k, r, 128, 0);
      } else {
        SharedElementBreaksDecoding(k, r, 0, 128);
      }
    } else {
      forall a: seq<byte>, b: seq<byte>, received: set<nat>
        | |a| == k && |b| == k && received <= Below(k + r) && |received| >= k && SameSymbols(a, b, received)
        ensures a == b
      {
        if r == 0 {
          BelowSize(k);
          SubsetSameSize(received, Below(k));
          forall j | 0 <= j < k ensures a[j] == b[j] {
            assert Symbol(a, j) == Symbol(b, j);
          }
        } else if k > 0 {
          AnyKSymbolsDecode(a, b, r, received);
        }
      }
    }
  }
}
