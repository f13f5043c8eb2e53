/**
 The Cauchy code is tight: fewer symbols than sources never determine the sources, whatever the
 sources are. With the converse of `CauchyCode` this is an equivalence.
 */
module CodeTightness {
  import opened CauchyCode
  import opened Counting
  import opened Gf256

  /** All byte sequences of a length. */
  ghost function Words(k: nat): set<seq<byte>> {
    if k == 0 then {[]} else set x, s | x in Below(256) && s in Words(k - 1) :: [x] + s
  }

  lemma {:induction false} WordsAre(k: nat, s: seq<byte>)
    ensures s in Words(k) <==> |s| == k
    decreases k
  {
    if k > 0 && |s| == k {
      WordsAre(k - 1, s[1..]);
      assert s[0] in Below(256) && s == [s[0]] + s[1..];
    } else if k > 0 && s in Words(k) {
      var x, t :| x in Below(256) && t in Words(k - 1) && s == [x] + t;
      WordsAre(k - 1, t);
    }
  }

  lemma {:induction false} InjectionSize<S, T>(a: set<S>, b: set<T>, f: S -> T)
    requires forall x :: x in a ==> f(x) in b
    requires forall x, y :: x in a && y in a && f(x) == f(y) ==> x == y
    ensures |a| <= |b|
    decreases a
  {
    if a != {} {
      var x :| x in a;
      InjectionSize(a - {x}, b - {f(x)}, f);
    }
  }

  /** There are fewer short words than long ones. */
  lemma FewerWords(m: nat, k: nat)
    requires m < k
    ensures |Words(m)| < |Words(k)|
  {
    var missing := Zeros(k)[k - 1 := 1];
    var f := (s: seq<byte>) => Padded(s, k - m);
    hide Words, Zeros;
    forall x | x in Words(m) ensures f(x) in Words(k) - {missing} {
      WordsAre(m, x);
      WordsAre(k, f(x));
      assert f(x)[k - 1] == 0 != missing[k - 1];
    }
    forall x, y | x in Words(m) && y in Words(m) && f(x) == f(y) ensures x == y {
      WordsAre(m, x);
      WordsAre(m, y);
      assert x == f(x)[..m] && y == f(y)[..m];
    }
    InjectionSize(Words(m), Words(k) - {missing}, f);
    WordsAre(k, missing);
  }

  ghost function Padded(s: seq<byte>, n: nat): (p: seq<byte>)
    ensures |p| == |s| + n && p[..|s|] == s && forall i :: |s| <= i < |p| ==> p[i] == 0
  {
    s + Zeros(n)
  }

  /** The symbols at the listed positions. */
  ghost function Seen(s: seq<byte>, list: seq<nat>): (seen: seq<byte>)
    ensures |seen| == |list| && forall n :: 0 <= n < |list| ==> seen[n] == Symbol(s, list[n])
  {
    seq(|list|, n requires 0 <= n < |list| => Symbol(s, list[n]))
  }

  /** Fewer symbols than sources: two source vectors look the same. */
  lemma TwoLookAlike(k: nat, list: seq<nat>) returns (a: seq<byte>, b: seq<byte>)
    requires |list| < k
    ensures |a| == |b| == k && a != b && Seen(a, list) == Seen(b, list)
  {
    forall s ensures s in Words(k) <==> |s| == k {
      WordsAre(k, s);
    }
    FewerWords(|list|, k);
    hide Symbol;
    var f := (s: seq<byte>) => Seen(s, list);
    if forall x, y :: x in Words(k) && y in Words(k) && f(x) == f(y) ==> x == y {
      forall x | x in Words(k) ensures f(x) in Words(|list|) {
        WordsAre(|list|, f(x));
      }
      hide Words;
      InjectionSize(Words(k), Words(|list|), f);
      assert false;
    }
    a, b :| a in Words(k) && b in Words(k) && f(a) == f(b) && a != b;
  }

  /** Every symbol is linear in the sources. */
  lemma SymbolLinear(a: seq<byte>, b: seq<byte>, n: nat)
    requires |a| == |b|
    ensures Symbol(Difference(a, b), n) == Add(Symbol(a, n), Symbol(b, n))
  {
    hide Add, CauchySum;
    if n >= |a| {
      CauchySumLinear(a, b, Columns(|a|), Row(n - |a|));
    }
  }

  /** A change of the sources that the received symbols do not show. */
  ghost predicate Unseen(c: seq<byte>, received: set<nat>) {
    forall n :: n in received ==> Symbol(c, n) == 0
  }

  lemma UnseenChange(k: nat, received: set<nat>) returns (c: seq<byte>)
    requires |received| < k
    ensures |c| == k && Unseen(c, received) && !AllZero(c)
  {
    var list := Listing(received);
    hide Add, Symbol;
    var a, b := TwoLookAlike(k, list);
    c := Difference(a, b);
    forall n | n in received ensures Symbol(c, n) == 0 {
      var i :| 0 <= i < |list| && list[i] == n;
      assert Seen(a, list)[i] == Seen(b, list)[i];
      SymbolLinear(a, b, n);
      AddCancel(Symbol(a, n), Symbol(b, n));
    }
    var j :| 0 <= j < k && a[j] != b[j];
    AddCancel(a[j], b[j]);
    assert c[j] != 0;
  }

  lemma ChangeUnseen(a: seq<byte>, c: seq<byte>, received: set<nat>)
    requires |a| == |c| && Unseen(c, received)
    ensures SameSymbols(a, Difference(a, c), received)
  {
    hide Add, Symbol;
    forall n | n in received ensures Symbol(Difference(a, c), n) == Symbol(a, n) {
      SymbolLinear(a, c, n);
      AddZero(Symbol(a, n));
    }
  }

  /** What arrived tells these source bytes from all others. */
  ghost predicate Determined(a: seq<byte>, received: set<nat>) {
    forall b :: |b| == |a| && SameSymbols(a, b, received) ==> b == a
  }

  /** Exactly k symbols or more determine the k source bytes, whatever they are. */
  lemma DeterminedExactly(a: seq<byte>, r: nat, received: set<nat>)
    requires |a| <= 128 && r <= 128 && received <= Below(|a| + r)
    ensures Determined(a, received) <==> |received| >= |a|
  {
    hide SameSymbols, Add;
    if |received| >= |a| {
      forall b | |b| == |a| && SameSymbols(a, b, received) ensures b == a {
        AnyKSymbolsDecode(a, b, r, received);
      }
    } else {
      var c := UnseenChange(|a|, received);
      ChangeUnseen(a, c, received);
      var j :| 0 <= j < |c| && c[j] != 0;
      ChangedByte(a, c, j);
    }
  }

  lemma ChangedByte(a: seq<byte>, c: seq<byte>, j: nat)
    requires |a| == |c| && j < |c| && c[j] != 0
    ensures Difference(a, c)[j] != a[j]
  {
    hide Add;
    AddCancel(a[j], c[j]);
    AddZero(a[j]);
  }
}
