/** Filtering and subsequences: what is left of a queue when items leave it, in the order they had. */
module Subsequences {
  import opened Counting

  /** The elements that do not match, in order. */
  function Without<T>(s: seq<T>, match_: T -> bool): seq<T> {
    if |s| == 0 then []
    else Without(s[..|s| - 1], match_) + (if match_(s[|s| - 1]) then [] else [s[|s| - 1]])
  }

  /** The elements that match, in order. */
  function Only<T>(s: seq<T>, match_: T -> bool): seq<T> {
    if |s| == 0 then []
    else Only(s[..|s| - 1], match_) + (if match_(s[|s| - 1]) then [s[|s| - 1]] else [])
  }

  lemma {:induction false} WithoutConcat<T>(a: seq<T>, b: seq<T>, match_: T -> bool)
    ensures Without(a + b, match_) == Without(a, match_) + Without(b, match_)
    decreases |b|
  {
    if |b| == 0 {
      assert a + b == a;
    } else {
      WithoutConcat(a, b[..|b| - 1], match_);
      assert (a + b)[..|a + b| - 1] == a + b[..|b| - 1];
    }
  }

  lemma {:induction false} OnlyConcat<T>(a: seq<T>, b: seq<T>, match_: T -> bool)
    ensures Only(a + b, match_) == Only(a, match_) + Only(b, match_)
    decreases |b|
  {
    if |b| == 0 {
      assert a + b == a;
    } else {
      OnlyConcat(a, b[..|b| - 1], match_);
      assert (a + b)[..|a + b| - 1] == a + b[..|b| - 1];
    }
  }

  lemma {:induction false} WithoutMembers<T>(s: seq<T>, match_: T -> bool)
    ensures forall x :: x in Without(s, match_) <==> x in s && !match_(x)
    ensures |Without(s, match_)| <= |s|
    ensures |Without(s, match_)| == |s| ==> Without(s, match_) == s
  {
    if |s| > 0 {
      WithoutMembers(s[..|s| - 1], match_);
      assert s == s[..|s| - 1] + [s[|s| - 1]];
    }
  }

  lemma {:induction false} OnlyMembers<T>(s: seq<T>, match_: T -> bool)
    ensures forall x :: x in Only(s, match_) <==> x in s && match_(x)
  {
    if |s| > 0 {
      OnlyMembers(s[..|s| - 1], match_);
      assert s == s[..|s| - 1] + [s[|s| - 1]];
    }
  }

  /** Nothing that matches is removed by removing things that do not match. */
  lemma {:induction false} OnlyOfWithout<T>(s: seq<T>, keep: T -> bool, match_: T -> bool)
    requires forall x :: x in s && match_(x) ==> !keep(x)
    ensures Only(Without(s, match_), keep) == Only(s, keep)
  {
    if |s| > 0 {
      var t, x := s[..|s| - 1], s[|s| - 1];
      OnlyOfWithout(t, keep, match_);
      OnlyConcat(Without(t, match_), if match_(x) then [] else [x], keep);
      assert Only([x], keep) == if keep(x) then [x] else [];
    }
  }

  lemma {:induction false} SplitLength<T>(s: seq<T>, match_: T -> bool)
    ensures |s| == |Without(s, match_)| + |Only(s, match_)|
  {
    if |s| > 0 {
      SplitLength(s[..|s| - 1], match_);
    }
  }

  lemma MultisetRemove<T>(s: seq<T>, i: nat)
    requires i < |s|
    ensures multiset(s) == multiset(s[..i] + s[i + 1..]) + multiset{s[i]}
  {
    assert s == s[..i] + [s[i]] + s[i + 1..];
  }

  /** a arises from b by deleting elements. */
  ghost predicate Subseq<T>(a: seq<T>, b: seq<T>)
    decreases |b|
  {
    || |a| == 0
    || (|b| > 0 && ((a[|a| - 1] == b[|b| - 1] && Subseq(a[..|a| - 1], b[..|b| - 1])) || Subseq(a, b[..|b| - 1])))
  }

  lemma {:induction false} SubseqSelf<T>(a: seq<T>)
    ensures Subseq(a, a)
  {
    if |a| > 0 {
      SubseqSelf(a[..|a| - 1]);
    }
  }

  lemma {:induction false} SubseqTrans<T>(a: seq<T>, b: seq<T>, c: seq<T>)
    requires Subseq(a, b) && Subseq(b, c)
    ensures Subseq(a, c)
    decreases |c|
  {
    if |a| > 0 && |b| > 0 {
      if Subseq(b, c[..|c| - 1]) {
        SubseqTrans(a, b, c[..|c| - 1]);
      } else if Subseq(a, b[..|b| - 1]) {
        SubseqTrans(a, b[..|b| - 1], c[..|c| - 1]);
      } else {
        SubseqTrans(a[..|a| - 1], b[..|b| - 1], c[..|c| - 1]);
      }
    }
  }

  lemma {:induction false} SubseqConcat<T>(a: seq<T>, b: seq<T>, c: seq<T>, d: seq<T>)
    requires Subseq(a, b) && Subseq(c, d)
    ensures Subseq(a + c, b + d)
    decreases |d|
  {
    if |d| == 0 {
      assert a + c == a && b + d == b;
    } else {
      assert (b + d)[..|b + d| - 1] == b + d[..|d| - 1];
      if Subseq(c, d[..|d| - 1]) {
        SubseqConcat(a, b, c, d[..|d| - 1]);
      } else {
        SubseqConcat(a, b, c[..|c| - 1], d[..|d| - 1]);
        assert (a + c)[..|a + c| - 1] == a + c[..|c| - 1];
      }
    }
  }

  lemma {:induction false} SubseqWithout<T>(s: seq<T>, match_: T -> bool)
    ensures Subseq(Without(s, match_), s)
  {
    if |s| > 0 {
      var t, x := s[..|s| - 1], s[|s| - 1];
      SubseqWithout(t, match_);
      var w := Without(t, match_);
      if match_(x) {
        assert Without(s, match_) == w;
      } else {
        assert Without(s, match_) == w + [x] && (w + [x])[..|w|] == w;
      }
    }
  }

  lemma {:induction false} SubseqOnly<T>(a: seq<T>, b: seq<T>, match_: T -> bool)
    requires Subseq(a, b)
    ensures Subseq(Only(a, match_), Only(b, match_))
    decreases |b|
  {
    if |a| > 0 {
      var b' := b[..|b| - 1];
      if Subseq(a, b') {
        SubseqOnly(a, b', match_);
        SubseqConcat(Only(a, match_), Only(b', match_), [], Only(b, match_)[|Only(b', match_)|..]);
        assert Only(a, match_) + [] == Only(a, match_);
      } else {
        SubseqOnly(a[..|a| - 1], b', match_);
        var last := if match_(a[|a| - 1]) then [a[|a| - 1]] else [];
        SubseqSelf(last);
        SubseqConcat(Only(a[..|a| - 1], match_), Only(b', match_), last, last);
      }
    }
  }

  lemma {:induction false} SubseqMembers<T>(a: seq<T>, b: seq<T>)
    requires Subseq(a, b)
    ensures forall x :: x in a ==> x in b
    ensures |a| <= |b|
    ensures NoRepeats(b) ==> NoRepeats(a)
    decreases |b|
  {
    if |a| > 0 {
      var b' := b[..|b| - 1];
      assert b == b' + [b[|b| - 1]];
      if Subseq(a, b') {
        SubseqMembers(a, b');
      } else {
        var a' := a[..|a| - 1];
        assert a == a' + [a[|a| - 1]];
        SubseqMembers(a', b');
        if NoRepeats(b) {
          forall i | 0 <= i < |a'| ensures a'[i] != a[|a| - 1] {
            assert a'[i] in b';
          }
        }
      }
    }
  }

  lemma SubseqDropHead<T>(a: seq<T>, x: T, b: seq<T>)
    ensures Subseq(a + b, a + [x] + b)
  {
    SubseqSelf(a);
    SubseqSelf(b);
    SubseqConcat(a, a, [], [x]);
    assert a + [] == a;
    SubseqConcat(a, a + [x], b, b);
  }
}
