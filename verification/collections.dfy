/** Counting facts about finite sets and sequences that several models share. */
module Counting {

  lemma {:induction false} SubsetSize<T>(a: set<T>, b: set<T>)
    requires a <= b
    ensures |a| <= |b|
    decreases a
  {
    if a != {} {
      var x :| x in a;
      SubsetSize(a - {x}, b - {x});
    }
  }

  lemma SubsetSameSize<T>(a: set<T>, b: set<T>)
    requires a <= b && |a| >= |b|
    ensures a == b
  {
    if x :| x in b && x !in a {
      SubsetSize(a, b - {x});
    }
  }

  /** The naturals below n. */
  function Below(n: nat): (s: set<nat>)
    ensures forall i: nat :: i in s <==> i < n
  {
    if n == 0 then {} else Below(n - 1) + {n - 1}
  }

  lemma {:induction false} BelowSize(n: nat)
    ensures |Below(n)| == n
  {
    if n > 0 {
      BelowSize(n - 1);
    }
  }

  ghost predicate NoRepeats<T>(s: seq<T>) {
    forall i, j :: 0 <= i < j < |s| ==> s[i] != s[j]
  }

  function Elements<T>(s: seq<T>): set<T> {
    set x | x in s
  }

  lemma {:induction false} NoRepeatsSize<T>(s: seq<T>)
    requires NoRepeats(s)
    ensures |Elements(s)| == |s|
    decreases |s|
  {
    if |s| == 0 {
      assert Elements(s) == {};
    } else {
      var rest := s[1..];
      NoRepeatsSize(rest);
      assert Elements(s) == {s[0]} + Elements(rest);
    }
  }

  /** The elements of a finite set, listed without repetition. */
  lemma {:induction false} Listing<T>(a: set<T>) returns (s: seq<T>)
    ensures NoRepeats(s) && |s| == |a|
    ensures forall x :: x in s <==> x in a
    decreases a
  {
    if a == {} {
      s := [];
    } else {
      var x :| x in a;
      var rest := Listing(a - {x});
      s := [x] + rest;
    }
  }
}
