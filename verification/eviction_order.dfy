/**
 In which order capacity eviction of src/udp/send_queue.cpp gives items up (enforceLimitsLocked,
 dropOldestVideoParityLocked, dropOldestGroupLocked), over all its turns and for every queue: plain
 frames' parity first, then keyframes' parity, then whole video groups, then the other streams;
 within each of these the oldest group first; and no more than the limits ask for.
 */
module EvictionOrder {
  import opened SendQueueSpec
  import opened SendQueues
  import opened Subsequences
  import opened VideoGroups

  // ---- what the order is about -----------------------------------------------------------

  /** A video group that holds something plain besides parity, as every group with its end does. */
  ghost predicate PlainGroup(q: seq<QueueItem>, id: nat) {
    exists i :: 0 <= i < |q| && IsPlain(q[i]) && q[i].groupId == id
  }

  predicate IsPlain(item: QueueItem) {
    item.stream == Video && !IsParity(item) && !item.isKeyframe
  }

  /** When an item's turn comes. */
  ghost function Rank(q: seq<QueueItem>, item: QueueItem): nat {
    if IsParity(item) then (if item.isKeyframe then 1 else 0)
    else if item.stream != Video then 4
    else if PlainGroup(q, item.groupId) then 2
    else 3
  }

  /** Items that go together: a group's parity, and the rest of a group. */
  predicate SameUnit(a: QueueItem, b: QueueItem) {
    a.groupId == b.groupId && a.stream == b.stream && (IsParity(a) <==> IsParity(b))
  }

  /** The items by which the age of a unit is told: of a video group with plain items, those. */
  ghost predicate Leads(q: seq<QueueItem>, item: QueueItem) {
    Rank(q, item) == 2 ==> IsPlain(item)
  }

  /** Position j holds the first such item of its unit. */
  ghost predicate IsFirst(q: seq<QueueItem>, j: int) {
    && 0 <= j < |q| && Leads(q, q[j])
    && forall k :: 0 <= k < j ==> !(Leads(q, q[k]) && SameUnit(q[k], q[j]))
  }

  /** A group's parity packets agree on whether they belong to a keyframe. */
  ghost predicate FlagsAgree(q: seq<QueueItem>) {
    forall a, b :: a in q && b in q && IsParity(a) && IsParity(b) && a.groupId == b.groupId ==>
      a.isKeyframe == b.isKeyframe
  }

  /** Nothing protected goes. */
  ghost predicate Spares(q: seq<QueueItem>, protectedGroup: nat, gone: set<QueueItem>) {
    forall x :: x in q && x in gone ==> !IsProtected(x, protectedGroup)
  }

  /** An item goes only when everything unprotected of a lower rank has gone. */
  ghost predicate Ranked(q: seq<QueueItem>, protectedGroup: nat, gone: set<QueueItem>) {
    forall x, y :: x in q && y in q && !IsProtected(x, protectedGroup) && Rank(q, x) < Rank(q, y) && y in gone ==>
      x in gone
  }

  /** A unit goes as a whole. */
  ghost predicate Whole(q: seq<QueueItem>, gone: set<QueueItem>) {
    forall x, y :: x in q && y in q && SameUnit(x, y) && x in gone ==> y in gone
  }

  /** Of the units of one rank the oldest go first. */
  ghost predicate Aged(q: seq<QueueItem>, protectedGroup: nat, gone: set<QueueItem>) {
    forall i, j :: 0 <= i < j < |q| && IsFirst(q, j) && q[j] in gone && OlderUnit(q, protectedGroup, i, j) ==>
      q[i] in gone
  }

  ghost predicate OlderUnit(q: seq<QueueItem>, protectedGroup: nat, i: nat, j: nat)
    requires i < |q| && j < |q|
  {
    Leads(q, q[i]) && Rank(q, q[i]) == Rank(q, q[j]) && !IsProtected(q[i], protectedGroup)
  }

  ghost predicate InTurn(q: seq<QueueItem>, protectedGroup: nat, gone: set<QueueItem>) {
    Spares(q, protectedGroup, gone) && Ranked(q, protectedGroup, gone) && Whole(q, gone)
      && Aged(q, protectedGroup, gone)
  }

  // ---- what is left ----------------------------------------------------------------------

  function Left(q: seq<QueueItem>, gone: set<QueueItem>): seq<QueueItem> {
    Without(q, (item: QueueItem) => item in gone)
  }

  lemma LeftMembers(q: seq<QueueItem>, gone: set<QueueItem>)
    ensures forall x :: x in Left(q, gone) <==> x in q && x !in gone
  {
    WithoutMembers(q, (item: QueueItem) => item in gone);
  }

  function Matches(q: seq<QueueItem>, f: QueueItem -> bool): set<QueueItem> {
    set x | x in q && f(x)
  }

  lemma {:induction false} LeftWithout(q: seq<QueueItem>, gone: set<QueueItem>, f: QueueItem -> bool,
                                       more: set<QueueItem>)
    requires forall x :: x in q ==> (x in more <==> x in gone || f(x))
    ensures Without(Left(q, gone), f) == Left(q, more)
  {
    if |q| > 0 {
      var t, x := q[..|q| - 1], q[|q| - 1];
      LeftWithout(t, gone, f, more);
      WithoutConcat(Left(t, gone), if x in gone then [] else [x], f);
      FilterOne(x, f);
      assert Without([], f) == [];
    }
  }

  lemma LeftAround(q: seq<QueueItem>, gone: set<QueueItem>, m: nat)
    requires m < |q| && q[m] !in gone
    ensures Left(q, gone) == Left(q[..m], gone) + [q[m]] + Left(q[m + 1..], gone)
  {
    var a, b := q[..m], q[m + 1..];
    var h := (item: QueueItem) => item in gone;
    assert q == a + ([q[m]] + b);
    hide Without;
    WithoutConcat(a, [q[m]] + b, h);
    WithoutConcat([q[m]], b, h);
    FilterOne(q[m], h);
  }

  lemma FirstIs(s: seq<QueueItem>, f: QueueItem -> bool, i: nat)
    requires i < |s| && f(s[i]) && forall j :: 0 <= j < i ==> !f(s[j])
    ensures First(s, f) == i
  {
    hide First;
    var k := First(s, f);
    assert k <= |s|;
  }

  /** The first match among what is left is the first item of the queue that is left and matches. */
  lemma FirstLeft(q: seq<QueueItem>, gone: set<QueueItem>, f: QueueItem -> bool) returns (m: nat)
    requires First(Left(q, gone), f) < |Left(q, gone)|
    ensures m < |q| && q[m] == Left(q, gone)[First(Left(q, gone), f)] && q[m] !in gone && f(q[m])
    ensures forall k :: 0 <= k < m && f(q[k]) ==> q[k] in gone
  {
    var g := (item: QueueItem) => item !in gone && f(item);
    hide First, Left;
    m := First(q, g);
    var left := Left(q, gone);
    MatchIsLeft(q, gone, left[First(left, f)]);
    assert m < |q| by {
      var i :| 0 <= i < |q| && q[i] == left[First(left, f)];
      assert g(q[i]);
    }
    LeftAround(q, gone, m);
    var la := Left(q[..m], gone);
    forall i | 0 <= i < |la| ensures !f(la[i]) {
      MatchIsLeft(q[..m], gone, la[i]);
    }
    assert left[|la|] == q[m] && forall i :: 0 <= i < |la| ==> left[i] == la[i];
    FirstIs(left, f, |la|);
  }

  lemma MatchIsLeft(q: seq<QueueItem>, gone: set<QueueItem>, x: QueueItem)
    requires x in Left(q, gone)
    ensures x in q && x !in gone
  {
    LeftMembers(q, gone);
  }

  // ---- one turn --------------------------------------------------------------------------

  /** Everything that goes with the item at m. */
  function UnitOf(q: seq<QueueItem>, v: QueueItem): set<QueueItem> {
    set x | x in q && SameUnit(x, v)
  }

  lemma UnitHasRank(q: seq<QueueItem>, x: QueueItem, v: QueueItem)
    requires FlagsAgree(q) && x in q && v in q && SameUnit(x, v)
    ensures Rank(q, x) == Rank(q, v)
  {}

  /** The next unit goes: everything of a lower rank has gone, and so have the older units of its rank. */
  lemma TakeUnit(q: seq<QueueItem>, protectedGroup: nat, gone: set<QueueItem>, m: nat)
    requires FlagsAgree(q) && InTurn(q, protectedGroup, gone)
    requires m < |q| && Leads(q, q[m]) && !IsProtected(q[m], protectedGroup)
    requires forall x :: x in q && !IsProtected(x, protectedGroup) && Rank(q, x) < Rank(q, q[m]) ==> x in gone
    requires forall k :: 0 <= k < m && OlderUnit(q, protectedGroup, k, m) ==> q[k] in gone
    ensures InTurn(q, protectedGroup, gone + UnitOf(q, q[m]))
  {
    var more := gone + UnitOf(q, q[m]);
    assert Spares(q, protectedGroup, more);
    assert Whole(q, more);
    forall x, y | x in q && y in q && !IsProtected(x, protectedGroup) && Rank(q, x) < Rank(q, y) && y in more
      ensures x in more
    {
      if y !in gone {
        UnitHasRank(q, y, q[m]);
      }
    }
    hide Rank;
    forall i, j | 0 <= i < j < |q| && IsFirst(q, j) && q[j] in more && OlderUnit(q, protectedGroup, i, j)
      ensures q[i] in more
    {
      if q[j] !in gone {
        UnitHasRank(q, q[j], q[m]);
        assert j <= m;
        assert OlderUnit(q, protectedGroup, i, m);
      }
    }
  }

  /** Which parity goes next, and that it is its turn. */
  lemma ParityTurn(q: seq<QueueItem>, protectedGroup: nat, gone: set<QueueItem>) returns (m: nat)
    requires FlagsAgree(q) && ParityIsDatagram(q) && InTurn(q, protectedGroup, gone)
    requires ParityVictim(Left(q, gone), protectedGroup) < |Left(q, gone)|
    ensures m < |q| && q[m] !in gone && InTurn(q, protectedGroup, gone + UnitOf(q, q[m]))
    ensures ParityEvicted(Left(q, gone), protectedGroup) == Left(q, gone + UnitOf(q, q[m]))
  {
    var left := Left(q, gone);
    LeftMembers(q, gone);
    var plain := (x: QueueItem) => IsParity(x) && !x.isKeyframe && !IsProtected(x, protectedGroup);
    var any := (x: QueueItem) => IsParity(x) && !IsProtected(x, protectedGroup);
    hide Left, First, InTurn;
    if First(left, plain) < |left| {
      m := FirstLeft(q, gone, plain);
    } else {
      assert forall x :: x in left ==> !plain(x);
      m := FirstLeft(q, gone, any);
      assert q[m] in left;
    }
    assert q[m] == left[ParityVictim(left, protectedGroup)];
    TakeUnit(q, protectedGroup, gone, m);
    ParityUnit(q, gone, q[m]);
  }

  lemma ParityUnit(q: seq<QueueItem>, gone: set<QueueItem>, v: QueueItem)
    requires ParityIsDatagram(q) && v in q && IsParity(v)
    ensures WithoutParity(Left(q, gone), v.groupId, v.stream) == Left(q, gone + UnitOf(q, v))
  {
    var f := (x: QueueItem) => IsGroupParity(x, v.groupId, v.stream);
    LeftWithout(q, gone, f, gone + UnitOf(q, v));
  }

  /** No parity is left that may go. */
  ghost predicate ParityGone(q: seq<QueueItem>, protectedGroup: nat, gone: set<QueueItem>) {
    forall x :: x in q && IsParity(x) && !IsProtected(x, protectedGroup) ==> x in gone
  }

  lemma PlainTurn(q: seq<QueueItem>, protectedGroup: nat, gone: set<QueueItem>, m: nat)
    requires FlagsAgree(q) && InTurn(q, protectedGroup, gone) && ParityGone(q, protectedGroup, gone)
    requires m < |q| && q[m] !in gone && q[m].stream == Video && !q[m].isKeyframe && !IsProtected(q[m], protectedGroup)
    requires forall k ::
      0 <= k < m && q[k].stream == Video && !q[k].isKeyframe && !IsProtected(q[k], protectedGroup) ==>
      q[k] in gone
    ensures InTurn(q, protectedGroup, gone + UnitOf(q, q[m]))
  {
    assert q[m] in q && IsPlain(q[m]) && PlainGroup(q, q[m].groupId);
    hide InTurn, UnitOf, FlagsAgree;
    TakeUnit(q, protectedGroup, gone, m);
  }

  lemma KeyframeTurn(q: seq<QueueItem>, protectedGroup: nat, gone: set<QueueItem>, m: nat)
    requires FlagsAgree(q) && InTurn(q, protectedGroup, gone) && ParityGone(q, protectedGroup, gone)
    requires forall x :: x in q && IsPlain(x) && !IsProtected(x, protectedGroup) ==> x in gone
    requires m < |q| && q[m] !in gone && q[m].stream == Video && !IsProtected(q[m], protectedGroup)
    requires forall k :: 0 <= k < m && q[k].stream == Video && !IsProtected(q[k], protectedGroup) ==> q[k] in gone
    ensures InTurn(q, protectedGroup, gone + UnitOf(q, q[m]))
  {
    forall x | x in q && x.stream == Video && !IsProtected(x, protectedGroup) && PlainGroup(q, x.groupId)
      ensures x in gone
    {
      var i :| 0 <= i < |q| && IsPlain(q[i]) && q[i].groupId == x.groupId;
      assert q[i] in gone;
      if !IsParity(x) {
        assert SameUnit(q[i], x);
      }
    }
    assert q[m] in q && Rank(q, q[m]) == 3;
    hide InTurn, UnitOf, FlagsAgree;
    TakeUnit(q, protectedGroup, gone, m);
  }

  lemma OtherTurn(q: seq<QueueItem>, protectedGroup: nat, gone: set<QueueItem>, m: nat)
    requires FlagsAgree(q) && InTurn(q, protectedGroup, gone)
    requires forall x :: x in q && x.stream == Video && !IsProtected(x, protectedGroup) ==> x in gone
    requires m < |q| && q[m] !in gone && !IsProtected(q[m], protectedGroup)
    requires forall k :: 0 <= k < m && !IsProtected(q[k], protectedGroup) ==> q[k] in gone
    ensures InTurn(q, protectedGroup, gone + UnitOf(q, q[m]))
  {
    assert q[m] in q && Rank(q, q[m]) == 4;
    hide InTurn, UnitOf, FlagsAgree, PlainGroup;
    TakeUnit(q, protectedGroup, gone, m);
  }

  /** Which group goes next, once no parity is left to go. */
  lemma GroupTurn(q: seq<QueueItem>, protectedGroup: nat, gone: set<QueueItem>) returns (m: nat)
    requires FlagsAgree(q) && InTurn(q, protectedGroup, gone) && ParityGone(q, protectedGroup, gone)
    requires GroupVictim(Left(q, gone), protectedGroup) < |Left(q, gone)|
    ensures m < |q| && q[m] !in gone && InTurn(q, protectedGroup, gone + UnitOf(q, q[m]))
    ensures GroupEvicted(Left(q, gone), protectedGroup) == Left(q, gone + UnitOf(q, q[m]))
  {
    var left := Left(q, gone);
    LeftMembers(q, gone);
    var plain := (x: QueueItem) => x.stream == Video && !x.isKeyframe && !IsProtected(x, protectedGroup);
    var video := (x: QueueItem) => x.stream == Video && !IsProtected(x, protectedGroup);
    var any := (x: QueueItem) => !IsProtected(x, protectedGroup);
    hide Left, First, InTurn, FlagsAgree, UnitOf;
    if First(left, plain) < |left| {
      m := FirstLeft(q, gone, plain);
      PlainTurn(q, protectedGroup, gone, m);
    } else {
      assert forall x :: x in left ==> !plain(x);
      if First(left, video) < |left| {
        m := FirstLeft(q, gone, video);
        KeyframeTurn(q, protectedGroup, gone, m);
      } else {
        assert forall x :: x in left ==> !video(x);
        m := FirstLeft(q, gone, any);
        OtherTurn(q, protectedGroup, gone, m);
      }
    }
    assert q[m] == left[GroupVictim(left, protectedGroup)];
    GroupUnit(q, protectedGroup, gone, q[m]);
  }

  lemma GroupUnit(q: seq<QueueItem>, protectedGroup: nat, gone: set<QueueItem>, v: QueueItem)
    requires ParityGone(q, protectedGroup, gone) && v in q && v !in gone && !IsProtected(v, protectedGroup)
    ensures WithoutGroup(Left(q, gone), v.groupId, v.stream) == Left(q, gone + UnitOf(q, v))
  {
    var f := (x: QueueItem) => InGroup(x, v.groupId, v.stream);
    LeftWithout(q, gone, f, gone + UnitOf(q, v));
  }

  /** One turn takes the unit whose turn it is. */
  lemma OneTurn(q: seq<QueueItem>, protectedGroup: nat, gone: set<QueueItem>) returns (m: nat)
    requires FlagsAgree(q) && ParityIsDatagram(q) && InTurn(q, protectedGroup, gone)
    requires |EvictTurn(Left(q, gone), protectedGroup)| < |Left(q, gone)|
    ensures m < |q| && q[m] !in gone && InTurn(q, protectedGroup, gone + UnitOf(q, q[m]))
    ensures EvictTurn(Left(q, gone), protectedGroup) == Left(q, gone + UnitOf(q, q[m]))
  {
    var left := Left(q, gone);
    hide Left, InTurn, FlagsAgree, UnitOf, ParityVictim, GroupVictim;
    if ParityVictim(left, protectedGroup) < |left| {
      m := ParityTurn(q, protectedGroup, gone);
      OneLess(q, gone, q[m]);
    } else {
      NoVictimNoParity(q, protectedGroup, gone);
      m := GroupTurn(q, protectedGroup, gone);
    }
  }

  lemma NoVictimNoParity(q: seq<QueueItem>, protectedGroup: nat, gone: set<QueueItem>)
    requires ParityVictim(Left(q, gone), protectedGroup) >= |Left(q, gone)|
    ensures ParityGone(q, protectedGroup, gone)
  {
    var left := Left(q, gone);
    var any := (x: QueueItem) => IsParity(x) && !IsProtected(x, protectedGroup);
    LeftMembers(q, gone);
    hide Left;
    assert First(left, any) >= |left|;
    hide First;
    assert forall x :: x in left ==> !any(x);
  }

  lemma OneLess(q: seq<QueueItem>, gone: set<QueueItem>, v: QueueItem)
    requires v in q && v !in gone
    ensures |Left(q, gone + UnitOf(q, v))| < |Left(q, gone)|
  {
    var f := (x: QueueItem) => SameUnit(x, v);
    LeftWithout(q, gone, f, gone + UnitOf(q, v));
    LeftMembers(q, gone);
    WithoutMembers(Left(q, gone), f);
  }

  // ---- all turns -------------------------------------------------------------------------

  /** Nothing went that did not have to: with the last unit back, a limit is exceeded. */
  ghost predicate LastNeeded(q: seq<QueueItem>, gone: set<QueueItem>, maxPackets: nat, maxBytes: nat) {
    exists before: set<QueueItem>, m: nat ::
      && m < |q| && q[m] !in before && gone == before + UnitOf(q, q[m])
      && Over(Left(q, before), maxPackets, maxBytes)
  }

  /** A limit is exceeded: too many items, or too many bytes in the datagrams; 0 is no limit. */
  ghost predicate Over(q: seq<QueueItem>, maxPackets: nat, maxBytes: nat) {
    || (maxPackets > 0 && |q| > maxPackets)
    || (maxBytes > 0 && WireBytes(Only(q, (item: QueueItem) => item.kind == Datagram)) > maxBytes)
  }

  lemma OverExactly(q: seq<QueueItem>, maxPackets: nat, maxBytes: nat)
    ensures Over(q, maxPackets, maxBytes) <==> !WithinLimits(q, maxPackets, maxBytes)
  {
    ChargesAreWireBytes(q);
  }

  ghost predicate AllProtected(q: seq<QueueItem>, protectedGroup: nat) {
    forall item :: item in q ==> IsProtected(item, protectedGroup)
  }

  /** A turn finds nothing only where everything is protected. */
  lemma StuckIsProtected(q: seq<QueueItem>, protectedGroup: nat)
    requires |EvictTurn(q, protectedGroup)| >= |q|
    ensures AllProtected(q, protectedGroup)
  {
    var j := GroupVictim(q, protectedGroup);
    assert |GroupEvicted(q, protectedGroup)| >= |q|;
    hide GroupVictim, EvictTurn, WithoutGroup, AllProtected;
    if j < |q| {
      GroupShrinks(q, j);
    } else {
      NoVictimProtected(q, protectedGroup);
    }
  }

  lemma GroupShrinks(q: seq<QueueItem>, j: nat)
    requires j < |q|
    ensures |WithoutGroup(q, q[j].groupId, q[j].stream)| < |q|
  {
    var f := (item: QueueItem) => InGroup(item, q[j].groupId, q[j].stream);
    SplitLength(q, f);
    OnlyMembers(q, f);
    assert q[j] in q;
    hide Only;
    assert |Only(q, f)| > 0;
  }

  lemma NoVictimProtected(q: seq<QueueItem>, protectedGroup: nat)
    requires GroupVictim(q, protectedGroup) >= |q|
    ensures AllProtected(q, protectedGroup)
  {
    hide First;
    forall item | item in q ensures IsProtected(item, protectedGroup) {
      var k :| 0 <= k < |q| && q[k] == item;
    }
  }

  lemma {:induction false} AllTurns(q: seq<QueueItem>, protectedGroup: nat, gone: set<QueueItem>, maxPackets: nat,
                                    maxBytes: nat) returns (more: set<QueueItem>)
    requires FlagsAgree(q) && ParityIsDatagram(q) && InTurn(q, protectedGroup, gone) && forall x :: x in gone ==> x in q
    ensures Evicted(Left(q, gone), protectedGroup, maxPackets, maxBytes) == Left(q, more)
    ensures InTurn(q, protectedGroup, more) && forall x :: x in more ==> x in q
    ensures more == gone || LastNeeded(q, more, maxPackets, maxBytes)
    ensures Over(Left(q, more), maxPackets, maxBytes) ==> AllProtected(Left(q, more), protectedGroup)
    decreases |Left(q, gone)|
  {
    var left := Left(q, gone);
    hide Left, InTurn, FlagsAgree, ParityIsDatagram, EvictTurn, Over, WithinLimits, AllProtected;
    OverExactly(left, maxPackets, maxBytes);
    if |EvictTurn(left, protectedGroup)| >= |left| {
      StuckIsProtected(left, protectedGroup);
    }
    if WithinLimits(left, maxPackets, maxBytes) || |EvictTurn(left, protectedGroup)| >= |left| {
      more := gone;
    } else {
      var m := OneTurn(q, protectedGroup, gone);
      var next := gone + UnitOf(q, q[m]);
      assert LastNeeded(q, next, maxPackets, maxBytes);
      more := AllTurns(q, protectedGroup, next, maxPackets, maxBytes);
    }
  }

  ghost function GoneFrom(q: seq<QueueItem>, after: seq<QueueItem>): set<QueueItem> {
    set x | x in q && x !in after
  }

  /**
   Capacity eviction as a whole, for every queue whose parity comes in packets and agrees in each
   group on the keyframe flag. Nothing protected goes; a group's parity, or the rest of a group,
   goes as a whole; keyframes' parity only after all plain frames' parity, video groups only after
   all parity, keyframe-only groups after those with plain items, other streams last; of one kind
   the oldest first. With the last one back a limit would be exceeded, and one still is only where
   everything left is protected.
   */
  lemma EvictionInTurn(q: seq<QueueItem>, protectedGroup: nat, maxPackets: nat, maxBytes: nat)
    requires FlagsAgree(q) && ParityIsDatagram(q)
    ensures var after := Evicted(q, protectedGroup, maxPackets, maxBytes);
            var gone := GoneFrom(q, after);
            && after == Left(q, gone) && InTurn(q, protectedGroup, gone)
            && (gone == {} || LastNeeded(q, gone, maxPackets, maxBytes))
            && (Over(after, maxPackets, maxBytes) ==> AllProtected(after, protectedGroup))
  {
    NothingGone(q, protectedGroup);
    var more := AllTurns(q, protectedGroup, {}, maxPackets, maxBytes);
    var after := Evicted(q, protectedGroup, maxPackets, maxBytes);
    var gone := GoneFrom(q, after);
    LeftMembers(q, more);
    assert gone == more;
  }

  lemma NothingGone(q: seq<QueueItem>, protectedGroup: nat)
    ensures Left(q, {}) == q && InTurn(q, protectedGroup, {})
  {
    var gone: set<QueueItem> := {};
    var f := (item: QueueItem) => item in gone;
    WithoutMembers(q, f);
    SplitLength(q, f);
    NoneMatch(q, f);
  }

  /** A keyframe loses parity only when no plain frame has any left that may go. */
  lemma KeyframeParityLast(q: seq<QueueItem>, protectedGroup: nat, maxPackets: nat, maxBytes: nat, x: QueueItem,
                           y: QueueItem)
    requires FlagsAgree(q) && ParityIsDatagram(q) && x in q && y in q && IsParity(x) && IsParity(y)
    requires !x.isKeyframe && !IsProtected(x, protectedGroup) && y.isKeyframe
    ensures var after := Evicted(q, protectedGroup, maxPackets, maxBytes); y !in after ==> x !in after
  {
    EvictionInTurn(q, protectedGroup, maxPackets, maxBytes);
    hide Evicted, Left;
    assert Rank(q, x) < Rank(q, y);
  }
}
