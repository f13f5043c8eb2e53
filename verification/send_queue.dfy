/**
 The send queue of src/udp/send_queue.cpp: one deque, bounded by trimming whole video groups
 and by evicting parity first, then groups. The ghost ledger records where every item went.
 */
module SendQueues {
  import opened SendQueueSpec
  import opened Subsequences
  import opened VideoGroups
  import opened Wrappers

  datatype Snapshot = Snapshot(packets: nat, bytes: nat, droppedVideoGroups: nat, droppedVideoPackets: nat,
                               droppedVideoBytes: nat)

  datatype Status = Status(packets: nat, bytes: nat, oldestEnqueueSteadyUs: nat,
                           priorityPackets: seq<nat>, priorityBytes: seq<nat>)

  predicate IsProtected(item: QueueItem, protectedGroup: nat) {
    item.stream == Video && protectedGroup != NO_PROTECTED_GROUP && protectedGroup == item.groupId
  }

  function ProtectedItems(q: seq<QueueItem>, protectedGroup: nat): seq<QueueItem> {
    Only(q, (item: QueueItem) => IsProtected(item, protectedGroup))
  }

  function NonVideo(q: seq<QueueItem>): seq<QueueItem> {
    Only(q, (item: QueueItem) => item.stream != Video)
  }

  predicate IsParity(item: QueueItem) {
    item.stream == Video && item.isFecParity
  }

  function NonParity(q: seq<QueueItem>): seq<QueueItem> {
    Only(q, (item: QueueItem) => !IsParity(item))
  }

  predicate WithinLimits(q: seq<QueueItem>, maxPackets: nat, maxBytes: nat) {
    (maxPackets > 0 ==> |q| <= maxPackets) && (maxBytes > 0 ==> Charges(q) <= maxBytes)
  }

  /** Only packets carry parity; the builder of frames never marks a GroupEnd. */
  ghost predicate ParityIsDatagram(q: seq<QueueItem>) {
    forall item :: item in q && IsParity(item) ==> item.kind == Datagram
  }

  /**
   What capacity eviction guarantees. It deletes items without reordering; the protected group
   loses nothing; it stops at the limits or when only protected items are left; non-video items
   go only after all unprotected video; and anything but parity goes only after all unprotected parity.
   */
  ghost predicate Enforced(before: seq<QueueItem>, after: seq<QueueItem>, protectedGroup: nat, maxPackets: nat,
                           maxBytes: nat) {
    && EvictedInOrder(before, after, protectedGroup)
    && (WithinLimits(after, maxPackets, maxBytes) || forall item :: item in after ==> IsProtected(item, protectedGroup))
    && (WithinLimits(before, maxPackets, maxBytes) ==> after == before)
  }

  ghost predicate EvictedInOrder(before: seq<QueueItem>, after: seq<QueueItem>, protectedGroup: nat) {
    && Subseq(after, before)
    && ProtectedItems(after, protectedGroup) == ProtectedItems(before, protectedGroup)
    && (NonVideo(after) == NonVideo(before)
        || forall item :: item in after && item.stream == Video ==> IsProtected(item, protectedGroup))
    && (ParityIsDatagram(before) ==>
          NonParity(after) == NonParity(before)
          || forall item :: item in after && IsParity(item) ==> IsProtected(item, protectedGroup))
  }

  lemma EvictNothing(q: seq<QueueItem>, protectedGroup: nat)
    ensures EvictedInOrder(q, q, protectedGroup)
  {
    SubseqSelf(q);
  }

  /** One more removal: parity if any is left, otherwise a group. */
  lemma EvictMore(before: seq<QueueItem>, q: seq<QueueItem>, protectedGroup: nat, f: QueueItem -> bool)
    requires EvictedInOrder(before, q, protectedGroup)
    requires forall item :: item in q && f(item) ==> !IsProtected(item, protectedGroup)
    requires (forall item :: item in q && f(item) ==> item.stream == Video)
             || (forall item :: item in q && item.stream == Video ==> IsProtected(item, protectedGroup))
    requires ParityIsDatagram(q) ==>
      (forall item :: item in q && f(item) ==> IsParity(item))
      || (forall item :: item in q && IsParity(item) ==> IsProtected(item, protectedGroup))
    ensures EvictedInOrder(before, Without(q, f), protectedGroup)
  {
    var after := Without(q, f);
    SubseqWithout(q, f);
    SubseqTrans(after, q, before);
    SubseqMembers(q, before);
    WithoutMembers(q, f);
    OnlyOfWithout(q, (item: QueueItem) => IsProtected(item, protectedGroup), f);
    if forall item :: item in q && f(item) ==> item.stream == Video {
      OnlyOfWithout(q, (item: QueueItem) => item.stream != Video, f);
    }
    if forall item :: item in q && f(item) ==> IsParity(item) {
      OnlyOfWithout(q, (item: QueueItem) => !IsParity(item), f);
    }
  }

  lemma EraseStart(all: seq<QueueItem>, f: QueueItem -> bool)
    ensures Without(all[..0], f) == [] && Only(all[..0], f) == [] && Charges([]) == 0
    ensures [] + all[0..] == all
  {}

  lemma EraseStep(all: seq<QueueItem>, n: nat, f: QueueItem -> bool)
    requires n < |all|
    ensures f(all[n]) ==>
      Without(all[..n + 1], f) == Without(all[..n], f) && Only(all[..n + 1], f) == Only(all[..n], f) + [all[n]]
    ensures !f(all[n]) ==>
      Without(all[..n + 1], f) == Without(all[..n], f) + [all[n]] && Only(all[..n + 1], f) == Only(all[..n], f)
    ensures var w := Without(all[..n], f);
            var q := w + all[n..];
            && q[|w|] == all[n]
            && q[..|w|] + q[|w| + 1..] == w + all[n + 1..]
            && q == (w + [all[n]]) + all[n + 1..]
  {
    hide Without, Only;
    assert all[..n + 1] == all[..n] + [all[n]];
    WithoutConcat(all[..n], [all[n]], f);
    OnlyConcat(all[..n], [all[n]], f);
    FilterOne(all[n], f);
    OnlyOne(all[n], f);
    KeptAndRest(Without(all[..n], f), all, n);
    NothingMore(Without(all[..n], f));
    NothingMore(Only(all[..n], f));
  }

  lemma FilterOne(item: QueueItem, f: QueueItem -> bool)
    ensures Without([item], f) == if f(item) then [] else [item]
  {
    assert [item][..0] == [];
  }

  lemma NothingMore(q: seq<QueueItem>)
    ensures q + [] == q
  {}

  lemma KeptAndRest(w: seq<QueueItem>, all: seq<QueueItem>, n: nat)
    requires n < |all|
    ensures var q := w + all[n..];
            && q[|w|] == all[n]
            && q[..|w|] + q[|w| + 1..] == w + all[n + 1..]
            && q == (w + [all[n]]) + all[n + 1..]
  {}

  lemma ChargesNothing()
    ensures Charges([]) == 0
  {}

  lemma ChargesSnoc(q: seq<QueueItem>, item: QueueItem)
    ensures Charges(q + [item]) == Charges(q) + Charge(item)
  {
    assert (q + [item])[..|q|] == q;
  }

  /** The group of the last video GroupEnd among the items. */
  function LastGroupEnd(items: seq<QueueItem>): Option<nat> {
    if |items| == 0 then None
    else
      var last := items[|items| - 1];
      if last.stream == Video && last.kind == GroupEnd then Some(last.groupId) else LastGroupEnd(items[..|items| - 1])
  }

  /** The queue once a batch has been appended and, if it completes a frame, the backlog trimmed. */
  function Backlog(q: seq<QueueItem>, items: seq<QueueItem>, protectedGroup: nat): seq<QueueItem> {
    var longer, newest := q + AllNormalized(items), LastGroupEnd(items);
    if newest.Some? then Trimmed(longer, newest.value, protectedGroup) else longer
  }

  lemma LastGroupEndStep(items: seq<QueueItem>, n: nat)
    requires n < |items|
    ensures LastGroupEnd(items[..n + 1])
         == if items[n].stream == Video && items[n].kind == GroupEnd then Some(items[n].groupId)
            else LastGroupEnd(items[..n])
  {
    assert items[..n + 1][..n] == items[..n];
  }

  lemma AppendStart(items: seq<QueueItem>)
    ensures LastGroupEnd(items[..0]) == None
  {}

  lemma {:induction false} LastGroupEndIs(items: seq<QueueItem>)
    requires LastGroupEnd(items).Some?
    ensures exists i :: 0 <= i < |items| && InGroup(items[i], LastGroupEnd(items).value, Video)
  {
    var last := items[|items| - 1];
    if last.stream == Video && last.kind == GroupEnd {
      assert InGroup(last, last.groupId, Video);
    } else {
      LastGroupEndIs(items[..|items| - 1]);
      var i :| 0 <= i < |items| - 1 && InGroup(items[..|items| - 1][i], LastGroupEnd(items).value, Video);
      assert InGroup(items[i], LastGroupEnd(items).value, Video);
    }
  }

  lemma NewestIsQueued(q: seq<QueueItem>, items: seq<QueueItem>)
    requires LastGroupEnd(items).Some?
    ensures HasId(Collect(q + AllNormalized(items)), LastGroupEnd(items).value)
  {
    LastGroupEndIs(items);
    var i :| 0 <= i < |items| && InGroup(items[i], LastGroupEnd(items).value, Video);
    var all := q + AllNormalized(items);
    assert all[|q| + i] == Normalized(items[i]);
    assert InGroup(all[|q| + i], LastGroupEnd(items).value, Video);
    CollectIds(all);
  }

  /** How often each item occurs. */
  ghost function Bag(q: seq<QueueItem>): multiset<QueueItem> {
    multiset(q)
  }

  lemma BagStart(a: multiset<QueueItem>, q: seq<QueueItem>)
    ensures a == a + Bag(q[..0])
  {}

  lemma BagOfNothing(a: multiset<QueueItem>, q: seq<QueueItem>)
    ensures q == [] ==> a == a + Bag(q)
  {}

  lemma BagSnoc(a: multiset<QueueItem>, q: seq<QueueItem>, n: nat)
    requires n < |q|
    ensures a + Bag(q[..n]) + multiset{q[n]} == a + Bag(q[..n + 1])
  {
    assert q[..n + 1] == q[..n] + [q[n]];
  }

  lemma ClearAll(accepted: multiset<QueueItem>, q: seq<QueueItem>, evicted: multiset<QueueItem>,
                 taken: multiset<QueueItem>, cleared: multiset<QueueItem>)
    requires Balanced(accepted, q, evicted, taken, cleared)
    ensures Balanced(accepted, [], evicted, taken, cleared + multiset(q))
    ensures Charges([]) == 0 && PrioritiesInRange([])
  {}

  lemma AppendOne(accepted: multiset<QueueItem>, q: seq<QueueItem>, item: QueueItem, evicted: multiset<QueueItem>,
                  taken: multiset<QueueItem>, cleared: multiset<QueueItem>)
    requires Balanced(accepted, q, evicted, taken, cleared) && PrioritiesInRange(q) && item.priority <= LOWEST_PRIORITY
    ensures Balanced(accepted + multiset{item}, q + [item], evicted, taken, cleared) && PrioritiesInRange(q + [item])
    ensures Charges(q + [item]) == Charges(q) + Charge(item)
  {
    ChargesSnoc(q, item);
  }

  lemma PrependOne(accepted: multiset<QueueItem>, q: seq<QueueItem>, item: QueueItem, evicted: multiset<QueueItem>,
                   taken: multiset<QueueItem>, cleared: multiset<QueueItem>)
    requires Balanced(accepted, q, evicted, taken, cleared) && PrioritiesInRange(q) && item.priority <= LOWEST_PRIORITY
    ensures Balanced(accepted + multiset{item}, [item] + q, evicted, taken, cleared) && PrioritiesInRange([item] + q)
    ensures Charges([item] + q) == Charges(q) + Charge(item)
  {
    ChargesConcat([item], q);
    ChargesSnoc([], item);
    assert [] + [item] == [item];
  }

  /** No unprotected parity is queued. */
  ghost predicate NoParityLeft(q: seq<QueueItem>, protectedGroup: nat) {
    forall item :: item in q && IsParity(item) ==> IsProtected(item, protectedGroup)
  }

  lemma EvictParity(before: seq<QueueItem>, q: seq<QueueItem>, protectedGroup: nat, victim: QueueItem)
    requires EvictedInOrder(before, q, protectedGroup)
    requires victim in q && IsParity(victim) && !IsProtected(victim, protectedGroup)
    ensures EvictedInOrder(before, WithoutParity(q, victim.groupId, victim.stream), protectedGroup)
    ensures ParityIsDatagram(q) ==> |WithoutParity(q, victim.groupId, victim.stream)| < |q|
    ensures |WithoutParity(q, victim.groupId, victim.stream)| >= |q| ==>
      WithoutParity(q, victim.groupId, victim.stream) == q
  {
    var f := (item: QueueItem) => IsGroupParity(item, victim.groupId, victim.stream);
    WithoutMembers(q, f);
    EvictMore(before, q, protectedGroup, f);
  }

  lemma EvictGroup(before: seq<QueueItem>, q: seq<QueueItem>, protectedGroup: nat, victim: QueueItem)
    requires EvictedInOrder(before, q, protectedGroup)
    requires victim in q && !IsProtected(victim, protectedGroup)
    requires victim.stream == Video || forall item :: item in q && item.stream == Video ==>
      IsProtected(item, protectedGroup)
    requires ParityIsDatagram(q) ==> NoParityLeft(q, protectedGroup)
    ensures EvictedInOrder(before, WithoutGroup(q, victim.groupId, victim.stream), protectedGroup)
    ensures |WithoutGroup(q, victim.groupId, victim.stream)| < |q|
  {
    var f := (item: QueueItem) => InGroup(item, victim.groupId, victim.stream);
    WithoutMembers(q, f);
    EvictMore(before, q, protectedGroup, f);
    assert victim !in Without(q, f);
  }

  // ---- capacity eviction as a function -----------------------------------------------------

  /** The first match, or the length: find_if. */
  function First(q: seq<QueueItem>, f: QueueItem -> bool): (i: nat)
    ensures i <= |q| && (i < |q| ==> f(q[i])) && forall j :: 0 <= j < i ==> !f(q[j])
  {
    if |q| == 0 || f(q[0]) then 0 else 1 + First(q[1..], f)
  }

  /** Whose parity goes next: the oldest of a plain packet's group, else of any unprotected group. */
  function ParityVictim(q: seq<QueueItem>, protectedGroup: nat): nat {
    var i := First(q, (item: QueueItem) => IsParity(item) && !item.isKeyframe && !IsProtected(item, protectedGroup));
    if i < |q| then i else First(q, (item: QueueItem) => IsParity(item) && !IsProtected(item, protectedGroup))
  }

  /** Whose group goes next: of the oldest plain video item, else of any video item, else of any item. */
  function GroupVictim(q: seq<QueueItem>, protectedGroup: nat): nat {
    var i := First(q, (item: QueueItem) =>
      item.stream == Video && !item.isKeyframe && !IsProtected(item, protectedGroup));
    if i < |q| then i
    else
      var j := First(q, (item: QueueItem) => item.stream == Video && !IsProtected(item, protectedGroup));
      if j < |q| then j else First(q, (item: QueueItem) => !IsProtected(item, protectedGroup))
  }

  function ParityEvicted(q: seq<QueueItem>, protectedGroup: nat): seq<QueueItem> {
    var i := ParityVictim(q, protectedGroup);
    if i < |q| then WithoutParity(q, q[i].groupId, q[i].stream) else q
  }

  function GroupEvicted(q: seq<QueueItem>, protectedGroup: nat): seq<QueueItem> {
    var i := GroupVictim(q, protectedGroup);
    if i < |q| then WithoutGroup(q, q[i].groupId, q[i].stream) else q
  }

  /** One turn: parity if that removes anything, else a group. */
  function EvictTurn(q: seq<QueueItem>, protectedGroup: nat): seq<QueueItem> {
    var p := ParityEvicted(q, protectedGroup);
    if |p| < |q| then p else GroupEvicted(q, protectedGroup)
  }

  /** Turns are taken only while a limit is exceeded and a turn removes anything. */
  function Evicted(q: seq<QueueItem>, protectedGroup: nat, maxPackets: nat, maxBytes: nat): seq<QueueItem>
    decreases |q|
  {
    var next := EvictTurn(q, protectedGroup);
    if WithinLimits(q, maxPackets, maxBytes) || |next| >= |q| then q
    else Evicted(next, protectedGroup, maxPackets, maxBytes)
  }

  lemma EvictionStops(q: seq<QueueItem>, protectedGroup: nat, maxPackets: nat, maxBytes: nat)
    requires WithinLimits(q, maxPackets, maxBytes) || |EvictTurn(q, protectedGroup)| >= |q|
    ensures Evicted(q, protectedGroup, maxPackets, maxBytes) == q
  {
    hide EvictTurn;
  }

  lemma EvictionGoesOn(q: seq<QueueItem>, protectedGroup: nat, maxPackets: nat, maxBytes: nat)
    requires !WithinLimits(q, maxPackets, maxBytes) && |EvictTurn(q, protectedGroup)| < |q|
    ensures Evicted(q, protectedGroup, maxPackets, maxBytes)
         == Evicted(EvictTurn(q, protectedGroup), protectedGroup, maxPackets, maxBytes)
  {
    hide EvictTurn;
  }

  /** One turn keeps the order of evictions. */
  lemma TurnInOrder(before: seq<QueueItem>, q: seq<QueueItem>, protectedGroup: nat)
    requires EvictedInOrder(before, q, protectedGroup) && |EvictTurn(q, protectedGroup)| < |q|
    ensures EvictedInOrder(before, EvictTurn(q, protectedGroup), protectedGroup)
  {
    hide EvictedInOrder, First;
    var i, j := ParityVictim(q, protectedGroup), GroupVictim(q, protectedGroup);
    if i < |q| {
      EvictParity(before, q, protectedGroup, q[i]);
    }
    if |ParityEvicted(q, protectedGroup)| >= |q| {
      assert j < |q|;
      EvictGroup(before, q, protectedGroup, q[j]);
    }
  }

  /** Eviction as a whole keeps it, whatever the limits. */
  lemma {:induction false} EvictedKeeps(before: seq<QueueItem>, q: seq<QueueItem>, protectedGroup: nat, maxPackets: nat,
                                        maxBytes: nat)
    requires EvictedInOrder(before, q, protectedGroup)
    ensures EvictedInOrder(before, Evicted(q, protectedGroup, maxPackets, maxBytes), protectedGroup)
    decreases |q|
  {
    hide EvictedInOrder, EvictTurn;
    if !WithinLimits(q, maxPackets, maxBytes) && |EvictTurn(q, protectedGroup)| < |q| {
      TurnInOrder(before, q, protectedGroup);
      EvictedKeeps(before, EvictTurn(q, protectedGroup), protectedGroup, maxPackets, maxBytes);
    }
  }

  lemma UnprotectedGroup(item: QueueItem, protectedGroup: nat)
    requires !IsProtected(item, protectedGroup)
    ensures !(item.stream == Video && protectedGroup != NO_PROTECTED_GROUP && protectedGroup == item.groupId)
  {}

  /** The only item that eviction can find nothing for is a protected one. */
  lemma NothingToEvict(q: seq<QueueItem>, protectedGroup: nat)
    requires forall item :: item in q ==> IsProtected(item, protectedGroup)
    ensures ParityEvicted(q, protectedGroup) == q && GroupEvicted(q, protectedGroup) == q
  {
    assert forall i :: 0 <= i < |q| ==> q[i] in q;
  }

  /** Every accepted item is queued, evicted, taken or cleared, exactly as often as it was accepted. */
  ghost predicate Balanced(accepted: multiset<QueueItem>, q: seq<QueueItem>, evicted: multiset<QueueItem>,
                           taken: multiset<QueueItem>, cleared: multiset<QueueItem>)
  {
    accepted == multiset(q) + evicted + taken + cleared
  }

  predicate PrioritiesInRange(q: seq<QueueItem>) {
    forall i :: 0 <= i < |q| ==> q[i].priority <= LOWEST_PRIORITY
  }

  lemma EvictOne(accepted: multiset<QueueItem>, q: seq<QueueItem>, i: nat, evicted: multiset<QueueItem>,
                 taken: multiset<QueueItem>, cleared: multiset<QueueItem>)
    requires i < |q| && Balanced(accepted, q, evicted, taken, cleared) && PrioritiesInRange(q)
    ensures Balanced(accepted, q[..i] + q[i + 1..], evicted + multiset{q[i]}, taken, cleared)
    ensures Balanced(accepted, q[..i] + q[i + 1..], evicted, taken + multiset{q[i]}, cleared)
    ensures PrioritiesInRange(q[..i] + q[i + 1..])
  {
    MultisetRemove(q, i);
  }

  lemma {:induction false} MergeAt(groups: seq<GroupInfo>, id: nat, key: bool, i: nat)
    requires i <= |groups| && (i < |groups| ==> groups[i].groupId == id)
    requires forall j :: 0 <= j < i ==> groups[j].groupId != id
    ensures Merge(groups, id, key)
         == if i == |groups| then groups + [GroupInfo(id, key)]
            else groups[i := GroupInfo(id, groups[i].isKeyframe || key)]
    decreases |groups|
  {
    if |groups| > 0 && i > 0 {
      MergeAt(groups[1..], id, key, i - 1);
    }
  }

  lemma NewestIsKeyframe(groups: seq<GroupInfo>, newest: nat, n: nat)
    requires DistinctIds(groups) && n <= |groups| && (n < |groups| ==> groups[n].groupId == newest)
    requires forall j :: 0 <= j < n ==> groups[j].groupId != newest
    ensures n < |groups| && groups[n].isKeyframe <==> GroupInfo(newest, true) in groups
  {
    if GroupInfo(newest, true) in groups {
      var j :| 0 <= j < |groups| && groups[j] == GroupInfo(newest, true);
      assert j == n;
    }
  }

  lemma DropAllNothing(q: seq<QueueItem>, r: seq<GroupInfo>)
    ensures DropAll(q, r[..0]) == q
  {}

  lemma NoCandidates(groups: seq<GroupInfo>, newest: nat, protectedGroup: nat)
    requires forall j :: 0 <= j < |groups| ==> !Eligible(groups[j], newest, protectedGroup)
    ensures Ranking(groups, newest, protectedGroup) == []
  {
    NoneMatch(groups, (g: GroupInfo) => Eligible(g, newest, protectedGroup) && g.isKeyframe == false);
    NoneMatch(groups, (g: GroupInfo) => Eligible(g, newest, protectedGroup) && g.isKeyframe == true);
  }

  /** One turn of the drop loop: the victim is next in the ranking, and its entry is all that goes. */
  lemma RankedTurn(q0: seq<QueueItem>, q: seq<QueueItem>, groups: seq<GroupInfo>, newest: nat, protectedGroup: nat,
                   i: nat, r: seq<GroupInfo>, m: nat)
    requires groups == Collect(q) && IsVictim(groups, newest, protectedGroup, i)
    requires m <= |r| && Ranking(groups, newest, protectedGroup) == r[m..] && q == DropAll(q0, r[..m])
    ensures var id := groups[i].groupId;
            var q' := WithoutGroup(q, id, Video);
            && m < |r|
            && |Collect(q')| == |groups| - 1
            && Ranking(Collect(q'), newest, protectedGroup) == r[m + 1..]
            && q' == DropAll(q0, r[..m + 1])
            && |q'| < |q|
  {
    hide Collect, Ranking, WithoutGroup, DropAll;
    var id := groups[i].groupId;
    CollectIds(q);
    CollectWithoutGroup(q, id);
    DistinctSplit(groups, i);
    VictimHeadsRanking(groups, newest, protectedGroup, i);
    assert r[m..][1..] == r[m + 1..];
    assert r[..m + 1] == r[..m] + [r[m]];
    DropAllSnoc(q0, r[..m], r[m]);
    assert HasId(groups, id);
    GroupShrinks(q, id);
  }

  lemma GroupShrinks(q: seq<QueueItem>, id: nat)
    requires exists i :: 0 <= i < |q| && InGroup(q[i], id, Video)
    ensures |WithoutGroup(q, id, Video)| < |q|
  {
    WithoutMembers(q, (item: QueueItem) => InGroup(item, id, Video));
    var i :| 0 <= i < |q| && InGroup(q[i], id, Video);
    assert q[i] in q && q[i] !in WithoutGroup(q, id, Video);
  }

  lemma EligibleStart(q: seq<QueueItem>, groups: seq<GroupInfo>, newest: nat, protectedGroup: nat)
    ensures EligibleGroups(groups[..0], newest, protectedGroup) == [] && DropAll(q, []) == q
  {}

  lemma EligibleStep(q: seq<QueueItem>, groups: seq<GroupInfo>, n: nat, newest: nat, protectedGroup: nat)
    requires n < |groups| && groups == Collect(q)
    ensures var done := EligibleGroups(groups[..n], newest, protectedGroup);
            var next := EligibleGroups(groups[..n + 1], newest, protectedGroup);
            var q1 := DropAll(q, done);
            if Eligible(groups[n], newest, protectedGroup)
            then next == done + [groups[n]] && DropAll(q, next) == WithoutGroup(q1, groups[n].groupId, Video)
                 && |DropAll(q, next)| < |q1|
            else next == done
  {
    var done := EligibleGroups(groups[..n], newest, protectedGroup);
    assert groups[..n + 1][..n] == groups[..n];
    if Eligible(groups[n], newest, protectedGroup) {
      DropAllSnoc(q, done, groups[n]);
      CollectIds(q);
      DropAllMembers(q, done, groups[n]);
      OnlyMembers(groups[..n], (g: GroupInfo) => Eligible(g, newest, protectedGroup));
      forall j | 0 <= j < |done| ensures done[j].groupId != groups[n].groupId {
        assert done[j] in done;
        var k :| 0 <= k < n && groups[..n][k] == done[j];
        assert groups[k] == done[j];
      }
      var q1 := DropAll(q, done);
      CollectIds(q1);
      assert HasId(Collect(q1), groups[n].groupId);
      GroupShrinks(q1, groups[n].groupId);
    }
  }

  /** The status counts every lane. */
  ghost predicate LanesOf(q: seq<QueueItem>, r: Status) {
    && |r.priorityPackets| == |r.priorityBytes| == LOWEST_PRIORITY + 1
    && forall p: nat :: p <= LOWEST_PRIORITY ==>
         r.priorityPackets[p] == |Lane(q, p)| && r.priorityBytes[p] == Charges(Lane(q, p))
  }

  lemma NothingInLanes(q: seq<QueueItem>, r: Status)
    requires r.priorityPackets == [0, 0, 0, 0, 0] && r.priorityBytes == [0, 0, 0, 0, 0]
    ensures LanesOf(q[..0], r)
  {}

  lemma LanesStep(q: seq<QueueItem>, n: nat, a: Status, b: Status)
    requires n < |q| && LanesOf(q[..n], a)
    requires var p := NormalizePriority(q[n].priority);
             && b.priorityPackets == a.priorityPackets[p := a.priorityPackets[p] + 1]
             && b.priorityBytes == a.priorityBytes[p := a.priorityBytes[p] + Charge(q[n])]
    ensures LanesOf(q[..n + 1], b)
  {
    assert q[..n + 1] == q[..n] + [q[n]];
    forall p: nat | p <= LOWEST_PRIORITY
      ensures b.priorityPackets[p] == |Lane(q[..n + 1], p)| && b.priorityBytes[p] == Charges(Lane(q[..n + 1], p))
    {
      LaneConcat(q[..n], [q[n]], p);
      LaneOfOne(q[n], p);
      if InLane(q[n], p) {
        ChargesSnoc(Lane(q[..n], p), q[n]);
      } else {
        assert Lane(q[..n], p) + [] == Lane(q[..n], p);
      }
    }
  }

  class SendQueue {
    var queue: seq<QueueItem>
    var queueBytes: nat
    var protectedGroup: nat
    var maxPackets: nat
    var maxBytes: nat
    var running: bool
    var droppedVideoGroups: nat
    var droppedVideoPackets: nat
    var droppedVideoBytes: nat

    // Every item ever accepted is queued, taken by a pop, evicted or cleared.
    ghost var accepted: multiset<QueueItem>
    ghost var taken: multiset<QueueItem>
    ghost var evicted: multiset<QueueItem>
    ghost var cleared: multiset<QueueItem>
    // The items of each whole video group evicted since the last snapshot.
    ghost var groupDrops: seq<seq<QueueItem>>

    /** The byte counter is exact, nothing is lost or duplicated, priorities are in range. */
    ghost predicate Sound()
      reads `queue, `queueBytes, `accepted, `taken, `evicted, `cleared
    {
      && queueBytes == Charges(queue)
      && Balanced(accepted, queue, evicted, taken, cleared)
      && PrioritiesInRange(queue)
    }

    /** The drop counters report the whole-group video evictions since the last snapshot. */
    ghost predicate CountersExact()
      reads `droppedVideoGroups, `droppedVideoPackets, `droppedVideoBytes, `groupDrops
    {
      && droppedVideoGroups == |groupDrops|
      && droppedVideoPackets == TotalLength(groupDrops)
      && droppedVideoBytes == TotalCharge(groupDrops)
    }

    ghost predicate Valid()
      reads this
    {
      Sound() && CountersExact() && (!running ==> queue == [])
    }

    constructor ()
      ensures Valid() && queue == [] && running && protectedGroup == NO_PROTECTED_GROUP
      ensures maxPackets == 0 && maxBytes == 0
    {
      queue, queueBytes, protectedGroup := [], 0, NO_PROTECTED_GROUP;
      maxPackets, maxBytes, running := 0, 0, true;
      droppedVideoGroups, droppedVideoPackets, droppedVideoBytes := 0, 0, 0;
      accepted, taken, evicted, cleared, groupDrops := multiset{}, multiset{}, multiset{}, multiset{}, [];
    }

    // ---- the erase loop shared by group and parity drops ---------------------------------

    method EraseAt(i: nat)
      requires Sound() && i < |queue|
      modifies this`queue, this`queueBytes, this`evicted
      ensures Sound()
      ensures queue == old(queue[..i] + queue[i + 1..])
      ensures queueBytes == old(queueBytes) - old(Charge(queue[i]))
    {
      hide Charges, Balanced, PrioritiesInRange;
      ChargesRemove(queue, i);
      EvictOne(accepted, queue, i, evicted, taken, cleared);
      if queue[i].kind == Datagram {
        queueBytes := SaturatingSub(queueBytes, queue[i].wireBytes);
      }
      evicted := evicted + multiset{queue[i]};
      queue := queue[..i] + queue[i + 1..];
    }

    method EraseWhere(f: QueueItem -> bool) returns (items: nat, bytes: nat, ghost gone: seq<QueueItem>)
      requires Sound()
      modifies this`queue, this`queueBytes, this`evicted
      ensures Sound()
      ensures queue == Without(old(queue), f) && gone == Only(old(queue), f)
      ensures items == |gone| && bytes == Charges(gone)
      ensures items == |old(queue)| - |queue|
    {
      hide Without, Only, Charges, SendQueue.Sound;
      items, bytes, gone := 0, 0, [];
      ghost var all := queue;
      ghost var n := 0;
      ghost var kept: seq<QueueItem> := [];
      var i := 0;
      EraseStart(all, f);
      while i < |queue|
        invariant n <= |all| && kept == Without(all[..n], f) && i == |kept| && queue == kept + all[n..]
        invariant gone == Only(all[..n], f) && items == |gone| && bytes == Charges(gone)
        invariant items == |all| - |queue|
        invariant Sound()
        decreases |queue| - i
      {
        EraseStep(all, n, f);
        var item := queue[i];
        if f(item) {
          EraseAt(i);
          ChargesSnoc(gone, item);
          bytes := bytes + (if item.kind == Datagram then item.wireBytes else 0);
          gone := gone + [item];
          items := items + 1;
        } else {
          i := i + 1;
          kept := kept + [item];
        }
        n := n + 1;
      }
      assert all[..n] == all;
    }

    /** Drops a whole group, unless it is the protected video group. */
    method DropGroup(id: nat, stream: Stream)
      requires Valid()
      modifies this
      ensures Valid() && unchanged(`protectedGroup, `maxPackets, `maxBytes, `running, `accepted, `taken, `cleared)
      ensures queue == if stream == Video && protectedGroup != NO_PROTECTED_GROUP && protectedGroup == id
                       then old(queue) else WithoutGroup(old(queue), id, stream)
      ensures groupDrops == if stream == Video && |queue| < |old(queue)|
                            then old(groupDrops) + [GroupItems(old(queue), id, stream)]
                            else old(groupDrops)
    {
      hide Without, Only, Charges, SendQueue.Sound, SendQueue.CountersExact;
      if stream == Video && protectedGroup != NO_PROTECTED_GROUP && protectedGroup == id {
        return;
      }
      var f := (item: QueueItem) => InGroup(item, id, stream);
      var items, bytes, gone := EraseWhere(f);
      if items == 0 {
        return;
      }
      if stream == Video {
        CountGroupDrop(items, bytes, gone);
      }
    }

    method CountGroupDrop(items: nat, bytes: nat, ghost gone: seq<QueueItem>)
      requires CountersExact() && items == |gone| && bytes == Charges(gone)
      modifies `droppedVideoGroups, `droppedVideoPackets, `droppedVideoBytes, `groupDrops
      ensures CountersExact() && groupDrops == old(groupDrops) + [gone]
    {
      hide Charges;
      droppedVideoGroups := droppedVideoGroups + 1;
      droppedVideoPackets := droppedVideoPackets + items;
      droppedVideoBytes := droppedVideoBytes + bytes;
      groupDrops := groupDrops + [gone];
      assert groupDrops[..|groupDrops| - 1] == old(groupDrops);
    }

    /** Drops the parity packets of a group, unless it is the protected video group. */
    method DropParityForGroup(id: nat, stream: Stream) returns (dropped: bool)
      requires Valid()
      modifies this`queue, this`queueBytes, this`evicted
      ensures Valid()
      ensures queue == if stream == Video && protectedGroup != NO_PROTECTED_GROUP && protectedGroup == id
                       then old(queue)
                       else WithoutParity(old(queue), id, stream)
      ensures dropped <==> |queue| < |old(queue)|
    {
      hide Without, Only, Charges, SendQueue.Sound, SendQueue.CountersExact;
      if stream == Video && protectedGroup != NO_PROTECTED_GROUP && protectedGroup == id {
        return false;
      }
      var f := (item: QueueItem) => IsGroupParity(item, id, stream);
      var items, bytes, gone := EraseWhere(f);
      dropped := items != 0;
    }

    // ---- backlog trimming ----------------------------------------------------------------

    method FindGroup(groups: seq<GroupInfo>, id: nat) returns (i: nat)
      ensures i <= |groups| && (i < |groups| ==> groups[i].groupId == id)
      ensures forall j :: 0 <= j < i ==> groups[j].groupId != id
    {
      i := 0;
      while i < |groups| && groups[i].groupId != id
        invariant i <= |groups| && forall j :: 0 <= j < i ==> groups[j].groupId != id
      {
        i := i + 1;
      }
    }

    method CollectVideoGroups() returns (groups: seq<GroupInfo>)
      ensures groups == Collect(queue)
    {
      groups := [];
      for n := 0 to |queue|
        invariant groups == Collect(queue[..n])
      {
        var item := queue[n];
        assert queue[..n + 1][..n] == queue[..n];
        if item.stream == Video {
          var i := FindGroup(groups, item.groupId);
          MergeAt(groups, item.groupId, item.isKeyframe, i);
          if i == |groups| {
            groups := groups + [GroupInfo(item.groupId, item.isKeyframe)];
          } else {
            groups := groups[i := GroupInfo(item.groupId, groups[i].isKeyframe || item.isKeyframe)];
          }
        }
      }
      assert queue[..|queue|] == queue;
    }

    /** The two searches of a trim turn; |groups| when nothing may be dropped. */
    method FindVictim(groups: seq<GroupInfo>, newest: nat) returns (i: nat)
      ensures i <= |groups|
      ensures i < |groups| ==> IsVictim(groups, newest, protectedGroup, i)
      ensures i == |groups| ==> forall j :: 0 <= j < |groups| ==> !Eligible(groups[j], newest, protectedGroup)
    {
      i := 0;
      while i < |groups| && !(Eligible(groups[i], newest, protectedGroup) && !groups[i].isKeyframe)
        invariant i <= |groups|
        invariant forall j :: 0 <= j < i ==> !(Eligible(groups[j], newest, protectedGroup) && !groups[j].isKeyframe)
      {
        i := i + 1;
      }
      if i == |groups| {
        i := 0;
        while i < |groups| && !Eligible(groups[i], newest, protectedGroup)
          invariant i <= |groups|
          invariant forall j :: 0 <= j < i ==> !Eligible(groups[j], newest, protectedGroup)
        {
          i := i + 1;
        }
      }
    }

    /** Everything a drop leaves alone. */
    twostate predicate Settled()
      reads this
    {
      unchanged(`protectedGroup, `maxPackets, `maxBytes, `running, `accepted, `taken, `cleared)
    }

    method DropEligible(groups: seq<GroupInfo>, newest: nat)
      requires Valid() && groups == Collect(queue)
      modifies this
      ensures Valid() && Settled()
      ensures queue == DropAll(old(queue), EligibleGroups(groups, newest, protectedGroup))
      ensures |groupDrops| == |old(groupDrops)| + |EligibleGroups(groups, newest, protectedGroup)|
    {
      hide Collect, WithoutGroup, SendQueue.Sound, SendQueue.CountersExact, DropAll, EligibleGroups;
      EligibleStart(queue, groups, newest, protectedGroup);
      for n := 0 to |groups|
        invariant Valid() && Settled()
        invariant queue == DropAll(old(queue), EligibleGroups(groups[..n], newest, protectedGroup))
        invariant |groupDrops| == |old(groupDrops)| + |EligibleGroups(groups[..n], newest, protectedGroup)|
      {
        EligibleStep(old(queue), groups, n, newest, protectedGroup);
        if Eligible(groups[n], newest, protectedGroup) {
          DropGroup(groups[n].groupId, Video);
        }
      }
      assert groups[..|groups|] == groups;
    }

    method DropRanked(groups0: seq<GroupInfo>, newest: nat)
      requires Valid() && groups0 == Collect(queue) && |groups0| > MAX_QUEUED_VIDEO_GROUPS
      modifies this
      ensures Valid() && Settled()
      ensures var r := Ranking(groups0, newest, protectedGroup);
              var m := |groups0| - MAX_QUEUED_VIDEO_GROUPS;
              m <= |r| && queue == DropAll(old(queue), r[..m]) && |groupDrops| == |old(groupDrops)| + m
    {
      hide Collect, WithoutGroup, SendQueue.Sound, SendQueue.CountersExact, DropAll, Ranking;
      var groups := groups0;
      ghost var r := Ranking(groups0, newest, protectedGroup);
      ghost var m: nat := 0;
      CollectIds(queue);
      CandidateExists(groups, newest, protectedGroup);
      DropAllNothing(queue, r);
      while |groups| > MAX_QUEUED_VIDEO_GROUPS
        invariant Valid() && Settled()
        invariant groups == Collect(queue) && |groups| == |groups0| - m >= MAX_QUEUED_VIDEO_GROUPS
        invariant m <= |r| && Ranking(groups, newest, protectedGroup) == r[m..]
        invariant queue == DropAll(old(queue), r[..m])
        invariant |groupDrops| == |old(groupDrops)| + m
        decreases |groups|
      {
        CollectIds(queue);
        CandidateExists(groups, newest, protectedGroup);
        var i := FindVictim(groups, newest);
        if i == |groups| {
          NoCandidates(groups, newest, protectedGroup);
          return;
        }
        RankedTurn(old(queue), queue, groups, newest, protectedGroup, i, r, m);
        DropGroup(groups[i].groupId, Video);
        groups := CollectVideoGroups();
        m := m + 1;
      }
    }

    /** trimVideoBacklogLocked: the loop gives up groups in ranking order until four are left. */
    method TrimVideoBacklog(newest: nat)
      requires Valid() && HasId(Collect(queue), newest)
      modifies this
      ensures Valid() && Settled()
      ensures queue == Trimmed(old(queue), newest, protectedGroup)
      ensures |groupDrops| == |old(groupDrops)| + |Dropped(old(queue), newest, protectedGroup)|
    {
      hide Collect, WithoutGroup, SendQueue.Sound, SendQueue.CountersExact, Ranking;
      var groups := CollectVideoGroups();
      if |groups| <= MAX_QUEUED_VIDEO_GROUPS {
        return;
      }
      var n := FindGroup(groups, newest);
      CollectIds(queue);
      NewestIsKeyframe(groups, newest, n);
      if n < |groups| && groups[n].isKeyframe {
        DropEligible(groups, newest);
        return;
      }
      DropRanked(groups, newest);
    }

    // ---- capacity eviction ---------------------------------------------------------------

    /** std::find_if over the queue. */
    method FindItem(f: QueueItem -> bool) returns (i: nat)
      ensures i <= |queue| && (i < |queue| ==> f(queue[i]))
      ensures forall j :: 0 <= j < i ==> !f(queue[j])
      ensures i == |queue| ==> forall item :: item in queue ==> !f(item)
    {
      i := 0;
      while i < |queue| && !f(queue[i])
        invariant i <= |queue| && forall j :: 0 <= j < i ==> !f(queue[j])
      {
        i := i + 1;
      }
    }

    /** Parity of the oldest unprotected non-keyframe group that has any, else of the oldest keyframe group. */
    method DropOldestVideoParity(ghost before: seq<QueueItem>) returns (dropped: bool)
      requires Valid() && EvictedInOrder(before, queue, protectedGroup)
      modifies this`queue, this`queueBytes, this`evicted
      ensures Valid() && EvictedInOrder(before, queue, protectedGroup)
      ensures queue == ParityEvicted(old(queue), protectedGroup)
      ensures dropped <==> |queue| < |old(queue)|
      ensures !dropped ==> queue == old(queue)
      ensures !dropped && ParityIsDatagram(queue) ==> NoParityLeft(queue, protectedGroup)
    {
      hide SendQueue.Sound, SendQueue.CountersExact, EvictedInOrder, ParityVictim, IsParity, IsProtected;
      var i := FindParityVictim();
      if i == |queue| {
        return false;
      }
      EvictParity(before, queue, protectedGroup, queue[i]);
      UnprotectedGroup(queue[i], protectedGroup);
      dropped := DropParityForGroup(queue[i].groupId, queue[i].stream);
    }

    method FindParityVictim() returns (i: nat)
      ensures i == ParityVictim(queue, protectedGroup) && i <= |queue|
      ensures i < |queue| ==> IsParity(queue[i]) && !IsProtected(queue[i], protectedGroup) && queue[i].stream == Video
      ensures i == |queue| ==> NoParityLeft(queue, protectedGroup)
    {
      var group := protectedGroup;
      i := FindItem((item: QueueItem) => IsParity(item) && !item.isKeyframe && !IsProtected(item, group));
      if i == |queue| {
        i := FindItem((item: QueueItem) => IsParity(item) && !IsProtected(item, group));
      }
    }

    /** The group of the oldest unprotected non-keyframe video item, else video item, else any item. */
    method DropOldestGroup(ghost before: seq<QueueItem>) returns (dropped: bool)
      requires Valid() && EvictedInOrder(before, queue, protectedGroup)
      requires ParityIsDatagram(queue) ==> NoParityLeft(queue, protectedGroup)
      modifies this
      ensures Valid() && Settled() && EvictedInOrder(before, queue, protectedGroup)
      ensures queue == GroupEvicted(old(queue), protectedGroup)
      ensures dropped <==> |queue| < |old(queue)|
      ensures !dropped ==> queue == old(queue) && forall item :: item in queue ==> IsProtected(item, protectedGroup)
    {
      hide SendQueue.Sound, SendQueue.CountersExact, EvictedInOrder, GroupVictim, IsParity, IsProtected, NoParityLeft;
      if queue == [] {
        NothingToEvict(queue, protectedGroup);
        return false;
      }
      var i := FindGroupVictim();
      if i == |queue| {
        return false;
      }
      EvictGroup(before, queue, protectedGroup, queue[i]);
      UnprotectedGroup(queue[i], protectedGroup);
      DropGroup(queue[i].groupId, queue[i].stream);
      dropped := true;
    }

    method FindGroupVictim() returns (i: nat)
      ensures i == GroupVictim(queue, protectedGroup) && i <= |queue|
      ensures i < |queue| ==> !IsProtected(queue[i], protectedGroup)
      ensures i < |queue| && queue[i].stream != Video ==>
        forall item :: item in queue && item.stream == Video ==> IsProtected(item, protectedGroup)
      ensures i == |queue| ==> forall item :: item in queue ==> IsProtected(item, protectedGroup)
    {
      var group := protectedGroup;
      i := FindItem((item: QueueItem) => item.stream == Video && !item.isKeyframe && !IsProtected(item, group));
      if i == |queue| {
        i := FindItem((item: QueueItem) => item.stream == Video && !IsProtected(item, group));
        if i == |queue| {
          i := FindItem((item: QueueItem) => !IsProtected(item, group));
        }
      }
    }

    /** enforceLimitsLocked: every turn shrinks the queue, so the loop ends. */
    method EnforceLimits()
      requires Valid()
      modifies this
      ensures Valid() && Settled()
      ensures Enforced(old(queue), queue, protectedGroup, maxPackets, maxBytes)
      ensures queue == Evicted(old(queue), protectedGroup, maxPackets, maxBytes)
      ensures ((maxPackets == 0 || |queue| <= maxPackets) && (maxBytes == 0 || queueBytes <= maxBytes))
              || forall item :: item in queue ==> IsProtected(item, protectedGroup)
      ensures (maxPackets == 0 || |old(queue)| <= maxPackets) && (maxBytes == 0 || old(queueBytes) <= maxBytes) ==>
        queue == old(queue)
    {
      hide SendQueue.Sound, SendQueue.CountersExact, EvictedInOrder, Evicted, ParityEvicted, GroupEvicted, Charges;
      CounterIsCharges();
      EvictNothing(queue, protectedGroup);
      var stuck := false;
      while !stuck && queue != []
        && ((maxPackets > 0 && |queue| > maxPackets) || (maxBytes > 0 && queueBytes > maxBytes))
        invariant Valid() && Settled() && queueBytes == Charges(queue)
        invariant EvictedInOrder(old(queue), queue, protectedGroup)
        invariant stuck ==> forall item :: item in queue ==> IsProtected(item, protectedGroup)
        invariant WithinLimits(old(queue), maxPackets, maxBytes) ==> queue == old(queue)
        invariant Evicted(queue, protectedGroup, maxPackets, maxBytes)
             == Evicted(old(queue), protectedGroup, maxPackets, maxBytes)
        decreases |queue|, !stuck
      {
        ghost var was := queue;
        var dropped := DropOldestVideoParity(old(queue));
        if !dropped {
          dropped := DropOldestGroup(old(queue));
          stuck := !dropped;
        }
        CounterIsCharges();
        if !stuck {
          EvictionGoesOn(was, protectedGroup, maxPackets, maxBytes);
        }
      }
      ChargesNothing();
      if stuck {
        NothingToEvict(queue, protectedGroup);
      }
      EvictionStops(queue, protectedGroup, maxPackets, maxBytes);
      assert WithinLimits(queue, maxPackets, maxBytes) || forall item :: item in queue ==>
        IsProtected(item, protectedGroup);
    }

    lemma CounterIsCharges()
      requires Sound()
      ensures queueBytes == Charges(queue)
    {}

    lemma QueueBytesExact()
      requires Sound()
      ensures queueBytes == Charges(queue) == WireBytes(Only(queue, (item: QueueItem) => item.kind == Datagram))
    {
      ChargesAreWireBytes(queue);
    }

    // ---- producers -----------------------------------------------------------------------

    method AppendItem(item: QueueItem)
      requires Sound()
      modifies `queue, `queueBytes, `accepted
      ensures Sound()
      ensures queue == old(queue) + [Normalized(item)] && accepted == old(accepted) + multiset{Normalized(item)}
    {
      hide Balanced, PrioritiesInRange, Charges;
      AppendOne(accepted, queue, Normalized(item), evicted, taken, cleared);
      if item.kind == Datagram {
        queueBytes := queueBytes + item.wireBytes;
      }
      accepted := accepted + multiset{Normalized(item)};
      queue := queue + [item.(priority := NormalizePriority(item.priority))];
    }

    method PrependItem(item: QueueItem)
      requires Sound()
      modifies `queue, `queueBytes, `accepted
      ensures Sound()
      ensures queue == [Normalized(item)] + old(queue) && accepted == old(accepted) + multiset{Normalized(item)}
    {
      hide Balanced, PrioritiesInRange, Charges;
      PrependOne(accepted, queue, Normalized(item), evicted, taken, cleared);
      if item.kind == Datagram {
        queueBytes := queueBytes + item.wireBytes;
      }
      accepted := accepted + multiset{Normalized(item)};
      queue := [item.(priority := NormalizePriority(item.priority))] + queue;
    }

    /** Appends normalized items and charges them; the caller trims and enforces. */
    method Append(items: seq<QueueItem>) returns (newest: Option<nat>)
      requires Valid() && running
      modifies `queue, `queueBytes, `accepted
      ensures Valid()
      ensures queue == old(queue) + AllNormalized(items)
      ensures accepted == old(accepted) + Bag(AllNormalized(items))
      ensures newest == LastGroupEnd(items)
    {
      hide LastGroupEnd, Bag, SendQueue.CountersExact, SendQueue.Sound;
      newest := None;
      AppendStart(items);
      BagStart(accepted, AllNormalized(items));
      for n := 0 to |items|
        invariant Sound() && queue == old(queue) + AllNormalized(items)[..n]
        invariant accepted == old(accepted) + Bag(AllNormalized(items)[..n])
        invariant newest == LastGroupEnd(items[..n])
      {
        LastGroupEndStep(items, n);
        BagSnoc(old(accepted), AllNormalized(items), n);
        AppendItem(items[n]);
        if items[n].stream == Video && items[n].kind == GroupEnd {
          newest := Some(items[n].groupId);
        }
      }
      assert items[..|items|] == items;
      assert AllNormalized(items)[..|items|] == AllNormalized(items);
    }

    method PushBatch(items: seq<QueueItem>)
      requires Valid()
      modifies this
      ensures Valid() && unchanged(`protectedGroup, `maxPackets, `maxBytes, `running, `taken, `cleared)
      ensures !running || items == [] ==> unchanged(this)
      ensures running ==> accepted == old(accepted) + Bag(AllNormalized(items))
      ensures running && items != [] ==>
        && Enforced(Backlog(old(queue), items, protectedGroup), queue, protectedGroup, maxPackets, maxBytes)
        && queue == Evicted(Backlog(old(queue), items, protectedGroup), protectedGroup, maxPackets, maxBytes)
    {
      hide SendQueue.Sound, SendQueue.CountersExact, Enforced, Evicted, Collect, Trimmed, LastGroupEnd, Bag;
      BagOfNothing(accepted, AllNormalized(items));
      if items == [] || !running {
        return;
      }
      var newest := Append(items);
      if newest.Some? {
        NewestIsQueued(old(queue), items);
        TrimVideoBacklog(newest.value);
      }
      EnforceLimits();
    }

    /** A single push is a batch of one. */
    method Push(item: QueueItem)
      requires Valid()
      modifies this
      ensures Valid() && unchanged(`protectedGroup, `maxPackets, `maxBytes, `running, `taken, `cleared)
      ensures !running ==> unchanged(this)
      ensures running ==> accepted == old(accepted) + Bag([Normalized(item)])
      ensures running ==>
        && Enforced(Backlog(old(queue), [item], protectedGroup), queue, protectedGroup, maxPackets, maxBytes)
        && queue == Evicted(Backlog(old(queue), [item], protectedGroup), protectedGroup, maxPackets, maxBytes)
    {
      hide SendQueue.Sound, SendQueue.CountersExact, Enforced, Evicted, Backlog, Bag;
      assert AllNormalized([item]) == [Normalized(item)];
      PushBatch([item]);
    }

    method RequeueFront(item: QueueItem)
      requires Valid()
      modifies `queue, `queueBytes, `accepted
      ensures Valid()
      ensures !running ==> unchanged(this)
      ensures running ==>
        queue == [Normalized(item)] + old(queue) && accepted == old(accepted) + multiset{Normalized(item)}
    {
      hide SendQueue.Sound, SendQueue.CountersExact;
      if running {
        PrependItem(item);
      }
    }

    // ---- consumers -----------------------------------------------------------------------

    /** selectPrioritizedLocked: one search per priority level. */
    method SelectPrioritized() returns (i: nat)
      requires queue != []
      ensures IsNext(queue, i)
    {
      i := |queue|;
      var priority := 0;
      while i == |queue|
        invariant i <= |queue| && priority <= LOWEST_PRIORITY + 1
        invariant forall j :: 0 <= j < |queue| ==>
          NormalizePriority(queue[j].priority) >= (if i < |queue| then priority - 1 else priority)
        invariant i < |queue| ==> IsNext(queue, i)
        invariant priority == LOWEST_PRIORITY + 1 ==> i < |queue|
        decreases LOWEST_PRIORITY + 1 - priority
      {
        i := FindItem((item: QueueItem) => NormalizePriority(item.priority) == priority);
        if i == |queue| {
          NoneOfPriority(queue, priority);
        }
        priority := priority + 1;
      }
    }

    method RemoveItem(i: nat) returns (item: QueueItem)
      requires Valid() && i < |queue|
      modifies `queue, `queueBytes, `taken
      ensures Valid()
      ensures item == old(queue)[i] && queue == old(queue)[..i] + old(queue)[i + 1..]
      ensures taken == old(taken) + multiset{item}
    {
      hide Balanced, PrioritiesInRange, Charges, SendQueue.CountersExact;
      item := queue[i];
      ChargesRemove(queue, i);
      EvictOne(accepted, queue, i, evicted, taken, cleared);
      if item.kind == Datagram {
        queueBytes := SaturatingSub(queueBytes, item.wireBytes);
      }
      taken := taken + multiset{item};
      queue := queue[..i] + queue[i + 1..];
    }

    /** The plain pop takes the front, whatever its priority. */
    method Pop() returns (out: Option<QueueItem>)
      requires Valid()
      modifies `queue, `queueBytes, `taken
      ensures Valid()
      ensures out.Some? <==> running && old(queue) != []
      ensures out.None? ==> unchanged(this)
      ensures out.Some? ==> old(queue) == [out.value] + queue && taken == old(taken) + multiset{out.value}
    {
      hide SendQueue.Sound, SendQueue.CountersExact;
      if !running || queue == [] {
        return None;
      }
      var item := RemoveItem(0);
      out := Some(item);
    }

    /** Takes the oldest item of the most urgent lane. */
    method PopPrioritized() returns (out: Option<QueueItem>)
      requires Valid()
      modifies `queue, `queueBytes, `taken
      ensures Valid()
      ensures out.Some? <==> running && old(queue) != []
      ensures out.None? ==> unchanged(this)
      ensures out.Some? ==>
        && taken == old(taken) + multiset{out.value}
        && exists i: nat ::
             && IsNext(old(queue), i) && out.value == old(queue)[i]
             && queue == old(queue)[..i] + old(queue)[i + 1..]
    {
      hide SendQueue.Sound, SendQueue.CountersExact;
      if !running || queue == [] {
        return None;
      }
      var i := SelectPrioritized();
      var item := RemoveItem(i);
      out := Some(item);
    }

    /** Looks at the item the next PopPrioritized would take. */
    method PeekPrioritized() returns (out: Option<QueueItem>)
      ensures out.Some? <==> running && queue != []
      ensures out.Some? ==> exists i: nat :: IsNext(queue, i) && out.value == Normalized(queue[i])
    {
      if !running || queue == [] {
        return None;
      }
      var i := SelectPrioritized();
      out := Some(Normalized(queue[i]));
    }

    // ---- control -------------------------------------------------------------------------

    method SetLimits(packets: nat, bytes: nat)
      requires Valid()
      modifies `maxPackets, `maxBytes
      ensures Valid() && maxPackets == packets && maxBytes == bytes
    {
      maxPackets, maxBytes := packets, bytes;
    }

    method SetProtectedVideoGroup(id: nat)
      requires Valid()
      modifies `protectedGroup
      ensures Valid() && protectedGroup == id
    {
      protectedGroup := id;
    }

    method ClearProtectedVideoGroup(id: nat)
      requires Valid()
      modifies `protectedGroup
      ensures Valid()
      ensures protectedGroup == if old(protectedGroup) == id then NO_PROTECTED_GROUP else old(protectedGroup)
    {
      if protectedGroup == id {
        protectedGroup := NO_PROTECTED_GROUP;
      }
    }

    method Clear()
      requires Valid()
      modifies `queue, `queueBytes, `protectedGroup, `cleared
      ensures Valid() && queue == [] && protectedGroup == NO_PROTECTED_GROUP
      ensures cleared == old(cleared) + multiset(old(queue))
    {
      hide Balanced, PrioritiesInRange, Charges, SendQueue.CountersExact;
      ClearAll(accepted, queue, evicted, taken, cleared);
      cleared := cleared + multiset(queue);
      queue, queueBytes := [], 0;
      protectedGroup := NO_PROTECTED_GROUP;
    }

    method Stop()
      requires Valid()
      modifies `running, `queue, `queueBytes, `protectedGroup, `cleared
      ensures Valid() && !running && queue == [] && protectedGroup == NO_PROTECTED_GROUP
      ensures cleared == old(cleared) + multiset(old(queue))
    {
      Clear();
      running := false;
    }

    /** Reports each lane's length and bytes, and the oldest stamped enqueue time. */
    method GetStatus() returns (r: Status)
      requires Valid()
      ensures r.packets == |queue| && r.bytes == Charges(queue) && LanesOf(queue, r)
      ensures r.oldestEnqueueSteadyUs == 0 <==> forall item :: item in queue ==> item.enqueueSteadyUs == 0
      ensures r.oldestEnqueueSteadyUs > 0 ==>
        exists item :: item in queue && item.enqueueSteadyUs == r.oldestEnqueueSteadyUs
      ensures forall item :: item in queue && item.enqueueSteadyUs > 0 ==>
        r.oldestEnqueueSteadyUs <= item.enqueueSteadyUs
    {
      hide Balanced, SendQueue.CountersExact, Charges, Lane;
      r := Status(|queue|, queueBytes, 0, [0, 0, 0, 0, 0], [0, 0, 0, 0, 0]);
      NothingInLanes(queue, r);
      for n := 0 to |queue|
        invariant r.packets == |queue| && r.bytes == queueBytes && LanesOf(queue[..n], r)
        invariant r.oldestEnqueueSteadyUs == 0 <==> forall i :: 0 <= i < n ==> queue[i].enqueueSteadyUs == 0
        invariant r.oldestEnqueueSteadyUs > 0 ==>
          exists i :: 0 <= i < n && queue[i].enqueueSteadyUs == r.oldestEnqueueSteadyUs
        invariant forall i :: 0 <= i < n && queue[i].enqueueSteadyUs > 0 ==>
          r.oldestEnqueueSteadyUs <= queue[i].enqueueSteadyUs
      {
        var item := queue[n];
        if item.enqueueSteadyUs > 0
          && (r.oldestEnqueueSteadyUs == 0 || item.enqueueSteadyUs < r.oldestEnqueueSteadyUs) {
          r := r.(oldestEnqueueSteadyUs := item.enqueueSteadyUs);
        }
        ghost var before := r;
        var p := NormalizePriority(item.priority);
        r := r.(priorityPackets := r.priorityPackets[p := r.priorityPackets[p] + 1]);
        if item.kind == Datagram {
          r := r.(priorityBytes := r.priorityBytes[p := r.priorityBytes[p] + item.wireBytes]);
        }
        LanesStep(queue, n, before, r);
      }
      assert queue[..|queue|] == queue;
    }

    /** Reports and resets the drop counters: they cover exactly the group drops since the last snapshot. */
    method TakeSnapshot() returns (r: Snapshot)
      requires Valid()
      modifies `droppedVideoGroups, `droppedVideoPackets, `droppedVideoBytes, `groupDrops
      ensures Valid() && groupDrops == []
      ensures var lost := Flat(old(groupDrops));
              r == Snapshot(|queue|, queueBytes, |old(groupDrops)|, |lost|, Charges(lost))
    {
      FlatTotals(groupDrops);
      hide Balanced, PrioritiesInRange, Charges;
      r := Snapshot(|queue|, queueBytes, droppedVideoGroups, droppedVideoPackets, droppedVideoBytes);
      droppedVideoGroups, droppedVideoPackets, droppedVideoBytes := 0, 0, 0;
      groupDrops := [];
    }
  }

  lemma NoneOfPriority(q: seq<QueueItem>, priority: nat)
    requires q != [] && forall j :: 0 <= j < |q| ==> NormalizePriority(q[j].priority) >= priority
    requires forall j :: 0 <= j < |q| ==> NormalizePriority(q[j].priority) != priority
    ensures priority < LOWEST_PRIORITY && forall j :: 0 <= j < |q| ==> NormalizePriority(q[j].priority) >= priority + 1
  {
    assert NormalizePriority(q[0].priority) > priority;
  }

  /** The guarded subtraction of the byte counter. */
  function SaturatingSub(a: nat, b: nat): nat {
    if a >= b then a - b else 0
  }

  predicate IsGroupParity(item: QueueItem, id: nat, stream: Stream) {
    InGroup(item, id, stream) && item.kind == Datagram && item.isFecParity
  }

  function GroupItems(q: seq<QueueItem>, id: nat, stream: Stream): seq<QueueItem> {
    Only(q, (item: QueueItem) => InGroup(item, id, stream))
  }

  function WithoutParity(q: seq<QueueItem>, id: nat, stream: Stream): seq<QueueItem> {
    Without(q, (item: QueueItem) => IsGroupParity(item, id, stream))
  }

  /** The items of all drops. */
  function Flat(drops: seq<seq<QueueItem>>): seq<QueueItem> {
    if |drops| == 0 then [] else Flat(drops[..|drops| - 1]) + drops[|drops| - 1]
  }

  lemma {:induction false} FlatTotals(drops: seq<seq<QueueItem>>)
    ensures TotalLength(drops) == |Flat(drops)| && TotalCharge(drops) == Charges(Flat(drops))
    decreases |drops|
  {
    if |drops| > 0 {
      FlatTotals(drops[..|drops| - 1]);
      ChargesConcat(Flat(drops[..|drops| - 1]), drops[|drops| - 1]);
      hide Charges;
    }
  }

  function TotalLength(drops: seq<seq<QueueItem>>): nat {
    if |drops| == 0 then 0 else TotalLength(drops[..|drops| - 1]) + |drops[|drops| - 1]|
  }

  function TotalCharge(drops: seq<seq<QueueItem>>): nat {
    if |drops| == 0 then 0 else TotalCharge(drops[..|drops| - 1]) + Charges(drops[|drops| - 1])
  }
}
