/**
 The video groups of a send queue, oldest first, and which of them a backlog trim gives up
 (src/udp/send_queue.cpp, trimVideoBacklogLocked).
 */
module VideoGroups {
  import opened SendQueueSpec
  import opened Subsequences

  datatype GroupInfo = GroupInfo(groupId: nat, isKeyframe: bool)

  /** Accounts for one more item: a new group goes to the back, a known one may become a keyframe. */
  function Merge(groups: seq<GroupInfo>, id: nat, key: bool): seq<GroupInfo>
    decreases |groups|
  {
    if |groups| == 0 then [GroupInfo(id, key)]
    else if groups[0].groupId == id then [GroupInfo(id, groups[0].isKeyframe || key)] + groups[1..]
    else [groups[0]] + Merge(groups[1..], id, key)
  }

  /** The groups of the video items, in order of first appearance. */
  function Collect(q: seq<QueueItem>): seq<GroupInfo> {
    if |q| == 0 then []
    else
      var groups, item := Collect(q[..|q| - 1]), q[|q| - 1];
      if item.stream == Video then Merge(groups, item.groupId, item.isKeyframe) else groups
  }

  predicate InGroup(item: QueueItem, id: nat, stream: Stream) {
    item.groupId == id && item.stream == stream
  }

  function WithoutGroup(q: seq<QueueItem>, id: nat, stream: Stream): seq<QueueItem> {
    Without(q, (item: QueueItem) => InGroup(item, id, stream))
  }

  function WithoutInfo(groups: seq<GroupInfo>, id: nat): seq<GroupInfo> {
    Without(groups, (g: GroupInfo) => g.groupId == id)
  }

  ghost predicate DistinctIds(groups: seq<GroupInfo>) {
    forall i, j :: 0 <= i < j < |groups| ==> groups[i].groupId != groups[j].groupId
  }

  ghost predicate HasId(groups: seq<GroupInfo>, id: nat) {
    exists i :: 0 <= i < |groups| && groups[i].groupId == id
  }

  lemma {:induction false} MergeIds(groups: seq<GroupInfo>, id: nat, key: bool)
    requires DistinctIds(groups)
    ensures DistinctIds(Merge(groups, id, key))
    ensures forall x :: HasId(Merge(groups, id, key), x) <==> HasId(groups, x) || x == id
    decreases |groups|
  {
    var merged := Merge(groups, id, key);
    if |groups| == 0 {
      assert merged[0].groupId == id;
    } else if groups[0].groupId == id {
      assert |merged| == |groups| && forall i :: 0 <= i < |groups| ==> merged[i].groupId == groups[i].groupId;
    } else {
      var t := groups[1..];
      var mt := Merge(t, id, key);
      MergeIds(t, id, key);
      assert !HasId(t, groups[0].groupId);
      forall i | 0 <= i < |mt| ensures mt[i].groupId != groups[0].groupId {
        assert HasId(mt, mt[i].groupId);
      }
      forall x ensures HasId(merged, x) <==> HasId(groups, x) || x == id {
        assert HasId(merged, x) <==> groups[0].groupId == x || HasId(mt, x) by {
          assert forall i :: 0 <= i < |mt| ==> merged[i + 1] == mt[i];
          assert merged[0] == groups[0];
        }
        assert HasId(groups, x) <==> groups[0].groupId == x || HasId(t, x) by {
          assert forall i :: 0 <= i < |t| ==> groups[i + 1] == t[i];
        }
      }
    }
  }

  /** Every video group is listed once, and only video groups are. */
  lemma {:induction false} CollectIds(q: seq<QueueItem>)
    ensures DistinctIds(Collect(q))
    ensures forall id :: HasId(Collect(q), id) <==> exists i :: 0 <= i < |q| && InGroup(q[i], id, Video)
  {
    if |q| > 0 {
      var t, last := q[..|q| - 1], q[|q| - 1];
      CollectIds(t);
      if last.stream == Video {
        MergeIds(Collect(t), last.groupId, last.isKeyframe);
      }
      forall id ensures HasId(Collect(q), id) <==> exists i :: 0 <= i < |q| && InGroup(q[i], id, Video) {
        assert (exists i :: 0 <= i < |q| && InGroup(q[i], id, Video))
          <==> (exists i :: 0 <= i < |t| && InGroup(t[i], id, Video)) || InGroup(last, id, Video) by {
          assert forall i :: 0 <= i < |t| ==> q[i] == t[i];
        }
      }
    }
  }

  ghost predicate KeyGroup(q: seq<QueueItem>, id: nat) {
    exists i :: 0 <= i < |q| && InGroup(q[i], id, Video) && q[i].isKeyframe
  }

  lemma {:induction false} MergeKeys(groups: seq<GroupInfo>, id: nat, key: bool, x: GroupInfo)
    requires DistinctIds(groups) && x in Merge(groups, id, key)
    ensures x.groupId != id ==> x in groups
    ensures x.groupId == id ==> (x.isKeyframe <==> key || GroupInfo(id, true) in groups)
    decreases |groups|
  {
    if |groups| == 0 {
    } else if groups[0].groupId == id {
    } else {
      var t := groups[1..];
      if x in Merge(t, id, key) {
        MergeKeys(t, id, key, x);
        assert GroupInfo(id, true) in groups <==> GroupInfo(id, true) in t;
      } else {
        assert x == groups[0];
      }
    }
  }

  lemma {:induction false} CollectKeys(q: seq<QueueItem>, x: GroupInfo)
    requires x in Collect(q)
    ensures x.isKeyframe <==> KeyGroup(q, x.groupId)
  {
    var t, last := q[..|q| - 1], q[|q| - 1];
    var id := x.groupId;
    CollectIds(t);
    assert KeyGroup(q, id) <==> KeyGroup(t, id) || (InGroup(last, id, Video) && last.isKeyframe) by {
      assert forall i :: 0 <= i < |t| ==> q[i] == t[i];
    }
    if last.stream != Video {
      CollectKeys(t, x);
    } else {
      MergeKeys(Collect(t), last.groupId, last.isKeyframe, x);
      if id != last.groupId {
        CollectKeys(t, x);
      } else if GroupInfo(id, true) in Collect(t) {
        CollectKeys(t, GroupInfo(id, true));
      } else if KeyGroup(t, id) {
        var k :| 0 <= k < |t| && InGroup(t[k], id, Video) && t[k].isKeyframe;
        assert HasId(Collect(t), id);
        var j :| 0 <= j < |Collect(t)| && Collect(t)[j].groupId == id;
        CollectKeys(t, Collect(t)[j]);
      }
    }
  }

  lemma {:induction false} MergeWithout(groups: seq<GroupInfo>, id: nat, key: bool, gone: nat)
    ensures WithoutInfo(Merge(groups, id, key), gone)
         == if id == gone then WithoutInfo(groups, gone) else Merge(WithoutInfo(groups, gone), id, key)
    decreases |groups|
  {
    var f := (g: GroupInfo) => g.groupId == gone;
    if |groups| == 0 {
      WithoutOne(GroupInfo(id, key), gone);
    } else {
      var h, t := groups[0], groups[1..];
      assert groups == [h] + t;
      WithoutConcat([h], t, f);
      WithoutOne(h, gone);
      if h.groupId == id {
        var h' := GroupInfo(id, h.isKeyframe || key);
        WithoutConcat([h'], t, f);
        WithoutOne(h', gone);
        if id != gone {
          assert ([h] + WithoutInfo(t, gone))[1..] == WithoutInfo(t, gone);
        }
      } else {
        MergeWithout(t, id, key, gone);
        WithoutConcat([h], Merge(t, id, key), f);
        assert [] + WithoutInfo(Merge(t, id, key), gone) == WithoutInfo(Merge(t, id, key), gone);
        assert [] + WithoutInfo(t, gone) == WithoutInfo(t, gone);
        if h.groupId != gone && id != gone {
          assert ([h] + WithoutInfo(t, gone))[1..] == WithoutInfo(t, gone);
        }
      }
    }
  }

  lemma WithoutOne(g: GroupInfo, gone: nat)
    ensures WithoutInfo([g], gone) == if g.groupId == gone then [] else [g]
  {
    var one := [g];
    assert one[..0] == [];
    assert WithoutInfo(one[..0], gone) == [];
    assert WithoutInfo(one, gone) == WithoutInfo(one[..0], gone) + (if g.groupId == gone then [] else [g]);
  }

  /** Dropping a group from the queue drops exactly its entry from the list of groups. */
  lemma {:induction false} CollectWithoutGroup(q: seq<QueueItem>, id: nat)
    ensures Collect(WithoutGroup(q, id, Video)) == WithoutInfo(Collect(q), id)
  {
    if |q| > 0 {
      var t, last := q[..|q| - 1], q[|q| - 1];
      CollectWithoutGroup(t, id);
      var w := WithoutGroup(t, id, Video);
      if InGroup(last, id, Video) {
        assert WithoutGroup(q, id, Video) == w + [] == w;
        MergeWithout(Collect(t), last.groupId, last.isKeyframe, id);
      } else {
        assert WithoutGroup(q, id, Video) == w + [last];
        assert (w + [last])[..|w|] == w;
        if last.stream == Video {
          MergeWithout(Collect(t), last.groupId, last.isKeyframe, id);
        }
      }
    }
  }

  // ---- the order in which a trim gives groups up -----------------------------------------

  predicate Eligible(g: GroupInfo, newest: nat, protectedGroup: nat) {
    g.groupId != newest && !(protectedGroup != NO_PROTECTED_GROUP && protectedGroup == g.groupId)
  }

  /** The groups a trim may drop, those with (or without) a keyframe, oldest first. */
  function Candidates(groups: seq<GroupInfo>, newest: nat, protectedGroup: nat, key: bool): seq<GroupInfo> {
    Only(groups, (g: GroupInfo) => Eligible(g, newest, protectedGroup) && g.isKeyframe == key)
  }

  /** Non-keyframe groups oldest first, then keyframe groups oldest first. */
  function Ranking(groups: seq<GroupInfo>, newest: nat, protectedGroup: nat): seq<GroupInfo> {
    Candidates(groups, newest, protectedGroup, false) + Candidates(groups, newest, protectedGroup, true)
  }

  lemma DistinctSplit(groups: seq<GroupInfo>, i: nat)
    requires DistinctIds(groups) && i < |groups|
    ensures WithoutInfo(groups, groups[i].groupId) == groups[..i] + groups[i + 1..]
  {
    var id := groups[i].groupId;
    var f := (g: GroupInfo) => g.groupId == id;
    var a, b := groups[..i], groups[i + 1..];
    assert groups == a + ([groups[i]] + b);
    WithoutConcat(a, [groups[i]] + b, f);
    WithoutConcat([groups[i]], b, f);
    WithoutOne(groups[i], id);
    NothingToDrop(a, id);
    NothingToDrop(b, id);
    assert [] + b == b;
  }

  lemma {:induction false} NothingToDrop(groups: seq<GroupInfo>, id: nat)
    requires forall i :: 0 <= i < |groups| ==> groups[i].groupId != id
    ensures WithoutInfo(groups, id) == groups
  {
    if |groups| > 0 {
      NothingToDrop(groups[..|groups| - 1], id);
      assert groups == groups[..|groups| - 1] + [groups[|groups| - 1]];
    }
  }

  lemma {:induction false} NoneMatch<T>(s: seq<T>, f: T -> bool)
    requires forall i :: 0 <= i < |s| ==> !f(s[i])
    ensures Only(s, f) == []
  {
    if |s| > 0 {
      NoneMatch(s[..|s| - 1], f);
    }
  }

  lemma OnlyOne<T>(x: T, f: T -> bool)
    ensures Only([x], f) == if f(x) then [x] else []
  {
    var one := [x];
    assert one[..0] == [];
    assert Only(one[..0], f) == [];
    assert Only(one, f) == Only(one[..0], f) + (if f(x) then [x] else []);
  }

  /** find_if: the first match heads the list of matches, and the rest come after it. */
  lemma FirstMatch<T>(s: seq<T>, f: T -> bool, i: nat)
    requires i < |s| && f(s[i]) && forall j :: 0 <= j < i ==> !f(s[j])
    ensures Only(s, f) == [s[i]] + Only(s[i + 1..], f)
    ensures Only(s[..i] + s[i + 1..], f) == Only(s[i + 1..], f)
  {
    hide Only;
    var a, b := s[..i], s[i + 1..];
    assert s == a + ([s[i]] + b);
    OnlyConcat(a, [s[i]] + b, f);
    OnlyConcat([s[i]], b, f);
    OnlyConcat(a, b, f);
    NoneMatch(a, f);
    OnlyOne(s[i], f);
    assert [] + Only(b, f) == Only(b, f);
    assert [] + Only([s[i]] + b, f) == Only([s[i]] + b, f);
  }

  lemma OtherMatch<T>(s: seq<T>, f: T -> bool, i: nat)
    requires i < |s| && !f(s[i])
    ensures Only(s[..i] + s[i + 1..], f) == Only(s, f)
  {
    hide Only;
    var a, b := s[..i], s[i + 1..];
    assert s == a + ([s[i]] + b);
    OnlyConcat(a, [s[i]] + b, f);
    OnlyConcat([s[i]], b, f);
    OnlyConcat(a, b, f);
    OnlyOne(s[i], f);
    assert [] + Only(b, f) == Only(b, f);
  }

  /** The group a trim turn picks: the first non-keyframe candidate, or failing that the first keyframe one. */
  ghost predicate IsVictim(groups: seq<GroupInfo>, newest: nat, protectedGroup: nat, i: nat) {
    && i < |groups| && Eligible(groups[i], newest, protectedGroup)
    && (groups[i].isKeyframe ==>
          forall j :: 0 <= j < |groups| ==> !(Eligible(groups[j], newest, protectedGroup) && !groups[j].isKeyframe))
    && (forall j :: 0 <= j < i ==>
          !(Eligible(groups[j], newest, protectedGroup) && groups[j].isKeyframe == groups[i].isKeyframe))
  }

  /** Dropping the victim advances the ranking by one. */
  lemma VictimHeadsRanking(groups: seq<GroupInfo>, newest: nat, protectedGroup: nat, i: nat)
    requires DistinctIds(groups) && IsVictim(groups, newest, protectedGroup, i)
    ensures Ranking(groups, newest, protectedGroup)
         == [groups[i]] + Ranking(WithoutInfo(groups, groups[i].groupId), newest, protectedGroup)
  {
    DistinctSplit(groups, i);
    var plain := (g: GroupInfo) => Eligible(g, newest, protectedGroup) && g.isKeyframe == false;
    var keyed := (g: GroupInfo) => Eligible(g, newest, protectedGroup) && g.isKeyframe == true;
    var rest := groups[..i] + groups[i + 1..];
    if groups[i].isKeyframe {
      NoneMatch(groups, plain);
      NoneMatch(rest, plain);
      FirstMatch(groups, keyed, i);
    } else {
      FirstMatch(groups, plain, i);
      OtherMatch(groups, keyed, i);
    }
  }

  lemma {:induction false} CandidateCount(groups: seq<GroupInfo>, newest: nat, protectedGroup: nat)
    requires DistinctIds(groups)
    ensures |groups| <= |Ranking(groups, newest, protectedGroup)|
                        + (if HasId(groups, newest) then 1 else 0)
                        + (if protectedGroup != newest && HasId(groups, protectedGroup) then 1 else 0)
  {
    if |groups| > 0 {
      var t, g := groups[..|groups| - 1], groups[|groups| - 1];
      CandidateCount(t, newest, protectedGroup);
      assert forall x :: HasId(t, x) ==> HasId(groups, x) by {
        assert forall i :: 0 <= i < |t| ==> groups[i] == t[i];
      }
      assert HasId(groups, g.groupId);
      assert !HasId(t, g.groupId);
    }
  }

  /** All groups a trim may drop, oldest first. */
  function EligibleGroups(groups: seq<GroupInfo>, newest: nat, protectedGroup: nat): seq<GroupInfo> {
    Only(groups, (g: GroupInfo) => Eligible(g, newest, protectedGroup))
  }

  /** The groups a trim drops, in the order it drops them. */
  function Dropped(q: seq<QueueItem>, newest: nat, protectedGroup: nat): seq<GroupInfo> {
    var groups := Collect(q);
    var ranking := Ranking(groups, newest, protectedGroup);
    if |groups| <= MAX_QUEUED_VIDEO_GROUPS then []
    else if GroupInfo(newest, true) in groups then EligibleGroups(groups, newest, protectedGroup)
    else if |ranking| >= |groups| - MAX_QUEUED_VIDEO_GROUPS then ranking[..|groups| - MAX_QUEUED_VIDEO_GROUPS]
    else ranking
  }

  /** The queue once the listed groups have been dropped, first to last. */
  function DropAll(q: seq<QueueItem>, groups: seq<GroupInfo>): seq<QueueItem>
    decreases |groups|
  {
    if |groups| == 0 then q else DropAll(WithoutGroup(q, groups[0].groupId, Video), groups[1..])
  }

  /** The queue after trimVideoBacklogLocked. */
  function Trimmed(q: seq<QueueItem>, newest: nat, protectedGroup: nat): seq<QueueItem> {
    DropAll(q, Dropped(q, newest, protectedGroup))
  }

  // ---- what a trim achieves --------------------------------------------------------------

  lemma {:induction false} FirstIndex<T>(s: seq<T>, f: T -> bool) returns (i: nat)
    requires Only(s, f) != []
    ensures i < |s| && f(s[i]) && Only(s, f)[0] == s[i]
    ensures forall j :: 0 <= j < i ==> !f(s[j])
    decreases |s|
  {
    var t := s[..|s| - 1];
    if Only(t, f) != [] {
      i := FirstIndex(t, f);
    } else {
      i := |t|;
      OnlyMembers(t, f);
      forall j | 0 <= j < |t| ensures !f(s[j]) {
        assert t[j] in t;
      }
    }
  }

  /** The head of the ranking is the group the next turn of the loop picks. */
  lemma RankingHead(groups: seq<GroupInfo>, newest: nat, protectedGroup: nat) returns (i: nat)
    requires Ranking(groups, newest, protectedGroup) != []
    ensures IsVictim(groups, newest, protectedGroup, i) && Ranking(groups, newest, protectedGroup)[0] == groups[i]
  {
    var plain := (g: GroupInfo) => Eligible(g, newest, protectedGroup) && g.isKeyframe == false;
    var keyed := (g: GroupInfo) => Eligible(g, newest, protectedGroup) && g.isKeyframe == true;
    if Only(groups, plain) != [] {
      i := FirstIndex(groups, plain);
    } else {
      i := FirstIndex(groups, keyed);
      OnlyMembers(groups, plain);
      forall j | 0 <= j < |groups| ensures !plain(groups[j]) {
        assert groups[j] in groups;
      }
    }
  }

  lemma {:induction false} DropRankedPrefix(q: seq<QueueItem>, newest: nat, protectedGroup: nat, m: nat)
    requires m <= |Ranking(Collect(q), newest, protectedGroup)|
    ensures var r := Ranking(Collect(q), newest, protectedGroup);
            var q' := DropAll(q, r[..m]);
            |Collect(q')| == |Collect(q)| - m && Ranking(Collect(q'), newest, protectedGroup) == r[m..]
    decreases m
  {
    var r := Ranking(Collect(q), newest, protectedGroup);
    hide Collect, Ranking, WithoutGroup;
    if m > 0 {
      var i := RankingHead(Collect(q), newest, protectedGroup);
      var id := r[0].groupId;
      var q1 := WithoutGroup(q, id, Video);
      CollectIds(q);
      CollectWithoutGroup(q, id);
      DistinctSplit(Collect(q), i);
      VictimHeadsRanking(Collect(q), newest, protectedGroup, i);
      var r1 := Ranking(Collect(q1), newest, protectedGroup);
      assert r == [r[0]] + r1;
      DropRankedPrefix(q1, newest, protectedGroup, m - 1);
      assert r[..m][1..] == r1[..m - 1] && r[m..] == r1[m - 1..];
    }
  }

  /** Dropping groups removes exactly their entries. */
  lemma {:induction false} DropAllMembers(q: seq<QueueItem>, groups: seq<GroupInfo>, x: GroupInfo)
    ensures x in Collect(DropAll(q, groups)) <==> x in Collect(q) && !HasId(groups, x.groupId)
    decreases |groups|
  {
    if |groups| > 0 {
      var g, t := groups[0], groups[1..];
      DropAllMembers(WithoutGroup(q, g.groupId, Video), t, x);
      CollectWithoutGroup(q, g.groupId);
      WithoutMembers(Collect(q), (y: GroupInfo) => y.groupId == g.groupId);
      HasIdSplit(groups, x.groupId);
    }
  }

  lemma HasIdSplit(groups: seq<GroupInfo>, id: nat)
    requires |groups| > 0
    ensures HasId(groups, id) <==> groups[0].groupId == id || HasId(groups[1..], id)
  {
    assert forall i :: 0 <= i < |groups| - 1 ==> groups[i + 1] == groups[1..][i];
  }

  lemma {:induction false} DropAllSnoc(q: seq<QueueItem>, groups: seq<GroupInfo>, g: GroupInfo)
    ensures DropAll(q, groups + [g]) == WithoutGroup(DropAll(q, groups), g.groupId, Video)
    decreases |groups|
  {
    if |groups| == 0 {
      assert (groups + [g])[1..] == [];
    } else {
      assert (groups + [g])[1..] == groups[1..] + [g];
      DropAllSnoc(WithoutGroup(q, groups[0].groupId, Video), groups[1..], g);
    }
  }

  lemma {:induction false} WithoutTwice<T>(s: seq<T>, f: T -> bool, g: T -> bool, h: T -> bool)
    requires forall x :: x in s ==> (h(x) <==> f(x) || g(x))
    ensures Without(Without(s, f), g) == Without(s, h)
  {
    if |s| > 0 {
      var t, x := s[..|s| - 1], s[|s| - 1];
      assert s == t + [x];
      WithoutTwice(t, f, g, h);
      WithoutConcat(Without(t, f), if f(x) then [] else [x], g);
      var one := [x];
      assert one[..0] == [];
      assert Without(one, g) == Without(one[..0], g) + (if g(x) then [] else [x]);
    }
  }

  /** A queue item belongs to one of the listed video groups. */
  ghost predicate OfGroups(item: QueueItem, groups: seq<GroupInfo>) {
    item.stream == Video && HasId(groups, item.groupId)
  }

  /** All other items stay, in order. */
  lemma {:induction false} DropAllIsWithout(q: seq<QueueItem>, groups: seq<GroupInfo>)
    ensures DropAll(q, groups) == Without(q, (item: QueueItem) => OfGroups(item, groups))
    decreases |groups|
  {
    if |groups| == 0 {
      WithoutMembers(q, (item: QueueItem) => OfGroups(item, groups));
      NothingLost(q, (item: QueueItem) => OfGroups(item, groups));
    } else {
      var id, t := groups[0].groupId, groups[1..];
      DropAllIsWithout(WithoutGroup(q, id, Video), t);
      forall item: QueueItem
        ensures OfGroups(item, groups) <==> InGroup(item, id, Video) || OfGroups(item, t)
      {
        HasIdSplit(groups, item.groupId);
      }
      WithoutTwice(q, (item: QueueItem) => InGroup(item, id, Video), (item: QueueItem) => OfGroups(item, t),
                   (item: QueueItem) => OfGroups(item, groups));
    }
  }

  lemma {:induction false} NothingLost<T>(s: seq<T>, f: T -> bool)
    requires forall x :: x in s ==> !f(x)
    ensures Without(s, f) == s
  {
    if |s| > 0 {
      NothingLost(s[..|s| - 1], f);
      assert s == s[..|s| - 1] + [s[|s| - 1]];
    }
  }

  lemma DroppedAreEligible(q: seq<QueueItem>, newest: nat, protectedGroup: nat, g: GroupInfo)
    requires g in Dropped(q, newest, protectedGroup)
    ensures Eligible(g, newest, protectedGroup) && g in Collect(q)
  {
    var groups := Collect(q);
    OnlyMembers(groups, (x: GroupInfo) => Eligible(x, newest, protectedGroup));
    OnlyMembers(groups, (x: GroupInfo) => Eligible(x, newest, protectedGroup) && x.isKeyframe == false);
    OnlyMembers(groups, (x: GroupInfo) => Eligible(x, newest, protectedGroup) && x.isKeyframe == true);
  }

  /** A trim never touches the newest group, the protected group, or anything that is not video. */
  lemma TrimSpares(q: seq<QueueItem>, newest: nat, protectedGroup: nat, item: QueueItem)
    requires item in q
    requires item.stream != Video || item.groupId == newest
             || (protectedGroup != NO_PROTECTED_GROUP && item.groupId == protectedGroup)
    ensures item in Trimmed(q, newest, protectedGroup)
  {
    var groups := Dropped(q, newest, protectedGroup);
    DropAllIsWithout(q, groups);
    WithoutMembers(q, (x: QueueItem) => OfGroups(x, groups));
    if OfGroups(item, groups) {
      var i :| 0 <= i < |groups| && groups[i].groupId == item.groupId;
      DroppedAreEligible(q, newest, protectedGroup, groups[i]);
    }
  }

  /** The early return of the drop loop is never taken: more than four groups leave a candidate. */
  lemma CandidateExists(groups: seq<GroupInfo>, newest: nat, protectedGroup: nat)
    requires DistinctIds(groups)
    ensures |Ranking(groups, newest, protectedGroup)| >= |groups| - 2
  {
    CandidateCount(groups, newest, protectedGroup);
  }

  /** After a trim at most four video groups are queued; exactly four when it had to choose. */
  lemma TrimLeavesFour(q: seq<QueueItem>, newest: nat, protectedGroup: nat)
    requires HasId(Collect(q), newest)
    ensures |Collect(Trimmed(q, newest, protectedGroup))| <= MAX_QUEUED_VIDEO_GROUPS
    ensures |Collect(q)| <= MAX_QUEUED_VIDEO_GROUPS ==> Trimmed(q, newest, protectedGroup) == q
    ensures |Collect(q)| > MAX_QUEUED_VIDEO_GROUPS && GroupInfo(newest, true) !in Collect(q) ==>
      |Collect(Trimmed(q, newest, protectedGroup))| == MAX_QUEUED_VIDEO_GROUPS
    ensures |Collect(q)| > MAX_QUEUED_VIDEO_GROUPS && GroupInfo(newest, true) in Collect(q) ==>
      forall x :: x in Collect(Trimmed(q, newest, protectedGroup)) <==>
        x in Collect(q)
          && (x.groupId == newest || (protectedGroup != NO_PROTECTED_GROUP && x.groupId == protectedGroup))
  {
    hide HasId;
    var groups := Collect(q);
    CollectIds(q);
    if |groups| > MAX_QUEUED_VIDEO_GROUPS {
      CandidateExists(groups, newest, protectedGroup);
      if GroupInfo(newest, true) !in groups {
        DropRankedPrefix(q, newest, protectedGroup, |groups| - MAX_QUEUED_VIDEO_GROUPS);
      } else {
        KeyframeTrim(q, newest, protectedGroup);
        AtMostTwo(Collect(Trimmed(q, newest, protectedGroup)), newest, protectedGroup);
      }
    }
  }

  lemma KeyframeTrim(q: seq<QueueItem>, newest: nat, protectedGroup: nat)
    requires |Collect(q)| > MAX_QUEUED_VIDEO_GROUPS && GroupInfo(newest, true) in Collect(q)
    ensures forall x :: x in Collect(Trimmed(q, newest, protectedGroup)) <==>
      x in Collect(q) && !Eligible(x, newest, protectedGroup)
    ensures DistinctIds(Collect(Trimmed(q, newest, protectedGroup)))
  {
    var f := (g: GroupInfo) => Eligible(g, newest, protectedGroup);
    var drop := Only(Collect(q), f);
    assert Dropped(q, newest, protectedGroup) == drop;
    OnlyMembers(Collect(q), f);
    CollectIds(Trimmed(q, newest, protectedGroup));
    forall x ensures x in Collect(Trimmed(q, newest, protectedGroup)) <==>
      x in Collect(q) && !Eligible(x, newest, protectedGroup)
    {
      DropAllMembers(q, drop, x);
      if x in Collect(q) && Eligible(x, newest, protectedGroup) {
        assert x in drop;
        var i :| 0 <= i < |drop| && drop[i] == x;
      }
      if HasId(drop, x.groupId) {
        var i :| 0 <= i < |drop| && drop[i].groupId == x.groupId;
        assert drop[i] in drop;
      }
    }
  }

  lemma AtMostTwo(groups: seq<GroupInfo>, newest: nat, protectedGroup: nat)
    requires DistinctIds(groups) && forall x :: x in groups ==> !Eligible(x, newest, protectedGroup)
    ensures |groups| <= 2
  {
    forall j | 0 <= j < |groups| ensures !Eligible(groups[j], newest, protectedGroup) {
      assert groups[j] in groups;
    }
    NoneMatch(groups, (g: GroupInfo) => Eligible(g, newest, protectedGroup) && g.isKeyframe == false);
    NoneMatch(groups, (g: GroupInfo) => Eligible(g, newest, protectedGroup) && g.isKeyframe == true);
    CandidateCount(groups, newest, protectedGroup);
  }

  lemma KeyframeDroppedLast(q: seq<QueueItem>, newest: nat, protectedGroup: nat, dropped: GroupInfo, g: GroupInfo)
    requires GroupInfo(newest, true) !in Collect(q)
    requires dropped in Dropped(q, newest, protectedGroup) && dropped.isKeyframe
    requires g in Candidates(Collect(q), newest, protectedGroup, false)
    ensures HasId(Dropped(q, newest, protectedGroup), g.groupId)
  {
    var plain := Candidates(Collect(q), newest, protectedGroup, false);
    var list := Dropped(q, newest, protectedGroup);
    OnlyMembers(Collect(q), (x: GroupInfo) => Eligible(x, newest, protectedGroup) && x.isKeyframe == false);
    forall k | 0 <= k < |plain| ensures !plain[k].isKeyframe {
      assert plain[k] in plain;
    }
    var j :| 0 <= j < |list| && list[j] == dropped;
    var i :| 0 <= i < |plain| && plain[i] == g;
    assert j >= |plain|;
    assert list[i] == g;
  }

  /**
   Keyframes go last: if the trim had to choose and dropped a keyframe group, no droppable
   non-keyframe group is left.
   */
  lemma TrimPrefersPlainGroups(q: seq<QueueItem>, newest: nat, protectedGroup: nat, dropped: GroupInfo, left: GroupInfo)
    requires GroupInfo(newest, true) !in Collect(q)
    requires dropped in Dropped(q, newest, protectedGroup)
    requires left in Collect(Trimmed(q, newest, protectedGroup)) && Eligible(left, newest, protectedGroup)
    ensures dropped.isKeyframe ==> left.isKeyframe
  {
    var list := Dropped(q, newest, protectedGroup);
    DropAllMembers(q, list, left);
    OnlyMembers(Collect(q), (g: GroupInfo) => Eligible(g, newest, protectedGroup) && g.isKeyframe == false);
    if dropped.isKeyframe && !left.isKeyframe {
      KeyframeDroppedLast(q, newest, protectedGroup, dropped, left);
    }
  }

  // ---- oldest first ----------------------------------------------------------------------

  /** The group with the first id appears in the queue before the other does. */
  ghost predicate Older(q: seq<QueueItem>, id: nat, other: nat) {
    exists u :: 0 <= u < |q| && InGroup(q[u], id, Video) && forall v :: 0 <= v <= u ==> !InGroup(q[v], other, Video)
  }

  lemma OlderStays(q: seq<QueueItem>, item: QueueItem, id: nat, other: nat)
    requires Older(q, id, other)
    ensures Older(q + [item], id, other)
  {
    var u :| 0 <= u < |q| && InGroup(q[u], id, Video) && forall v :: 0 <= v <= u ==> !InGroup(q[v], other, Video);
    assert (q + [item])[u] == q[u];
  }

  /** Known groups keep their places, and a new one goes to the back. */
  lemma {:induction false} MergePlaces(groups: seq<GroupInfo>, id: nat, key: bool)
    ensures var merged := Merge(groups, id, key);
            && |merged| >= |groups| && (forall i :: 0 <= i < |groups| ==> merged[i].groupId == groups[i].groupId)
            && (|merged| > |groups| ==> |merged| == |groups| + 1 && merged[|groups|].groupId == id)
    decreases |groups|
  {
    if |groups| > 0 && groups[0].groupId != id {
      MergePlaces(groups[1..], id, key);
    }
  }

  /** The list of groups is in order of age. */
  lemma {:induction false} CollectInOrder(q: seq<QueueItem>, i: nat, j: nat)
    requires i < j < |Collect(q)|
    ensures Older(q, Collect(q)[i].groupId, Collect(q)[j].groupId)
    decreases |q|
  {
    var t, last := q[..|q| - 1], q[|q| - 1];
    assert q == t + [last];
    if last.stream == Video {
      MergePlaces(Collect(t), last.groupId, last.isKeyframe);
    }
    var groups, all := Collect(t), Collect(q);
    if j < |groups| {
      CollectInOrder(t, i, j);
      OlderStays(t, last, groups[i].groupId, groups[j].groupId);
    } else {
      CollectIds(q);
      CollectIds(t);
      var id, other := all[i].groupId, all[j].groupId;
      assert id == groups[i].groupId && HasId(groups, id) && !HasId(groups, other);
      var u :| 0 <= u < |t| && InGroup(t[u], id, Video);
      forall v | 0 <= v <= u ensures !InGroup(q[v], other, Video) {
        assert q[v] == t[v];
      }
      assert InGroup(q[u], id, Video);
    }
  }

  lemma OnlyKeepsOrder<T>(s: seq<T>, f: T -> bool, i: nat, j: nat) returns (a: nat, b: nat)
    requires i < j < |s| && f(s[i]) && f(s[j])
    ensures a < b < |Only(s, f)| && Only(s, f)[a] == s[i] && Only(s, f)[b] == s[j]
  {
    var front, back := s[..j], s[j + 1..];
    assert s == front + ([s[j]] + back);
    hide Only;
    OnlyConcat(front, [s[j]] + back, f);
    OnlyConcat([s[j]], back, f);
    OnlyOne(s[j], f);
    OnlyMembers(front, f);
    assert front[i] in front;
    a :| 0 <= a < |Only(front, f)| && Only(front, f)[a] == s[i];
    b := |Only(front, f)|;
  }

  lemma {:induction false} OnlyDistinct(groups: seq<GroupInfo>, f: GroupInfo -> bool)
    requires DistinctIds(groups)
    ensures DistinctIds(Only(groups, f))
  {
    if |groups| > 0 {
      var t, x := groups[..|groups| - 1], groups[|groups| - 1];
      OnlyDistinct(t, f);
      OnlyMembers(t, f);
      forall k | 0 <= k < |Only(t, f)| ensures Only(t, f)[k].groupId != x.groupId {
        assert Only(t, f)[k] in Only(t, f);
      }
    }
  }

  /**
   A trim that has to choose drops the oldest first: of two groups it may drop, both with a keyframe
   or both without, the younger one goes only if the older one does.
   */
  lemma TrimTakesOldest(q: seq<QueueItem>, newest: nat, protectedGroup: nat, i: nat, j: nat)
    requires i < j < |Collect(q)|
    requires Eligible(Collect(q)[i], newest, protectedGroup) && Eligible(Collect(q)[j], newest, protectedGroup)
    requires Collect(q)[i].isKeyframe == Collect(q)[j].isKeyframe
    ensures Collect(q)[i] in Collect(Trimmed(q, newest, protectedGroup)) ==>
              Collect(q)[j] in Collect(Trimmed(q, newest, protectedGroup))
    ensures Older(q, Collect(q)[i].groupId, Collect(q)[j].groupId)
  {
    var groups, list := Collect(q), Dropped(q, newest, protectedGroup);
    CollectInOrder(q, i, j);
    DropAllMembers(q, list, groups[i]);
    DropAllMembers(q, list, groups[j]);
    CollectIds(q);
    if HasId(list, groups[j].groupId) {
      var k :| 0 <= k < |list| && list[k].groupId == groups[j].groupId;
      DroppedInOrder(q, newest, protectedGroup, i, j, k);
    }
  }

  lemma CandidatesAre(groups: seq<GroupInfo>, newest: nat, protectedGroup: nat, key: bool)
    requires DistinctIds(groups)
    ensures var c := Candidates(groups, newest, protectedGroup, key);
            DistinctIds(c) && forall n :: 0 <= n < |c| ==> c[n] in groups && c[n].isKeyframe == key
  {
    var f := (g: GroupInfo) => Eligible(g, newest, protectedGroup) && g.isKeyframe == key;
    OnlyDistinct(groups, f);
    OnlyMembers(groups, f);
    hide Only;
    var c := Candidates(groups, newest, protectedGroup, key);
    forall n | 0 <= n < |c| ensures c[n] in groups && c[n].isKeyframe == key {
      assert c[n] in c;
    }
  }

  lemma RankingDistinct(groups: seq<GroupInfo>, newest: nat, protectedGroup: nat)
    requires DistinctIds(groups)
    ensures DistinctIds(Ranking(groups, newest, protectedGroup))
  {
    hide Candidates;
    CandidatesAre(groups, newest, protectedGroup, false);
    CandidatesAre(groups, newest, protectedGroup, true);
    var c, d := Candidates(groups, newest, protectedGroup, false), Candidates(groups, newest, protectedGroup, true);
    forall m, n | 0 <= m < |c| && 0 <= n < |d| ensures c[m].groupId != d[n].groupId {
      var x :| 0 <= x < |groups| && groups[x] == c[m];
      var y :| 0 <= y < |groups| && groups[y] == d[n];
    }
  }

  /** The ranking keeps the order of age among groups of one kind. */
  lemma RankedInOrder(groups: seq<GroupInfo>, newest: nat, protectedGroup: nat, i: nat, j: nat) returns (a: nat, b: nat)
    requires i < j < |groups| && groups[i].isKeyframe == groups[j].isKeyframe
    requires Eligible(groups[i], newest, protectedGroup) && Eligible(groups[j], newest, protectedGroup)
    ensures var r := Ranking(groups, newest, protectedGroup);
            a < b < |r| && r[a] == groups[i] && r[b] == groups[j]
  {
    var plain := (g: GroupInfo) => Eligible(g, newest, protectedGroup) && g.isKeyframe == false;
    var keyed := (g: GroupInfo) => Eligible(g, newest, protectedGroup) && g.isKeyframe == true;
    hide Only;
    if groups[i].isKeyframe {
      a, b := OnlyKeepsOrder(groups, keyed, i, j);
      var n := |Only(groups, plain)|;
      a, b := n + a, n + b;
    } else {
      a, b := OnlyKeepsOrder(groups, plain, i, j);
    }
  }

  lemma DroppedInOrder(q: seq<QueueItem>, newest: nat, protectedGroup: nat, i: nat, j: nat, k: nat)
    requires i < j < |Collect(q)| && DistinctIds(Collect(q))
    requires Eligible(Collect(q)[i], newest, protectedGroup) && Eligible(Collect(q)[j], newest, protectedGroup)
    requires Collect(q)[i].isKeyframe == Collect(q)[j].isKeyframe
    requires k < |Dropped(q, newest, protectedGroup)|
    requires Dropped(q, newest, protectedGroup)[k].groupId == Collect(q)[j].groupId
    ensures HasId(Dropped(q, newest, protectedGroup), Collect(q)[i].groupId)
  {
    var groups, list := Collect(q), Dropped(q, newest, protectedGroup);
    if GroupInfo(newest, true) in groups {
      var a, b := OnlyKeepsOrder(groups, (g: GroupInfo) => Eligible(g, newest, protectedGroup), i, j);
      assert list[a] == groups[i];
    } else {
      RankingDistinct(groups, newest, protectedGroup);
      var a, b := RankedInOrder(groups, newest, protectedGroup, i, j);
      var r := Ranking(groups, newest, protectedGroup);
      hide Ranking, Collect;
      assert list[k] == r[k] && k == b;
      assert list[a] == groups[i];
    }
  }
}
