/**
 When a frame being sent can lose items it has queued (src/udp/udp_manager.cpp, sendThreadMain,
 with the push, clear and protection of src/udp/send_queue.cpp). The thread protects the frame
 only after it has popped the first packet, and the lock is free in between.
 */
module FrameWindows {
  import opened Counting
  import opened SendQueueSpec
  import opened SendQueueRuns
  import opened SendQueues
  import opened Subsequences
  import opened VideoGroups
  import opened Wrappers

  /**
   One locked section, from the pop of the frame's first packet on. Other threads push, change
   limits or clear; the send thread protects the frame, and then pops and hands back.
   */
  datatype Act =
    | Push(items: seq<QueueItem>)
    | SetLimits(maxPackets: nat, maxBytes: nat)
    | Clear
    | Protect(frame: nat)
    | Pop(i: nat)
    | Requeue(item: QueueItem)

  datatype Window = Window(queue: seq<QueueItem>, protectedGroup: nat, maxPackets: nat, maxBytes: nat)

  /** The queue if nothing were lost: what was there and what was pushed, less what the thread took. */
  function Intact(w: Window, a: Act): seq<QueueItem> {
    match a
    case Push(items) => w.queue + AllNormalized(items)
    case Pop(i) => if i < |w.queue| then w.queue[..i] + w.queue[i + 1..] else w.queue
    case Requeue(item) => [Normalized(item)] + w.queue
    case _ => w.queue
  }

  function Do(w: Window, a: Act): Window {
    match a
    case Push(items) =>
      if items == [] then w
      else w.(queue := Evicted(Backlog(w.queue, items, w.protectedGroup), w.protectedGroup, w.maxPackets, w.maxBytes))
    case SetLimits(maxPackets, maxBytes) => w.(maxPackets := maxPackets, maxBytes := maxBytes)
    case Clear => w.(queue := [], protectedGroup := NO_PROTECTED_GROUP)
    case Protect(frame) => w.(protectedGroup := frame)
    case _ => w.(queue := Intact(w, a))
  }

  function DoAll(w: Window, acts: seq<Act>): Window
    decreases |acts|
  {
    if |acts| == 0 then w else DoAll(Do(w, acts[0]), acts[1..])
  }

  /** The frame loses something that the thread has not taken. */
  ghost predicate Loses(w: Window, a: Act, frame: nat) {
    ProtectedItems(Do(w, a).queue, frame) != ProtectedItems(Intact(w, a), frame)
  }

  ghost predicate LosesIn(w: Window, acts: seq<Act>, frame: nat)
    decreases |acts|
  {
    |acts| > 0 && (Loses(w, acts[0], frame) || LosesIn(Do(w, acts[0]), acts[1..], frame))
  }

  /** The thread pops and hands back only after it has protected the frame. */
  predicate Sequenced(acts: seq<Act>, frame: nat, tried: bool)
    decreases |acts|
  {
    |acts| == 0
    || ((acts[0].Protect? ==> acts[0].frame == frame)
        && (acts[0].Pop? || acts[0].Requeue? ==> tried)
        && Sequenced(acts[1..], frame, tried || acts[0].Protect?))
  }

  /** Every pop takes the next item, if there is one. */
  ghost predicate PopsNext(w: Window, acts: seq<Act>)
    decreases |acts|
  {
    |acts| == 0
    || ((acts[0].Pop? ==> w.queue == [] || IsNext(w.queue, acts[0].i)) && PopsNext(Do(w, acts[0]), acts[1..]))
  }

  /** A clear, or a push before the frame is protected. */
  predicate Exposed(acts: seq<Act>, tried: bool)
    decreases |acts|
  {
    |acts| > 0
    && (acts[0].Clear? || (acts[0].Push? && !tried) || Exposed(acts[1..], tried || acts[0].Protect?))
  }

  // ---- without exposure nothing is lost --------------------------------------------------

  /** Under protection, a push takes nothing from the frame. */
  lemma ProtectedPush(w: Window, items: seq<QueueItem>)
    ensures !Loses(w, Push(items), w.protectedGroup)
  {
    var p, longer, newest := w.protectedGroup, w.queue + AllNormalized(items), LastGroupEnd(items);
    var backlog := Backlog(w.queue, items, p);
    hide ProtectedItems, Trimmed, Evicted, LastGroupEnd;
    if newest.Some? {
      TrimmedKeeps(longer, newest.value, p);
    }
    EvictNothing(backlog, p);
    EvictedKeeps(backlog, backlog, p, w.maxPackets, w.maxBytes);
    assert AllNormalized([]) == [] && w.queue + [] == w.queue;
  }

  lemma {:induction false} SafeUnexposed(w: Window, acts: seq<Act>, frame: nat, tried: bool)
    requires Sequenced(acts, frame, tried) && !Exposed(acts, tried) && (tried ==> w.protectedGroup == frame)
    ensures !LosesIn(w, acts, frame)
    decreases |acts|
  {
    hide ProtectedItems, Evicted, Backlog;
    if |acts| > 0 {
      if acts[0].Push? {
        ProtectedPush(w, acts[0].items);
      }
      SafeUnexposed(Do(w, acts[0]), acts[1..], frame, tried || acts[0].Protect?);
    }
  }

  // ---- every exposure can cost -----------------------------------------------------------

  /** Which section it is, whatever its arguments. */
  predicate SameKind(a: Act, b: Act) {
    && (a.Push? <==> b.Push?) && (a.SetLimits? <==> b.SetLimits?) && (a.Clear? <==> b.Clear?)
    && (a.Protect? <==> b.Protect?) && (a.Pop? <==> b.Pop?) && (a.Requeue? <==> b.Requeue?)
  }

  predicate SameKinds(a: seq<Act>, b: seq<Act>)
    decreases |a|
  {
    |a| == |b| && (|a| == 0 || (SameKind(a[0], b[0]) && SameKinds(a[1..], b[1..])))
  }

  /** Some queue and some arguments make the frame lose items in sections of these kinds. */
  ghost predicate CanLose(kinds: seq<Act>, frame: nat) {
    exists w, acts ::
      SameKinds(acts, kinds) && Sequenced(acts, frame, false) && PopsNext(w, acts) && LosesIn(w, acts, frame)
  }

  lemma {:induction false} KindsExposed(a: seq<Act>, b: seq<Act>, tried: bool)
    requires SameKinds(a, b)
    ensures Exposed(a, tried) <==> Exposed(b, tried)
    decreases |a|
  {
    if |a| > 0 {
      KindsExposed(a[1..], b[1..], tried || a[0].Protect?);
    }
  }

  /** A video item of a group. */
  function Item(kind: Kind, group: nat, key: bool): QueueItem {
    QueueItem(kind, Video, group, 0, 0, 2, kind == Datagram, key, false, 0, 0, [], 0)
  }

  function Copies(frame: nat, n: nat): seq<QueueItem> {
    if n == 0 then [] else [Item(Datagram, frame, false)] + Copies(frame, n - 1)
  }

  /** The end of the frame, and of three frames behind it. */
  function Behind(frame: nat): seq<QueueItem> {
    [Item(GroupEnd, frame, false), Item(GroupEnd, frame + 1, false), Item(GroupEnd, frame + 2, false),
     Item(GroupEnd, frame + 3, false)]
  }

  /** A whole keyframe of one packet. */
  function Keyframe(frame: nat): seq<QueueItem> {
    [Item(Datagram, frame + 4, true), Item(GroupEnd, frame + 4, false)]
  }

  lemma HasGroup(q: seq<QueueItem>, i: nat, id: nat)
    requires i < |q| && InGroup(q[i], id, Video)
    ensures HasId(Collect(q), id)
  {
    CollectIds(q);
  }

  lemma FiveGroups(groups: seq<GroupInfo>, id: nat)
    requires HasId(groups, id) && HasId(groups, id + 1) && HasId(groups, id + 2) && HasId(groups, id + 3)
    requires HasId(groups, id + 4)
    ensures |groups| > MAX_QUEUED_VIDEO_GROUPS
  {
    var a :| 0 <= a < |groups| && groups[a].groupId == id;
    var b :| 0 <= b < |groups| && groups[b].groupId == id + 1;
    var c :| 0 <= c < |groups| && groups[c].groupId == id + 2;
    var d :| 0 <= d < |groups| && groups[d].groupId == id + 3;
    var e :| 0 <= e < |groups| && groups[e].groupId == id + 4;
    var positions: set<nat> := {a, b, c, d, e};
    assert |positions| == 5;
    SubsetSize(positions, Below(|groups|));
    BelowSize(|groups|);
  }

  /** A keyframe behind four other groups is the only one left. */
  lemma KeyframeTakesAll(q: seq<QueueItem>, frame: nat)
    requires |q| >= 1 && q[0] == Item(Datagram, frame, false)
    ensures var longer := q + Behind(frame) + Keyframe(frame);
            forall item :: item in Trimmed(longer, frame + 4, NO_PROTECTED_GROUP) ==> !InGroup(item, frame, Video)
  {
    var longer := q + Behind(frame) + Keyframe(frame);
    var groups, n := Collect(longer), |q|;
    assert longer[0] == q[0] && longer[n + 4] == Keyframe(frame)[0];
    HasGroup(longer, 0, frame);
    HasGroup(longer, n + 1, frame + 1);
    HasGroup(longer, n + 2, frame + 2);
    HasGroup(longer, n + 3, frame + 3);
    HasGroup(longer, n + 5, frame + 4);
    hide Collect, Trimmed, Behind, Keyframe;
    FiveGroups(groups, frame);
    var k :| 0 <= k < |groups| && groups[k].groupId == frame + 4;
    assert InGroup(longer[n + 4], frame + 4, Video) && longer[n + 4].isKeyframe;
    CollectKeys(longer, groups[k]);
    assert groups[k] == GroupInfo(frame + 4, true);
    TrimLeavesFour(longer, frame + 4, NO_PROTECTED_GROUP);
    var trimmed := Trimmed(longer, frame + 4, NO_PROTECTED_GROUP);
    forall i | 0 <= i < |Collect(trimmed)| ensures Collect(trimmed)[i].groupId == frame + 4 {
      assert Collect(trimmed)[i] in Collect(trimmed);
    }
    NotListed(trimmed, frame);
  }

  lemma NotListed(q: seq<QueueItem>, id: nat)
    requires forall i :: 0 <= i < |Collect(q)| ==> Collect(q)[i].groupId != id
    ensures forall item :: item in q ==> !InGroup(item, id, Video)
  {
    CollectIds(q);
    hide Collect;
    assert !HasId(Collect(q), id);
  }

  lemma KeyframeBatch(frame: nat)
    ensures AllNormalized(Keyframe(frame)) == Keyframe(frame) && LastGroupEnd(Keyframe(frame)) == Some(frame + 4)
  {}

  /** Nothing of a group is queued, or something is. */
  lemma FrameQueued(q: seq<QueueItem>, frame: nat)
    requires frame != NO_PROTECTED_GROUP
    ensures ProtectedItems(q, frame) == [] <==> forall item :: item in q ==> !InGroup(item, frame, Video)
  {
    var f := (item: QueueItem) => IsProtected(item, frame);
    OnlyMembers(q, f);
    if forall item :: item in q ==> !InGroup(item, frame, Video) {
      assert forall i :: 0 <= i < |q| ==> q[i] in q;
      NoneMatch(q, f);
    } else {
      var item :| item in q && InGroup(item, frame, Video);
      assert item in ProtectedItems(q, frame);
    }
  }

  /** Where the frame is not protected yet, a keyframe pushed behind it takes what it has queued. */
  lemma PushTakesFrame(w: Window, frame: nat, n: nat)
    requires n > 0 && w.queue == Copies(frame, n) + Behind(frame)
    requires w.protectedGroup == NO_PROTECTED_GROUP && frame != NO_PROTECTED_GROUP
    ensures Loses(w, Push(Keyframe(frame)), frame)
  {
    var p, longer := w.protectedGroup, w.queue + Keyframe(frame);
    KeyframeBatch(frame);
    KeyframeTakesAll(Copies(frame, n), frame);
    var backlog := Backlog(w.queue, Keyframe(frame), p);
    assert backlog == Trimmed(longer, frame + 4, p);
    hide ProtectedItems, Trimmed, Evicted, Collect, Backlog;
    EvictNothing(backlog, p);
    EvictedKeeps(backlog, backlog, p, w.maxPackets, w.maxBytes);
    var after := Evicted(backlog, p, w.maxPackets, w.maxBytes);
    SubseqMembers(after, backlog);
    FrameQueued(after, frame);
    assert longer[0] == Item(Datagram, frame, false) && InGroup(longer[0], frame, Video);
    FrameQueued(longer, frame);
  }

  lemma ClearTakesFrame(w: Window, frame: nat, n: nat)
    requires n > 0 && w.queue == Copies(frame, n) + Behind(frame) && frame != NO_PROTECTED_GROUP
    ensures Loses(w, Clear, frame)
  {
    assert w.queue[0] == Item(Datagram, frame, false) && InGroup(w.queue[0], frame, Video);
    hide ProtectedItems;
    FrameQueued(w.queue, frame);
    FrameQueued([], frame);
  }

  lemma {:induction false} SomeNext(q: seq<QueueItem>) returns (i: nat)
    requires q != []
    ensures IsNext(q, i)
    decreases |q|
  {
    i := 0;
    if |q| > 1 {
      var t := q[..|q| - 1];
      i := SomeNext(t);
      if NormalizePriority(q[|q| - 1].priority) < NormalizePriority(q[i].priority) {
        i := |q| - 1;
      }
    }
  }

  /** Arguments can be found for any kinds, so that every pop takes the next item. */
  lemma {:induction false} Complete(w: Window, kinds: seq<Act>, frame: nat, tried: bool) returns (acts: seq<Act>)
    requires Sequenced(kinds, frame, tried)
    ensures SameKinds(acts, kinds) && Sequenced(acts, frame, tried) && PopsNext(w, acts)
    decreases |kinds|
  {
    hide Do, IsNext;
    acts := [];
    if |kinds| > 0 {
      var a := kinds[0];
      if a.Pop? && w.queue != [] {
        var i := SomeNext(w.queue);
        a := Pop(i);
      }
      var rest := Complete(Do(w, a), kinds[1..], frame, tried || kinds[0].Protect?);
      acts := [a] + rest;
      assert acts[1..] == rest;
    }
  }

  lemma PopCopy(frame: nat, n: nat)
    requires n > 0
    ensures var q := Copies(frame, n) + Behind(frame);
            IsNext(q, 0) && q[..0] + q[1..] == Copies(frame, n - 1) + Behind(frame)
  {
    CopiesAre(frame, n);
    var q := Copies(frame, n) + Behind(frame);
    assert forall j :: 0 <= j < |q| ==> q[j].priority == 2;
  }

  lemma {:induction false} CopiesAre(frame: nat, n: nat)
    ensures |Copies(frame, n)| == n && forall j :: 0 <= j < n ==> Copies(frame, n)[j] == Item(Datagram, frame, false)
  {
    if n > 0 {
      CopiesAre(frame, n - 1);
    }
  }

  /** With enough of the frame queued, the first exposure costs. */
  lemma {:induction false} ExposureCosts(w: Window, kinds: seq<Act>, frame: nat, tried: bool, n: nat)
    returns (acts: seq<Act>)
    requires Sequenced(kinds, frame, tried) && Exposed(kinds, tried) && frame != NO_PROTECTED_GROUP && n >= |kinds|
    requires w.queue == Copies(frame, n) + Behind(frame) && (!tried ==> w.protectedGroup == NO_PROTECTED_GROUP)
    ensures SameKinds(acts, kinds) && Sequenced(acts, frame, tried) && PopsNext(w, acts) && LosesIn(w, acts, frame)
    decreases |kinds|
  {
    hide IsNext, Loses, Copies, Behind, Keyframe;
    var tried', rest := tried || kinds[0].Protect?, [];
    var a := kinds[0];
    if a.Clear? || (a.Push? && !tried) {
      if a.Clear? {
        ClearTakesFrame(w, frame, n);
      } else {
        a := Push(Keyframe(frame));
        PushTakesFrame(w, frame, n);
      }
      rest := Complete(Do(w, a), kinds[1..], frame, tried');
    } else {
      var m := n;
      if a.Push? {
        a := Push([]);
      } else if a.Pop? {
        a, m := Pop(0), n - 1;
        PopCopy(frame, n);
      } else if a.Requeue? {
        a, m := Requeue(Item(Datagram, frame, false)), n + 1;
        RequeueCopy(frame, n);
      }
      rest := ExposureCosts(Do(w, a), kinds[1..], frame, tried', m);
    }
    acts := [a] + rest;
    assert acts[1..] == rest;
  }

  lemma RequeueCopy(frame: nat, n: nat)
    ensures var item := Item(Datagram, frame, false);
            [Normalized(item)] + (Copies(frame, n) + Behind(frame)) == Copies(frame, n + 1) + Behind(frame)
  {}

  /**
   When a frame being sent can lose what it has queued, in sections of given kinds from the pop of
   its first packet on: if and only if the queue is cleared, or something is pushed between that
   pop and the protection.
   */
  lemma FrameLosesExactly(kinds: seq<Act>, frame: nat)
    requires Sequenced(kinds, frame, false) && frame != NO_PROTECTED_GROUP
    ensures CanLose(kinds, frame) <==> Exposed(kinds, false)
  {
    hide Sequenced, PopsNext, LosesIn, SameKinds, Exposed;
    if Exposed(kinds, false) {
      var n := |kinds|;
      var w := Window(Copies(frame, n) + Behind(frame), NO_PROTECTED_GROUP, 0, 0);
      var acts := ExposureCosts(w, kinds, frame, false, n);
    }
    if CanLose(kinds, frame) {
      var w, acts :|
        SameKinds(acts, kinds) && Sequenced(acts, frame, false) && PopsNext(w, acts) && LosesIn(w, acts, frame);
      KindsExposed(acts, kinds, false);
      if !Exposed(acts, false) {
        SafeUnexposed(w, acts, frame, false);
      }
    }
  }

  lemma CollectSnoc(q: seq<QueueItem>, item: QueueItem)
    ensures Collect(q + [item])
         == if item.stream == Video then Merge(Collect(q), item.groupId, item.isKeyframe) else Collect(q)
  {
    assert (q + [item])[..|q|] == q;
  }

  /** Two items of frame 1 and the ends of frames 2 to 5: frame 1 is the oldest of five groups. */
  function FiveFrames(): seq<QueueItem> {
    [Item(Datagram, 1, false), Item(GroupEnd, 1, false), Item(GroupEnd, 2, false), Item(GroupEnd, 3, false),
     Item(GroupEnd, 4, false), Item(GroupEnd, 5, false)]
  }

  lemma OneMoreGroup(q: seq<QueueItem>, groups: seq<GroupInfo>, id: nat)
    requires Collect(q) == groups && forall i :: 0 <= i < |groups| ==> groups[i].groupId != id
    ensures Collect(q + [Item(GroupEnd, id, false)]) == groups + [GroupInfo(id, false)]
  {
    CollectSnoc(q, Item(GroupEnd, id, false));
    MergeNew(groups, id);
  }

  lemma FirstGroup()
    ensures Collect(FiveFrames()[..2]) == [GroupInfo(1, false)]
  {
    var a, b := Item(Datagram, 1, false), Item(GroupEnd, 1, false);
    assert [a][..0] == [] && Collect([a][..0]) == [];
    assert Collect([a]) == [GroupInfo(1, false)];
    CollectSnoc([a], b);
    assert FiveFrames()[..2] == [a] + [b];
  }

  lemma FiveGroupsOfThem()
    ensures Collect(FiveFrames())
         == [GroupInfo(1, false), GroupInfo(2, false), GroupInfo(3, false), GroupInfo(4, false), GroupInfo(5, false)]
  {
    var q := FiveFrames();
    FirstGroup();
    assert q[..3] == q[..2] + [Item(GroupEnd, 2, false)] && q[..4] == q[..3] + [Item(GroupEnd, 3, false)];
    assert q[..5] == q[..4] + [Item(GroupEnd, 4, false)] && q == q[..5] + [Item(GroupEnd, 5, false)];
    hide *;
    var groups := [GroupInfo(1, false)];
    OneMoreGroup(q[..2], groups, 2);
    OneMoreGroup(q[..3], groups + [GroupInfo(2, false)], 3);
    OneMoreGroup(q[..4], groups + [GroupInfo(2, false)] + [GroupInfo(3, false)], 4);
    OneMoreGroup(q[..5], groups + [GroupInfo(2, false)] + [GroupInfo(3, false)] + [GroupInfo(4, false)], 5);
  }

  lemma {:induction false} MergeNew(groups: seq<GroupInfo>, id: nat)
    requires forall i :: 0 <= i < |groups| ==> groups[i].groupId != id
    ensures Merge(groups, id, false) == groups + [GroupInfo(id, false)]
    decreases |groups|
  {
    if |groups| > 0 {
      MergeNew(groups[1..], id);
    }
  }

  lemma FirstIsDropped()
    ensures Dropped(FiveFrames(), 5, NO_PROTECTED_GROUP) == [GroupInfo(1, false)]
  {
    FiveGroupsOfThem();
    CollectIds(FiveFrames());
    hide FiveFrames, Collect, Only;
    var groups := Collect(FiveFrames());
    CandidateExists(groups, 5, NO_PROTECTED_GROUP);
    FirstMatch(groups, (g: GroupInfo) => Eligible(g, 5, NO_PROTECTED_GROUP) && g.isKeyframe == false, 0);
    assert Candidates(groups, 5, NO_PROTECTED_GROUP, false)[0] == GroupInfo(1, false);
    hide Candidates;
  }

  lemma WithoutTheFirst()
    ensures WithoutGroup(FiveFrames(), 1, Video) == FiveFrames()[2..]
  {
    var q, f := FiveFrames(), (item: QueueItem) => InGroup(item, 1, Video);
    assert forall i :: 0 <= i < 2 ==> f(q[i]);
    assert forall i :: 2 <= i < 6 ==> !f(q[i]);
    var a, b := q[..2], q[2..];
    assert q == a + b;
    hide FiveFrames, Without, Only;
    WithoutConcat(a, b, f);
    NothingLeft(a, f);
    NoneMatch(b, f);
    SplitLength(b, f);
    WithoutMembers(b, f);
  }

  /** A trim behind frame 5 drops frame 1 and nothing else. */
  lemma TrimDropsTheFirst()
    ensures Trimmed(FiveFrames(), 5, NO_PROTECTED_GROUP) == FiveFrames()[2..]
  {
    hide FiveFrames, Dropped, WithoutGroup;
    FirstIsDropped();
    WithoutTheFirst();
    assert [GroupInfo(1, false)][1..] == [];
  }

  lemma {:induction false} NothingLeft(s: seq<QueueItem>, f: QueueItem -> bool)
    requires forall i :: 0 <= i < |s| ==> f(s[i])
    ensures Without(s, f) == []
  {
    if |s| > 0 {
      NothingLeft(s[..|s| - 1], f);
    }
  }

  /**
   The smallest input. The first packet of frame 1 has been popped, and frame 5's end is pushed
   before frame 1 is protected: the rest of frame 1 is gone. A moment later it would have stayed.
   */
  lemma PushInTheGap()
    ensures var w := Window(FiveFrames()[..5], NO_PROTECTED_GROUP, 0, 0);
            var push := Push([FiveFrames()[5]]);
            && Do(w, push).queue == FiveFrames()[2..] && Loses(w, push, 1)
            && !Loses(Do(w, Protect(1)), push, 1)
  {
    var w, end := Window(FiveFrames()[..5], NO_PROTECTED_GROUP, 0, 0), FiveFrames()[5];
    PushedInTheGap(w, end);
    FirstFrameQueued();
    ProtectSets(w, 1);
    hide *;
    ProtectedPush(Do(w, Protect(1)), [end]);
    LosesIs(w, Push([end]), 1);
  }

  lemma LosesIs(w: Window, a: Act, frame: nat)
    ensures Loses(w, a, frame) <==> ProtectedItems(Do(w, a).queue, frame) != ProtectedItems(Intact(w, a), frame)
  {}

  lemma FirstFrameQueued()
    ensures ProtectedItems(FiveFrames(), 1) != [] && ProtectedItems(FiveFrames()[2..], 1) == []
  {
    var q := FiveFrames();
    assert q[0] in q && InGroup(q[0], 1, Video);
    forall item | item in q[2..] ensures !InGroup(item, 1, Video) {
      var i :| 2 <= i < |q| && q[i] == item;
    }
    hide FiveFrames, ProtectedItems;
    FrameQueued(q, 1);
    FrameQueued(q[2..], 1);
  }

  lemma ProtectSets(w: Window, frame: nat)
    ensures Do(w, Protect(frame)) == w.(protectedGroup := frame)
  {}

  lemma PushedInTheGap(w: Window, end: QueueItem)
    requires w == Window(FiveFrames()[..5], NO_PROTECTED_GROUP, 0, 0) && end == FiveFrames()[5]
    ensures Do(w, Push([end])).queue == FiveFrames()[2..] && Intact(w, Push([end])) == FiveFrames()
  {
    OneEnd(end);
    TrimDropsTheFirst();
    assert w.queue + [end] == FiveFrames();
    hide Trimmed, Collect, FiveFrames, LastGroupEnd, Evicted;
    EvictionStops(FiveFrames()[2..], NO_PROTECTED_GROUP, 0, 0);
  }

  lemma OneEnd(end: QueueItem)
    requires end == Item(GroupEnd, 5, false)
    ensures AllNormalized([end]) == [end] && LastGroupEnd([end]) == Some(5)
  {}
}
