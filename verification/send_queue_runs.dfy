/**
 What the send queue guarantees over whole runs: a push keeps order and the protected group,
 and however pushes, evictions, sends and refused sends interleave, every priority lane is
 sent in the order it was pushed and nothing is sent twice.
 */
module SendQueueRuns {
  import opened Counting
  import opened SendQueueSpec
  import opened SendQueues
  import opened Subsequences
  import opened VideoGroups

  // ---- one push --------------------------------------------------------------------------

  lemma TrimmedKeeps(q: seq<QueueItem>, newest: nat, protectedGroup: nat)
    ensures Subseq(Trimmed(q, newest, protectedGroup), q)
    ensures ProtectedItems(Trimmed(q, newest, protectedGroup), protectedGroup) == ProtectedItems(q, protectedGroup)
    ensures NonVideo(Trimmed(q, newest, protectedGroup)) == NonVideo(q)
  {
    var groups := Dropped(q, newest, protectedGroup);
    var f := (item: QueueItem) => OfGroups(item, groups);
    DropAllIsWithout(q, groups);
    SubseqWithout(q, f);
    forall item | item in q && f(item) ensures !IsProtected(item, protectedGroup) {
      var i :| 0 <= i < |groups| && groups[i].groupId == item.groupId;
      DroppedAreEligible(q, newest, protectedGroup, groups[i]);
    }
    OnlyOfWithout(q, (item: QueueItem) => IsProtected(item, protectedGroup), f);
    OnlyOfWithout(q, (item: QueueItem) => item.stream != Video, f);
  }

  function Ids(groups: seq<GroupInfo>): (ids: seq<nat>)
    ensures |ids| == |groups| && forall i :: 0 <= i < |ids| ==> ids[i] == groups[i].groupId
  {
    seq(|groups|, i requires 0 <= i < |groups| => groups[i].groupId)
  }

  /** Removing items cannot add a video group. */
  lemma CollectShrinks(a: seq<QueueItem>, b: seq<QueueItem>)
    requires Subseq(a, b)
    ensures |Collect(a)| <= |Collect(b)|
  {
    var ga, gb := Collect(a), Collect(b);
    CollectIds(a);
    CollectIds(b);
    SubseqMembers(a, b);
    var ia, ib := Ids(ga), Ids(gb);
    NoRepeatsSize(ia);
    NoRepeatsSize(ib);
    var sa, sb := Elements(ia), Elements(ib);
    forall id | id in sa ensures id in sb {
      assert HasId(ga, id);
      var i :| 0 <= i < |a| && InGroup(a[i], id, Video);
      assert a[i] in b;
      var j :| 0 <= j < |b| && b[j] == a[i];
      assert HasId(gb, id);
      var k :| 0 <= k < |gb| && gb[k].groupId == id;
      assert ib[k] == id;
    }
    SubsetSize(sa, sb);
  }

  /**
   The outcome of a push or batch: items leave without reordering, the protected video group
   is untouched, a completed frame leaves at most four video groups, and either both limits
   hold or nothing but the protected group is left.
   */
  lemma PushOutcome(q: seq<QueueItem>, items: seq<QueueItem>, after: seq<QueueItem>, protectedGroup: nat,
                    maxPackets: nat, maxBytes: nat)
    requires Enforced(Backlog(q, items, protectedGroup), after, protectedGroup, maxPackets, maxBytes)
    ensures var longer := q + AllNormalized(items);
            && Subseq(after, longer)
            && ProtectedItems(after, protectedGroup) == ProtectedItems(longer, protectedGroup)
    ensures WithinLimits(after, maxPackets, maxBytes) || forall item :: item in after ==>
      IsProtected(item, protectedGroup)
    ensures LastGroupEnd(items).Some? ==> |Collect(after)| <= MAX_QUEUED_VIDEO_GROUPS
  {
    var longer, newest := q + AllNormalized(items), LastGroupEnd(items);
    var backlog := Backlog(q, items, protectedGroup);
    hide Trimmed, Collect, ProtectedItems, NonVideo, NonParity, LastGroupEnd, Subseq;
    if newest.Some? {
      TrimmedKeeps(longer, newest.value, protectedGroup);
      NewestIsQueued(q, items);
      TrimLeavesFour(longer, newest.value, protectedGroup);
      CollectShrinks(after, backlog);
    } else {
      SubseqSelf(longer);
    }
    SubseqTrans(after, backlog, longer);
  }

  // ---- whole runs ------------------------------------------------------------------------

  /** Outcome of handing a datagram to the socket. */
  datatype SendResult = Sent | WouldBlock | DroppedBySocket

  /** The queue, the item the send thread holds between pop and send, and the history so far. */
  datatype RunState = RunState(queue: seq<QueueItem>, inflight: seq<QueueItem>, pushed: seq<QueueItem>,
                               sent: seq<QueueItem>)

  ghost predicate Initial(s: RunState) {
    s == RunState([], [], [], [])
  }

  /** A producer appends items; trimming, eviction, group drops, clear and stop only delete. */
  ghost predicate Produce(s: RunState, s': RunState, items: seq<QueueItem>) {
    && Subseq(s'.queue, s.queue + items)
    && s' == s.(queue := s'.queue, pushed := s.pushed + items)
  }

  /** The send thread takes the next item by priority. */
  ghost predicate Take(s: RunState, s': RunState, i: nat) {
    && s.inflight == [] && IsNext(s.queue, i)
    && s' == s.(queue := s.queue[..i] + s.queue[i + 1..], inflight := [s.queue[i]])
  }

  /** The send thread learns the socket's answer; a refused item goes back to the front. */
  ghost predicate Finish(s: RunState, s': RunState, result: SendResult) {
    && |s.inflight| == 1
    && s' == match result
             case Sent => s.(inflight := [], sent := s.sent + s.inflight)
             case DroppedBySocket => s.(inflight := [])
             case WouldBlock => s.(inflight := [], queue := s.inflight + s.queue)
  }

  ghost predicate Next(s: RunState, s': RunState) {
    || (exists items :: Produce(s, s', items))
    || (exists i :: Take(s, s', i))
    || (exists result :: Finish(s, s', result))
  }

  ghost predicate IsRun(run: seq<RunState>) {
    && |run| > 0 && Initial(run[0])
    && forall n :: 0 <= n < |run| - 1 ==> Next(run[n], run[n + 1])
  }

  /** What was sent, then what is in flight, then what waits: in every lane a subsequence of the pushes. */
  ghost predicate InOrder(s: RunState) {
    forall p: nat :: Subseq(Lane(s.sent + s.inflight + s.queue, p), Lane(s.pushed, p))
  }

  lemma ProduceKeepsOrder(s: RunState, s': RunState, items: seq<QueueItem>)
    requires InOrder(s) && Produce(s, s', items)
    ensures InOrder(s')
  {
    hide Subseq, Only;
    var head := s.sent + s.inflight;
    forall p: nat ensures Subseq(Lane(head + s'.queue, p), Lane(s'.pushed, p)) {
      SubseqSelf(head);
      SubseqConcat(head, head, s'.queue, s.queue + items);
      SubseqOnly(head + s'.queue, head + (s.queue + items), (item: QueueItem) => InLane(item, p));
      assert head + (s.queue + items) == (head + s.queue) + items;
      LaneConcat(head + s.queue, items, p);
      LaneConcat(s.pushed, items, p);
      SubseqSelf(Lane(items, p));
      SubseqConcat(Lane(head + s.queue, p), Lane(s.pushed, p), Lane(items, p), Lane(items, p));
      SubseqTrans(Lane(head + s'.queue, p), Lane(head + s.queue, p) + Lane(items, p), Lane(s'.pushed, p));
    }
  }

  /** Moving the selected item to the front changes no lane. */
  lemma TakeKeepsLanes(head: seq<QueueItem>, q: seq<QueueItem>, i: nat, p: nat)
    requires IsNext(q, i)
    ensures Lane(head + [q[i]] + (q[..i] + q[i + 1..]), p) == Lane(head + q, p)
  {
    hide Only;
    var rest := q[..i] + q[i + 1..];
    assert head + [q[i]] + rest == head + ([q[i]] + rest);
    LaneConcat(head, [q[i]] + rest, p);
    LaneConcat(head, q, p);
    RequeueRestores(q, i, p);
  }

  lemma TakeKeepsOrder(s: RunState, s': RunState, i: nat)
    requires InOrder(s) && Take(s, s', i)
    ensures InOrder(s')
  {
    forall p: nat ensures Lane(s'.sent + s'.inflight + s'.queue, p) == Lane(s.sent + s.inflight + s.queue, p) {
      TakeKeepsLanes(s.sent, s.queue, i, p);
      assert s.sent + s.inflight + s.queue == s.sent + s.queue;
    }
  }

  lemma FinishKeepsOrder(s: RunState, s': RunState, result: SendResult)
    requires InOrder(s) && Finish(s, s', result)
    ensures InOrder(s')
  {
    match result
    case Sent =>
      assert s'.sent + s'.inflight + s'.queue == s.sent + s.inflight + s.queue;
    case WouldBlock =>
      assert s'.sent + s'.inflight + s'.queue == s.sent + s.inflight + s.queue;
    case DroppedBySocket =>
      forall p: nat ensures Subseq(Lane(s'.sent + s'.inflight + s'.queue, p), Lane(s'.pushed, p)) {
        SubseqDropHead(s.sent, s.inflight[0], s.queue);
        assert s.inflight == [s.inflight[0]];
        assert s'.sent + s'.inflight + s'.queue == s.sent + s.queue;
        SubseqOnly(s.sent + s.queue, s.sent + s.inflight + s.queue, (item: QueueItem) => InLane(item, p));
        SubseqTrans(Lane(s.sent + s.queue, p), Lane(s.sent + s.inflight + s.queue, p), Lane(s.pushed, p));
      }
  }

  lemma StepKeepsOrder(s: RunState, s': RunState)
    requires InOrder(s) && Next(s, s')
    ensures InOrder(s')
  {
    if items :| Produce(s, s', items) {
      ProduceKeepsOrder(s, s', items);
    } else if i: nat :| Take(s, s', i) {
      TakeKeepsOrder(s, s', i);
    } else {
      var result :| Finish(s, s', result);
      FinishKeepsOrder(s, s', result);
    }
  }

  lemma {:induction false} RunKeepsOrder(run: seq<RunState>, n: nat)
    requires IsRun(run) && n < |run|
    ensures InOrder(run[n])
  {
    if n == 0 {
      forall p: nat ensures Subseq(Lane([] + [] + [], p), Lane([], p)) {
        SubseqSelf(Lane([], p));
      }
    } else {
      RunKeepsOrder(run, n - 1);
      StepKeepsOrder(run[n - 1], run[n]);
    }
  }

  lemma LaneMembers(s: seq<QueueItem>, p: nat)
    ensures forall item :: item in Lane(s, p) <==> item in s && InLane(item, p)
  {
    OnlyMembers(s, (item: QueueItem) => InLane(item, p));
  }

  lemma {:induction false} LanesWithoutRepeats(s: seq<QueueItem>)
    requires forall p: nat :: NoRepeats(Lane(s, p))
    ensures NoRepeats(s)
  {
    if |s| > 0 {
      var t, x := s[..|s| - 1], s[|s| - 1];
      assert s == t + [x];
      hide Lane;
      forall p: nat ensures Lane(s, p) == Lane(t, p) + Lane([x], p) {
        LaneConcat(t, [x], p);
      }
      forall p: nat ensures NoRepeats(Lane(t, p)) {
        assert forall i :: 0 <= i < |Lane(t, p)| ==> Lane(s, p)[i] == Lane(t, p)[i];
      }
      LanesWithoutRepeats(t);
      var p := NormalizePriority(x.priority);
      LaneOfOne(x, p);
      LaneMembers(t, p);
      var lane := Lane(t, p);
      forall k | 0 <= k < |lane| ensures lane[k] != x {
        assert Lane(s, p)[k] == lane[k] && Lane(s, p)[|lane|] == x;
      }
      forall i | 0 <= i < |t| ensures t[i] != x {
        assert t[i] in t;
      }
    }
  }

  /** Whatever is still in flight or queued, each lane has been sent in push order. */
  lemma SentInOrder(s: RunState)
    requires InOrder(s)
    ensures forall p: nat :: Subseq(Lane(s.sent, p), Lane(s.pushed, p))
  {
    var all := s.sent + s.inflight + s.queue;
    forall p: nat ensures Subseq(Lane(s.sent, p), Lane(s.pushed, p)) {
      hide Subseq, Only;
      assert all == s.sent + (s.inflight + s.queue);
      LaneConcat(s.sent, s.inflight + s.queue, p);
      SubseqSelf(Lane(s.sent, p));
      SubseqNothing(Lane(s.inflight + s.queue, p));
      SubseqConcat(Lane(s.sent, p), Lane(s.sent, p), [], Lane(s.inflight + s.queue, p));
      assert Lane(s.sent, p) + [] == Lane(s.sent, p);
      SubseqTrans(Lane(s.sent, p), Lane(all, p), Lane(s.pushed, p));
    }
  }

  /**
   For every interleaving: each lane is sent in push order, and as long as the producers push
   distinct items, nothing is ever sent twice, nor queued or in flight again after it was sent.
   */
  lemma SentInOrderAndOnce(run: seq<RunState>, n: nat)
    requires IsRun(run) && n < |run|
    ensures forall p: nat :: Subseq(Lane(run[n].sent, p), Lane(run[n].pushed, p))
    ensures NoRepeats(run[n].pushed) ==> NoRepeats(run[n].sent + run[n].inflight + run[n].queue)
  {
    var s := run[n];
    RunKeepsOrder(run, n);
    SentInOrder(s);
    if NoRepeats(s.pushed) {
      var all := s.sent + s.inflight + s.queue;
      forall p: nat ensures NoRepeats(Lane(all, p)) {
        SubseqOfItself(s.pushed, p);
        SubseqMembers(Lane(s.pushed, p), s.pushed);
        SubseqMembers(Lane(all, p), Lane(s.pushed, p));
      }
      LanesWithoutRepeats(all);
    }
  }

  lemma SubseqNothing(a: seq<QueueItem>)
    ensures Subseq([], a)
  {}

  lemma {:induction false} SubseqOfItself(s: seq<QueueItem>, p: nat)
    ensures Subseq(Lane(s, p), s)
  {
    if |s| > 0 {
      var t, x := s[..|s| - 1], s[|s| - 1];
      SubseqOfItself(t, p);
      if InLane(x, p) {
        assert Lane(s, p) == Lane(t, p) + [x] && Lane(s, p)[..|Lane(t, p)|] == Lane(t, p);
      } else {
        assert Lane(s, p) == Lane(t, p);
      }
    }
  }
}
