/**
 The bounded queue of encoded frames in front of the FEC thread (src/udp/udp_manager.cpp,
 sendH264Frame and the dequeue of fecThreadMain): when it is full, frames other than keyframes
 go first, the oldest of them first.
 */
module InputQueues {
  import opened Gf256
  import opened Subsequences
  import opened Wrappers

  datatype InputFrame = InputFrame(data: seq<byte>, captureTimestampUs: nat, ntpTimestamp: nat,
                                   enqueueSteadyUs: nat, keyframe: bool)

  function Keyframes(q: seq<InputFrame>): seq<InputFrame> {
    Only(q, (f: InputFrame) => f.keyframe)
  }

  function Others(q: seq<InputFrame>): seq<InputFrame> {
    Only(q, (f: InputFrame) => !f.keyframe)
  }

  ghost predicate Suffix(a: seq<InputFrame>, b: seq<InputFrame>) {
    |a| <= |b| && a == b[|b| - |a|..]
  }

  /**
   Of both kinds the newest are left, in their order, and a keyframe is missing only if no other
   frame is left.
   */
  ghost predicate Thinned(before: seq<InputFrame>, after: seq<InputFrame>) {
    && Subseq(after, before)
    && Suffix(Keyframes(after), Keyframes(before)) && Suffix(Others(after), Others(before))
    && (Keyframes(after) == Keyframes(before) || Others(after) == [])
  }

  lemma OnlyOfOne(f: InputFrame)
    ensures Keyframes([f]) == (if f.keyframe then [f] else [])
    ensures Others([f]) == (if f.keyframe then [] else [f])
  {
    var one := [f];
    assert one[..0] == [];
    assert Keyframes(one) == Keyframes(one[..0]) + (if f.keyframe then [f] else []);
    assert Others(one) == Others(one[..0]) + (if f.keyframe then [] else [f]);
  }

  /** Removing one frame splits both kinds around it. */
  lemma Around(q: seq<InputFrame>, i: nat)
    requires i < |q|
    ensures Keyframes(q) == Keyframes(q[..i]) + (if q[i].keyframe then [q[i]] else []) + Keyframes(q[i + 1..])
    ensures Others(q) == Others(q[..i]) + (if q[i].keyframe then [] else [q[i]]) + Others(q[i + 1..])
    ensures Keyframes(q[..i] + q[i + 1..]) == Keyframes(q[..i]) + Keyframes(q[i + 1..])
    ensures Others(q[..i] + q[i + 1..]) == Others(q[..i]) + Others(q[i + 1..])
  {
    var key, other := (f: InputFrame) => f.keyframe, (f: InputFrame) => !f.keyframe;
    assert q == (q[..i] + [q[i]]) + q[i + 1..];
    OnlyConcat(q[..i] + [q[i]], q[i + 1..], key);
    OnlyConcat(q[..i], [q[i]], key);
    OnlyConcat(q[..i] + [q[i]], q[i + 1..], other);
    OnlyConcat(q[..i], [q[i]], other);
    OnlyConcat(q[..i], q[i + 1..], key);
    OnlyConcat(q[..i], q[i + 1..], other);
    OnlyOfOne(q[i]);
  }

  lemma {:induction false} NoKeyframes(q: seq<InputFrame>)
    requires forall i :: 0 <= i < |q| ==> !q[i].keyframe
    ensures Keyframes(q) == []
  {
    if |q| > 0 {
      NoKeyframes(q[..|q| - 1]);
    }
  }

  lemma {:induction false} NoOthers(q: seq<InputFrame>)
    requires forall i :: 0 <= i < |q| ==> q[i].keyframe
    ensures Others(q) == []
  {
    if |q| > 0 {
      NoOthers(q[..|q| - 1]);
    }
  }

  lemma SuffixTail(a: seq<InputFrame>, b: seq<InputFrame>, c: seq<InputFrame>)
    requires Suffix(a, b) && |a| > 0 && c == a[1..]
    ensures Suffix(c, b)
  {}

  /** The victim is the oldest frame of its kind, and a keyframe only if there is no other. */
  ghost predicate IsVictim(q: seq<InputFrame>, i: nat) {
    && i < |q|
    && (!q[i].keyframe ==> forall j :: 0 <= j < i ==> q[j].keyframe)
    && (q[i].keyframe ==> i == 0 && forall j :: 0 <= j < |q| ==> q[j].keyframe)
  }

  lemma RemovalIsSubseq(before: seq<InputFrame>, q: seq<InputFrame>, i: nat)
    requires Subseq(q, before) && i < |q|
    ensures Subseq(q[..i] + q[i + 1..], before)
  {
    hide Subseq;
    SubseqDropHead(q[..i], q[i], q[i + 1..]);
    assert q == q[..i] + [q[i]] + q[i + 1..];
    SubseqTrans(q[..i] + q[i + 1..], q, before);
  }

  /** A victim is the oldest of its kind, and the other kind loses nothing. */
  lemma VictimLeaves(q: seq<InputFrame>, i: nat)
    requires IsVictim(q, i)
    ensures var after := q[..i] + q[i + 1..];
            if q[i].keyframe then Keyframes(q) == [q[i]] + Keyframes(after) && Others(q) == [] && Others(after) == []
            else Others(q) == [q[i]] + Others(after) && Keyframes(after) == Keyframes(q)
  {
    hide Keyframes, Others;
    Around(q, i);
    NoOthers(q[..i]);
    if q[i].keyframe {
      NoKeyframes(q[..i]);
      NoOthers(q);
      NoOthers(q[..i] + q[i + 1..]);
    }
  }

  lemma VictimThins(before: seq<InputFrame>, q: seq<InputFrame>, i: nat)
    requires Thinned(before, q) && IsVictim(q, i)
    ensures Thinned(before, q[..i] + q[i + 1..])
  {
    hide Subseq, Keyframes, Others, Suffix, IsVictim;
    VictimInside(q, i);
    var after := q[..i] + q[i + 1..];
    RemovalIsSubseq(before, q, i);
    VictimLeaves(q, i);
    if q[i].keyframe {
      SuffixTail(Keyframes(q), Keyframes(before), Keyframes(after));
    } else {
      SuffixTail(Others(q), Others(before), Others(after));
    }
  }

  lemma VictimInside(q: seq<InputFrame>, i: nat)
    requires IsVictim(q, i)
    ensures i < |q|
  {}

  class InputQueue {
    const maxFrames: nat
    var queue: seq<InputFrame>
    var inputFrames: nat
    var inputDrops: nat
    ghost var taken: nat
    ghost var cleared: nat

    function Limit(): (n: nat)
      ensures n == maxFrames || (maxFrames == 0 && n == 1)
    {
      if maxFrames > 1 then maxFrames else 1
    }

    /** The queue is bounded, and every frame taken in is queued, taken by the FEC thread, dropped or cleared. */
    ghost predicate Valid()
      reads this
    {
      && |queue| <= Limit()
      && inputFrames == |queue| + taken + inputDrops + cleared
    }

    constructor (maxFrames: nat)
      ensures Valid() && queue == [] && this.maxFrames == maxFrames
    {
      this.maxFrames := maxFrames;
      queue, inputFrames, inputDrops, taken, cleared := [], 0, 0, 0, 0;
    }

    /** Makes room, then queues the frame at the end. */
    method SendH264Frame(frame: InputFrame)
      requires Valid()
      modifies this
      ensures Valid() && taken == old(taken) && cleared == old(cleared)
      ensures frame.data == [] ==> unchanged(this)
      ensures frame.data != [] ==>
        && queue != [] && queue[|queue| - 1] == frame
        && Thinned(old(queue), queue[..|queue| - 1])
        && |queue| == (if |old(queue)| < Limit() then |old(queue)| + 1 else Limit())
        && inputFrames == old(inputFrames) + 1
    {
      if frame.data == [] {
        return;
      }
      var limit := Limit();
      var dropped := 0;
      SubseqSelf(queue);
      while |queue| >= limit
        invariant Thinned(old(queue), queue) && |queue| + dropped == |old(queue)|
        invariant |queue| >= (if |old(queue)| < limit then |old(queue)| else limit - 1)
        invariant inputFrames == old(inputFrames) && inputDrops == old(inputDrops)
        invariant taken == old(taken) && cleared == old(cleared)
      {
        var victim := FindVictim();
        VictimThins(old(queue), queue, victim);
        queue := queue[..victim] + queue[victim + 1..];
        dropped := dropped + 1;
      }
      queue := queue + [frame];
      assert queue[..|queue| - 1] + [frame] == queue;
      inputFrames := inputFrames + 1;
      if dropped > 0 {
        inputDrops := inputDrops + dropped;
      }
    }

    /** A stop or a session reset discards what is queued; that counts as no drop. */
    method Clear()
      requires Valid()
      modifies `queue, `cleared
      ensures Valid() && queue == [] && cleared == old(cleared) + |old(queue)|
    {
      cleared := cleared + |queue|;
      queue := [];
    }

    method FindVictim() returns (i: nat)
      requires queue != []
      ensures IsVictim(queue, i)
    {
      i := 0;
      while i < |queue| && queue[i].keyframe
        invariant i <= |queue| && forall j :: 0 <= j < i ==> queue[j].keyframe
      {
        i := i + 1;
      }
      if i == |queue| {
        i := 0;
      }
    }

    /** The FEC thread takes the oldest frame. */
    method TakeFrame() returns (frame: Option<InputFrame>)
      requires Valid()
      modifies `queue, `taken
      ensures Valid() && (frame.None? <==> old(queue) == [])
      ensures frame.None? ==> unchanged(this)
      ensures frame.Some? ==> old(queue) == [frame.value] + queue
    {
      if queue == [] {
        return None;
      }
      frame := Some(queue[0]);
      assert queue == [queue[0]] + queue[1..];
      queue := queue[1..];
      taken := taken + 1;
    }
  }
}
