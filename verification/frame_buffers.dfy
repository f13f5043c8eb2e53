/**
 Who owns which DMA buffer: the output pool of the converter (src/video/video_converter.cpp) or,
 where undistortion is on, of the undistorter (src/video/video_undistorter.cpp), the encoder's
 input slots (src/video/video_encoder.cpp) and the shared frames between the encode thread, the
 encoder and the eye-image thread (src/video/video_stream_manager.cpp), while a pipeline runs.
 Answers of the driver and the GPU are arbitrary, and the eye-image thread may act between any two
 steps of the encode thread.
 */
module FrameBuffers {
  import opened Counting
  import opened Wrappers

  /** The control block of a shared frame: the buffer it carries and how many hold it. */
  datatype SharedNv12Frame = SharedNv12Frame(fd: int, timestampUs: nat, useCount: nat)

  /** The live frames, by identity, and their holders. */
  datatype Sharing = Sharing(frames: map<nat, SharedNv12Frame>, local: Option<nat>, pending: map<int, nat>,
                             eyeQueue: seq<nat>, eyeLocal: Option<nat>)

  function One(b: bool): nat {
    if b then 1 else 0
  }

  // ---- the pool --------------------------------------------------------------------------

  /** The pool's buffers, which of them are free, and the one a conversion is writing to. */
  datatype Pool = Pool(fds: seq<int>, fdToIndex: map<int, nat>, free: seq<nat>, converting: Option<nat>)

  ghost predicate Carries(p: Pool, frames: map<nat, SharedNv12Frame>, f: nat, i: nat) {
    f in frames && i < |p.fds| && frames[f].fd == p.fds[i]
  }

  ghost predicate Owned(p: Pool, frames: map<nat, SharedNv12Frame>, i: nat) {
    p.converting == Some(i) || exists f :: Carries(p, frames, f, i)
  }

  ghost predicate Indexed(p: Pool) {
    && (forall i :: 0 <= i < |p.fds| ==> p.fds[i] >= 0 && p.fds[i] in p.fdToIndex && p.fdToIndex[p.fds[i]] == i)
    && (forall fd :: fd in p.fdToIndex ==> p.fdToIndex[fd] < |p.fds| && p.fds[p.fdToIndex[fd]] == fd)
  }

  /** Every pool index is free, once, or owned: by one live frame, or by the conversion. */
  ghost predicate PoolOk(p: Pool, frames: map<nat, SharedNv12Frame>) {
    && Indexed(p) && NoRepeats(p.free)
    && (forall i :: i in p.free ==> i < |p.fds|)
    && (forall i: nat :: i < |p.fds| ==> (i in p.free <==> !Owned(p, frames, i)))
    && (forall f, g, i: nat :: Carries(p, frames, f, i) && Carries(p, frames, g, i) ==> f == g)
    && (forall f, i: nat :: Carries(p, frames, f, i) ==> p.converting != Some(i))
    && (forall f :: f in frames ==> frames[f].fd in p.fdToIndex)
    && (p.converting.Some? ==> p.converting.value < |p.fds|)
  }

  /** Taking the front of a queue without repeats. */
  lemma TakeFirst(s: seq<nat>)
    requires NoRepeats(s) && |s| > 0
    ensures s == [s[0]] + s[1..] && NoRepeats(s[1..]) && s[0] !in s[1..]
    ensures forall i :: i in s <==> i == s[0] || i in s[1..]
  {}

  lemma PutLast(s: seq<nat>, x: nat)
    requires NoRepeats(s) && x !in s
    ensures NoRepeats(s + [x]) && forall i :: i in s + [x] <==> i == x || i in s
  {}

  lemma PoolTakes(p: Pool, frames: map<nat, SharedNv12Frame>)
    requires PoolOk(p, frames) && p.converting == None && p.free != []
    ensures p.free[0] < |p.fds| && PoolOk(p.(free := p.free[1..], converting := Some(p.free[0])), frames)
  {
    hide NoRepeats;
    TakeFirst(p.free);
    var q := p.(free := p.free[1..], converting := Some(p.free[0]));
    assert forall f, i: nat :: Carries(q, frames, f, i) <==> Carries(p, frames, f, i);
    assert forall i: nat :: Owned(q, frames, i) <==> Owned(p, frames, i) || i == p.free[0];
  }

  lemma PoolTakesBack(p: Pool, frames: map<nat, SharedNv12Frame>)
    requires PoolOk(p, frames) && p.converting.Some?
    ensures PoolOk(p.(free := p.free + [p.converting.value], converting := None), frames)
  {
    hide NoRepeats;
    var i := p.converting.value;
    assert Owned(p, frames, i);
    PutLast(p.free, i);
    var q := p.(free := p.free + [i], converting := None);
    assert forall f, i: nat :: Carries(q, frames, f, i) <==> Carries(p, frames, f, i);
    assert forall j: nat :: Owned(p, frames, j) <==> Owned(q, frames, j) || j == i;
  }

  /** The converted buffer becomes a frame's. */
  lemma PoolWraps(p: Pool, frames: map<nat, SharedNv12Frame>, f: nat, frame: SharedNv12Frame)
    requires PoolOk(p, frames) && p.converting.Some? && frame.fd == p.fds[p.converting.value] && f !in frames
    ensures PoolOk(p.(converting := None), frames[f := frame])
  {
    hide NoRepeats;
    var q, frames', c := p.(converting := None), frames[f := frame], p.converting.value;
    assert forall g, i: nat :: Carries(q, frames', g, i) <==> Carries(p, frames, g, i) || (g == f && i == c);
    assert Carries(q, frames', f, c);
    assert forall i: nat :: Owned(q, frames', i) <==> Owned(p, frames, i);
  }

  /** A dead frame's buffer goes back. */
  lemma PoolUnwraps(p: Pool, frames: map<nat, SharedNv12Frame>, f: nat)
    requires PoolOk(p, frames) && f in frames
    ensures PoolOk(p.(free := p.free + [p.fdToIndex[frames[f].fd]]), frames - {f})
  {
    hide NoRepeats;
    var i, frames' := p.fdToIndex[frames[f].fd], frames - {f};
    var q := p.(free := p.free + [i]);
    assert Carries(p, frames, f, i);
    PutLast(p.free, i);
    assert forall g, j: nat :: Carries(q, frames', g, j) <==> Carries(p, frames, g, j) && g != f;
    assert forall j: nat :: Owned(p, frames, j) <==> Owned(q, frames', j) || j == i;
  }

  /** A use count changes nothing for the pool. */
  lemma PoolIgnoresCounts(p: Pool, frames: map<nat, SharedNv12Frame>, f: nat, n: nat)
    requires PoolOk(p, frames) && f in frames
    ensures PoolOk(p, frames[f := frames[f].(useCount := n)])
  {
    var frames' := frames[f := frames[f].(useCount := n)];
    assert forall g, i: nat :: Carries(p, frames', g, i) <==> Carries(p, frames, g, i);
    assert forall i: nat :: Owned(p, frames', i) <==> Owned(p, frames, i);
  }

  // ---- the shared frames -----------------------------------------------------------------

  predicate AtEncoder(s: Sharing, f: nat) {
    f in s.frames && s.frames[f].fd in s.pending && s.pending[s.frames[f].fd] == f
  }

  /** How many holders a frame has. */
  function Uses(s: Sharing, f: nat): nat {
    One(s.local == Some(f)) + One(AtEncoder(s, f)) + multiset(s.eyeQueue)[f] + One(s.eyeLocal == Some(f))
  }

  /** Holders hold live frames, and every use count is right, but for one use about to be given up. */
  ghost predicate CountsOk(s: Sharing, leaving: Option<nat>) {
    && (s.local.Some? ==> s.local.value in s.frames)
    && (forall fd :: fd in s.pending ==> s.pending[fd] in s.frames && s.frames[s.pending[fd]].fd == fd)
    && (forall f :: f in s.eyeQueue ==> f in s.frames)
    && (s.eyeLocal.Some? ==> s.eyeLocal.value in s.frames)
    && (leaving.Some? ==> leaving.value in s.frames)
    && (forall f :: f in s.frames ==> 0 < s.frames[f].useCount == Uses(s, f) + One(leaving == Some(f)))
  }

  function SetCount(s: Sharing, f: nat, n: nat): Sharing
    requires f in s.frames
  {
    s.(frames := s.frames[f := s.frames[f].(useCount := n)])
  }

  lemma SetCountKeepsUses(s: Sharing, f: nat, n: nat)
    requires f in s.frames
    ensures forall g :: Uses(SetCount(s, f, n), g) == Uses(s, g)
  {
    hide Uses;
    forall g ensures Uses(SetCount(s, f, n), g) == Uses(s, g) {
      UsesOf(s, g);
      UsesOf(SetCount(s, f, n), g);
    }
  }

  lemma UsesOf(s: Sharing, f: nat)
    ensures Uses(s, f)
         == One(s.local == Some(f)) + One(AtEncoder(s, f)) + multiset(s.eyeQueue)[f] + One(s.eyeLocal == Some(f))
  {}

  /** One use is given up, others remain. */
  lemma UseLeaves(s: Sharing, f: nat)
    requires CountsOk(s, Some(f)) && s.frames[f].useCount > 1
    ensures CountsOk(SetCount(s, f, s.frames[f].useCount - 1), None)
  {
    hide Uses;
    SetCountKeepsUses(s, f, s.frames[f].useCount - 1);
  }

  lemma Queued(q: seq<nat>, f: nat)
    ensures f in q <==> multiset(q)[f] > 0
  {
    assert f in q <==> f in multiset(q);
  }

  /** The last use is given up: nobody holds the frame, and it dies. */
  lemma LastUseLeaves(s: Sharing, f: nat)
    requires CountsOk(s, Some(f)) && s.frames[f].useCount == 1
    ensures CountsOk(s.(frames := s.frames - {f}), None)
  {
    var s' := s.(frames := s.frames - {f});
    assert Uses(s, f) == 0;
    assert s.eyeLocal != Some(f) && s.local != Some(f);
    Queued(s.eyeQueue, f);
    forall fd | fd in s.pending ensures s.pending[fd] != f {
      assert s.pending[fd] == f ==> AtEncoder(s, f);
    }
    forall g | g in s'.frames ensures Uses(s', g) == Uses(s, g) {
      assert AtEncoder(s', g) == AtEncoder(s, g);
    }
  }

  /** A fresh frame, held by the encode thread. */
  lemma FrameMade(s: Sharing, f: nat, frame: SharedNv12Frame)
    requires CountsOk(s, None) && f !in s.frames && s.local == None && frame.useCount == 1 && frame.fd !in s.pending
    ensures CountsOk(s.(frames := s.frames[f := frame], local := Some(f)), None)
  {
    var s' := s.(frames := s.frames[f := frame], local := Some(f));
    Queued(s.eyeQueue, f);
    assert Uses(s', f) == 1;
    forall g | g in s.frames ensures Uses(s', g) == Uses(s, g) {
      assert AtEncoder(s', g) == AtEncoder(s, g);
    }
  }

  /** One more use is taken, for a holder still to come. */
  lemma UseTaken(s: Sharing, f: nat)
    requires CountsOk(s, None) && f in s.frames
    ensures var t := SetCount(s, f, s.frames[f].useCount + 1);
            CountsOk(t, Some(f)) && t.pending == s.pending && t.eyeQueue == s.eyeQueue && t.frames.Keys == s.frames.Keys
            && t.frames[f].fd == s.frames[f].fd
  {
    hide Uses;
    SetCountKeepsUses(s, f, s.frames[f].useCount + 1);
  }

  /** The encode thread's frame is registered as pending. */
  lemma FrameRegistered(s: Sharing, f: nat)
    requires CountsOk(s, None) && f in s.frames && s.frames[f].fd !in s.pending
    ensures var t := SetCount(s, f, s.frames[f].useCount + 1);
            CountsOk(t.(pending := t.pending[s.frames[f].fd := f]), None)
  {
    UseTaken(s, f);
    HolderAdded(SetCount(s, f, s.frames[f].useCount + 1), f);
    hide *;
  }

  lemma HolderAdded(s: Sharing, f: nat)
    requires CountsOk(s, Some(f)) && s.frames[f].fd !in s.pending
    ensures CountsOk(s.(pending := s.pending[s.frames[f].fd := f]), None)
  {
    PendingUses(s, f);
    hide Uses;
  }

  lemma PendingUses(s: Sharing, f: nat)
    requires f in s.frames && s.frames[f].fd !in s.pending
    requires forall fd :: fd in s.pending ==> s.pending[fd] in s.frames && s.frames[s.pending[fd]].fd == fd
    ensures var s' := s.(pending := s.pending[s.frames[f].fd := f]);
            forall g :: g in s.frames ==> Uses(s', g) == Uses(s, g) + One(g == f)
  {
    var s' := s.(pending := s.pending[s.frames[f].fd := f]);
    forall g | g in s.frames ensures Uses(s', g) == Uses(s, g) + One(g == f) {
      assert AtEncoder(s', g) <==> AtEncoder(s, g) || g == f;
    }
  }

  /** A pending entry is erased; its use is about to be given up. */
  lemma FrameUnregistered(s: Sharing, fd: int)
    requires CountsOk(s, None) && fd in s.pending
    ensures CountsOk(s.(pending := s.pending - {fd}), Some(s.pending[fd]))
  {
    var f, s' := s.pending[fd], s.(pending := s.pending - {fd});
    assert AtEncoder(s, f);
    forall g | g in s.frames ensures Uses(s, g) == Uses(s', g) + One(g == f) {
      assert AtEncoder(s, g) <==> AtEncoder(s', g) || g == f;
    }
  }

  /** The encode thread lets go. */
  lemma LocalLeaves(s: Sharing)
    requires CountsOk(s, None) && s.local.Some?
    ensures CountsOk(s.(local := None), s.local)
  {
    var s' := s.(local := None);
    forall g | g in s.frames ensures Uses(s, g) == Uses(s', g) + One(s.local == Some(g)) {
      assert AtEncoder(s', g) == AtEncoder(s, g);
    }
  }

  lemma EyeLocalLeaves(s: Sharing)
    requires CountsOk(s, None) && s.eyeLocal.Some?
    ensures CountsOk(s.(eyeLocal := None), s.eyeLocal)
  {
    var s' := s.(eyeLocal := None);
    forall g | g in s.frames ensures Uses(s, g) == Uses(s', g) + One(s.eyeLocal == Some(g)) {
      assert AtEncoder(s', g) == AtEncoder(s, g);
    }
  }

  lemma QueueGrows(q: seq<nat>, f: nat)
    ensures forall g :: multiset(q + [f])[g] == multiset(q)[g] + One(g == f)
  {}

  lemma QueueShrinks(q: seq<nat>)
    requires |q| > 0
    ensures q == [q[0]] + q[1..] && forall g :: multiset(q)[g] == multiset(q[1..])[g] + One(g == q[0])
  {
    assert q == [q[0]] + q[1..];
  }

  /** A held frame is queued for the eye thread. */
  lemma FrameQueued(s: Sharing, f: nat)
    requires CountsOk(s, None) && f in s.frames
    ensures var t := SetCount(s, f, s.frames[f].useCount + 1);
            CountsOk(t.(eyeQueue := s.eyeQueue + [f]), None)
  {
    UseTaken(s, f);
    QueuedHolderAdded(SetCount(s, f, s.frames[f].useCount + 1), f);
    hide *;
  }

  lemma QueuedHolderAdded(s: Sharing, f: nat)
    requires CountsOk(s, Some(f))
    ensures CountsOk(s.(eyeQueue := s.eyeQueue + [f]), None)
  {
    QueueUses(s, f);
    hide Uses;
  }

  lemma QueueUses(s: Sharing, f: nat)
    ensures var s' := s.(eyeQueue := s.eyeQueue + [f]);
            forall g :: g in s.frames ==> Uses(s', g) == Uses(s, g) + One(g == f)
  {
    var s' := s.(eyeQueue := s.eyeQueue + [f]);
    QueueGrows(s.eyeQueue, f);
    forall g | g in s.frames ensures Uses(s', g) == Uses(s, g) + One(g == f) {
      assert AtEncoder(s', g) == AtEncoder(s, g);
    }
  }

  /** A queued frame is skipped. */
  lemma FrameSkipped(s: Sharing)
    requires CountsOk(s, None) && |s.eyeQueue| > 0
    ensures CountsOk(s.(eyeQueue := s.eyeQueue[1..]), Some(s.eyeQueue[0]))
  {
    var s' := s.(eyeQueue := s.eyeQueue[1..]);
    QueueShrinks(s.eyeQueue);
    forall g | g in s.frames ensures Uses(s, g) == Uses(s', g) + One(g == s.eyeQueue[0]) {
      assert AtEncoder(s', g) == AtEncoder(s, g);
    }
  }

  /** The eye thread takes the front frame: a holder changes, the count does not. */
  lemma FrameTaken(s: Sharing)
    requires CountsOk(s, None) && |s.eyeQueue| > 0 && s.eyeLocal == None
    ensures CountsOk(s.(eyeQueue := s.eyeQueue[1..], eyeLocal := Some(s.eyeQueue[0])), None)
  {
    var s' := s.(eyeQueue := s.eyeQueue[1..], eyeLocal := Some(s.eyeQueue[0]));
    QueueShrinks(s.eyeQueue);
    forall g | g in s.frames ensures Uses(s, g) == Uses(s', g) {
      assert AtEncoder(s', g) == AtEncoder(s, g);
    }
  }

  // ---- the encoder's input slots ---------------------------------------------------------

  /**
   The slots the driver does not hold, and the buffer in each it does; a buffer the pipeline has
   registered while the encoder does not hold it; a slot the driver gave back that is not free yet.
   */
  datatype Slots = Slots(count: nat, free: seq<nat>, toFd: map<nat, int>, handing: Option<int>, draining: Option<nat>)

  ghost predicate Held(e: Slots, fd: int) {
    exists s :: s in e.toFd && e.toFd[s] == fd
  }

  /** Every slot is free, once, or in flight; the pending frames are those whose buffer the encoder holds. */
  ghost predicate SlotsOk(e: Slots, pending: map<int, nat>) {
    && NoRepeats(e.free)
    && (forall s :: s in e.free ==> s < e.count)
    && (forall s: nat :: s < e.count ==> (s in e.free <==> s !in e.toFd && e.draining != Some(s)))
    && (forall s :: s in e.toFd ==> s < e.count)
    && (e.draining.Some? ==> e.draining.value < e.count && e.draining.value !in e.toFd)
    && (forall s, t :: s in e.toFd && t in e.toFd && e.toFd[s] == e.toFd[t] ==> s == t)
    && (forall fd :: fd in pending <==> Held(e, fd) || e.handing == Some(fd))
    && (e.handing.Some? ==> !Held(e, e.handing.value))
  }

  lemma SlotRegisters(e: Slots, pending: map<int, nat>, fd: int, f: nat)
    requires SlotsOk(e, pending) && e.handing == None && fd !in pending
    ensures SlotsOk(e.(handing := Some(fd)), pending[fd := f])
  {
    assert forall x :: Held(e.(handing := Some(fd)), x) <==> Held(e, x);
  }

  lemma SlotUnregisters(e: Slots, pending: map<int, nat>)
    requires SlotsOk(e, pending) && e.handing.Some?
    ensures SlotsOk(e.(handing := None), pending - {e.handing.value})
  {
    assert forall x :: Held(e.(handing := None), x) <==> Held(e, x);
  }

  /** submit, accepted: the first free slot takes the registered buffer. */
  lemma SlotFills(e: Slots, pending: map<int, nat>)
    requires SlotsOk(e, pending) && e.handing.Some? && e.free != []
    ensures SlotsOk(e.(free := e.free[1..], toFd := e.toFd[e.free[0] := e.handing.value], handing := None), pending)
  {
    hide NoRepeats;
    TakeFirst(e.free);
    var s := e.free[0];
    var e' := e.(free := e.free[1..], toFd := e.toFd[s := e.handing.value], handing := None);
    assert s !in e.toFd && e'.toFd[s] == e.handing.value;
    forall x ensures Held(e', x) <==> Held(e, x) || x == e.handing.value {
      if t :| t in e.toFd && e.toFd[t] == x {
        assert e'.toFd[t] == x;
      }
    }
  }

  /** submit, refused: the slot goes to the back. */
  lemma SlotReturns(e: Slots, pending: map<int, nat>)
    requires SlotsOk(e, pending) && e.free != []
    ensures SlotsOk(e.(free := e.free[1..] + [e.free[0]]), pending)
  {
    hide NoRepeats;
    TakeFirst(e.free);
    PutLast(e.free[1..], e.free[0]);
    assert forall x :: Held(e.(free := e.free[1..] + [e.free[0]]), x) <==> Held(e, x);
  }

  /** The driver gives a slot back. */
  lemma SlotEmpties(e: Slots, pending: map<int, nat>, s: nat)
    requires SlotsOk(e, pending) && s in e.toFd && e.handing == None && e.draining == None
    ensures SlotsOk(e.(toFd := e.toFd - {s}, handing := Some(e.toFd[s]), draining := Some(s)), pending)
  {
    hide NoRepeats;
    var e' := e.(toFd := e.toFd - {s}, handing := Some(e.toFd[s]), draining := Some(s));
    forall x ensures Held(e, x) <==> Held(e', x) || x == e.toFd[s] {
      if t :| t in e.toFd && e.toFd[t] == x && t != s {
        assert t in e'.toFd;
      }
    }
  }

  lemma SlotDrained(e: Slots, pending: map<int, nat>)
    requires SlotsOk(e, pending) && e.draining.Some?
    ensures SlotsOk(e.(free := e.free + [e.draining.value], draining := None), pending)
  {
    hide NoRepeats;
    PutLast(e.free, e.draining.value);
    assert forall x :: Held(e.(free := e.free + [e.draining.value], draining := None), x) <==> Held(e, x);
  }

  // ---- the pipeline ----------------------------------------------------------------------

  /** A buffer offered to the encoder, and its answer. */
  datatype Submission = Submission(fd: int, timestampUs: nat, accepted: bool)

  /** What the encoder says: it is up, the buffer passes its checks, the driver queues it. */
  datatype EncoderAnswers = EncoderAnswers(up: bool, usable: bool, queued: bool) {
    predicate Yes() {
      up && usable && queued
    }
  }

  /** A frame offered to the eye-image thread. */
  datatype Offer = Offer(fd: int, timestampUs: nat)

  /** One turn of the encode loop as the devices see it. */
  datatype Turn = Turn(returned: seq<nat>, usable: bool, converted: bool, timestampUs: nat, answers: EncoderAnswers,
                       wanted: bool)

  /** The buffers in these slots. */
  function FdsOf(slotToFd: map<nat, int>, slots: set<nat>): set<int> {
    set s | s in slots && s in slotToFd :: slotToFd[s]
  }

  lemma NothingReturned(slotToFd: map<nat, int>, pending: map<int, nat>)
    ensures slotToFd - Elements([]) == slotToFd && pending - FdsOf(slotToFd, Elements([])) == pending
  {}

  lemma NotYetReturned(slotToFd: map<nat, int>, returned: seq<nat>, n: nat)
    requires NoRepeats(returned) && n < |returned| && returned[n] in slotToFd
    ensures returned[n] in slotToFd - Elements(returned[..n])
  {}

  lemma OneReturned(slotToFd: map<nat, int>, pending: map<int, nat>, returned: seq<nat>, n: nat)
    requires n < |returned| && returned[n] in slotToFd
    ensures returned[..n] + [returned[n]] == returned[..n + 1]
    ensures slotToFd - Elements(returned[..n]) - {returned[n]} == slotToFd - Elements(returned[..n + 1])
    ensures pending - FdsOf(slotToFd, Elements(returned[..n])) - {slotToFd[returned[n]]}
         == pending - FdsOf(slotToFd, Elements(returned[..n + 1]))
  {
    assert Elements(returned[..n + 1]) == Elements(returned[..n]) + {returned[n]};
    assert FdsOf(slotToFd, Elements(returned[..n + 1]))
        == FdsOf(slotToFd, Elements(returned[..n])) + {slotToFd[returned[n]]};
  }

  class VideoPipeline {
    const fds: seq<int>
    const fdToIndex: map<int, nat>
    const inputSlots: nat
    var freeIndices: seq<nat>
    var frames: map<nat, SharedNv12Frame>
    var local: Option<nat>
    var pending: map<int, nat>
    var eyeQueue: seq<nat>
    var eyeLocal: Option<nat>
    var eyeInflight: bool
    var freeSlots: seq<nat>
    var slotToFd: map<nat, int>

    // Where the encode thread stands between two locked sections.
    ghost var converting: Option<nat>
    ghost var handing: Option<int>
    ghost var draining: Option<nat>
    ghost var claimed: bool
    // The eye thread has taken a frame and not reported it done.
    var eyeBusy: bool
    // All submissions to the encoder and all frames queued for the eye thread so far.
    ghost var submitted: seq<Submission>
    ghost var offered: seq<Offer>

    ghost function ThePool(): Pool
      reads `freeIndices, `converting
    {
      Pool(fds, fdToIndex, freeIndices, converting)
    }

    ghost function TheSharing(): Sharing
      reads `frames, `local, `pending, `eyeQueue, `eyeLocal
    {
      Sharing(frames, local, pending, eyeQueue, eyeLocal)
    }

    ghost function TheSlots(): Slots
      reads `freeSlots, `slotToFd, `handing, `draining
    {
      Slots(inputSlots, freeSlots, slotToFd, handing, draining)
    }

    ghost predicate Sound(leaving: Option<nat>)
      reads `freeIndices, `converting, `frames, `local, `pending, `eyeQueue, `eyeLocal
      reads `freeSlots, `slotToFd, `handing, `draining
    {
      PoolOk(ThePool(), frames) && CountsOk(TheSharing(), leaving) && SlotsOk(TheSlots(), pending)
    }

    /**
     Every pool index is free once or owned once, every use count is exact, every slot is free
     once or in flight, and the pending frames are exactly those at the encoder.
     */
    ghost predicate Valid()
      reads `freeIndices, `converting, `frames, `local, `pending, `eyeQueue, `eyeLocal
      reads `freeSlots, `slotToFd, `handing, `draining
    {
      Sound(None)
    }

    /** The encode thread is between two frames. */
    ghost predicate AtRest()
      reads `local, `converting, `handing, `draining, `claimed
    {
      local == None && converting == None && handing == None && draining == None && !claimed
    }

    /** At most one frame is on its way through the eye-image thread, and the flag says so. */
    ghost predicate OneInFlight()
      reads `eyeQueue, `eyeInflight, `eyeBusy, `claimed
    {
      |eyeQueue| + One(eyeBusy) + One(claimed) == One(eyeInflight)
    }

    constructor (fds: seq<int>, inputSlots: nat)
      requires forall i :: 0 <= i < |fds| ==> fds[i] >= 0
      requires forall i, j :: 0 <= i < j < |fds| ==> fds[i] != fds[j]
      ensures this.fds == fds && this.inputSlots == inputSlots
      ensures Valid() && AtRest() && OneInFlight() && !eyeInflight
      ensures |freeIndices| == |fds| && |freeSlots| == inputSlots && submitted == [] && offered == []
    {
      this.fds, this.inputSlots := fds, inputSlots;
      fdToIndex := map fd | fd in fds :: FirstIndex(fds, fd);
      freeIndices, freeSlots := seq(|fds|, i => i), seq(inputSlots, i => i);
      frames, local, pending, eyeQueue, eyeLocal, eyeInflight, eyeBusy := map[], None, map[], [], None, false, false;
      slotToFd, converting, handing, draining, claimed := map[], None, None, None, false;
      submitted, offered := [], [];
      new;
      hide PoolOk, CountsOk, SlotsOk;
      FreshPool(ThePool());
      FreshSlots(TheSlots());
      FreshSharing(TheSharing());
    }

    /** No frame came to life, and the live ones carry their buffers. */
    twostate predicate FdsKept()
      reads `frames
    {
      forall g :: g in frames ==>
        g in old(frames) && frames[g].fd == old(frames)[g].fd && frames[g].timestampUs == old(frames)[g].timestampUs
    }

    /** releaseFd: the buffer goes back to the pool. */
    method ReleaseFd(fd: int)
      modifies `freeIndices
      ensures freeIndices == if fd in fdToIndex then old(freeIndices) + [fdToIndex[fd]] else old(freeIndices)
    {
      if fd in fdToIndex {
        freeIndices := freeIndices + [fdToIndex[fd]];
      }
    }

    /** A holder has let go of a frame; the last one returns its buffer to the pool. */
    method GiveUp(f: nat)
      requires Sound(Some(f))
      modifies `frames, `freeIndices
      ensures Valid() && FdsKept() && old(freeIndices) <= freeIndices
    {
      hide PoolOk, CountsOk, SlotsOk;
      assert f in frames && frames[f].useCount > 0 && frames[f].fd in fdToIndex by { LeavingIsLive(f); }
      if frames[f].useCount > 1 {
        UseLeaves(TheSharing(), f);
        PoolIgnoresCounts(ThePool(), frames, f, frames[f].useCount - 1);
        frames := frames[f := frames[f].(useCount := frames[f].useCount - 1)];
      } else {
        LastUseLeaves(TheSharing(), f);
        PoolUnwraps(ThePool(), frames, f);
        ReleaseFd(frames[f].fd);
        frames := frames - {f};
      }
    }

    lemma LeavingIsLive(f: nat)
      requires Sound(Some(f))
      ensures f in frames && frames[f].useCount > 0 && frames[f].fd in fdToIndex
    {}

    // ---- video_converter.cpp ---------------------------------------------------------------

    /**
     transformSync of the converter or, where undistortion is on, processYuv422 of the undistorter;
     both keep their pool in the same way. It writes to the oldest free buffer, which goes to the
     back on a failure; without a usable input or device the pool is not touched.
     */
    method TransformSync(usable: bool, converted: bool) returns (fd: Option<int>)
      requires Valid() && AtRest()
      modifies `freeIndices, `converting
      ensures Valid() && handing == None && draining == None && local == None && !claimed
      ensures fd.Some? <==> usable && converted && old(freeIndices) != []
      ensures fd.None? ==> AtRest()
      ensures fd.Some? ==> converting.Some? && converting.value < |fds| && fds[converting.value] == fd.value
      ensures fd.Some? ==> old(freeIndices) == [converting.value] + freeIndices
      ensures fd.None? ==>
        freeIndices == if usable && old(freeIndices) != [] then old(freeIndices)[1..] + [old(freeIndices)[0]]
                       else old(freeIndices)
    {
      hide PoolOk, CountsOk, SlotsOk;
      if !usable || freeIndices == [] {
        return None;
      }
      PoolTakes(ThePool(), frames);
      var index := freeIndices[0];
      freeIndices := freeIndices[1..];
      converting := Some(index);
      if !converted {
        PoolTakesBack(ThePool(), frames);
        freeIndices := freeIndices + [index];
        converting := None;
        return None;
      }
      fd := Some(fds[index]);
    }

    // ---- video_encoder.cpp -----------------------------------------------------------------

    /** submit: accepted exactly when a slot is free and every check and the driver say yes. */
    method Submit(fd: int, timestampUs: nat, answers: EncoderAnswers) returns (accepted: bool)
      requires Valid() && handing == Some(fd)
      modifies `freeSlots, `slotToFd, `handing, `submitted
      ensures Valid()
      ensures accepted <==> old(freeSlots) != [] && answers.Yes()
      ensures submitted == old(submitted) + [Submission(fd, timestampUs, accepted)]
      ensures handing == if accepted then None else Some(fd)
      ensures accepted ==> freeSlots == old(freeSlots)[1..] && slotToFd == old(slotToFd)[old(freeSlots)[0] := fd]
      ensures !accepted ==>
        && slotToFd == old(slotToFd)
        && freeSlots == if answers.up && old(freeSlots) != [] then old(freeSlots)[1..] + [old(freeSlots)[0]]
                        else old(freeSlots)
    {
      hide PoolOk, CountsOk, SlotsOk;
      accepted := TakeSlot(fd, answers);
      submitted := submitted + [Submission(fd, timestampUs, accepted)];
    }

    method TakeSlot(fd: int, answers: EncoderAnswers) returns (accepted: bool)
      requires Valid() && handing == Some(fd)
      modifies `freeSlots, `slotToFd, `handing
      ensures Valid()
      ensures accepted <==> old(freeSlots) != [] && answers.Yes()
      ensures handing == if accepted then None else Some(fd)
      ensures accepted ==> freeSlots == old(freeSlots)[1..] && slotToFd == old(slotToFd)[old(freeSlots)[0] := fd]
      ensures !accepted ==>
        && slotToFd == old(slotToFd)
        && freeSlots == if answers.up && old(freeSlots) != [] then old(freeSlots)[1..] + [old(freeSlots)[0]]
                        else old(freeSlots)
    {
      hide PoolOk, CountsOk, SlotsOk;
      if !answers.up || freeSlots == [] {
        return false;
      }
      SlotReturns(TheSlots(), pending);
      SlotFills(TheSlots(), pending);
      SlotIsNew();
      var index := freeSlots[0];
      freeSlots := freeSlots[1..];
      if !answers.usable {
        freeSlots := freeSlots + [index];
        return false;
      }
      slotToFd := slotToFd[index := fd];
      if !answers.queued {
        slotToFd := slotToFd - {index};
        assert slotToFd == old(slotToFd);
        freeSlots := freeSlots + [index];
        return false;
      }
      handing := None;
      accepted := true;
    }

    lemma SlotIsNew()
      requires Valid() && freeSlots != []
      ensures freeSlots[0] !in slotToFd
    {
      assert freeSlots[0] in freeSlots;
    }

    /** The driver gives back slots it has, each once. */
    predicate MayReturn(returned: seq<nat>)
      reads `slotToFd
    {
      && (forall i, j :: 0 <= i < j < |returned| ==> returned[i] != returned[j])
      && (forall s :: s in returned ==> s in slotToFd)
    }

    /** drainInputDone: the driver gives back any of the slots it has, in any order; their frames are let go. */
    method DrainInputDone(returned: seq<nat>)
      requires Valid() && AtRest() && MayReturn(returned)
      modifies `slotToFd, `handing, `draining, `freeSlots, `pending, `frames, `freeIndices
      ensures Valid() && AtRest() && FdsKept() && old(freeIndices) <= freeIndices
      ensures freeSlots == old(freeSlots) + returned
      ensures slotToFd == old(slotToFd) - Elements(returned)
      ensures pending == old(pending) - FdsOf(old(slotToFd), Elements(returned))
    {
      hide VideoPipeline.Valid;
      ghost var was, known := slotToFd, pending;
      NothingReturned(was, known);
      assert returned[..0] == [];
      for n := 0 to |returned|
        invariant Valid() && AtRest() && FdsKept() && old(freeIndices) <= freeIndices
        invariant freeSlots == old(freeSlots) + returned[..n]
        invariant slotToFd == was - Elements(returned[..n])
        invariant pending == known - FdsOf(was, Elements(returned[..n]))
      {
        var slot := returned[n];
        NotYetReturned(was, returned, n);
        DrainOne(slot);
        OneReturned(was, known, returned, n);
      }
      assert returned[..|returned|] == returned;
    }

    method DrainOne(slot: nat)
      requires Valid() && AtRest() && slot in slotToFd
      modifies `slotToFd, `handing, `draining, `freeSlots, `pending, `frames, `freeIndices
      ensures Valid() && AtRest() && FdsKept() && old(freeIndices) <= freeIndices
      ensures freeSlots == old(freeSlots) + [slot] && slotToFd == old(slotToFd) - {slot}
      ensures pending == old(pending) - {old(slotToFd)[slot]}
    {
      hide PoolOk, CountsOk, SlotsOk;
      var fd := slotToFd[slot];
      SlotEmpties(TheSlots(), pending, slot);
      slotToFd := slotToFd - {slot};
      handing, draining := Some(fd), Some(slot);
      OnEncoderInputDone(fd);
      FreeSlot(slot);
    }

    method FreeSlot(slot: nat)
      requires Valid() && draining == Some(slot)
      modifies `freeSlots, `draining
      ensures Valid() && draining == None && freeSlots == old(freeSlots) + [slot]
    {
      hide PoolOk, CountsOk, SlotsOk;
      SlotDrained(TheSlots(), pending);
      freeSlots := freeSlots + [slot];
      draining := None;
    }

    // ---- video_stream_manager.cpp ----------------------------------------------------------

    /** onEncoderInputDone: the buffer is always known, so nothing is released behind a frame's back. */
    method OnEncoderInputDone(fd: int)
      requires Valid() && handing == Some(fd)
      modifies `pending, `frames, `freeIndices, `handing
      ensures Valid() && handing == None && pending == old(pending) - {fd}
      ensures FdsKept() && old(freeIndices) <= freeIndices
    {
      hide PoolOk, CountsOk, SlotsOk;
      HandedIsPending(fd);
      Unregister(fd);
    }

    lemma HandedIsPending(fd: int)
      requires Valid() && handing == Some(fd)
      ensures fd in pending
    {}

    /** An entry of the pending map is erased, and its use of the frame with it. */
    method Unregister(fd: int)
      requires Valid() && handing == Some(fd) && fd in pending
      modifies `pending, `frames, `freeIndices, `handing
      ensures Valid() && handing == None && pending == old(pending) - {fd}
      ensures FdsKept() && old(freeIndices) <= freeIndices
    {
      hide PoolOk, CountsOk, SlotsOk;
      var released := pending[fd];
      FrameUnregistered(TheSharing(), fd);
      SlotUnregisters(TheSlots(), pending);
      pending := pending - {fd};
      handing := None;
      GiveUp(released);
    }

    /** makeSharedNv12Frame. */
    method MakeSharedNv12Frame(fd: int, timestampUs: nat) returns (f: nat)
      requires Valid() && converting.Some? && converting.value < |fds| && fds[converting.value] == fd && local == None
      modifies `frames, `local, `converting
      ensures Valid() && converting == None && local == Some(f) && fd !in pending
      ensures f !in old(frames) && frames == old(frames)[f := SharedNv12Frame(fd, timestampUs, 1)]
    {
      hide PoolOk, CountsOk, SlotsOk;
      SomeFreshId(frames.Keys);
      f :| f !in frames;
      var frame := SharedNv12Frame(fd, timestampUs, 1);
      ConvertedIsUnknown(fd);
      PoolWraps(ThePool(), frames, f, frame);
      FrameMade(TheSharing(), f, frame);
      frames := frames[f := frame];
      local, converting := Some(f), None;
    }

    /** A buffer just converted is no frame's, so it is not pending. */
    lemma ConvertedIsUnknown(fd: int)
      requires Valid() && converting.Some? && converting.value < |fds| && fds[converting.value] == fd
      ensures fd !in pending
    {
      if fd in pending {
        assert Carries(ThePool(), frames, pending[fd], converting.value);
      }
    }

    /** The frame goes into the pending map before the encoder sees its buffer. */
    method Register(f: nat)
      requires Valid() && local == Some(f) && f in frames && frames[f].fd !in pending && handing == None
      modifies `frames, `pending, `handing
      ensures Valid() && handing == Some(old(frames[f].fd)) && handing.value in pending
      ensures frames.Keys == old(frames.Keys) && FdsKept() && pending == old(pending)[old(frames[f].fd) := f]
    {
      hide PoolOk, CountsOk, SlotsOk;
      var fd := frames[f].fd;
      FrameRegistered(TheSharing(), f);
      PoolIgnoresCounts(ThePool(), frames, f, frames[f].useCount + 1);
      SlotRegisters(TheSlots(), pending, fd, f);
      frames := frames[f := frames[f].(useCount := frames[f].useCount + 1)];
      pending := pending[fd := f];
      handing := Some(fd);
    }

    /** The shared pointer of onConverterOutput goes out of scope. */
    method DropLocal()
      requires Valid() && local.Some?
      modifies `local, `frames, `freeIndices
      ensures Valid() && local == None && FdsKept() && old(freeIndices) <= freeIndices
    {
      hide PoolOk, CountsOk, SlotsOk;
      var f := local.value;
      LocalLeaves(TheSharing());
      local := None;
      GiveUp(f);
    }

    /** maybeEnqueueEyeImageFrame: unwanted for any of its reasons, or skipped because a frame is in flight. */
    method MaybeEnqueueEyeImageFrame(f: nat, wanted: bool)
      requires Valid() && local == Some(f) && f in frames && !claimed
      modifies `frames, `freeIndices, `eyeQueue, `eyeLocal, `eyeInflight, `eyeBusy, `claimed, `offered
      ensures Valid() && !claimed && FdsKept() && old(freeIndices) <= freeIndices
      ensures old(OneInFlight()) ==> OneInFlight()
      ensures wanted && !old(eyeInflight) ==>
        eyeQueue == [f] && offered == old(offered) + [Offer(old(frames)[f].fd, old(frames)[f].timestampUs)]
      ensures !(wanted && !old(eyeInflight)) ==>
        unchanged(`eyeQueue, `frames, `offered, `freeIndices, `eyeLocal, `eyeInflight, `eyeBusy)
    {
      hide VideoPipeline.Valid;
      if !wanted || eyeInflight {
        return;
      }
      eyeInflight, claimed := true, true;
      EyeImageThread();
      while eyeQueue != []
        invariant Valid() && claimed && FdsKept() && old(freeIndices) <= freeIndices && offered == old(offered)
        invariant old(OneInFlight()) ==> OneInFlight()
        decreases |eyeQueue|
      {
        SkipOne();
      }
      Enqueue(f);
    }

    method Enqueue(f: nat)
      requires Valid() && local == Some(f) && claimed
      modifies `frames, `eyeQueue, `claimed, `offered
      ensures Valid() && FdsKept() && !claimed && eyeQueue == old(eyeQueue) + [f]
      ensures f in old(frames) && offered == old(offered) + [Offer(old(frames)[f].fd, old(frames)[f].timestampUs)]
      ensures old(OneInFlight()) ==> OneInFlight()
    {
      hide PoolOk, CountsOk, SlotsOk;
      LocalIsLive(f);
      FrameQueued(TheSharing(), f);
      PoolIgnoresCounts(ThePool(), frames, f, frames[f].useCount + 1);
      offered := offered + [Offer(frames[f].fd, frames[f].timestampUs)];
      frames := frames[f := frames[f].(useCount := frames[f].useCount + 1)];
      eyeQueue := eyeQueue + [f];
      claimed := false;
    }

    lemma LocalIsLive(f: nat)
      requires Valid() && local == Some(f)
      ensures f in frames
    {}

    /** Drops the oldest queued frame. */
    method SkipOne()
      requires Valid() && eyeQueue != []
      modifies `frames, `freeIndices, `eyeQueue
      ensures Valid() && FdsKept() && old(freeIndices) <= freeIndices && eyeQueue == old(eyeQueue)[1..]
      ensures old(OneInFlight()) && |old(eyeQueue)| > 1 ==> OneInFlight()
    {
      hide PoolOk, CountsOk, SlotsOk;
      var f := eyeQueue[0];
      FrameSkipped(TheSharing());
      eyeQueue := eyeQueue[1..];
      GiveUp(f);
    }

    /** The eye-image thread, for any number of steps: take the latest frame, report done, let go. */
    method EyeImageThread()
      requires Valid()
      modifies `frames, `freeIndices, `eyeQueue, `eyeLocal, `eyeInflight, `eyeBusy
      ensures Valid() && FdsKept() && old(freeIndices) <= freeIndices && (eyeInflight ==> old(eyeInflight))
      ensures old(OneInFlight()) ==> OneInFlight()
    {
      hide PoolOk, CountsOk, SlotsOk;
      var steps :| steps >= 0;
      for step := 0 to steps
        invariant Valid() && FdsKept() && old(freeIndices) <= freeIndices && (eyeInflight ==> old(eyeInflight))
        invariant old(OneInFlight()) ==> OneInFlight()
      {
        if eyeLocal.Some? {
          if eyeBusy {
            EyeReports();
          } else {
            EyeLetsGo();
          }
        } else if eyeQueue != [] && !eyeBusy {
          EyeTakes();
        }
      }
    }

    /** The image is done: the next frame may be queued, while this one is still held. */
    method EyeReports()
      requires Valid() && eyeLocal.Some? && eyeBusy
      modifies `eyeInflight, `eyeBusy
      ensures Valid() && !eyeBusy && !eyeInflight
      ensures old(OneInFlight()) ==> OneInFlight()
    {
      hide PoolOk, CountsOk, SlotsOk;
      eyeBusy, eyeInflight := false, false;
    }

    /** The queue part of eyeImageThreadMain. */
    method EyeTakes()
      requires Valid() && eyeLocal == None && eyeQueue != [] && !eyeBusy
      modifies `frames, `freeIndices, `eyeQueue, `eyeLocal, `eyeBusy
      ensures Valid() && FdsKept() && old(freeIndices) <= freeIndices
      ensures eyeBusy && eyeLocal == Some(old(eyeQueue)[|old(eyeQueue)| - 1]) && eyeQueue == []
      ensures old(OneInFlight()) ==> OneInFlight()
    {
      hide VideoPipeline.Valid, VideoPipeline.OneInFlight;
      while |eyeQueue| > 1
        invariant Valid() && FdsKept() && old(freeIndices) <= freeIndices
        invariant eyeQueue != [] && eyeLocal == None && !eyeBusy
        invariant eyeQueue[|eyeQueue| - 1] == old(eyeQueue)[|old(eyeQueue)| - 1]
        invariant old(OneInFlight()) ==> OneInFlight()
        decreases |eyeQueue|
      {
        SkipOne();
      }
      EyeTakesLast();
    }

    method EyeTakesLast()
      requires Valid() && eyeLocal == None && |eyeQueue| == 1 && !eyeBusy
      modifies `eyeQueue, `eyeLocal, `eyeBusy
      ensures Valid() && eyeBusy && eyeLocal == Some(old(eyeQueue)[0]) && eyeQueue == []
      ensures old(OneInFlight()) ==> OneInFlight()
    {
      hide PoolOk, CountsOk, SlotsOk;
      FrameTaken(TheSharing());
      eyeLocal := Some(eyeQueue[0]);
      eyeQueue := eyeQueue[1..];
      eyeBusy := true;
    }

    method EyeLetsGo()
      requires Valid() && eyeLocal.Some?
      modifies `frames, `freeIndices, `eyeLocal
      ensures Valid() && FdsKept() && old(freeIndices) <= freeIndices && eyeLocal == None
    {
      hide PoolOk, CountsOk, SlotsOk;
      var f := eyeLocal.value;
      EyeLocalLeaves(TheSharing());
      eyeLocal := None;
      GiveUp(f);
    }

    /**
     onConverterOutput, with the eye-image thread acting between its locked sections. The buffer is
     submitted once, with its time; the result is the encoder's answer. An accepted buffer takes the
     first free slot, its frame is pending, and it is offered to the eye-image thread if wanted and
     none is in flight; a refused one leaves no trace.
     */
    method OnConverterOutput(fd: int, timestampUs: nat, answers: EncoderAnswers, wanted: bool) returns (ok: bool)
      requires Valid() && converting.Some? && converting.value < |fds| && fds[converting.value] == fd
      requires local == None && handing == None && draining == None && !claimed
      modifies this
      ensures Valid() && AtRest() && old(freeIndices) <= freeIndices
      ensures old(OneInFlight()) ==> OneInFlight()
      ensures ok <==> old(freeSlots) != [] && answers.Yes()
      ensures submitted == old(submitted) + [Submission(fd, timestampUs, ok)]
      ensures ok ==> freeSlots == old(freeSlots)[1..] && slotToFd == old(slotToFd)[old(freeSlots)[0] := fd]
      ensures ok ==> fd in pending && pending[fd] in frames && pending == old(pending)[fd := pending[fd]]
                     && frames[pending[fd]].fd == fd && frames[pending[fd]].timestampUs == timestampUs
      ensures !ok ==> fd !in pending && pending == old(pending) && slotToFd == old(slotToFd) && offered == old(offered)
      ensures ok && wanted && !old(eyeInflight) ==> offered == old(offered) + [Offer(fd, timestampUs)]
      ensures !wanted ==> offered == old(offered)
      ensures offered == old(offered) || offered == old(offered) + [Offer(fd, timestampUs)]
    {
      hide VideoPipeline.Valid, VideoPipeline.OneInFlight;
      var f := Prepare(fd, timestampUs);
      ok := HandOver(f, fd, timestampUs, answers);
      Conclude(f, fd, timestampUs, ok, wanted);
    }

    /** The frame is made and registered. */
    method Prepare(fd: int, timestampUs: nat) returns (f: nat)
      requires Valid() && converting.Some? && converting.value < |fds| && fds[converting.value] == fd
      requires local == None && handing == None
      modifies `frames, `freeIndices, `local, `converting, `pending, `handing
      modifies `eyeQueue, `eyeLocal, `eyeInflight, `eyeBusy
      ensures Valid() && converting == None && local == Some(f) && handing == Some(fd)
      ensures old(freeIndices) <= freeIndices
      ensures fd !in old(pending) && pending == old(pending)[fd := f]
      ensures Carried(f, fd, timestampUs)
      ensures old(OneInFlight()) ==> OneInFlight()
      ensures eyeInflight ==> old(eyeInflight)
    {
      hide VideoPipeline.Valid, VideoPipeline.OneInFlight;
      f := MakeSharedNv12Frame(fd, timestampUs);
      EyeImageThread();
      LocalIsLive(f);
      Register(f);
      LocalIsLive(f);
    }

    /** The frame still carries this buffer and time. */
    ghost predicate Carried(f: nat, fd: int, timestampUs: nat)
      reads `frames
    {
      f in frames ==> frames[f].fd == fd && frames[f].timestampUs == timestampUs
    }

    /** The encoder is asked, with the eye-image thread acting before and after. */
    method HandOver(f: nat, fd: int, timestampUs: nat, answers: EncoderAnswers) returns (ok: bool)
      requires Valid() && handing == Some(fd) && Carried(f, fd, timestampUs)
      modifies `freeSlots, `slotToFd, `handing, `submitted
      modifies `frames, `freeIndices, `eyeQueue, `eyeLocal, `eyeInflight, `eyeBusy
      ensures Valid() && Carried(f, fd, timestampUs) && old(freeIndices) <= freeIndices
      ensures eyeInflight ==> old(eyeInflight)
      ensures old(OneInFlight()) ==> OneInFlight()
      ensures ok <==> old(freeSlots) != [] && answers.Yes()
      ensures submitted == old(submitted) + [Submission(fd, timestampUs, ok)]
      ensures handing == if ok then None else Some(fd)
      ensures ok ==> freeSlots == old(freeSlots)[1..] && slotToFd == old(slotToFd)[old(freeSlots)[0] := fd]
      ensures !ok ==> slotToFd == old(slotToFd)
    {
      hide VideoPipeline.Valid, VideoPipeline.OneInFlight;
      EyeImageThread();
      ok := Submit(fd, timestampUs, answers);
      EyeImageThread();
    }

    /** A refused frame is unregistered, an accepted one offered to the eye-image thread. */
    method Conclude(f: nat, fd: int, timestampUs: nat, ok: bool, wanted: bool)
      requires Valid() && local == Some(f) && converting == None && draining == None && !claimed
      requires fd in pending && pending[fd] == f && handing == if ok then None else Some(fd)
      requires Carried(f, fd, timestampUs)
      modifies `frames, `freeIndices, `local, `pending, `handing, `claimed
      modifies `eyeQueue, `eyeLocal, `eyeInflight, `eyeBusy, `offered
      ensures Valid() && AtRest() && old(freeIndices) <= freeIndices
      ensures pending == if ok then old(pending) else old(pending) - {fd}
      ensures ok ==> f in frames && frames[f].fd == fd && frames[f].timestampUs == timestampUs
      ensures old(OneInFlight()) ==> OneInFlight()
      ensures ok && wanted && !old(eyeInflight) ==> offered == old(offered) + [Offer(fd, timestampUs)]
      ensures !(ok && wanted && !old(eyeInflight)) ==> offered == old(offered)
    {
      hide VideoPipeline.Valid, VideoPipeline.OneInFlight;
      if !ok {
        Unregister(fd);
      } else {
        LocalIsLive(f);
        MaybeEnqueueEyeImageFrame(f, wanted);
      }
      LetGo(f, fd, timestampUs);
      if ok {
        PendingIsLive(fd);
      }
    }

    method LetGo(ghost f: nat, ghost fd: int, ghost timestampUs: nat)
      requires Valid() && local.Some? && Carried(f, fd, timestampUs)
      modifies `frames, `freeIndices, `local, `eyeQueue, `eyeLocal, `eyeInflight, `eyeBusy
      ensures Valid() && local == None && Carried(f, fd, timestampUs) && old(freeIndices) <= freeIndices
      ensures old(OneInFlight()) ==> OneInFlight()
    {
      hide VideoPipeline.Valid, VideoPipeline.OneInFlight;
      EyeImageThread();
      DropLocal();
    }

    lemma PendingIsLive(fd: int)
      requires Valid() && fd in pending
      ensures pending[fd] in frames
    {}

    /**
     One turn of the encode loop: reap the encoder, convert, hand over; the eye-image thread in
     between. When a buffer is free and the conversion succeeds, the frame is submitted, once.
     */
    method EncodeTurn(turn: Turn) returns (fd: Option<int>)
      requires Valid() && AtRest() && MayReturn(turn.returned)
      modifies this
      ensures Valid() && AtRest()
      ensures old(OneInFlight()) ==> OneInFlight()
      ensures fd.Some? ==> turn.usable && turn.converted
      ensures turn.usable && turn.converted && old(freeIndices) != [] ==> fd.Some?
      ensures submitted == old(submitted)
                           + if fd.Some?
                             then [Submission(fd.value, turn.timestampUs,
                                              old(freeSlots) + turn.returned != [] && turn.answers.Yes())]
                             else []
    {
      hide VideoPipeline.Valid, VideoPipeline.OneInFlight;
      DrainInputDone(turn.returned);
      EyeImageThread();
      fd := TransformSync(turn.usable, turn.converted);
      EyeImageThread();
      if fd.Some? {
        var ok := OnConverterOutput(fd.value, turn.timestampUs, turn.answers, turn.wanted);
      }
    }

    /** The encode loop over any turns; the driver gives back slots it has. */
    method EncodeLoop(turns: seq<Turn>)
      requires Valid() && AtRest()
      modifies this
      ensures Valid() && AtRest() && old(submitted) <= submitted
      ensures old(OneInFlight()) ==> OneInFlight()
    {
      hide VideoPipeline.Valid, VideoPipeline.OneInFlight;
      for n := 0 to |turns|
        invariant Valid() && AtRest() && old(submitted) <= submitted
        invariant old(OneInFlight()) ==> OneInFlight()
      {
        if MayReturn(turns[n].returned) {
          var fd := EncodeTurn(turns[n]);
        }
      }
    }
  }

  lemma SomeFreshId(used: set<nat>)
    ensures exists f: nat :: f !in used
  {
    var n := |used| + 1;
    BelowSize(n);
    if forall f: nat :: f in used {
      SubsetSize(Below(n), used);
    }
  }

  function FirstIndex(s: seq<int>, x: int): (i: nat)
    requires x in s
    ensures i < |s| && s[i] == x
  {
    if s[0] == x then 0 else 1 + FirstIndex(s[1..], x)
  }

  lemma AllFree(s: seq<nat>, n: nat)
    requires |s| == n && forall i :: 0 <= i < n ==> s[i] == i
    ensures NoRepeats(s) && forall i: nat :: i in s <==> i < n
  {
    forall i: nat | i < n ensures i in s {
      assert s[i] == i;
    }
  }

  lemma FreshPool(p: Pool)
    requires forall i, j :: 0 <= i < j < |p.fds| ==> p.fds[i] != p.fds[j]
    requires forall i :: 0 <= i < |p.fds| ==> p.fds[i] >= 0
    requires p.fdToIndex == map fd | fd in p.fds :: FirstIndex(p.fds, fd)
    requires |p.free| == |p.fds| && (forall i :: 0 <= i < |p.free| ==> p.free[i] == i) && p.converting == None
    ensures PoolOk(p, map[])
  {
    AllFree(p.free, |p.fds|);
    FreshIndex(p);
    hide NoRepeats, Indexed, FirstIndex;
    assert forall i: nat :: !Owned(p, map[], i);
  }

  lemma FreshIndex(p: Pool)
    requires forall i, j :: 0 <= i < j < |p.fds| ==> p.fds[i] != p.fds[j]
    requires forall i :: 0 <= i < |p.fds| ==> p.fds[i] >= 0
    requires p.fdToIndex == map fd | fd in p.fds :: FirstIndex(p.fds, fd)
    ensures Indexed(p)
  {
    hide FirstIndex;
    forall i | 0 <= i < |p.fds| ensures p.fds[i] in p.fdToIndex && p.fdToIndex[p.fds[i]] == i {
      assert p.fds[i] in p.fds;
    }
  }

  lemma FreshSharing(s: Sharing)
    requires s == Sharing(map[], None, map[], [], None)
    ensures CountsOk(s, None)
  {}

  lemma FreshSlots(e: Slots)
    requires |e.free| == e.count && (forall i :: 0 <= i < |e.free| ==> e.free[i] == i)
    requires e.toFd == map[] && e.handing == None && e.draining == None
    ensures SlotsOk(e, map[])
  {
    AllFree(e.free, e.count);
    hide NoRepeats;
    assert forall fd :: !Held(e, fd);
  }

  /** What the invariant says at rest: the pending frames are exactly those whose buffer the driver holds. */
  lemma AtRestPendingIsHeld(v: VideoPipeline, fd: int)
    requires v.Valid() && v.AtRest()
    ensures fd in v.pending <==> Held(v.TheSlots(), fd)
  {}

  /** And nothing leaks: once the encoder and the eye thread hold nothing, every buffer and slot is free. */
  lemma NothingLeaks(v: VideoPipeline)
    requires v.Valid() && v.AtRest() && v.slotToFd == map[] && v.eyeQueue == [] && v.eyeLocal == None
    ensures v.frames == map[] && v.pending == map[]
    ensures forall i: nat :: i < |v.fds| ==> i in v.freeIndices
    ensures forall s: nat :: s < v.inputSlots ==> s in v.freeSlots
  {
    var sharing := v.TheSharing();
    forall fd ensures fd !in v.pending {
      AtRestPendingIsHeld(v, fd);
    }
    assert v.pending == map[];
    forall f ensures f !in v.frames {
      assert f in v.frames ==> Uses(sharing, f) > 0;
    }
    assert forall i: nat :: !Owned(v.ThePool(), v.frames, i);
  }
}
