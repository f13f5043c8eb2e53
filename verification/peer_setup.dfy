/**
 Receive setup with a paired peer, src/main_node.cpp. The retry timer runs in three phases: a
 snapshot under the lock, remote calls without it, and a re-check and commit under it. Session
 events run between any two phases. The timer's callback group is mutually exclusive, so one
 setup call is in flight at a time. Remote answers are arbitrary; direct mode is not covered.
 */
module PeerSetup {
  import opened Wrappers

  type Prefixes = seq<nat>

  const POSE_CONTROLLER_PREFIX: nat := 2
  const AUDIO_PREFIX: nat := 4
  const BODY24_RAW_PREFIX: nat := 9

  /** Which streams the configuration asks for. */
  datatype Wants = Wants(pose: bool, audio: bool)

  /** The state under peer_receive_state_mutex_, and how many pairings there have been. */
  datatype Node = Node(peer: string, subscribed: bool, prefixes: Prefixes, audioReady: bool, pairings: nat)

  /** How far the timer's call has come, and what it remembers. */
  datatype Call =
    | Idle
    | Subscribing(peer: string, prefixes: Prefixes, pairing: nat)
    | Planned(peer: string, prefixes: Prefixes, complete: bool, pairing: nat)
    | FetchingAudio(peer: string)
    | FetchedAudio(peer: string, pairing: nat)

  /** A remote call that succeeded, and during which pairing; of a subscription also what the peer had declared. */
  datatype Success =
    | Subscribed(peer: string, prefixes: Prefixes, declared: Prefixes, pairing: nat)
    | Fetched(peer: string, pairing: nat)

  datatype World = World(node: Node, call: Call, history: seq<Success>)

  datatype Event =
    | Paired(peer: string)
    | Rejected(peer: string)
    | Unpaired(peer: string)
    | TornDown
    | SubscriptionsReset
    | NothingToReceive
    | Begin
    | Answer(available: Option<Prefixes>, accepted: bool)
    | Commit
    | BeginAudio
    | AnswerAudio(valid: bool)
    | CommitAudio(applied: bool)

  /** Everything the configuration asks for, in order. */
  function Wanted(want: Wants): Prefixes {
    Available(want, [POSE_CONTROLLER_PREFIX, BODY24_RAW_PREFIX, AUDIO_PREFIX])
  }

  /** What can be subscribed to: both pose streams or neither, and audio. */
  function Available(want: Wants, declared: Prefixes): Prefixes {
    var pose := want.pose && POSE_CONTROLLER_PREFIX in declared && BODY24_RAW_PREFIX in declared;
    var audio := want.audio && AUDIO_PREFIX in declared;
    (if pose then [POSE_CONTROLLER_PREFIX] else [])
    + (if audio then [AUDIO_PREFIX] else [])
    + (if pose then [BODY24_RAW_PREFIX] else [])
  }

  /**
   What a plan is, prefix by prefix: rising, the audio stream if wanted and declared, both pose
   streams if pose is wanted and both are declared, and nothing else.
   */
  ghost predicate IsPlan(want: Wants, declared: Prefixes, plan: Prefixes) {
    && (forall i, j :: 0 <= i < j < |plan| ==> plan[i] < plan[j])
    && (4 in plan <==> want.audio && 4 in declared)
    && (2 in plan <==> want.pose && 2 in declared && 9 in declared)
    && (9 in plan <==> want.pose && 2 in declared && 9 in declared)
    && (forall x :: x in plan ==> x in {2, 4, 9})
  }

  /** Everything wanted is declared. */
  ghost predicate AllDeclared(want: Wants, declared: Prefixes) {
    && (want.audio ==> 4 in declared)
    && (want.pose ==> 2 in declared && 9 in declared)
  }

  lemma AvailableIsPlan(want: Wants, declared: Prefixes)
    ensures IsPlan(want, declared, Available(want, declared))
    ensures Complete(want, declared) <==> AllDeclared(want, declared)
  {
    var pose := want.pose && 2 in declared && 9 in declared;
    var audio := want.audio && 4 in declared;
    var plan: Prefixes := if pose then (if audio then [2, 4, 9] else [2, 9]) else if audio then [4] else [];
    assert Available(want, declared) == plan;
    hide Available;
  }

  predicate Complete(want: Wants, declared: Prefixes) {
    && (want.pose ==> POSE_CONTROLLER_PREFIX in declared && BODY24_RAW_PREFIX in declared)
    && (want.audio ==> AUDIO_PREFIX in declared)
  }

  function Forget(n: Node): Node {
    n.(peer := "", subscribed := false, prefixes := [])
  }

  /** ensurePeerSubscriptions, first locked section. */
  function BeginCall(want: Wants, w: World): World {
    var n := w.node;
    if n.subscribed || n.peer == "" then w
    else if !want.pose && !want.audio then w.(node := n.(subscribed := true, prefixes := []))
    else w.(call := Subscribing(n.peer, n.prefixes, n.pairings))
  }

  /** The remote calls: the peer's manifest, and a subscription unless nothing changed. */
  function AnswerCall(want: Wants, w: World, available: Option<Prefixes>, accepted: bool): World
    requires w.call.Subscribing?
  {
    var c := w.call;
    if available.None? then w.(call := Idle)
    else
      var plan := Available(want, available.value);
      var complete := Complete(want, available.value);
      if plan == c.prefixes || plan == [] then w.(call := Planned(c.peer, plan, complete, c.pairing))
      else if !accepted then w.(call := Idle)
      else
        World(w.node, Planned(c.peer, plan, complete, w.node.pairings),
              w.history + [Subscribed(c.peer, plan, available.value, w.node.pairings)])
  }

  /** The last locked section: credited only if the peer is still the one of the snapshot. */
  function CommitCall(w: World): World
    requires w.call.Planned?
  {
    var n, c := w.node, w.call;
    if n.peer != c.peer then w.(call := Idle)
    else World(n.(prefixes := c.prefixes, subscribed := c.complete), Idle, w.history)
  }

  function CommitAudioCall(w: World, applied: bool): World
    requires w.call.FetchedAudio?
  {
    if w.node.peer != w.call.peer || !applied then w.(call := Idle)
    else World(w.node.(audioReady := true), Idle, w.history)
  }

  predicate Enabled(want: Wants, w: World, e: Event) {
    match e
    case NothingToReceive => !want.pose && !want.audio
    case Begin => w.call.Idle?
    case Answer(_, _) => w.call.Subscribing?
    case Commit => w.call.Planned?
    case BeginAudio => w.call.Idle?
    case AnswerAudio(_) => w.call.FetchingAudio?
    case CommitAudio(_) => w.call.FetchedAudio?
    case _ => true
  }

  function Apply(want: Wants, w: World, e: Event): World
    requires Enabled(want, w, e)
  {
    var n := w.node;
    match e
    case Paired(peer) => w.(node := Node(peer, false, [], false, n.pairings + 1))
    case Rejected(peer) => if n.peer == peer then w.(node := Forget(n)) else w
    case Unpaired(peer) => if n.peer == peer then w.(node := Forget(n)) else w
    case TornDown => w.(node := Forget(n).(audioReady := false))
    case SubscriptionsReset => w.(node := n.(subscribed := false, prefixes := []))
    case NothingToReceive => w.(node := n.(subscribed := true))
    case Begin => BeginCall(want, w)
    case Answer(available, accepted) => AnswerCall(want, w, available, accepted)
    case Commit => CommitCall(w)
    case BeginAudio =>
      if !want.audio || n.peer == "" || n.audioReady then w else w.(call := FetchingAudio(n.peer))
    case AnswerAudio(valid) =>
      if valid then World(n, FetchedAudio(w.call.peer, n.pairings), w.history + [Fetched(w.call.peer, n.pairings)])
      else w.(call := Idle)
    case CommitAudio(applied) => CommitAudioCall(w, applied)
  }

  const START := World(Node("", false, [], false, 0), Idle, [])

  // ---- never credited to the wrong peer --------------------------------------------------

  ghost predicate SubscribedTo(w: World, peer: string, prefixes: Prefixes) {
    exists i :: 0 <= i < |w.history| && w.history[i].Subscribed?
                && w.history[i].peer == peer && w.history[i].prefixes == prefixes
  }

  ghost predicate FetchedFrom(w: World, peer: string) {
    exists i :: 0 <= i < |w.history| && w.history[i].Fetched? && w.history[i].peer == peer
  }

  /**
   What the node credits the current peer with really was obtained from that peer: the streams
   by a successful subscription to exactly those prefixes, the audio configuration by a fetch.
   A node that is done has all it wants.
   */
  ghost predicate Credited(want: Wants, w: World) {
    && (w.node.prefixes != [] ==> w.node.peer != "" && SubscribedTo(w, w.node.peer, w.node.prefixes))
    && (w.node.audioReady && w.node.peer != "" ==> FetchedFrom(w, w.node.peer))
    && (w.node.subscribed || Nothing(want) ==> w.node.prefixes == Wanted(want))
  }

  predicate Nothing(want: Wants) {
    !want.pose && !want.audio
  }

  /** The evidence a call carries. */
  ghost predicate Backed(want: Wants, w: World) {
    match w.call
    case Subscribing(peer, prefixes, _) => peer != "" && (prefixes != [] ==> SubscribedTo(w, peer, prefixes))
    case Planned(peer, prefixes, complete, _) =>
      peer != "" && (prefixes != [] ==> SubscribedTo(w, peer, prefixes))
      && (complete || Nothing(want) ==> prefixes == Wanted(want))
    case FetchingAudio(peer) => peer != ""
    case FetchedAudio(peer, _) => peer != "" && FetchedFrom(w, peer)
    case Idle => true
  }

  /** A plan that leaves nothing out is everything wanted. */
  lemma CompletePlan(want: Wants, declared: Prefixes)
    ensures Complete(want, declared) || Nothing(want) ==> Available(want, declared) == Wanted(want)
  {
    var all := [POSE_CONTROLLER_PREFIX, BODY24_RAW_PREFIX, AUDIO_PREFIX];
    assert all[0] in all && all[1] in all && all[2] in all;
  }

  lemma AnswerKeepsCredit(want: Wants, w: World, available: Option<Prefixes>, accepted: bool)
    requires Credited(want, w) && Backed(want, w) && w.call.Subscribing?
    ensures Credited(want, AnswerCall(want, w, available, accepted))
    ensures Backed(want, AnswerCall(want, w, available, accepted))
  {
    hide Wanted, Available, Complete, SubscribedTo, FetchedFrom;
    var w' := AnswerCall(want, w, available, accepted);
    HistoryKept(w, w');
    if available.Some? {
      CompletePlan(want, available.value);
      var plan := Available(want, available.value);
      if w'.history != w.history {
        NewSubscription(w, w', w.call.peer, plan, available.value);
      }
    }
  }

  lemma HistoryKept(w: World, w': World)
    requires w.history <= w'.history
    ensures forall peer, prefixes :: SubscribedTo(w, peer, prefixes) ==> SubscribedTo(w', peer, prefixes)
    ensures forall peer :: FetchedFrom(w, peer) ==> FetchedFrom(w', peer)
  {
    forall peer, prefixes | SubscribedTo(w, peer, prefixes) ensures SubscribedTo(w', peer, prefixes) {
      var i :| 0 <= i < |w.history| && w.history[i].Subscribed?
               && w.history[i].peer == peer && w.history[i].prefixes == prefixes;
      assert w'.history[i] == w.history[i];
    }
    forall peer | FetchedFrom(w, peer) ensures FetchedFrom(w', peer) {
      var i :| 0 <= i < |w.history| && w.history[i].Fetched? && w.history[i].peer == peer;
      assert w'.history[i] == w.history[i];
    }
  }

  lemma NewFetch(w: World, peer: string, pairing: nat)
    requires |w.history| > 0 && w.history[|w.history| - 1] == Fetched(peer, pairing)
    ensures FetchedFrom(w, peer)
  {}

  lemma NewSubscription(w: World, w': World, peer: string, prefixes: Prefixes, declared: Prefixes)
    requires w'.history == w.history + [Subscribed(peer, prefixes, declared, w.node.pairings)]
    ensures SubscribedTo(w', peer, prefixes)
  {
    assert w'.history[|w.history|] == Subscribed(peer, prefixes, declared, w.node.pairings);
  }

  lemma EventKeepsCredit(want: Wants, w: World, e: Event)
    requires Credited(want, w) && Backed(want, w) && Enabled(want, w, e)
    ensures Credited(want, Apply(want, w, e)) && Backed(want, Apply(want, w, e))
  {
    hide AnswerCall, Available, SubscribedTo, FetchedFrom;
    if e.Answer? {
      AnswerKeepsCredit(want, w, e.available, e.accepted);
    } else {
      HistoryKept(w, Apply(want, w, e));
      if e.AnswerAudio? && e.valid {
        NewFetch(Apply(want, w, e), w.call.peer, w.node.pairings);
      }
      NothingWanted(want);
    }
  }

  lemma NothingWanted(want: Wants)
    ensures Nothing(want) ==> Wanted(want) == []
    ensures !Nothing(want) ==> Wanted(want) != []
  {
    CompletePlan(want, [POSE_CONTROLLER_PREFIX, BODY24_RAW_PREFIX, AUDIO_PREFIX]);
    var all := [POSE_CONTROLLER_PREFIX, BODY24_RAW_PREFIX, AUDIO_PREFIX];
    assert all[0] in all && all[1] in all && all[2] in all;
  }

  ghost predicate IsRun(want: Wants, w: World, run: seq<Event>)
    decreases |run|
  {
    |run| == 0 || (Enabled(want, w, run[0]) && IsRun(want, Apply(want, w, run[0]), run[1..]))
  }

  function After(want: Wants, w: World, run: seq<Event>): World
    requires IsRun(want, w, run)
    decreases |run|
  {
    if |run| == 0 then w else After(want, Apply(want, w, run[0]), run[1..])
  }

  lemma {:induction false} RunKeepsCredit(want: Wants, w: World, run: seq<Event>)
    requires Credited(want, w) && Backed(want, w) && IsRun(want, w, run)
    ensures Credited(want, After(want, w, run)) && Backed(want, After(want, w, run))
    decreases |run|
  {
    hide Apply, Enabled, Credited, Backed;
    if |run| > 0 {
      EventKeepsCredit(want, w, run[0]);
      RunKeepsCredit(want, Apply(want, w, run[0]), run[1..]);
    }
  }

  /** Every subscription so far was to what is wanted and had been declared, as far as that goes. */
  ghost predicate OnlyDeclared(want: Wants, w: World) {
    forall s :: s in w.history && s.Subscribed? ==> s.prefixes != [] && IsPlan(want, s.declared, s.prefixes)
  }

  lemma EventOnlyDeclared(want: Wants, w: World, e: Event)
    requires OnlyDeclared(want, w) && Enabled(want, w, e)
    ensures OnlyDeclared(want, Apply(want, w, e))
  {
    hide IsPlan, Available, Complete;
    if e.Answer? && e.available.Some? {
      AvailableIsPlan(want, e.available.value);
    }
  }

  lemma {:induction false} RunOnlyDeclared(want: Wants, w: World, run: seq<Event>)
    requires OnlyDeclared(want, w) && IsRun(want, w, run)
    ensures OnlyDeclared(want, After(want, w, run))
    decreases |run|
  {
    hide Apply, Enabled, OnlyDeclared;
    if |run| > 0 {
      EventOnlyDeclared(want, w, run[0]);
      RunOnlyDeclared(want, Apply(want, w, run[0]), run[1..]);
    }
  }

  /** In every interleaving, from the start, nothing is subscribed to that the peer had not declared. */
  lemma NeverBeyondDeclared(want: Wants, run: seq<Event>)
    requires IsRun(want, START, run)
    ensures OnlyDeclared(want, After(want, START, run))
  {
    RunOnlyDeclared(want, START, run);
  }

  /** In every interleaving, from the start, nothing is credited to a peer it was not obtained from. */
  lemma NeverCreditedToWrongPeer(want: Wants, run: seq<Event>)
    requires IsRun(want, START, run)
    ensures Credited(want, After(want, START, run))
  {
    RunKeepsCredit(want, START, run);
  }

  // ---- credited within the current pairing ----------------------------------------------

  ghost predicate SubscribedDuring(w: World, peer: string, prefixes: Prefixes, pairing: nat) {
    exists s :: s in w.history && s.Subscribed? && s.peer == peer && s.prefixes == prefixes && s.pairing == pairing
  }

  /** What the current peer is credited with was obtained during the current pairing. */
  ghost predicate Current(w: World) {
    && (w.node.prefixes != [] ==> SubscribedDuring(w, w.node.peer, w.node.prefixes, w.node.pairings))
    && (w.node.audioReady && w.node.peer != "" ==> Fetched(w.node.peer, w.node.pairings) in w.history)
  }

  /** A commit that credits streams, or an audio configuration, on evidence from an earlier pairing. */
  predicate StaleCommit(w: World, e: Event) {
    match e
    case Commit =>
      w.call.Planned? && w.call.peer == w.node.peer && w.call.prefixes != [] && w.call.pairing != w.node.pairings
    case CommitAudio(applied) =>
      w.call.FetchedAudio? && w.call.peer == w.node.peer && applied && w.call.pairing != w.node.pairings
    case _ => false
  }

  /** No commit of the run is stale. */
  ghost predicate NoStaleCommit(want: Wants, w: World, run: seq<Event>)
    requires IsRun(want, w, run)
    decreases |run|
  {
    |run| == 0 || (!StaleCommit(w, run[0]) && NoStaleCommit(want, Apply(want, w, run[0]), run[1..]))
  }

  /** Every state the run passes through credits only what the current pairing obtained. */
  ghost predicate AlwaysCurrent(want: Wants, w: World, run: seq<Event>)
    requires IsRun(want, w, run)
    decreases |run|
  {
    Current(w) && (|run| == 0 || AlwaysCurrent(want, Apply(want, w, run[0]), run[1..]))
  }

  /** Successes are recorded in pairing order, and none is newer than the evidence of the call in flight. */
  ghost predicate Dated(w: World) {
    && (forall s :: s in w.history ==> s.pairing <= w.node.pairings)
    && match w.call
       case Subscribing(peer, prefixes, pairing) =>
         pairing <= w.node.pairings && NoneNewer(w, pairing)
         && (prefixes != [] ==> SubscribedDuring(w, peer, prefixes, pairing))
       case Planned(peer, prefixes, _, pairing) =>
         pairing <= w.node.pairings && NoneNewer(w, pairing)
         && (prefixes != [] ==> SubscribedDuring(w, peer, prefixes, pairing))
       case FetchingAudio(peer) => peer != "" && !w.node.audioReady
       case FetchedAudio(peer, pairing) =>
         && peer != "" && !w.node.audioReady && pairing <= w.node.pairings
         && NoFetchNewer(w, pairing) && Fetched(peer, pairing) in w.history
       case Idle => true
  }

  ghost predicate NoneNewer(w: World, pairing: nat) {
    forall s :: s in w.history && s.Subscribed? ==> s.pairing <= pairing
  }

  ghost predicate NoFetchNewer(w: World, pairing: nat) {
    forall s :: s in w.history && s.Fetched? ==> s.pairing <= pairing
  }

  lemma EventDated(want: Wants, w: World, e: Event)
    requires Dated(w) && Current(w) && Enabled(want, w, e)
    ensures Dated(Apply(want, w, e))
    ensures Current(Apply(want, w, e)) <==> !StaleCommit(w, e)
  {
    hide AnswerCall;
    if e.Answer? {
      AnswerDated(want, w, e.available, e.accepted);
    }
  }

  lemma AnswerDated(want: Wants, w: World, available: Option<Prefixes>, accepted: bool)
    requires Dated(w) && Current(w) && w.call.Subscribing?
    ensures Dated(AnswerCall(want, w, available, accepted)) && Current(AnswerCall(want, w, available, accepted))
  {
    hide Available, Complete;
  }

  /**
   Credit belongs to the current pairing, at every moment of a run, exactly when no commit acts
   on evidence from an earlier pairing: the re-check of the peer id alone does not see a peer
   that left and came back between the remote call and the commit.
   */
  lemma {:induction false} CurrentUnlessStale(want: Wants, w: World, run: seq<Event>)
    requires Dated(w) && Current(w) && IsRun(want, w, run)
    ensures AlwaysCurrent(want, w, run) <==> NoStaleCommit(want, w, run)
    decreases |run|
  {
    hide Dated, Apply, Enabled, StaleCommit, Current;
    if |run| > 0 {
      var w' := Apply(want, w, run[0]);
      EventDated(want, w, run[0]);
      if Current(w') {
        CurrentUnlessStale(want, w', run[1..]);
      } else {
        assert !AlwaysCurrent(want, w', run[1..]);
      }
    }
  }

  /** The state when the peer has come back: its call was answered during its first pairing. */
  function BackAgain(peer: string): World {
    World(Node(peer, false, [], false, 2), Planned(peer, [AUDIO_PREFIX], true, 1),
          [Subscribed(peer, [AUDIO_PREFIX], [AUDIO_PREFIX], 1)])
  }

  /** It is reached: the peer unpairs and pairs again between the answer and the commit. */
  lemma PeerComesBack(peer: string)
    requires peer != ""
    ensures var want, e1, e2, e3, e4, e5 :=
              Wants(false, true), Paired(peer), Begin, Answer(Some([AUDIO_PREFIX]), true), Unpaired(peer), Paired(peer);
            && Enabled(want, START, e1) && Enabled(want, Apply(want, START, e1), e2)
            && var w2 := Apply(want, Apply(want, START, e1), e2);
            && Enabled(want, w2, e3) && Enabled(want, Apply(want, w2, e3), e4)
            && Enabled(want, Apply(want, Apply(want, w2, e3), e4), e5)
            && Apply(want, Apply(want, Apply(want, w2, e3), e4), e5) == BackAgain(peer)
  {
    assert Available(Wants(false, true), [AUDIO_PREFIX]) == [AUDIO_PREFIX];
  }

  /** And its commit credits a subscription the current pairing never made. */
  lemma ComebackIsStale(want: Wants, peer: string)
    requires peer != ""
    ensures Enabled(want, BackAgain(peer), Commit) && !Current(Apply(want, BackAgain(peer), Commit))
  {}

  /** The same for audio: the configuration was fetched during the peer's first pairing. */
  function BackForAudio(peer: string): World {
    World(Node(peer, false, [], false, 2), FetchedAudio(peer, 1), [Fetched(peer, 1)])
  }

  lemma AudioPeerComesBack(peer: string)
    requires peer != ""
    ensures var want, e1, e2, e3, e4, e5 :=
              Wants(false, true), Paired(peer), BeginAudio, AnswerAudio(true), Unpaired(peer), Paired(peer);
            && Enabled(want, START, e1) && Enabled(want, Apply(want, START, e1), e2)
            && var w2 := Apply(want, Apply(want, START, e1), e2);
            && Enabled(want, w2, e3) && Enabled(want, Apply(want, w2, e3), e4)
            && Enabled(want, Apply(want, Apply(want, w2, e3), e4), e5)
            && Apply(want, Apply(want, Apply(want, w2, e3), e4), e5) == BackForAudio(peer)
            && StaleCommit(BackForAudio(peer), CommitAudio(true))
            && !Current(Apply(want, BackForAudio(peer), CommitAudio(true)))
  {}

  /** For every run of the node, from its start. */
  lemma CurrentFromStart(want: Wants, run: seq<Event>)
    requires IsRun(want, START, run)
    ensures AlwaysCurrent(want, START, run) <==> NoStaleCommit(want, START, run)
  {
    CurrentUnlessStale(want, START, run);
  }

  // ---- the node --------------------------------------------------------------------------

  class MainNode {
    const want: Wants
    var pairedPeerSessionId: string
    var peerStreamsSubscribed: bool
    var peerSubscribedPrefixes: Prefixes
    var remoteConfigReady: bool

    ghost var pairings: nat
    ghost var call: Call
    ghost var history: seq<Success>

    ghost function Now(): World
      reads this
    {
      World(Node(pairedPeerSessionId, peerStreamsSubscribed, peerSubscribedPrefixes, remoteConfigReady, pairings),
            call, history)
    }

    /** Nothing is, or can come to be, credited to a peer it was not obtained from. */
    ghost predicate Valid()
      reads this
    {
      Credited(want, Now()) && Backed(want, Now())
    }

    constructor (want: Wants)
      ensures this.want == want && Now() == START && Valid()
    {
      this.want := want;
      pairedPeerSessionId, peerStreamsSubscribed, peerSubscribedPrefixes, remoteConfigReady := "", false, [], false;
      pairings, call, history := 0, Idle, [];
      new;
      assert Now() == START;
    }

    // ---- session events, each one locked section -------------------------------------------

    /** PairEvent REQUEST, once accepted, and ACCEPT. */
    method OnPaired(peer: string)
      requires Valid()
      modifies this
      ensures Valid() && Now() == Apply(want, old(Now()), Paired(peer))
      ensures pairedPeerSessionId == peer && !peerStreamsSubscribed && peerSubscribedPrefixes == []
      ensures !remoteConfigReady
      ensures call == old(call) && history == old(history) && pairings == old(pairings) + 1
    {
      EventKeepsCredit(want, Now(), Paired(peer));
      pairedPeerSessionId := peer;
      peerStreamsSubscribed := false;
      peerSubscribedPrefixes := [];
      remoteConfigReady := false;
      pairings := pairings + 1;
    }

    /** PairEvent REJECT; UNPAIR starts the same way. */
    method OnRejected(peer: string)
      requires Valid()
      modifies this
      ensures Valid() && Now() == Apply(want, old(Now()), Rejected(peer)) == Apply(want, old(Now()), Unpaired(peer))
      ensures old(pairedPeerSessionId) == peer ==>
                pairedPeerSessionId == "" && !peerStreamsSubscribed && peerSubscribedPrefixes == []
      ensures old(pairedPeerSessionId) != peer ==> Now() == old(Now())
      ensures unchanged(`remoteConfigReady, `call, `history, `pairings)
    {
      EventKeepsCredit(want, Now(), Rejected(peer));
      if pairedPeerSessionId == peer {
        pairedPeerSessionId := "";
        peerStreamsSubscribed := false;
        peerSubscribedPrefixes := [];
      }
    }

    /** teardownActiveSession, when it is not skipped. */
    method TeardownActiveSession()
      requires Valid()
      modifies this
      ensures Valid() && Now() == Apply(want, old(Now()), TornDown)
      ensures pairedPeerSessionId == "" && !peerStreamsSubscribed && peerSubscribedPrefixes == [] && !remoteConfigReady
      ensures unchanged(`call, `history, `pairings)
    {
      EventKeepsCredit(want, Now(), TornDown);
      pairedPeerSessionId := "";
      peerStreamsSubscribed := false;
      peerSubscribedPrefixes := [];
      remoteConfigReady := false;
    }

    method ResetPeerSubscriptionState()
      requires Valid()
      modifies this
      ensures Valid() && Now() == Apply(want, old(Now()), SubscriptionsReset)
      ensures !peerStreamsSubscribed && peerSubscribedPrefixes == []
      ensures unchanged(`pairedPeerSessionId, `remoteConfigReady, `call, `history, `pairings)
    {
      EventKeepsCredit(want, Now(), SubscriptionsReset);
      peerStreamsSubscribed := false;
      peerSubscribedPrefixes := [];
    }

    /** Session work that runs while the timer's call holds no lock. */
    method SessionEvents()
      requires Valid()
      modifies this
      ensures Valid() && call == old(call) && history == old(history) && pairings >= old(pairings)
    {
      hide Credited, Backed, Apply, Enabled;
      var events :| events >= 0;
      for n := 0 to events
        invariant Valid() && call == old(call) && history == old(history) && pairings >= old(pairings)
      {
        SessionEvent();
      }
    }

    method SessionEvent()
      requires Valid()
      modifies this
      ensures Valid() && call == old(call) && history == old(history) && pairings >= old(pairings)
    {
      hide Credited, Backed;
      var peer: string := *;
      var choice: int := *;
      if choice == 0 {
        OnPaired(peer);
      } else if choice == 1 {
        OnRejected(peer);
      } else if choice == 2 {
        TeardownActiveSession();
      } else {
        ResetPeerSubscriptionState();
      }
    }

    // ---- the retry timer -------------------------------------------------------------------

    /** The snapshot: a verdict already, or the peer and prefixes to work with. */
    method Snapshot() returns (verdict: Option<bool>, peer: string, prefixes: Prefixes)
      requires Valid() && call == Idle
      modifies this
      ensures Valid() && Now() == Apply(want, old(Now()), Begin)
      ensures verdict.None? <==> call.Subscribing?
      ensures verdict.None? ==> call == Subscribing(peer, prefixes, pairings)
      ensures verdict == if old(peerStreamsSubscribed) then Some(true)
                         else if old(pairedPeerSessionId) == "" then Some(false)
                         else if !want.pose && !want.audio then Some(true)
                         else None
      ensures verdict == Some(true) ==> peerStreamsSubscribed
      ensures verdict != Some(true) ==> unchanged(`peerStreamsSubscribed, `peerSubscribedPrefixes)
      ensures verdict.None? ==> peer == pairedPeerSessionId && prefixes == peerSubscribedPrefixes
      ensures old(peerStreamsSubscribed) || verdict == Some(false) ==> Now() == old(Now())
      ensures unchanged(`pairedPeerSessionId, `remoteConfigReady, `history, `pairings)
    {
      EventKeepsCredit(want, Now(), Begin);
      hide Credited, Backed;
      peer, prefixes := "", [];
      if peerStreamsSubscribed {
        return Some(true), peer, prefixes;
      }
      if pairedPeerSessionId == "" {
        return Some(false), peer, prefixes;
      }
      if !want.pose && !want.audio {
        peerStreamsSubscribed := true;
        peerSubscribedPrefixes := [];
        return Some(true), peer, prefixes;
      }
      peer, prefixes := pairedPeerSessionId, peerSubscribedPrefixes;
      call := Subscribing(peer, prefixes, pairings);
      verdict := None;
    }

    /** What to subscribe to, of what the peer declares. */
    method Plan(declared: Prefixes) returns (plan: Prefixes, complete: bool)
      ensures IsPlan(want, declared, plan) && (complete <==> AllDeclared(want, declared))
      ensures plan == Available(want, declared) && complete == Complete(want, declared)
    {
      AvailableIsPlan(want, declared);
      complete := true;
      var pose := false;
      if want.pose {
        if POSE_CONTROLLER_PREFIX !in declared || BODY24_RAW_PREFIX !in declared {
          complete := false;
        } else {
          pose := true;
        }
      }
      var audio := false;
      if want.audio {
        if AUDIO_PREFIX !in declared {
          complete := false;
        } else {
          audio := true;
        }
      }
      // Sorted, as the source sorts them.
      plan := if pose then [POSE_CONTROLLER_PREFIX] else [];
      plan := plan + (if audio then [AUDIO_PREFIX] else []);
      plan := plan + (if pose then [BODY24_RAW_PREFIX] else []);
    }

    /**
     The remote calls, with the peer's manifest, if it answers, and its answer to a subscription.
     It is asked to subscribe exactly when the plan is new and not empty.
     */
    method Negotiate(peer: string, prefixes: Prefixes, available: Option<Prefixes>, accepted: bool)
      returns (plan: Prefixes, complete: bool, ok: bool)
      requires Valid() && call.Subscribing? && call.peer == peer && call.prefixes == prefixes
      modifies this
      ensures Valid() && Now() == AnswerCall(want, old(Now()), available, accepted)
      ensures unchanged(`pairedPeerSessionId, `peerStreamsSubscribed, `peerSubscribedPrefixes, `remoteConfigReady,
                        `pairings)
      ensures ok ==> call.Planned? && call.peer == peer && call.prefixes == plan && call.complete == complete
      ensures !ok ==> call == Idle && history == old(history)
      ensures available.None? ==> !ok
      ensures available.Some? ==>
        var isNew := plan != prefixes && plan != [];
        && IsPlan(want, available.value, plan) && (complete <==> AllDeclared(want, available.value))
        && (ok <==> !isNew || accepted)
        && history == old(history)
                      + if isNew && accepted then [Subscribed(peer, plan, available.value, pairings)] else []
    {
      ghost var before := Now();
      plan, complete := [], false;
      AnswerKeepsCredit(want, before, available, accepted);
      hide Credited, Backed, Available, Complete, IsPlan, AllDeclared;
      ok := available.Some?;
      if ok {
        plan, complete := Plan(available.value);
        if plan != prefixes && plan != [] {
          ok := accepted;
          if ok {
            history := history + [Subscribed(peer, plan, available.value, pairings)];
            call := Planned(peer, plan, complete, pairings);
          }
        } else {
          call := Planned(peer, plan, complete, call.pairing);
        }
      }
      if !ok {
        call := Idle;
      }
      assert Now() == AnswerCall(want, before, available, accepted);
    }

    /** The re-check and commit. */
    method CommitSubscriptions(peer: string, plan: Prefixes, complete: bool) returns (done: bool)
      requires Valid() && call.Planned? && call.peer == peer && call.prefixes == plan && call.complete == complete
      modifies this
      ensures Valid() && Now() == Apply(want, old(Now()), Commit) && call == Idle
      ensures done <==> pairedPeerSessionId == peer && complete
      ensures pairedPeerSessionId == peer ==> peerStreamsSubscribed == complete && peerSubscribedPrefixes == plan
      ensures pairedPeerSessionId != peer ==> unchanged(`peerStreamsSubscribed, `peerSubscribedPrefixes)
      ensures unchanged(`pairedPeerSessionId, `remoteConfigReady, `history, `pairings)
    {
      EventKeepsCredit(want, Now(), Commit);
      hide Credited, Backed;
      call := Idle;
      if pairedPeerSessionId != peer {
        return false;
      }
      if plan != peerSubscribedPrefixes {
        peerSubscribedPrefixes := plan;
      }
      peerStreamsSubscribed := complete;
      done := peerStreamsSubscribed;
    }

    /**
     ensurePeerSubscriptions, with the remote answers, and with session events between its sections
     or, in a quiet time, without. Success means that everything wanted was subscribed to at the
     current peer. In a quiet time it succeeds exactly when nothing is missing: there is nothing to
     do, or the peer answered, accepted what was new, and had declared all that is wanted.
     */
    method EnsurePeerSubscriptions(available: Option<Prefixes>, accepted: bool, quiet: bool) returns (done: bool)
      requires Valid() && call == Idle
      modifies this
      ensures Valid() && call == Idle
      ensures done ==> peerStreamsSubscribed && peerSubscribedPrefixes == Wanted(want)
      ensures done && Wanted(want) != [] ==> SubscribedTo(Now(), pairedPeerSessionId, Wanted(want))
      ensures quiet ==> unchanged(`pairedPeerSessionId, `remoteConfigReady, `pairings)
      ensures quiet && old(pairedPeerSessionId) == "" ==> done == old(peerStreamsSubscribed)
      ensures quiet && old(peerStreamsSubscribed) ==> done && Now() == old(Now())
      ensures quiet && old(pairedPeerSessionId) != "" && Nothing(want) ==> done
      ensures quiet && old(pairedPeerSessionId) != "" && !old(peerStreamsSubscribed) && !Nothing(want) ==>
        && (available.None? ==> !done && Now() == old(Now()))
        && (available.Some? ==> QuietOutcome(available.value, accepted, old(peerSubscribedPrefixes), old(history),
                                             done))
    {
      hide Credited, Backed, Apply, Enabled, Wanted, SubscribedTo, IsPlan, AllDeclared;
      var verdict, peer, prefixes := Snapshot();
      if verdict.None? {
        if !quiet {
          SessionEvents();
        }
        var plan, complete, ok := Negotiate(peer, prefixes, available, accepted);
        if !ok {
          return false;
        }
        if !quiet {
          SessionEvents();
        }
        done := CommitSubscriptions(peer, plan, complete);
      } else {
        SnapshotEnds();
        done := verdict.value;
      }
      assert done ==> peerStreamsSubscribed;
      DoneIsCredited();
    }

    /** What a call in a quiet time leaves: the plan subscribed to, or nothing changed. */
    ghost predicate QuietOutcome(declared: Prefixes, accepted: bool, before: Prefixes, past: seq<Success>, done: bool)
      reads this
    {
      exists plan: Prefixes :: IsPlan(want, declared, plan)
        && var isNew := plan != before && plan != [];
           if isNew && !accepted
           then !done && !peerStreamsSubscribed && peerSubscribedPrefixes == before && history == past
           else && peerSubscribedPrefixes == plan
                && (done <==> AllDeclared(want, declared)) && (peerStreamsSubscribed <==> done)
                && history == past + if isNew then [Subscribed(pairedPeerSessionId, plan, declared, pairings)] else []
    }

    lemma SnapshotEnds()
      requires !call.Subscribing? && exists w: World :: w.call == Idle && Now() == Apply(want, w, Begin)
      ensures call == Idle
    {}

    lemma DoneIsCredited()
      requires Valid()
      ensures peerStreamsSubscribed ==> peerSubscribedPrefixes == Wanted(want)
      ensures peerStreamsSubscribed && Wanted(want) != [] ==> SubscribedTo(Now(), pairedPeerSessionId, Wanted(want))
    {}

    /**
     fetchRemoteAudioConfig, with the outcomes of fetch and validation, and of applying. Success means
     the current peer's configuration is in use, if one is wanted; in a quiet time it comes exactly
     with valid answers.
     */
    method FetchRemoteAudioConfig(valid: bool, applied: bool, quiet: bool) returns (done: bool)
      requires Valid() && call == Idle
      modifies this
      ensures Valid() && call == Idle
      ensures done && want.audio ==>
        remoteConfigReady && pairedPeerSessionId != "" && FetchedFrom(Now(), pairedPeerSessionId)
      ensures !want.audio ==> done
      ensures want.audio && old(pairedPeerSessionId) == "" ==> !done
      ensures want.audio && old(pairedPeerSessionId) != "" && old(remoteConfigReady) ==> done
      ensures !want.audio || old(pairedPeerSessionId) == "" || old(remoteConfigReady) ==> Now() == old(Now())
      ensures quiet && want.audio && old(pairedPeerSessionId) != "" && !old(remoteConfigReady) ==>
        && (done <==> valid && applied) && (remoteConfigReady <==> done)
        && unchanged(`pairedPeerSessionId, `peerStreamsSubscribed, `peerSubscribedPrefixes, `pairings)
        && history == old(history) + if valid then [Fetched(pairedPeerSessionId, pairings)] else []
    {
      if !want.audio {
        return true;
      }
      if pairedPeerSessionId == "" {
        return false;
      }
      if remoteConfigReady {
        return true;
      }
      var peer := pairedPeerSessionId;
      call := FetchingAudio(peer);
      if !quiet {
        SessionEvents();
      }
      EventKeepsCredit(want, Now(), AnswerAudio(valid));
      if !valid {
        call := Idle;
        return false;
      }
      call, history := FetchedAudio(peer, pairings), history + [Fetched(peer, pairings)];
      assert Valid();
      if !quiet {
        SessionEvents();
      }
      done := CommitAudioConfig(peer, applied);
    }

    method CommitAudioConfig(peer: string, applied: bool) returns (done: bool)
      requires Valid() && call.FetchedAudio? && call.peer == peer
      modifies this
      ensures Valid() && call == Idle && Now() == Apply(want, old(Now()), CommitAudio(applied))
      ensures done <==> pairedPeerSessionId == peer && applied
      ensures done ==> remoteConfigReady && FetchedFrom(Now(), peer) && peer != ""
      ensures !done ==> unchanged(`remoteConfigReady)
      ensures unchanged(`pairedPeerSessionId, `peerStreamsSubscribed, `peerSubscribedPrefixes, `history, `pairings)
    {
      EventKeepsCredit(want, Now(), CommitAudio(applied));
      call := Idle;
      done := false;
      if pairedPeerSessionId == peer && applied {
        remoteConfigReady := true;
        done := true;
      }
    }
  }
}
