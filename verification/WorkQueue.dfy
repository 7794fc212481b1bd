/** The password-reset work queue: publisher confirms, prefetch 1, ack, nack without requeue into the
    failed queue, and redelivery when a consumer or its channel is lost. A handler run does not end with
    its channel: it goes on with a delivery that the broker has given to somebody else. Declaring
    processes, the publisher, the broker and any number of workers take steps in any order. */
module WorkQueue {

  type Msg = nat

  datatype Outcome = Succeeded | ReturnedError | Panicked

  /** How far a worker is with its delivery; Finished means that its ack or nack is not sent yet. */
  datatype Stage = Received | Running | Finished(outcome: Outcome)

  /** One consumer process. A delivery is linked while the channel that it came on is open at the
      broker; the worker only notices a lost channel when it settles or asks for the next delivery. */
  datatype Worker =
    | Down
    | Idle
    | Busy(msg: Msg, stage: Stage, linked: bool)
  {
    predicate Holds(m: Msg) {
      Busy? && linked && msg == m
    }

    predicate Linked() {
      Busy? && linked
    }

    predicate Open() {
      Idle? || Linked()
    }
  }

  /** What is known of the handler runs of a message: runs started, outcomes of the finished ones,
      and how often a consumer or its channel was lost while the message was unacked there. */
  datatype Story = Story(started: nat, outcomes: seq<Outcome>, losses: nat)

  const Unseen := Story(0, [], 0)

  /** The broker's answer to a queue declaration; an accepted one may go unheard. */
  datatype Reply = Accepted | AcceptedUnheard | Refused

  datatype State = State(
    failedQueue: bool,              // the failed queue exists
    mainQueue: bool,                // the main queue exists
    declaring: set<nat>,            // processes between the two declarations
    declaredBy: set<nat>,           // processes for which DeclareTopology returned nil
    inFlight: set<Msg>,             // published, not processed by the broker yet
    confirms: map<Msg, bool>,       // the broker's confirm: ack or nack
    returned: map<Msg, bool>,       // PublishJSON came back: nil error or not
    published: set<Msg>,
    routed: set<Msg>,               // stored by the broker
    ready: seq<Msg>,
    unacked: map<Msg, nat>,         // delivered to which worker
    acked: set<Msg>,
    failed: seq<Msg>,               // what the failed queue holds
    workers: seq<Worker>,
    stories: map<Msg, Story>)       // bookkeeping about the past

  datatype Event =
    | DeclareFailedQueue(process: nat, reply: Reply)
    | DeclareMainQueue(process: nat, reply: Reply)
    | DeclarerDies(process: nat)
    | Publish(msg: Msg)
    | FrameLost(msg: Msg)
    | BrokerStores(msg: Msg)        // basic.ack; a message that no queue matches is returned and acked too
    | BrokerRejects(msg: Msg)       // basic.nack
    | PublishReturnsNil(msg: Msg)
    | PublishReturnsError(msg: Msg) // nack, timeout or channel error
    | Deliver(worker: nat)
    | Start(worker: nat)
    | Finish(worker: nat, outcome: Outcome)
    | Settle(worker: nat)           // the ack or nack reaches the broker
    | Sever(worker: nat)            // the broker loses the channel of an unacked delivery, or its ack
    | Quit(worker: nat)             // a settlement failed, the loop finds the channel closed and returns
    | Crash(worker: nat)            // the process dies or its loop returns
    | Rejoin(worker: nat)

  function StoryOf(s: State, m: Msg): Story {
    if m in s.stories then s.stories[m] else Unseen
  }

  /** Prefetch 1: the broker pushes to a channel only while nothing on it is unacked. */
  predicate MayPush(s: State, w: nat) {
    forall m :: m in s.unacked ==> s.unacked[m] != w
  }

  predicate At(s: State, w: nat, stage: Stage) {
    w < |s.workers| && s.workers[w].Busy? && s.workers[w].stage == stage
  }

  predicate AtEnd(s: State, w: nat, linked: bool) {
    w < |s.workers| && s.workers[w].Busy? && s.workers[w].stage.Finished? && s.workers[w].linked == linked
  }

  predicate Enabled(s: State, e: Event) {
    match e
    case DeclareFailedQueue(p, _) => p !in s.declaring
    case DeclareMainQueue(p, _) => p in s.declaring
    case DeclarerDies(p) => p in s.declaring
    case Publish(m) => m !in s.published
    case FrameLost(m) => m in s.inFlight
    case BrokerStores(m) => m in s.inFlight
    case BrokerRejects(m) => m in s.inFlight
    case PublishReturnsNil(m) => m in s.published && m !in s.returned && m in s.confirms && s.confirms[m]
    case PublishReturnsError(m) => m in s.published && m !in s.returned
    case Deliver(w) => w < |s.workers| && s.workers[w].Open() && s.ready != [] && MayPush(s, w)
    case Start(w) => At(s, w, Received)
    case Finish(w, _) => At(s, w, Running)
    case Settle(w) => AtEnd(s, w, true)
    case Sever(w) => w < |s.workers| && s.workers[w].Linked()
    case Quit(w) => AtEnd(s, w, false)
    case Crash(w) => w < |s.workers| && !s.workers[w].Down?
    case Rejoin(w) => w < |s.workers| && s.workers[w].Down?
  }

  /** Steps of the workers and the broker's deliveries; nothing is published. */
  predicate WorkStep(e: Event) {
    e.Deliver? || e.Start? || e.Finish? || e.Settle? || e.Sever? || e.Quit? || e.Crash? || e.Rejoin?
  }

  function Next(s: State, e: Event): State
    requires Enabled(s, e)
  {
    if WorkStep(e) then WorkNext(s, e) else PublishNext(s, e)
  }

  function PublishNext(s: State, e: Event): State
    requires Enabled(s, e) && !WorkStep(e)
  {
    match e
    case DeclareFailedQueue(p, reply) =>
      s.(failedQueue := s.failedQueue || !reply.Refused?,
         declaring := if reply.Accepted? then s.declaring + {p} else s.declaring)
    case DeclareMainQueue(p, reply) =>
      s.(mainQueue := s.mainQueue || !reply.Refused?,
         declaring := s.declaring - {p},
         declaredBy := if reply.Accepted? then s.declaredBy + {p} else s.declaredBy)
    case DeclarerDies(p) => s.(declaring := s.declaring - {p})
    case Publish(m) => s.(published := s.published + {m}, inFlight := s.inFlight + {m})
    case FrameLost(m) => s.(inFlight := s.inFlight - {m})
    case BrokerStores(m) =>
      var t := s.(inFlight := s.inFlight - {m}, confirms := s.confirms[m := true]);
      if s.mainQueue then t.(ready := s.ready + [m], routed := s.routed + {m}) else t
    case BrokerRejects(m) => s.(inFlight := s.inFlight - {m}, confirms := s.confirms[m := false])
    case PublishReturnsNil(m) => s.(returned := s.returned[m := true])
    case PublishReturnsError(m) => s.(returned := s.returned[m := false])
  }

  /** The broker takes an unacked message back and puts it at the head of the queue. */
  predicate TakesBack(s: State, e: Event)
    requires Enabled(s, e)
  {
    e.Sever? || (e.Crash? && s.workers[e.worker].Linked())
  }

  function WorkNext(s: State, e: Event): State
    requires Enabled(s, e) && WorkStep(e)
  {
    s.(workers := s.workers[e.worker := After(s, e)],
       ready := ReadyAfter(s, e), unacked := UnackedAfter(s, e),
       acked := AckedAfter(s, e), failed := FailedAfter(s, e),
       stories := StoriesAfter(s, e))
  }

  /** The worker after a step of its own. */
  function After(s: State, e: Event): Worker
    requires Enabled(s, e) && WorkStep(e)
  {
    match e
    case Deliver(_) => Busy(s.ready[0], Received, true)
    case Start(w) => s.workers[w].(stage := Running)
    case Finish(w, outcome) => s.workers[w].(stage := Finished(outcome))
    case Settle(_) => Idle
    case Sever(w) => s.workers[w].(linked := false)
    case Quit(_) => Down
    case Crash(_) => Down
    case Rejoin(_) => Idle
  }

  function ReadyAfter(s: State, e: Event): seq<Msg>
    requires Enabled(s, e) && WorkStep(e)
  {
    if e.Deliver? then s.ready[1..]
    else if TakesBack(s, e) then [s.workers[e.worker].msg] + s.ready
    else s.ready
  }

  function UnackedAfter(s: State, e: Event): map<Msg, nat>
    requires Enabled(s, e) && WorkStep(e)
  {
    if e.Deliver? then s.unacked[s.ready[0] := e.worker]
    else if e.Settle? || TakesBack(s, e) then s.unacked - {s.workers[e.worker].msg}
    else s.unacked
  }

  function AckedAfter(s: State, e: Event): set<Msg>
    requires Enabled(s, e) && WorkStep(e)
  {
    if e.Settle? && s.workers[e.worker].stage.outcome.Succeeded? then s.acked + {s.workers[e.worker].msg} else s.acked
  }

  /** A nack without requeue dead-letters the message, or drops it if there is no failed queue. */
  function FailedAfter(s: State, e: Event): seq<Msg>
    requires Enabled(s, e) && WorkStep(e)
  {
    if e.Settle? && !s.workers[e.worker].stage.outcome.Succeeded? && s.failedQueue
    then s.failed + [s.workers[e.worker].msg] else s.failed
  }

  function StoriesAfter(s: State, e: Event): map<Msg, Story>
    requires Enabled(s, e) && WorkStep(e)
  {
    if e.Start? || e.Finish? || TakesBack(s, e) then
      var m := s.workers[e.worker].msg;
      var story := StoryOf(s, m);
      s.stories[m := if e.Start? then story.(started := story.started + 1)
                     else if e.Finish? then story.(outcomes := story.outcomes + [e.outcome])
                     else story.(losses := story.losses + 1)]
    else s.stories
  }

  function Init(workers: nat): State {
    State(false, false, {}, {}, {}, map[], map[], {}, {}, [], map[], {}, [], seq(workers, _ => Down), map[])
  }

  ghost predicate Runs(s0: State, es: seq<Event>, s1: State)
    decreases |es|
  {
    if es == [] then s0 == s1
    else Enabled(s0, es[0]) && Runs(Next(s0, es[0]), es[1..], s1)
  }

  ghost predicate Reachable(s: State) {
    exists n: nat, es :: Runs(Init(n), es, s)
  }

  // ---------------------------------------------------------------- invariant

  function Count(xs: seq<Msg>, m: Msg): nat {
    if xs == [] then 0 else Count(xs[1..], m) + (if xs[0] == m then 1 else 0)
  }

  lemma {:induction false} CountAppend(xs: seq<Msg>, x: Msg, m: Msg)
    ensures Count(xs + [x], m) == Count(xs, m) + (if x == m then 1 else 0)
  {
    if xs == [] {
      assert xs + [x] == [x];
    } else {
      assert (xs + [x])[1..] == xs[1..] + [x];
      CountAppend(xs[1..], x, m);
    }
  }

  lemma {:induction false} CountIn(xs: seq<Msg>, m: Msg)
    ensures m in xs <==> Count(xs, m) > 0
  {
    if xs != [] {
      CountIn(xs[1..], m);
      assert xs == [xs[0]] + xs[1..];
    }
  }

  /** In how many places the broker keeps a message. */
  ghost function Places(s: State, m: Msg): nat {
    Count(s.ready, m) + (if m in s.unacked then 1 else 0) + (if m in s.acked then 1 else 0)
    + Count(s.failed, m)
  }

  ghost predicate PlacesOk(s: State) {
    forall m: Msg :: Places(s, m) == if m in s.routed then 1 else 0
  }

  /** The failed queue is declared first. */
  predicate TopologyOk(s: State) {
    && (s.mainQueue || s.declaring != {} ==> s.failedQueue)
    && (s.declaredBy != {} ==> s.mainQueue)
  }

  ghost predicate PublishingOk(s: State) {
    && TopologyOk(s)
    && s.inFlight <= s.published && s.routed <= s.published
    && s.inFlight !! s.routed
    && (s.routed != {} ==> s.mainQueue)
    && (forall m :: m in s.confirms ==> m in s.published && m !in s.inFlight)
    && (forall m :: m in s.returned && s.returned[m] ==> m in s.confirms && s.confirms[m])
  }

  /** The broker's unacked list and the linked deliveries agree. */
  ghost predicate HandsOk(unacked: map<Msg, nat>, workers: seq<Worker>) {
    && (forall m :: m in unacked ==> unacked[m] < |workers| && workers[unacked[m]].Holds(m))
    && (forall w :: 0 <= w < |workers| && workers[w].Linked() ==>
          workers[w].msg in unacked && unacked[workers[w].msg] == w)
  }

  /** The worker at which a message is unacked; Down when nobody has it. */
  function HandOf(s: State, m: Msg): Worker {
    if m in s.unacked && s.unacked[m] < |s.workers| then s.workers[s.unacked[m]] else Down
  }

  /** What is counted over the workers: deliveries of a message that the broker has taken back but that
      are still to be handled, and handler runs of it. */
  datatype Kind = Stale | Run

  function Counts(kind: Kind, v: Worker, m: Msg): nat {
    if !v.Busy? || v.msg != m then 0
    else match kind
      case Stale => if v.stage.Received? && !v.linked then 1 else 0
      case Run => if v.stage.Running? then 1 else 0
  }

  function Tally(kind: Kind, workers: seq<Worker>, m: Msg): nat {
    if workers == [] then 0 else Counts(kind, workers[0], m) + Tally(kind, workers[1..], m)
  }

  lemma {:induction false} TallyUpdate(kind: Kind, workers: seq<Worker>, w: nat, v: Worker, m: Msg)
    requires w < |workers|
    ensures Counts(kind, workers[w], m) <= Tally(kind, workers, m)
    ensures Tally(kind, workers[w := v], m)
         == Tally(kind, workers, m) - Counts(kind, workers[w], m) + Counts(kind, v, m)
  {
    if w == 0 {
      assert workers[w := v][1..] == workers[1..];
    } else {
      assert workers[w := v][1..] == workers[1..][w - 1 := v];
      TallyUpdate(kind, workers[1..], w - 1, v, m);
    }
  }

  lemma {:induction false} NoTally(kind: Kind, workers: seq<Worker>, m: Msg)
    requires forall w :: 0 <= w < |workers| ==> Counts(kind, workers[w], m) == 0
    ensures Tally(kind, workers, m) == 0
  {
    if workers != [] {
      NoTally(kind, workers[1..], m);
    }
  }

  predicate Failing(outcomes: seq<Outcome>) {
    exists i :: 0 <= i < |outcomes| && !outcomes[i].Succeeded?
  }

  /** How the runs of a message fit the places it is in. */
  predicate Fits(story: Story, hand: Worker, acked: bool, failed: bool, stale: nat, runs: nat) {
    var begun := acked || failed || (hand.Busy? && !hand.stage.Received?);
    && |story.outcomes| + runs <= story.started
    && story.started + stale <= story.losses + (if begun then 1 else 0)
    && (acked ==> Succeeded in story.outcomes)
    && (failed ==> Failing(story.outcomes))
    && (hand.Busy? && hand.stage.Finished? ==> hand.stage.outcome in story.outcomes)
  }

  ghost predicate StoryOk(s: State, m: Msg) {
    Fits(StoryOf(s, m), HandOf(s, m), m in s.acked, m in s.failed,
         Tally(Stale, s.workers, m), Tally(Run, s.workers, m))
  }

  ghost predicate StoriesOk(s: State) {
    forall m: Msg :: StoryOk(s, m)
  }

  ghost predicate Inv(s: State) {
    PlacesOk(s) && PublishingOk(s) && HandsOk(s.unacked, s.workers) && StoriesOk(s)
  }

  lemma NextKeepsTopology(s: State, e: Event)
    requires TopologyOk(s) && Enabled(s, e)
    ensures TopologyOk(Next(s, e))
  {
  }

  lemma NextKeepsPublishing(s: State, e: Event)
    requires PublishingOk(s) && Enabled(s, e)
    ensures PublishingOk(Next(s, e))
  {
    NextKeepsTopology(s, e);
    if WorkStep(e) {
      WorkPublishesNothing(s, e);
    }
  }

  lemma WorkPublishesNothing(s: State, e: Event)
    requires Enabled(s, e) && WorkStep(e)
    ensures var t := Next(s, e);
            && t.inFlight == s.inFlight && t.published == s.published && t.routed == s.routed
            && t.confirms == s.confirms && t.returned == s.returned
            && t.mainQueue == s.mainQueue && t.failedQueue == s.failedQueue
  {
  }

  /** A message stands in one place only. */
  lemma PlaceFacts(s: State, m: Msg)
    requires PlacesOk(s)
    ensures m in s.ready ==> m in s.routed && m !in s.unacked && m !in s.acked && m !in s.failed
    ensures m in s.unacked ==> m in s.routed && m !in s.acked && m !in s.failed
    ensures m in s.acked ==> m in s.routed && m !in s.failed
    ensures m in s.failed ==> m in s.routed
  {
    assert Places(s, m) == if m in s.routed then 1 else 0;
    CountIn(s.ready, m);
    CountIn(s.failed, m);
  }

  /** A worker moves on with its delivery, or moves while the broker counts nothing on it. */
  lemma HandsSame(unacked: map<Msg, nat>, workers: seq<Worker>, w: nat, v: Worker)
    requires HandsOk(unacked, workers) && w < |workers|
    requires workers[w].Linked() == v.Linked() && (v.Linked() ==> v.msg == workers[w].msg)
    ensures HandsOk(unacked, workers[w := v])
  {
  }

  lemma HandsTake(unacked: map<Msg, nat>, workers: seq<Worker>, w: nat, m: Msg)
    requires HandsOk(unacked, workers) && w < |workers| && m !in unacked
    requires forall x :: x in unacked ==> unacked[x] != w
    ensures !workers[w].Linked()
    ensures HandsOk(unacked[m := w], workers[w := Busy(m, Received, true)])
  {
  }

  lemma HandsDrop(unacked: map<Msg, nat>, workers: seq<Worker>, w: nat, v: Worker)
    requires HandsOk(unacked, workers) && w < |workers|
    requires workers[w].Linked() && !v.Linked()
    ensures HandsOk(unacked - {workers[w].msg}, workers[w := v])
  {
  }

  /** The step ends the broker's hold of a message at this worker. */
  predicate Releases(s: State, e: Event)
    requires Enabled(s, e)
  {
    e.Settle? || TakesBack(s, e)
  }

  lemma NextKeepsHands(s: State, e: Event)
    requires PlacesOk(s) && HandsOk(s.unacked, s.workers) && Enabled(s, e)
    ensures HandsOk(Next(s, e).unacked, Next(s, e).workers)
  {
    if e.Deliver? {
      PlaceFacts(s, s.ready[0]);
      HandsTake(s.unacked, s.workers, e.worker, s.ready[0]);
    } else if Releases(s, e) {
      HandsDrop(s.unacked, s.workers, e.worker, After(s, e));
    } else if WorkStep(e) {
      HandsSame(s.unacked, s.workers, e.worker, After(s, e));
    }
  }

  /** How one step moves one message. */
  lemma PlacesStep(s: State, e: Event, m: Msg)
    requires Enabled(s, e)
    requires Places(s, m) == if m in s.routed then 1 else 0
    requires e.BrokerStores? ==> e.msg !in s.routed
    requires Releases(s, e) ==>
               s.workers[e.worker].msg in s.unacked && s.workers[e.worker].msg !in s.acked && s.failedQueue
    requires e.Deliver? ==> s.ready[0] !in s.unacked
    ensures Places(Next(s, e), m) == if m in Next(s, e).routed then 1 else 0
  {
    if e.BrokerStores? {
      CountAppend(s.ready, e.msg, m);
    } else if WorkStep(e) {
      WorkKeepsPlaces(s, e, m);
    }
  }

  lemma WorkKeepsPlaces(s: State, e: Event, m: Msg)
    requires Enabled(s, e) && WorkStep(e)
    requires Releases(s, e) ==>
               s.workers[e.worker].msg in s.unacked && s.workers[e.worker].msg !in s.acked && s.failedQueue
    requires e.Deliver? ==> s.ready[0] !in s.unacked
    ensures Places(WorkNext(s, e), m) == Places(s, m)
  {
    if e.Settle? {
      CountAppend(s.failed, s.workers[e.worker].msg, m);
    } else if TakesBack(s, e) {
      assert ([s.workers[e.worker].msg] + s.ready)[1..] == s.ready;
    }
  }

  lemma NextKeepsPlaces(s: State, e: Event)
    requires PlacesOk(s) && PublishingOk(s) && HandsOk(s.unacked, s.workers) && Enabled(s, e)
    ensures PlacesOk(Next(s, e))
  {
    if Releases(s, e) {
      PlaceFacts(s, s.workers[e.worker].msg);
    }
    if e.Deliver? {
      PlaceFacts(s, s.ready[0]);
    }
    forall m: Msg
      ensures Places(Next(s, e), m) == if m in Next(s, e).routed then 1 else 0
    {
      PlacesStep(s, e, m);
    }
  }

  // ---------------------------------------------------------------- the story of one message

  /** The message that a worker step is about, if any. */
  predicate About(s: State, e: Event, m: Msg)
    requires Enabled(s, e) && WorkStep(e)
  {
    if e.Deliver? then s.ready[0] == m else s.workers[e.worker].Busy? && s.workers[e.worker].msg == m
  }

  lemma TalliesStep(s: State, e: Event, m: Msg)
    requires Enabled(s, e) && WorkStep(e)
    ensures var t := Next(s, e); var u := s.workers[e.worker]; var v := After(s, e);
            && Counts(Stale, u, m) <= Tally(Stale, s.workers, m) && Counts(Run, u, m) <= Tally(Run, s.workers, m)
            && Tally(Stale, t.workers, m) == Tally(Stale, s.workers, m) - Counts(Stale, u, m) + Counts(Stale, v, m)
            && Tally(Run, t.workers, m) == Tally(Run, s.workers, m) - Counts(Run, u, m) + Counts(Run, v, m)
  {
    var v := After(s, e);
    TallyUpdate(Stale, s.workers, e.worker, v, m);
    TallyUpdate(Run, s.workers, e.worker, v, m);
  }

  /** Nobody else's hand moves. */
  lemma BystanderHand(s: State, e: Event, m: Msg)
    requires HandsOk(s.unacked, s.workers) && Enabled(s, e) && WorkStep(e) && !About(s, e, m)
    requires e.Deliver? ==> !s.workers[e.worker].Linked()
    ensures HandOf(Next(s, e), m) == HandOf(s, m)
  {
    if m in s.unacked {
      assert s.workers[s.unacked[m]].Holds(m);
    }
  }

  lemma BystanderStep(s: State, e: Event, m: Msg)
    requires HandsOk(s.unacked, s.workers) && Enabled(s, e) && WorkStep(e) && !About(s, e, m)
    requires e.Deliver? ==> !s.workers[e.worker].Busy?
    requires StoryOk(s, m)
    ensures StoryOk(Next(s, e), m) && StoryOf(Next(s, e), m) == StoryOf(s, m)
    ensures Tally(Stale, Next(s, e).workers, m) == Tally(Stale, s.workers, m)
  {
    BystanderHand(s, e, m);
    BystanderTallies(s, e, m);
    BystanderKeeps(s, e, m);
  }

  lemma BystanderTallies(s: State, e: Event, m: Msg)
    requires Enabled(s, e) && WorkStep(e) && !About(s, e, m)
    requires e.Deliver? ==> !s.workers[e.worker].Busy?
    ensures Tally(Stale, Next(s, e).workers, m) == Tally(Stale, s.workers, m)
    ensures Tally(Run, Next(s, e).workers, m) == Tally(Run, s.workers, m)
  {
    TalliesStep(s, e, m);
  }

  lemma BystanderKeeps(s: State, e: Event, m: Msg)
    requires Enabled(s, e) && WorkStep(e) && !About(s, e, m)
    ensures StoryOf(Next(s, e), m) == StoryOf(s, m)
    ensures (m in Next(s, e).acked <==> m in s.acked) && (m in Next(s, e).failed <==> m in s.failed)
  {
  }

  lemma DeliveredStory(s: State, w: nat, m: Msg)
    requires Enabled(s, Deliver(w)) && s.ready[0] == m && m !in s.unacked && !s.workers[w].Busy? && StoryOk(s, m)
    ensures StoryOk(Next(s, Deliver(w)), m)
  {
    TalliesStep(s, Deliver(w), m);
    assert HandOf(Next(s, Deliver(w)), m) == Busy(m, Received, true) && HandOf(s, m) == Down;
  }

  lemma StartedStory(s: State, w: nat, m: Msg)
    requires Enabled(s, Start(w)) && s.workers[w] == Busy(m, Received, true) && HandOf(s, m) == s.workers[w]
    requires m in s.unacked && s.unacked[m] == w && m !in s.acked && m !in s.failed && StoryOk(s, m)
    ensures StoryOk(Next(s, Start(w)), m)
  {
    TalliesStep(s, Start(w), m);
    assert HandOf(Next(s, Start(w)), m) == Busy(m, Running, true);
  }

  lemma FinishedStory(s: State, w: nat, outcome: Outcome, m: Msg)
    requires Enabled(s, Finish(w, outcome)) && s.workers[w] == Busy(m, Running, true)
    requires m in s.unacked && s.unacked[m] == w && m !in s.acked && m !in s.failed && StoryOk(s, m)
    ensures StoryOk(Next(s, Finish(w, outcome)), m)
  {
    TalliesStep(s, Finish(w, outcome), m);
    var before := StoryOf(s, m).outcomes;
    assert (before + [outcome])[|before|] == outcome;
    assert HandOf(Next(s, Finish(w, outcome)), m) == Busy(m, Finished(outcome), true);
  }

  lemma SettledStory(s: State, w: nat, m: Msg)
    requires Enabled(s, Settle(w)) && s.workers[w].msg == m && s.failedQueue
    requires m in s.unacked && s.unacked[m] == w && m !in s.acked && m !in s.failed && StoryOk(s, m)
    ensures StoryOk(Next(s, Settle(w)), m)
  {
    TalliesStep(s, Settle(w), m);
    assert HandOf(Next(s, Settle(w)), m) == Down && HandOf(s, m) == s.workers[w];
    if !s.workers[w].stage.outcome.Succeeded? {
      assert Failing(StoryOf(s, m).outcomes);
    }
  }

  lemma RequeuedStory(s: State, e: Event, m: Msg)
    requires (e.Sever? || e.Crash?) && Enabled(s, e) && s.workers[e.worker].Holds(m)
    requires m in s.unacked && s.unacked[m] == e.worker && m !in s.acked && m !in s.failed && StoryOk(s, m)
    ensures StoryOk(Next(s, e), m)
  {
    TalliesStep(s, e, m);
    assert HandOf(Next(s, e), m) == Down && HandOf(s, m) == s.workers[e.worker];
  }

  /** A step of the worker at which the message is unacked, or its delivery. */
  lemma LinkedStep(s: State, e: Event, m: Msg)
    requires HandsOk(s.unacked, s.workers) && Enabled(s, e) && WorkStep(e) && About(s, e, m)
    requires if e.Deliver? then m !in s.unacked && !s.workers[e.worker].Busy? else s.workers[e.worker].linked
    requires StoryOk(s, m) && m !in s.acked && m !in s.failed && (e.Settle? ==> s.failedQueue)
    ensures StoryOk(Next(s, e), m)
  {
    assert !e.Deliver? ==> s.workers[e.worker].Linked();
    match e
    case Deliver(w) => DeliveredStory(s, w, m);
    case Start(w) => StartedStory(s, w, m);
    case Finish(w, outcome) => FinishedStory(s, w, outcome, m);
    case Settle(w) => SettledStory(s, w, m);
    case Sever(w) => RequeuedStory(s, e, m);
    case Crash(w) => RequeuedStory(s, e, m);
  }

  /** A step with a delivery that the broker has taken back: the message itself may be anywhere. */
  lemma StaleStep(s: State, e: Event, m: Msg)
    requires HandsOk(s.unacked, s.workers) && Enabled(s, e) && WorkStep(e) && !e.Deliver? && About(s, e, m)
    requires !s.workers[e.worker].linked && StoryOk(s, m)
    ensures StoryOk(Next(s, e), m)
    ensures Next(s, e).acked == s.acked && Next(s, e).failed == s.failed && Next(s, e).unacked == s.unacked
    ensures var t := Next(s, e);
            && StoryOf(t, m).started + Tally(Stale, t.workers, m) <= StoryOf(s, m).started + Tally(Stale, s.workers, m)
            && StoryOf(s, m).outcomes <= StoryOf(t, m).outcomes && StoryOf(s, m).losses == StoryOf(t, m).losses
            && StoryOf(s, m).started <= StoryOf(t, m).started
  {
    var t := Next(s, e);
    TalliesStep(s, e, m);
    if m in s.unacked {
      assert s.workers[s.unacked[m]].Holds(m) && s.unacked[m] != e.worker;
    }
    assert HandOf(t, m) == HandOf(s, m);
    OutcomesGrow(StoryOf(s, m).outcomes, StoryOf(t, m).outcomes);
  }

  lemma OutcomesGrow(a: seq<Outcome>, b: seq<Outcome>)
    ensures a <= b && Failing(a) ==> Failing(b)
    ensures a <= b ==> forall o :: o in a ==> o in b
  {
    if a <= b && Failing(a) {
      var i :| 0 <= i < |a| && !a[i].Succeeded?;
      assert !b[i].Succeeded?;
    }
    if a <= b {
      forall o | o in a ensures o in b {
        var i :| 0 <= i < |a| && a[i] == o;
        assert b[i] == o;
      }
    }
  }

  lemma StoryStep(s: State, e: Event, m: Msg)
    requires StoryOk(s, m) && HandsOk(s.unacked, s.workers) && PlacesOk(s) && Enabled(s, e) && WorkStep(e)
    requires m in s.unacked ==> s.failedQueue
    ensures StoryOk(Next(s, e), m)
  {
    PlaceFacts(s, m);
    if e.Deliver? { DeliveryIsToIdle(s, e.worker); }
    if !About(s, e, m) {
      BystanderStep(s, e, m);
    } else if e.Deliver? || s.workers[e.worker].linked {
      LinkedStep(s, e, m);
    } else {
      StaleStep(s, e, m);
    }
  }

  lemma DeliveryIsToIdle(s: State, w: nat)
    requires HandsOk(s.unacked, s.workers) && Enabled(s, Deliver(w))
    ensures s.workers[w].Idle?
  {
  }

  lemma NextKeepsStories(s: State, e: Event)
    requires Inv(s) && Enabled(s, e)
    ensures StoriesOk(Next(s, e))
  {
    forall m: Msg
      ensures StoryOk(Next(s, e), m)
    {
      assert StoryOk(s, m);
      PlaceFacts(s, m);
      if WorkStep(e) {
        StoryStep(s, e, m);
      }
    }
  }

  lemma InitInv(n: nat)
    ensures Inv(Init(n))
  {
    forall m: Msg ensures StoryOk(Init(n), m) {
      NoTally(Stale, Init(n).workers, m);
      NoTally(Run, Init(n).workers, m);
    }
  }

  lemma NextKeepsInv(s: State, e: Event)
    requires Inv(s) && Enabled(s, e)
    ensures Inv(Next(s, e))
  {
    NextKeepsPublishing(s, e);
    NextKeepsHands(s, e);
    NextKeepsPlaces(s, e);
    NextKeepsStories(s, e);
  }

  lemma {:induction false} RunKeepsInv(s0: State, es: seq<Event>, s1: State)
    requires Inv(s0) && Runs(s0, es, s1)
    ensures Inv(s1)
    decreases |es|
  {
    if es != [] {
      NextKeepsInv(s0, es[0]);
      RunKeepsInv(Next(s0, es[0]), es[1..], s1);
    }
  }

  lemma ReachableInv(s: State)
    requires Reachable(s)
    ensures Inv(s)
  {
    var n: nat, es :| Runs(Init(n), es, s);
    InitInv(n);
    RunKeepsInv(Init(n), es, s);
  }

  lemma {:induction false} RunsStep(s0: State, es: seq<Event>, s1: State, e: Event)
    requires Runs(s0, es, s1) && Enabled(s1, e)
    ensures Runs(s0, es + [e], Next(s1, e))
    decreases |es|
  {
    if es == [] {
      assert Runs(Next(s1, e), [], Next(s1, e));
    } else {
      RunsStep(Next(s0, es[0]), es[1..], s1, e);
      assert (es + [e])[1..] == es[1..] + [e];
    }
  }

  lemma ReachStep(s: State, e: Event)
    requires Reachable(s) && Enabled(s, e)
    ensures Reachable(Next(s, e))
  {
    var n: nat, es :| Runs(Init(n), es, s);
    RunsStep(Init(n), es, s, e);
  }

  // ---------------------------------------------------------------- what every run guarantees

  /** Wherever declarations fail, go unheard or are cut short, the main queue exists only if the failed
      queue does, both exist once some DeclareTopology has returned nil, and so a nack never loses its
      message. */
  lemma TopologySafety(s: State)
    requires Reachable(s)
    ensures s.mainQueue ==> s.failedQueue
    ensures s.declaredBy != {} ==> s.mainQueue && s.failedQueue
    ensures forall w: nat {:trigger s.workers[w]} ::
              AtEnd(s, w, true) && !s.workers[w].stage.outcome.Succeeded? ==>
                s.workers[w].msg in Next(s, Settle(w)).failed
  {
    ReachableInv(s);
    forall w: nat | AtEnd(s, w, true) ensures s.failedQueue {
      PlaceFacts(s, s.workers[w].msg);
    }
  }

  /** Exactly one of: once in the ready queue, unacked at one worker, acknowledged, once in the
      failed queue. */
  ghost predicate InExactlyOnePlace(s: State, m: Msg) {
    && Places(s, m) == 1
    && (forall w :: 0 <= w < |s.workers| ==>
          (s.workers[w].Holds(m) <==> m in s.unacked && s.unacked[m] == w))
  }

  /** Message conservation: in every reachable state, whatever crashed in between, a message for
      which PublishJSON returned nil is in exactly one place if and only if the queue existed when
      the broker took it; the broker confirms a message that no queue matches as well, and then it
      is nowhere. */
  lemma Conservation(s: State, m: Msg)
    requires Reachable(s) && m in s.returned && s.returned[m]
    ensures InExactlyOnePlace(s, m) <==> m in s.routed
    ensures Places(s, m) == 0 <==> m !in s.routed
  {
    ReachableInv(s);
    assert Places(s, m) == if m in s.routed then 1 else 0;
  }

  /** Publishing starts when some process has declared the topology, as the API process does before it
      opens its publisher. */
  ghost predicate WiredRuns(s0: State, es: seq<Event>, s1: State)
    decreases |es|
  {
    if es == [] then s0 == s1
    else
      && Enabled(s0, es[0]) && (es[0].Publish? ==> s0.declaredBy != {})
      && WiredRuns(Next(s0, es[0]), es[1..], s1)
  }

  /** In a wired run no message whose PublishJSON returned nil is ever lost or duplicated. */
  lemma NothingLost(n: nat, es: seq<Event>, s: State, m: Msg)
    requires WiredRuns(Init(n), es, s)
    requires m in s.returned && s.returned[m]
    ensures InExactlyOnePlace(s, m)
  {
    WiredRunIsRun(Init(n), es, s);
    WiredRunRoutes(Init(n), es, s);
    Conservation(s, m);
  }

  lemma {:induction false} WiredRunIsRun(s0: State, es: seq<Event>, s1: State)
    requires WiredRuns(s0, es, s1)
    ensures Runs(s0, es, s1)
    decreases |es|
  {
    if es != [] {
      WiredRunIsRun(Next(s0, es[0]), es[1..], s1);
    }
  }

  ghost predicate ConfirmedAreRouted(s: State) {
    && PublishingOk(s) && (s.published != {} ==> s.mainQueue)
    && forall m :: m in s.confirms && s.confirms[m] ==> m in s.routed
  }

  lemma {:induction false} WiredRunRoutes(s0: State, es: seq<Event>, s1: State)
    requires ConfirmedAreRouted(s0) && WiredRuns(s0, es, s1)
    ensures ConfirmedAreRouted(s1)
    decreases |es|
  {
    if es != [] {
      NextKeepsPublishing(s0, es[0]);
      WiredStep(s0, es[0]);
      WiredRunRoutes(Next(s0, es[0]), es[1..], s1);
    }
  }

  lemma WiredStep(s: State, e: Event)
    requires ConfirmedAreRouted(s) && Enabled(s, e) && PublishingOk(Next(s, e))
    requires e.Publish? ==> s.declaredBy != {}
    ensures ConfirmedAreRouted(Next(s, e))
  {
  }

  /** Settlement truth and bounded duplication: some handler run of an acknowledged message returned nil,
      some run of a dead-lettered one returned an error or panicked, and the runs started for a message
      exceed by at most one the times that a consumer or its channel was lost while the message was
      unacked there. Without such a loss the message has one run, and that run decided. */
  lemma SettlementTruth(s: State, m: Msg)
    requires Reachable(s)
    ensures var story := StoryOf(s, m);
            && (m in s.acked ==> Succeeded in story.outcomes)
            && (m in s.failed ==> Failing(story.outcomes))
            && |story.outcomes| <= story.started <= story.losses + 1
            && (story.losses == 0 ==>
                  && (m in s.acked ==> story.outcomes == [Succeeded])
                  && (m in s.failed ==> |story.outcomes| == 1 && !story.outcomes[0].Succeeded?)
                  && (story.outcomes != [] && m !in s.unacked ==> m in s.acked || m in s.failed))
  {
    ReachableInv(s);
    assert StoryOk(s, m);
    PlaceFacts(s, m);
  }

  /** Prefetch 1: no consumer ever has two unacked messages, and a delivery finds its worker idle. */
  lemma OneAtATime(s: State, a: Msg, b: Msg)
    requires Reachable(s) && a in s.unacked && b in s.unacked && s.unacked[a] == s.unacked[b]
    ensures a == b
  {
    ReachableInv(s);
    var w := s.unacked[a];
    assert s.workers[w].Holds(a) && s.workers[w].Holds(b);
  }

  lemma DeliveryFindsIdle(s: State, w: nat)
    requires Reachable(s) && Enabled(s, Deliver(w))
    ensures s.workers[w].Idle?
  {
    ReachableInv(s);
    DeliveryIsToIdle(s, w);
  }

  predicate Settled(s: State, m: Msg) {
    m in s.acked || m in s.failed
  }

  /** A settled message stays where it is and is never delivered again. The only runs of it that can
      still start are those of deliveries that a worker had received, and the broker taken back, before
      the settlement; runs already under way may still finish. */
  lemma {:induction false} SettledForever(s0: State, es: seq<Event>, s1: State, m: Msg)
    requires Inv(s0) && Runs(s0, es, s1) && Settled(s0, m)
    ensures m in s0.acked ==> m in s1.acked
    ensures m in s0.failed ==> m in s1.failed
    ensures m !in s1.ready && m !in s1.unacked
    ensures StoryOf(s0, m).started <= StoryOf(s1, m).started
    ensures StoryOf(s1, m).started + Tally(Stale, s1.workers, m) <= StoryOf(s0, m).started + Tally(Stale, s0.workers, m)
    ensures StoryOf(s0, m).outcomes <= StoryOf(s1, m).outcomes && StoryOf(s1, m).losses == StoryOf(s0, m).losses
    decreases |es|
  {
    PlaceFacts(s0, m);
    if es != [] {
      var e, t := es[0], Next(s0, es[0]);
      NextKeepsInv(s0, e);
      SettledStep(s0, e, m);
      SettledForever(t, es[1..], s1, m);
    }
  }

  /** What a step may do to the runs of a settled message. */
  ghost predicate OnlyWindsDown(s: State, t: State, m: Msg) {
    && StoryOf(s, m).started <= StoryOf(t, m).started
    && StoryOf(t, m).started + Tally(Stale, t.workers, m) <= StoryOf(s, m).started + Tally(Stale, s.workers, m)
    && StoryOf(s, m).outcomes <= StoryOf(t, m).outcomes && StoryOf(t, m).losses == StoryOf(s, m).losses
    && (m in s.acked ==> m in t.acked) && (m in s.failed ==> m in t.failed)
  }

  lemma SettledStep(s: State, e: Event, m: Msg)
    requires Inv(s) && Enabled(s, e) && Settled(s, m)
    ensures OnlyWindsDown(s, Next(s, e), m)
  {
    if WorkStep(e) {
      PlaceFacts(s, m);
      assert StoryOk(s, m);
      SettledWork(s, e, m);
    }
  }

  lemma SettledWork(s: State, e: Event, m: Msg)
    requires HandsOk(s.unacked, s.workers) && StoryOk(s, m) && Enabled(s, e) && WorkStep(e)
    requires m !in s.unacked && m !in s.ready
    ensures OnlyWindsDown(s, Next(s, e), m)
  {
    if e.Deliver? { DeliveryIsToIdle(s, e.worker); }
    if About(s, e, m) {
      assert !s.workers[e.worker].Linked();
      StaleStep(s, e, m);
    } else {
      BystanderStep(s, e, m);
      BystanderKeeps(s, e, m);
    }
  }

  lemma {:induction false} SomeoneCounts(kind: Kind, workers: seq<Worker>, m: Msg) returns (w: nat)
    requires Tally(kind, workers, m) > 0
    ensures w < |workers| && Counts(kind, workers[w], m) > 0
  {
    if Counts(kind, workers[0], m) > 0 {
      w := 0;
    } else {
      w := SomeoneCounts(kind, workers[1..], m);
      w := w + 1;
    }
  }

  ghost predicate LeadsTo(s: State, t: State) {
    exists es :: Runs(s, es, t)
  }

  /** So a settled message is never run again, in any continuation, exactly when no worker still has such
      a delivery to handle. */
  lemma NoNewRunIff(s: State, m: Msg)
    requires Reachable(s) && Settled(s, m)
    ensures (forall t :: LeadsTo(s, t) ==> StoryOf(t, m).started == StoryOf(s, m).started)
            <==> Tally(Stale, s.workers, m) == 0
  {
    ReachableInv(s);
    if Tally(Stale, s.workers, m) == 0 {
      forall t | LeadsTo(s, t) ensures StoryOf(t, m).started == StoryOf(s, m).started {
        var es :| Runs(s, es, t);
        SettledForever(s, es, t, m);
      }
    } else {
      var es, t := StaleDeliveryStarts(s, m);
      assert LeadsTo(s, t);
    }
  }

  lemma StaleDeliveryStarts(s: State, m: Msg) returns (es: seq<Event>, t: State)
    requires Tally(Stale, s.workers, m) > 0
    ensures Runs(s, es, t) && StoryOf(t, m).started == StoryOf(s, m).started + 1
  {
    var w := SomeoneCounts(Stale, s.workers, m);
    es, t := [Start(w)], Next(s, Start(w));
    assert Runs(t, [], t);
    assert es[1..] == [];
  }

  // ---------------------------------------------------------------- runs that show the limits

  /** Without the declaration, PublishJSON returns nil for a message that exists nowhere. */
  lemma UndeclaredLosesMessage()
    ensures exists s: State :: Reachable(s) && 7 in s.returned && s.returned[7] && Places(s, 7) == 0
  {
    var s0 := Init(0);
    assert Runs(s0, [], s0);
    ReachStep(s0, Publish(7));
    var s1 := Next(s0, Publish(7));
    ReachStep(s1, BrokerStores(7));
    var s2 := Next(s1, BrokerStores(7));
    ReachStep(s2, PublishReturnsNil(7));
    var s3 := Next(s2, PublishReturnsNil(7));
    assert Places(s3, 7) == 0;
  }

  lemma TwoQueues() returns (s: State)
    ensures Reachable(s) && s == Init(2).(failedQueue := true, mainQueue := true, declaredBy := {0})
  {
    var s0 := Init(2);
    assert Runs(s0, [], s0);
    ReachStep(s0, DeclareFailedQueue(0, Accepted));
    var s1 := Next(s0, DeclareFailedQueue(0, Accepted));
    ReachStep(s1, DeclareMainQueue(0, Accepted));
    s := Next(s1, DeclareMainQueue(0, Accepted));
    assert s.declaring == {} && s.declaredBy == {0};
  }

  /** Two workers wait and one message is ready. */
  predicate OneReady(s: State) {
    && s.failedQueue && s.ready == [7] && s.unacked == map[] && s.acked == {} && s.failed == []
    && s.workers == [Idle, Idle] && s.stories == map[]
  }

  lemma OneMessage() returns (s: State)
    ensures Reachable(s) && s.failedQueue && s.ready == [7] && s.unacked == map[] && s.acked == {}
    ensures s.failed == [] && s.workers == [Down, Down] && s.stories == map[]
  {
    var s0 := TwoQueues();
    ReachStep(s0, Publish(7));
    var s1 := Next(s0, Publish(7));
    ReachStep(s1, BrokerStores(7));
    s := Next(s1, BrokerStores(7));
  }

  lemma OneMessageTwoWorkers() returns (s: State)
    ensures Reachable(s) && OneReady(s)
  {
    var s0 := OneMessage();
    ReachStep(s0, Rejoin(0));
    var s1 := Next(s0, Rejoin(0));
    ReachStep(s1, Rejoin(1));
    s := Next(s1, Rejoin(1));
  }

  /** Worker 0 has the message at some stage, but its channel is gone and the message is ready again. */
  predicate TakenBack(s: State, stage: Stage, started: nat) {
    && s.failedQueue && s.ready == [7] && s.unacked == map[] && s.acked == {} && s.failed == []
    && s.workers == [Busy(7, stage, false), Idle] && StoryOf(s, 7) == Story(started, [], 1)
  }

  lemma ChannelLost(s0: State, started: bool) returns (s: State)
    requires Reachable(s0) && OneReady(s0)
    ensures Reachable(s) && TakenBack(s, if started then Running else Received, if started then 1 else 0)
  {
    s := FirstReceives(s0);
    if started {
      s := FirstStarts(s);
    }
    s := SeverFirst(s, if started then Running else Received, if started then 1 else 0);
  }

  /** Worker 0 holds the message at some stage. */
  predicate WithFirst(s: State, stage: Stage, started: nat) {
    && s.failedQueue && s.ready == [] && s.unacked == map[7 := 0] && s.acked == {} && s.failed == []
    && s.workers == [Busy(7, stage, true), Idle] && StoryOf(s, 7) == Story(started, [], 0)
  }

  lemma FirstReceives(s0: State) returns (s: State)
    requires Reachable(s0) && OneReady(s0)
    ensures Reachable(s) && WithFirst(s, Received, 0)
  {
    ReachStep(s0, Deliver(0));
    s := Next(s0, Deliver(0));
  }

  lemma FirstStarts(s0: State) returns (s: State)
    requires Reachable(s0) && WithFirst(s0, Received, 0)
    ensures Reachable(s) && WithFirst(s, Running, 1)
  {
    ReachStep(s0, Start(0));
    s := Next(s0, Start(0));
  }

  lemma SeverFirst(s0: State, stage: Stage, started: nat) returns (s: State)
    requires Reachable(s0) && WithFirst(s0, stage, started)
    ensures Reachable(s) && TakenBack(s, stage, started)
  {
    ReachStep(s0, Sever(0));
    s := Next(s0, Sever(0));
    assert s.unacked == map[];
  }

  lemma OtherWorkerSettles(s0: State, stage: Stage, started: nat) returns (s: State)
    requires Reachable(s0) && TakenBack(s0, stage, started)
    ensures Reachable(s) && 7 in s.acked
    ensures s.workers == [Busy(7, stage, false), Idle] && StoryOf(s, 7) == Story(started + 1, [Succeeded], 1)
  {
    var s1 := OtherWorkerStarts(s0, stage, started);
    ReachStep(s1, Finish(1, Succeeded));
    var s2 := Next(s1, Finish(1, Succeeded));
    ReachStep(s2, Settle(1));
    s := Next(s2, Settle(1));
  }

  lemma OtherWorkerStarts(s0: State, stage: Stage, started: nat) returns (s: State)
    requires Reachable(s0) && TakenBack(s0, stage, started)
    ensures Reachable(s)
    ensures s.workers == [Busy(7, stage, false), Busy(7, Running, true)] && StoryOf(s, 7) == Story(started + 1, [], 1)
  {
    ReachStep(s0, Deliver(1));
    var s1 := Next(s0, Deliver(1));
    ReachStep(s1, Start(1));
    s := Next(s1, Start(1));
  }

  /** A handler that outlives its channel: the last run of an acknowledged message may be a failure, and
      the first run of a worker may even start after another worker has had the message acknowledged. */
  lemma SettledYetHandled()
    ensures exists s: State ::
              && Reachable(s) && 7 in s.acked
              && StoryOf(s, 7).outcomes == [Succeeded, ReturnedError]
    ensures exists s: State, w: nat ::
              && Reachable(s) && 7 in s.acked && Enabled(s, Start(w)) && s.workers[w].msg == 7
  {
    var s0 := OneMessageTwoWorkers();
    var running := ChannelLost(s0, true);
    var acked := OtherWorkerSettles(running, Running, 1);
    ReachStep(acked, Finish(0, ReturnedError));
    var s := Next(acked, Finish(0, ReturnedError));
    assert StoryOf(s, 7).outcomes == [Succeeded, ReturnedError] && 7 in s.acked;
    var received := ChannelLost(s0, false);
    var late := OtherWorkerSettles(received, Received, 0);
    assert Enabled(late, Start(0)) && late.workers[0].msg == 7;
  }

  // ---------------------------------------------------------------- draining

  function Weight(v: Worker): nat {
    match v
    case Down => 1
    case Idle => 0
    case Busy(_, stage, linked) =>
      (if linked then 0 else 1) + (if stage.Received? then 3 else if stage.Running? then 2 else 1)
  }

  function TotalWeight(workers: seq<Worker>): nat {
    if workers == [] then 0 else Weight(workers[0]) + TotalWeight(workers[1..])
  }

  /** A consumer or its channel is lost. */
  predicate Loss(e: Event) {
    e.Sever? || e.Crash?
  }

  /** Work left when at most `losses` more consumers or channels are lost. */
  function Measure(s: State, losses: nat): nat {
    4 * |s.ready| + TotalWeight(s.workers) + 6 * losses
  }

  function LossesIn(es: seq<Event>): nat {
    if es == [] then 0 else LossesIn(es[1..]) + (if Loss(es[0]) then 1 else 0)
  }

  lemma {:induction false} TotalWeightUpdate(workers: seq<Worker>, w: nat, v: Worker)
    requires w < |workers|
    ensures TotalWeight(workers[w := v]) == TotalWeight(workers) - Weight(workers[w]) + Weight(v)
  {
    if w == 0 {
      assert workers[w := v][1..] == workers[1..];
    } else {
      assert workers[w := v][1..] == workers[1..][w - 1 := v];
      TotalWeightUpdate(workers[1..], w - 1, v);
    }
  }

  lemma WorkStepDecreases(s: State, e: Event, losses: nat)
    requires Inv(s) && Enabled(s, e) && WorkStep(e)
    requires Loss(e) ==> losses > 0
    ensures Measure(Next(s, e), if Loss(e) then losses - 1 else losses) < Measure(s, losses)
  {
    if e.Deliver? { DeliveryIsToIdle(s, e.worker); }
    TotalWeightUpdate(s.workers, e.worker, After(s, e));
  }

  /** Nothing is waiting and nothing is unacked. */
  predicate Drained(s: State) {
    s.ready == [] && s.unacked == map[]
  }

  ghost predicate CanWork(s: State) {
    exists e :: WorkStep(e) && !Loss(e) && Enabled(s, e)
  }

  lemma BusyCanWork(s: State, w: nat)
    requires w < |s.workers| && s.workers[w].Busy?
    ensures CanWork(s)
  {
    match s.workers[w].stage
    case Received => assert Enabled(s, Start(w));
    case Running => assert Enabled(s, Finish(w, Succeeded));
    case Finished(_) =>
      if s.workers[w].linked {
        assert Enabled(s, Settle(w));
      } else {
        assert Enabled(s, Quit(w));
      }
  }

  /** While the main queue is not drained, some worker or the broker can take a useful step. */
  lemma NoDeadlock(s: State)
    requires Inv(s) && s.workers != [] && !Drained(s)
    ensures CanWork(s)
  {
    if s.unacked != map[] {
      var m :| m in s.unacked;
      BusyCanWork(s, s.unacked[m]);
    } else if s.workers[0].Down? {
      assert Enabled(s, Rejoin(0));
    } else if s.workers[0].Busy? {
      BusyCanWork(s, 0);
    } else {
      assert Enabled(s, Deliver(0));
    }
  }

  lemma {:induction false} WorkIsBounded(s0: State, es: seq<Event>, s1: State, losses: nat)
    requires Inv(s0) && Runs(s0, es, s1) && (forall e :: e in es ==> WorkStep(e)) && LossesIn(es) <= losses
    ensures |es| + Measure(s1, losses - LossesIn(es)) <= Measure(s0, losses)
    decreases |es|
  {
    if es != [] {
      var e, t := es[0], Next(s0, es[0]);
      NextKeepsInv(s0, e);
      WorkStepDecreases(s0, e, losses);
      WorkIsBounded(t, es[1..], s1, if Loss(e) then losses - 1 else losses);
    }
  }

  lemma DrainedIsSettled(s: State, m: Msg)
    requires PlacesOk(s) && Drained(s) && m in s.routed
    ensures Settled(s, m)
  {
    assert Places(s, m) == 1;
    CountIn(s.failed, m);
  }

  lemma WorkOrDrained(s: State)
    requires Inv(s) && s.workers != []
    ensures CanWork(s) || (Drained(s) && forall w :: 0 <= w < |s.workers| ==> s.workers[w].Idle?)
    ensures Drained(s) ==> forall m :: m in s.routed ==> Settled(s, m)
  {
    if !Drained(s) {
      NoDeadlock(s);
    } else {
      forall m | m in s.routed
        ensures Settled(s, m)
      {
        DrainedIsSettled(s, m);
      }
      if w :| 0 <= w < |s.workers| && !s.workers[w].Idle? {
        if s.workers[w].Busy? {
          BusyCanWork(s, w);
        } else {
          assert Enabled(s, Rejoin(w));
        }
      }
    }
  }

  /** Queue drain: with publishing stopped and at most `losses` losses of a consumer or a channel, a run
      from a reachable state has at most Measure(s0, losses) steps; if it stops only where no useful step
      is left, as a fair run does, the main queue is empty, every stored message is settled, and no
      handler is running any more. */
  lemma QueueDrains(s0: State, es: seq<Event>, s1: State, losses: nat)
    requires Reachable(s0) && s0.workers != [] && Runs(s0, es, s1)
    requires (forall e :: e in es ==> WorkStep(e)) && LossesIn(es) <= losses
    ensures |es| <= Measure(s0, losses)
    ensures CanWork(s1) || (Drained(s1) && forall w :: 0 <= w < |s1.workers| ==> s1.workers[w].Idle?)
    ensures Drained(s1) ==> forall m :: m in s1.routed ==> Settled(s1, m)
  {
    ReachableInv(s0);
    RunIsBounded(s0, es, s1, losses);
    RunStaysWhole(s0, es, s1);
    WorkOrDrained(s1);
  }

  lemma RunIsBounded(s0: State, es: seq<Event>, s1: State, losses: nat)
    requires Inv(s0) && Runs(s0, es, s1) && (forall e :: e in es ==> WorkStep(e)) && LossesIn(es) <= losses
    ensures |es| <= Measure(s0, losses)
  {
    WorkIsBounded(s0, es, s1, losses);
  }

  lemma RunStaysWhole(s0: State, es: seq<Event>, s1: State)
    requires Inv(s0) && Runs(s0, es, s1)
    ensures Inv(s1) && |s1.workers| == |s0.workers|
  {
    RunKeepsInv(s0, es, s1);
    SameWorkerCount(s0, es, s1);
  }

  lemma {:induction false} SameWorkerCount(s0: State, es: seq<Event>, s1: State)
    requires Runs(s0, es, s1)
    ensures |s1.workers| == |s0.workers|
    decreases |es|
  {
    if es != [] {
      SameWorkerCount(Next(s0, es[0]), es[1..], s1);
    }
  }
}
