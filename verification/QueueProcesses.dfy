/** The code that drives the work queue: PublishJSON on the API side, handleOne and the Consume loop
    on the worker side, each proved to take the steps of the step machine. */
module QueueProcesses {
  import opened WorkQueue

  /** What the network and the broker do to one publish. */
  datatype Fate =
    | SendFails                 // the channel reports an error; nothing was sent
    | NoAnswer(arrives: bool)   // the confirm does not come within the timeout; the frame may have arrived
    | BrokerAcks
    | BrokerNacks

  datatype PublishError = SendError | ConfirmTimeout | Nacked

  datatype PublishResult = Ok | Err(error: PublishError)

  /** What the broker does to a message that was sent. */
  function BrokerStep(m: Msg, fate: Fate): Event {
    match fate
    case BrokerAcks => BrokerStores(m)
    case BrokerNacks => BrokerRejects(m)
    case NoAnswer(arrives) => if arrives then BrokerStores(m) else FrameLost(m)
    case SendFails => FrameLost(m)
  }

  /** Nil exactly when the broker's ack arrives in time. */
  function Answered(fate: Fate): PublishResult {
    match fate
    case SendFails => Err(SendError)
    case NoAnswer(_) => Err(ConfirmTimeout)
    case BrokerAcks => Ok
    case BrokerNacks => Err(Nacked)
  }

  /** The frame reaches a broker that takes it: an ack, or a timeout that the frame outran. */
  predicate Arrives(fate: Fate) {
    fate == BrokerAcks || fate == NoAnswer(true)
  }

  function Sent(s: State, m: Msg): (t: State)
    requires Enabled(s, Publish(m)) && m !in s.inFlight && m !in s.returned
    ensures m in t.inFlight && m in t.published && m !in t.returned
  {
    Next(s, Publish(m))
  }

  /** The message is sent and the broker has done with it what it will do. */
  function AtBroker(s: State, m: Msg, fate: Fate): (t: State)
    requires Enabled(s, Publish(m)) && m !in s.inFlight && m !in s.returned
    ensures m in t.published && m !in t.returned
    ensures fate.BrokerAcks? ==> m in t.confirms && t.confirms[m]
  {
    Next(Sent(s, m), BrokerStep(m, fate))
  }

  function AfterPublish(s: State, m: Msg, fate: Fate): State
    requires Enabled(s, Publish(m)) && m !in s.inFlight && m !in s.returned
  {
    Next(AtBroker(s, m, fate), if fate.BrokerAcks? then PublishReturnsNil(m) else PublishReturnsError(m))
  }

  /** What happens to one DeclareTopology. */
  datatype DeclareFate = DiesBetween | Replies(failedQueue: Reply, mainQueue: Reply)

  datatype DeclareResult = Declared | DeclareError | Died

  function AfterDeclare(s: State, p: nat, fate: DeclareFate): State
    requires p !in s.declaring
  {
    match fate
    case DiesBetween => Next(Next(s, DeclareFailedQueue(p, Accepted)), DeclarerDies(p))
    case Replies(first, second) =>
      var t := Next(s, DeclareFailedQueue(p, first));
      if first.Accepted? then Next(t, DeclareMainQueue(p, second)) else t
  }

  /** One run of the handler; the settlement that follows reaches the broker or finds the channel gone. */
  function AfterHandling(s: State, w: nat, outcome: Outcome, settles: bool): State
    requires Enabled(s, Start(w)) && s.workers[w].Linked()
  {
    Next(Next(Next(s, Start(w)), Finish(w, outcome)), if settles then Settle(w) else Sever(w))
  }

  /** The messages among these that their handler runs sent to the failed queue, in order. */
  function NackedOf(msgs: seq<Msg>, outcomes: seq<Outcome>): seq<Msg>
    requires |msgs| == |outcomes|
  {
    if msgs == [] then []
    else NackedOf(msgs[..|msgs| - 1], outcomes[..|msgs| - 1]) +
         (if outcomes[|msgs| - 1].Succeeded? then [] else [msgs[|msgs| - 1]])
  }

  ghost function AckedOf(msgs: seq<Msg>, outcomes: seq<Outcome>): set<Msg>
    requires |msgs| == |outcomes|
  {
    set i | 0 <= i < |msgs| && outcomes[i].Succeeded? :: msgs[i]
  }

  /** A processed message went to exactly one of the two ends, by its outcome. */
  lemma {:induction false} ProcessedIsSplit(msgs: seq<Msg>, outcomes: seq<Outcome>, m: Msg)
    requires |msgs| == |outcomes|
    ensures m in msgs <==> m in AckedOf(msgs, outcomes) || m in NackedOf(msgs, outcomes)
    ensures m in NackedOf(msgs, outcomes) <==>
              exists i :: 0 <= i < |msgs| && msgs[i] == m && !outcomes[i].Succeeded?
  {
    if msgs != [] {
      var n := |msgs| - 1;
      ProcessedIsSplit(msgs[..n], outcomes[..n], m);
      assert msgs == msgs[..n] + [msgs[n]];
      assert AckedOf(msgs, outcomes)
          == AckedOf(msgs[..n], outcomes[..n]) + (if outcomes[n].Succeeded? then {msgs[n]} else {});
    }
  }

  /** What the select of the consume loop comes up with. */
  datatype Turn = Delivery(outcome: Outcome, settles: bool) | ChannelClosed | Cancelled

  /** How many deliveries are handled and settled before the loop stops. */
  function Handled(turns: seq<Turn>, ready: nat): (n: nat)
    ensures n <= ready && n <= |turns|
    ensures forall i :: 0 <= i < n ==> turns[i].Delivery? && turns[i].settles
    ensures n < |turns| && turns[n].Delivery? ==> n == ready || !turns[n].settles
  {
    if turns == [] || ready == 0 || !turns[0].Delivery? || !turns[0].settles then 0
    else 1 + Handled(turns[1..], ready - 1)
  }

  lemma {:induction false} HandledFrom(turns: seq<Turn>, ready: nat, n: nat)
    requires n <= Handled(turns, ready)
    ensures n <= |turns| && n <= ready && Handled(turns, ready) == n + Handled(turns[n..], ready - n)
  {
    if n > 0 {
      HandledFrom(turns[1..], ready - 1, n - 1);
      assert turns[1..][n - 1..] == turns[n..];
    } else {
      assert turns[0..] == turns;
    }
  }

  function Outcomes(turns: seq<Turn>, n: nat): seq<Outcome>
    requires n <= |turns| && forall i :: 0 <= i < n ==> turns[i].Delivery?
  {
    seq(n, i requires 0 <= i < n => turns[i].outcome)
  }

  /** The loop returns an error exactly when it finds its channel closed. */
  predicate StopsWithError(turns: seq<Turn>, ready: nat) {
    var n := Handled(turns, ready);
    n < |turns| && (turns[n].ChannelClosed? || (turns[n].Delivery? && n < ready))
  }

  class Broker {
    var failedQueue: bool
    var mainQueue: bool
    var declaring: set<nat>
    var declaredBy: set<nat>
    var ready: seq<Msg>
    var unacked: map<Msg, nat>
    var acked: set<Msg>
    var failed: seq<Msg>
    var workers: seq<Worker>
    var inFlight: set<Msg>
    var confirms: map<Msg, bool>
    var returned: map<Msg, bool>
    ghost var published: set<Msg>
    ghost var routed: set<Msg>
    ghost var stories: map<Msg, Story>

    ghost function Abs(): State
      reads this
    {
      State(failedQueue, mainQueue, declaring, declaredBy, inFlight, confirms, returned, published, routed,
            ready, unacked, acked, failed, workers, stories)
    }

    constructor (n: nat)
      ensures Abs() == Init(n)
    {
      failedQueue, mainQueue, declaring, declaredBy := false, false, {}, {};
      ready, unacked, acked, failed := [], map[], {}, [];
      workers := seq(n, _ => Down);
      inFlight, confirms, returned := {}, map[], map[];
      published, routed, stories := {}, {}, map[];
    }

    method DeclareFailed(p: nat, reply: Reply)
      requires Enabled(Abs(), DeclareFailedQueue(p, reply))
      modifies this
      ensures Abs() == Next(old(Abs()), DeclareFailedQueue(p, reply))
    {
      failedQueue := failedQueue || !reply.Refused?;
      if reply.Accepted? { declaring := declaring + {p}; }
    }

    method DeclareMain(p: nat, reply: Reply)
      requires Enabled(Abs(), DeclareMainQueue(p, reply))
      modifies this
      ensures Abs() == Next(old(Abs()), DeclareMainQueue(p, reply))
    {
      mainQueue := mainQueue || !reply.Refused?;
      declaring := declaring - {p};
      if reply.Accepted? { declaredBy := declaredBy + {p}; }
    }

    /** DeclareTopology: the failed queue, then the main queue, unless an error or the end of the process
        comes first. Nil means that both exist. */
    method DeclareTopology(p: nat, fate: DeclareFate) returns (result: DeclareResult)
      requires p !in declaring
      modifies this
      ensures Abs() == AfterDeclare(old(Abs()), p, fate)
      ensures result.Declared? <==> fate == Replies(Accepted, Accepted)
      ensures result.Declared? ==> failedQueue && mainQueue
    {
      DeclareFailed(p, if fate.DiesBetween? then Accepted else fate.failedQueue);
      if fate.DiesBetween? {
        declaring := declaring - {p};
        return Died;
      }
      if !fate.failedQueue.Accepted? {
        return DeclareError;
      }
      DeclareMain(p, fate.mainQueue);
      result := if fate.mainQueue.Accepted? then Declared else DeclareError;
    }

    /** The default exchange: stores the message if the named queue exists, and acks it either way. */
    method Take(m: Msg)
      requires Enabled(Abs(), BrokerStores(m))
      modifies this`inFlight, this`confirms, this`ready, this`routed
      ensures ready == if mainQueue then old(ready) + [m] else old(ready)
      ensures Abs() == Next(old(Abs()), BrokerStores(m))
    {
      inFlight := inFlight - {m};
      confirms := confirms[m := true];
      if mainQueue {
        ready := ready + [m];
        routed := routed + {m};
      }
    }

    /** The frame does not reach the broker. */
    method Lose(m: Msg)
      requires Enabled(Abs(), FrameLost(m))
      modifies this`inFlight
      ensures Abs() == Next(old(Abs()), FrameLost(m))
    {
      inFlight := inFlight - {m};
    }

    /** The broker could not store the message. */
    method Refuse(m: Msg)
      requires Enabled(Abs(), BrokerRejects(m))
      modifies this`inFlight, this`confirms
      ensures Abs() == Next(old(Abs()), BrokerRejects(m))
    {
      inFlight := inFlight - {m};
      confirms := confirms[m := false];
    }

    method Send(m: Msg)
      requires Enabled(Abs(), Publish(m))
      modifies this`published, this`inFlight
      ensures Abs() == Next(old(Abs()), Publish(m))
    {
      published := published + {m};
      inFlight := inFlight + {m};
    }

    method Answer(m: Msg, ok: bool)
      requires Enabled(Abs(), if ok then PublishReturnsNil(m) else PublishReturnsError(m))
      modifies this`returned
      ensures Abs() == Next(old(Abs()), if ok then PublishReturnsNil(m) else PublishReturnsError(m))
    {
      returned := returned[m := ok];
    }

    /** Publishing and waiting for the confirm. */
    method Transmit(m: Msg, fate: Fate) returns (result: PublishResult)
      requires Enabled(Abs(), Publish(m)) && m !in inFlight && m !in returned
      modifies this`published, this`inFlight, this`confirms, this`ready, this`routed
      ensures Abs() == AtBroker(old(Abs()), m, fate)
      ensures result == Answered(fate)
      ensures ready == if mainQueue && Arrives(fate) then old(ready) + [m] else old(ready)
    {
      Send(m);
      match fate {
        case SendFails =>
          Lose(m);
          result := Err(SendError);
        case NoAnswer(arrives) =>
          if arrives {
            Take(m);
          } else {
            Lose(m);
          }
          result := Err(ConfirmTimeout);
        case BrokerAcks =>
          Take(m);
          result := Ok;
        case BrokerNacks =>
          Refuse(m);
          result := Err(Nacked);
      }
    }

    /** Returns nil exactly when the broker's ack arrived in time. */
    method PublishJSON(m: Msg, fate: Fate) returns (result: PublishResult)
      requires Enabled(Abs(), Publish(m)) && m !in inFlight && m !in returned
      modifies this`published, this`inFlight, this`confirms, this`ready, this`routed, this`returned
      ensures Abs() == AfterPublish(old(Abs()), m, fate)
      ensures result == Answered(fate)
      ensures ready == if mainQueue && Arrives(fate) then old(ready) + [m] else old(ready)
    {
      result := Transmit(m, fate);
      Answer(m, result.Ok?);
    }

    method Ack(w: nat)
      requires Enabled(Abs(), Settle(w)) && workers[w].stage.outcome.Succeeded?
      modifies this
      ensures Abs() == Next(old(Abs()), Settle(w))
    {
      var m := workers[w].msg;
      unacked := unacked - {m};
      acked := acked + {m};
      workers := workers[w := Idle];
    }

    /** Nack without requeue: dead-letters to the failed queue. */
    method Nack(w: nat)
      requires Enabled(Abs(), Settle(w)) && !workers[w].stage.outcome.Succeeded?
      modifies this
      ensures Abs() == Next(old(Abs()), Settle(w))
    {
      var m := workers[w].msg;
      unacked := unacked - {m};
      if failedQueue {
        failed := failed + [m];
      }
      workers := workers[w := Idle];
    }

    /** The channel is gone at the broker, which takes the message back; the worker goes on. */
    method LoseChannel(w: nat)
      requires Enabled(Abs(), Sever(w))
      modifies this
      ensures Abs() == Next(old(Abs()), Sever(w))
    {
      stories := StoriesAfter(Abs(), Sever(w));
      var m := workers[w].msg;
      unacked := unacked - {m};
      ready := [m] + ready;
      workers := workers[w := workers[w].(linked := false)];
    }

    method RunHandler(w: nat, outcome: Outcome)
      requires Enabled(Abs(), Start(w))
      modifies this
      ensures Abs() == Next(Next(old(Abs()), Start(w)), Finish(w, outcome))
    {
      ghost var started := Next(Abs(), Start(w));
      stories := StoriesAfter(started, Finish(w, outcome));
      workers := workers[w := workers[w].(stage := Finished(outcome))];
      assert workers == Next(started, Finish(w, outcome)).workers;
    }

    /** One delivery: run the handler, ack on nil, nack on error and on a recovered panic. A settlement
        that fails is only logged. */
    method HandleOne(w: nat, outcome: Outcome, settles: bool)
      requires Enabled(Abs(), Start(w)) && workers[w].Linked()
      modifies this
      ensures Abs() == AfterHandling(old(Abs()), w, outcome, settles)
    {
      RunHandler(w, outcome);
      if !settles {
        LoseChannel(w);
      } else {
        match outcome {
          case Succeeded => Ack(w);
          case ReturnedError => Nack(w);
          case Panicked => Nack(w);
        }
      }
    }

    /** The broker pushes the message at the head of the queue. */
    method Push(w: nat)
      requires Enabled(Abs(), Deliver(w))
      modifies this
      ensures Abs() == Next(old(Abs()), Deliver(w))
    {
      var m := ready[0];
      ready, unacked, workers := ready[1..], unacked[m := w], workers[w := Busy(m, Received, true)];
    }

    /** The broker pushes the next message and the select loop handles it. */
    method HandleNext(w: nat, outcome: Outcome, settles: bool)
      requires Reachable(Abs()) && ready != [] && w < |workers| && workers[w].Idle?
      modifies this
      ensures Reachable(Abs()) && unacked == old(unacked)
      ensures ready == if settles then old(ready)[1..] else old(ready)
      ensures workers == if settles then old(workers)
                         else old(workers)[w := Busy(old(ready)[0], Finished(outcome), false)]
      ensures acked == old(acked) + (if settles && outcome.Succeeded? then {old(ready)[0]} else {})
      ensures failed == old(failed) + (if settles && !outcome.Succeeded? then [old(ready)[0]] else [])
    {
      HandleNextFacts(Abs(), w, outcome, settles);
      Push(w);
      HandleOne(w, outcome, settles);
    }

    /** The loop returns and its process ends. */
    method Return(w: nat)
      requires Reachable(Abs()) && w < |workers| && (workers[w].Idle? || AtEnd(Abs(), w, false))
      modifies this
      ensures Reachable(Abs()) && workers == old(workers)[w := Down]
      ensures ready == old(ready) && unacked == old(unacked) && acked == old(acked) && failed == old(failed)
    {
      ghost var e := if workers[w].Idle? then Crash(w) else Quit(w);
      ReachStep(Abs(), e);
      workers := workers[w := Down];
      assert Abs() == Next(old(Abs()), e);
    }

    /** The consume loop as long as its messages are settled. */
    method SettleAll(w: nat, turns: seq<Turn>) returns (handled: nat)
      requires Reachable(Abs()) && w < |workers| && workers[w].Idle?
      modifies this
      ensures Reachable(Abs()) && workers == old(workers) && unacked == old(unacked)
      ensures handled == Handled(turns, old(|ready|)) && ready == old(ready)[handled..]
      ensures acked == old(acked) + AckedOf(old(ready)[..handled], Outcomes(turns, handled))
      ensures failed == old(failed) + NackedOf(old(ready)[..handled], Outcomes(turns, handled))
    {
      handled := 0;
      ghost var n := Handled(turns, |ready|);
      while handled < |turns| && turns[handled].Delivery? && turns[handled].settles && ready != []
        invariant Reachable(Abs()) && workers == old(workers)
        invariant handled <= n && ready == old(ready)[handled..] && unacked == old(unacked)
        invariant acked == old(acked) + AckedOf(old(ready)[..handled], Outcomes(turns, handled))
        invariant failed == old(failed) + NackedOf(old(ready)[..handled], Outcomes(turns, handled))
        decreases |turns| - handled
      {
        HandledFrom(turns, old(|ready|), handled);
        ConsumeStep(old(ready), old(acked), old(failed), turns, handled);
        HandleNext(w, turns[handled].outcome, true);
        handled := handled + 1;
      }
      HandledFrom(turns, old(|ready|), handled);
    }

    /** The consume loop of one worker, turn by turn, until it is cancelled, finds its channel closed, or
        runs out of turns. Every message that it settles goes to the end that its outcome names; the one
        whose settlement fails goes back to the head of the queue. */
    method Consume(w: nat, turns: seq<Turn>) returns (failure: bool, handled: nat)
      requires Reachable(Abs()) && w < |workers| && workers[w].Idle?
      modifies this
      ensures Reachable(Abs()) && workers == old(workers)[w := Down] && unacked == old(unacked)
      ensures handled == Handled(turns, old(|ready|)) && failure == StopsWithError(turns, old(|ready|))
      ensures ready == old(ready)[handled..]
      ensures acked == old(acked) + AckedOf(old(ready)[..handled], Outcomes(turns, handled))
      ensures failed == old(failed) + NackedOf(old(ready)[..handled], Outcomes(turns, handled))
    {
      handled := SettleAll(w, turns);
      if handled < |turns| && turns[handled].Delivery? && ready != [] {
        HandleNext(w, turns[handled].outcome, false);
      }
      failure := handled < |turns| && (turns[handled].ChannelClosed? || (turns[handled].Delivery? && ready != []));
      Return(w);
      assert workers == old(workers)[w := Down];
    }
  }

  lemma DeclareEffect(s: State, p: nat, fate: DeclareFate)
    requires p !in s.declaring
    ensures var t := AfterDeclare(s, p, fate);
            && t.declaring == s.declaring
            && (t.mainQueue && !s.mainQueue ==> fate.Replies? && fate.failedQueue.Accepted? && !fate.mainQueue.Refused?)
            && (p in t.declaredBy ==> p in s.declaredBy || fate == Replies(Accepted, Accepted))
  {
    var first := if fate.DiesBetween? then Accepted else fate.failedQueue;
    var t := PublishNext(s, DeclareFailedQueue(p, first));
    assert t.mainQueue == s.mainQueue && t.declaredBy == s.declaredBy;
    assert t.declaring - {p} == s.declaring;
    if first.Accepted? && fate.Replies? {
      var u := PublishNext(t, DeclareMainQueue(p, fate.mainQueue));
      assert u.declaring == t.declaring - {p};
    }
  }

  /** Wherever DeclareTopology stops, it leaves no main queue whose failed queue is missing: in particular
      the main queue is not touched unless the failed queue was confirmed. */
  lemma DeclareIsSafe(s: State, p: nat, fate: DeclareFate)
    requires Reachable(s) && p !in s.declaring
    ensures var t := AfterDeclare(s, p, fate);
            && Reachable(t) && (t.mainQueue ==> t.failedQueue) && t.declaring == s.declaring
            && (t.mainQueue && !s.mainQueue ==> fate.Replies? && fate.failedQueue.Accepted? && !fate.mainQueue.Refused?)
            && (p in t.declaredBy ==> p in s.declaredBy || fate == Replies(Accepted, Accepted))
  {
    DeclareReaches(s, p, fate);
    TopologySafety(AfterDeclare(s, p, fate));
    DeclareEffect(s, p, fate);
  }

  lemma DeclareReaches(s: State, p: nat, fate: DeclareFate)
    requires Reachable(s) && p !in s.declaring
    ensures Reachable(AfterDeclare(s, p, fate))
  {
    var first := if fate.DiesBetween? then Accepted else fate.failedQueue;
    ReachStep(s, DeclareFailedQueue(p, first));
    var t := Next(s, DeclareFailedQueue(p, first));
    if fate.DiesBetween? {
      ReachStep(t, DeclarerDies(p));
    } else if first.Accepted? {
      ReachStep(t, DeclareMainQueue(p, fate.mainQueue));
    }
  }

  lemma HandleNextFacts(s: State, w: nat, outcome: Outcome, settles: bool)
    requires Reachable(s) && s.ready != [] && w < |s.workers| && s.workers[w].Idle?
    ensures Enabled(s, Deliver(w)) && Enabled(Next(s, Deliver(w)), Start(w))
    ensures var t := AfterHandling(Next(s, Deliver(w)), w, outcome, settles); var m := s.ready[0];
            && Reachable(t) && t.unacked == s.unacked
            && t.workers == (if settles then s.workers else s.workers[w := Busy(m, Finished(outcome), false)])
            && t.ready == (if settles then s.ready[1..] else s.ready)
            && t.acked == s.acked + (if settles && outcome.Succeeded? then {m} else {})
            && t.failed == s.failed + (if settles && !outcome.Succeeded? then [m] else [])
  {
    PushedFacts(s, w);
    var held := Next(s, Deliver(w));
    HandlingIsReachable(held, w, outcome, settles);
    HandlingEffect(held, w, s.ready[0], outcome, settles);
    var v := if settles then Idle else Busy(s.ready[0], Finished(outcome), false);
    assert held.workers[w := v] == s.workers[w := v];
  }

  lemma PushedFacts(s: State, w: nat)
    requires Reachable(s) && s.ready != [] && w < |s.workers| && s.workers[w].Idle?
    ensures Enabled(s, Deliver(w)) && s.failedQueue
    ensures var t := Next(s, Deliver(w)); var m := s.ready[0];
            && Reachable(t) && t.failedQueue && t.workers == s.workers[w := Busy(m, Received, true)]
            && t.unacked - {m} == s.unacked && t.ready == s.ready[1..] && [m] + t.ready == s.ready
            && t.acked == s.acked && t.failed == s.failed && s.workers[w := Idle] == s.workers
  {
    IdleMayTake(s, w);
    ReachStep(s, Deliver(w));
  }

  lemma HandlingIsReachable(s: State, w: nat, outcome: Outcome, settles: bool)
    requires Reachable(s) && Enabled(s, Start(w)) && s.workers[w].Linked()
    ensures Reachable(AfterHandling(s, w, outcome, settles))
  {
    var s1 := Next(s, Start(w));
    var s2 := Next(s1, Finish(w, outcome));
    ReachStep(s, Start(w));
    ReachStep(s1, Finish(w, outcome));
    ReachStep(s2, if settles then Settle(w) else Sever(w));
  }

  /** A handled message leaves its worker idle and goes to the end that its outcome names; if the
      settlement fails it is ready again. */
  lemma HandlingEffect(s: State, w: nat, m: Msg, outcome: Outcome, settles: bool)
    requires Enabled(s, Start(w)) && s.failedQueue && s.workers[w] == Busy(m, Received, true)
    ensures var t := AfterHandling(s, w, outcome, settles);
            && t.workers == s.workers[w := if settles then Idle else Busy(m, Finished(outcome), false)]
            && t.ready == (if settles then s.ready else [m] + s.ready) && t.unacked == s.unacked - {m}
            && t.acked == s.acked + (if settles && outcome.Succeeded? then {m} else {})
            && t.failed == s.failed + (if settles && !outcome.Succeeded? then [m] else [])
  {
    var s1 := Next(s, Start(w));
    var s2 := Next(s1, Finish(w, outcome));
    assert s2.workers == s.workers[w := Busy(m, Finished(outcome), true)];
  }

  lemma IdleMayTake(s: State, w: nat)
    requires Reachable(s) && s.ready != [] && w < |s.workers| && s.workers[w].Idle?
    ensures Enabled(s, Deliver(w)) && s.failedQueue && s.ready[0] !in s.unacked
  {
    ReachableInv(s);
    PlaceFacts(s, s.ready[0]);
  }

  lemma AppendProcessed(msgs: seq<Msg>, turns: seq<Turn>, n: nat)
    requires n < |msgs| && n < |turns| && forall i :: 0 <= i <= n ==> turns[i].Delivery?
    ensures AckedOf(msgs[..n + 1], Outcomes(turns, n + 1))
         == AckedOf(msgs[..n], Outcomes(turns, n)) + (if turns[n].outcome.Succeeded? then {msgs[n]} else {})
    ensures NackedOf(msgs[..n + 1], Outcomes(turns, n + 1))
         == NackedOf(msgs[..n], Outcomes(turns, n)) + (if turns[n].outcome.Succeeded? then [] else [msgs[n]])
  {
    assert msgs[..n + 1][..n] == msgs[..n];
    assert Outcomes(turns, n + 1)[..n] == Outcomes(turns, n);
  }

  /** What handling message n adds. */
  lemma ConsumeStep(ready: seq<Msg>, acked: set<Msg>, failed: seq<Msg>, turns: seq<Turn>, n: nat)
    requires n < |ready| && n < |turns| && forall i :: 0 <= i <= n ==> turns[i].Delivery?
    ensures ready[n..][0] == ready[n] && ready[n..][1..] == ready[n + 1..]
    ensures acked + AckedOf(ready[..n + 1], Outcomes(turns, n + 1))
         == acked + AckedOf(ready[..n], Outcomes(turns, n)) + (if turns[n].outcome.Succeeded? then {ready[n]} else {})
    ensures failed + NackedOf(ready[..n + 1], Outcomes(turns, n + 1))
         == failed + NackedOf(ready[..n], Outcomes(turns, n)) + (if turns[n].outcome.Succeeded? then [] else [ready[n]])
  {
    AppendProcessed(ready, turns, n);
  }
}
