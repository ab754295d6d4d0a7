/** What the protocol guarantees in every reachable state and over every run. */
module ProtocolTheorems {
  import opened Common
  import opened AsyncResults
  import opened Registry
  import opened Protocol
  import opened ProtocolInvariant

  // ---------------------------------------------------------------- the in-flight counter

  /**
   * The counter is, modulo 2^32, the operations counted and not pushed minus those pushed and not counted.
   * Of the latter there is at most one, in the window between the exchange and the increment, and none once the
   * server thread is joined; from then on the counter is the number of outstanding operations itself.
   */
  lemma InflightCountsExactly(s: State)
    requires Reachable(s)
    ensures s.sh.inflight == Wrap32(|Outstanding(s)| - |Early(s)|)
    ensures Early(s) == {} || (s.server.Exchanged? && Early(s) == {s.server.cur})
    ensures s.server.Joined? || s.server.Waiting? || PastWait(s.server) ==>
        Early(s) == {} && s.sh.inflight == |Outstanding(s)| && (s.sh.inflight == 0 <==> Outstanding(s) == {})
  {
    assert Handshakes(s) && Counter(s) by {
      ReachableInv(s);
    }
    Balance(s.h.established, s.h.pushed);
    EarlyIsTheWindow(s);
    if Counting(s.server) == None {
      NobodyIsEarly(s);
      ZeroIsExact(s.h.established, s.h.pushed);
    }
  }

  lemma Balance(x: set<Block>, y: set<Block>)
    ensures |x| - |y| == |x - y| - |y - x|
  {
    assert x == (x - y) + x * y && y == (y - x) + x * y;
  }

  lemma EarlyIsTheWindow(s: State)
    requires Handshakes(s)
    ensures forall b :: b in Early(s) ==> Counting(s.server) == Some(b)
    ensures Early(s) == {} || (s.server.Exchanged? && Early(s) == {s.server.cur})
  {
    forall b | b in Early(s)
      ensures Counting(s.server) == Some(b)
    {
      assert HandshakeAt(s, b);
    }
  }

  lemma ReachableNext(s: State, step: Step)
    requires Reachable(s) && Enabled(s, step)
    ensures Reachable(Apply(s, step))
  {
    var steps :| CanRun(Start(), steps) && Run(Start(), steps) == s;
    RunOne(s, step);
    RunsCompose(Start(), steps, [step]);
  }

  lemma Take(s: State, step: Step) returns (t: State)
    requires Reachable(s) && Enabled(s, step)
    ensures t == Apply(s, step) && Reachable(t)
  {
    t := Apply(s, step);
    ReachableNext(s, step);
  }

  /** A first operation whose worker is late: the server thread has exchanged the phase and found no completion. */
  lemma FirstExchange(b: Block) returns (s: State)
    ensures Reachable(s) && s.server == Exchanged(b) && s.blocks == map[b := BlockState(Deferred, None, Holding)]
    ensures s.sh == Fresh<Key, Block>().(serving := true) && !s.timedOut && s.h == NO_HISTORY
  {
    assert CanRun(Start(), []) && Run(Start(), []) == Start();
    s := Take(Start(), SetServing);
    assert Outstanding(s) == {};
    s := Take(s, Begin(b));
    s := Take(s, ExchangeDeferred(true));
  }

  /** The worker's part, up to the point where it is about to push. */
  lemma AboutToPush(s: State, b: Block) returns (t: State)
    requires Reachable(s) && b in s.blocks && b.kind.Write? && s.blocks[b] == BlockState(Deferred, None, Holding)
    ensures Reachable(t) && Enabled(t, Push(b)) && t.server == s.server && t.sh == s.sh && t.timedOut == s.timedOut
  {
    t := Take(s, SetResult(b, WriteDone(Good)));
    t := Take(t, ExchangeFinished(b));
  }

  /** The counter really wraps: a completion pushed inside the window takes it from 0 to 2^32 - 1. */
  lemma CounterCanWrap() returns (s: State)
    ensures Reachable(s) && s.server.Exchanged? && s.sh.inflight == TWO_TO_THE_32 - 1
    ensures s.sh.pending == map[] && s.sh.queue == [s.server.cur]
  {
    var b := Block(0, 0, Write);
    s := FirstExchange(b);
    s := AboutToPush(s, b);
    s := Take(s, Push(b));
  }

  /** When every worker is done with its block and the server thread is between operations, nothing is in flight. */
  lemma QuietMeansNothingInFlight(s: State)
    requires Reachable(s) && !HasCurrent(s.server)
    requires forall b :: b in s.blocks && b !in s.h.refused ==> s.blocks[b].worker.Released?
    ensures s.sh.inflight == 0 && Outstanding(s) == {}
  {
    assert Handshakes(s) && Counter(s) by {
      ReachableInv(s);
    }
    NobodyIsEarly(s);
    forall b | b in s.h.established
      ensures b in s.h.pushed
    {
      assert HandshakeAt(s, b);
    }
    assert s.h.established == s.h.pushed;
  }

  // ---------------------------------------------------------------- the fate of an operation

  datatype Fate =
    | Running | FinishedInline | CallRefused | AwaitingDrain | FinishedByDrain
    | DroppedAsCancelled | DroppedAsClosed

  ghost predicate HasFate(s: State, b: Block, f: Fate) {
    match f
    case Running => b !in s.h.pushed && b !in s.h.inlined && b !in s.h.refused
    case FinishedInline => b in s.h.inlined
    case CallRefused => b in s.h.refused
    case AwaitingDrain => b in s.sh.queue || b in Batch(s)
    case FinishedByDrain => b in s.h.delivered
    case DroppedAsCancelled => b in s.h.dropped
    case DroppedAsClosed => b in s.h.closedDrops
  }

  ghost function FateOf(s: State, b: Block): Fate {
    if b in s.h.inlined then FinishedInline
    else if b in s.h.refused then CallRefused
    else if b !in s.h.pushed then Running
    else if b in s.h.closedDrops then DroppedAsClosed
    else if b !in s.h.handled then AwaitingDrain
    else if b in s.h.cancelled then DroppedAsCancelled
    else FinishedByDrain
  }

  lemma FinishersExcludeEachOther(s: State, b: Block)
    requires Handshakes(s) && b in s.blocks
    ensures b in s.h.inlined ==> b !in s.h.refused && b !in s.h.pushed
    ensures b in s.h.refused ==> b !in s.h.pushed
  {
    assert HandshakeAt(s, b);
  }

  /** An enqueued block is either handled or still awaiting drain. */
  lemma HandledOrAwaiting(accepted: seq<Block>, handled: seq<Block>, batch: seq<Block>, queue: seq<Block>,
                          closedDrops: seq<Block>, pushed: set<Block>, b: Block)
    requires QueueOk(accepted, handled, batch, queue, closedDrops, pushed)
    ensures b in handled ==> b in accepted && b !in batch && b !in queue
    ensures b in batch || b in queue ==> b in accepted
    ensures b in accepted ==> b in handled || b in batch || b in queue
  {
    NoDupConcat(handled, batch + queue);
  }

  /** In every reachable state every operation is in exactly one place. */
  lemma OneFate(s: State, b: Block, f: Fate)
    requires Reachable(s) && b in s.blocks
    ensures HasFate(s, b, f) <==> f == FateOf(s, b)
  {
    assert Handshakes(s) && Queues(s) && Drains(s) by {
      ReachableInv(s);
    }
    FinishersExcludeEachOther(s, b);
    HandledOrAwaiting(s.h.accepted, s.h.handled, Batch(s), s.sh.queue, s.h.closedDrops, s.h.pushed, b);
    WithoutElements(s.h.handled, s.h.cancelled);
    WithinElements(s.h.handled, s.h.cancelled);
  }

  /** No operation is finished twice, nor both inline and by drain. */
  lemma FinishedAtMostOnce(s: State)
    requires Reachable(s)
    ensures NoDup(s.h.inlined + s.h.delivered)
  {
    assert Handshakes(s) && Queues(s) && Drains(s) by {
      ReachableInv(s);
    }
    WithoutElements(s.h.handled, s.h.cancelled);
    forall b | b in s.h.inlined
      ensures b !in s.h.delivered
    {
      FinishersExcludeEachOther(s, b);
      HandledOrAwaiting(s.h.accepted, s.h.handled, Batch(s), s.sh.queue, s.h.closedDrops, s.h.pushed, b);
    }
    NoDupConcat(s.h.handled, Batch(s) + s.sh.queue);
    WithoutNoDup(s.h.handled, s.h.cancelled);
    NoDupConcat(s.h.inlined, s.h.delivered);
  }

  // ---------------------------------------------------------------- what a run cannot undo

  /** The history only grows, and what a worker passed is never overwritten. */
  ghost predicate Grows(h: History, h': History) {
    && h.accepted <= h'.accepted && h.handled <= h'.handled
    && h.delivered <= h'.delivered && h.dropped <= h'.dropped
    && h.closedDrops <= h'.closedDrops && h.inlined <= h'.inlined
    && h.established <= h'.established && h.pushed <= h'.pushed
    && h.cancelled <= h'.cancelled && h.refused <= h'.refused
    && (forall b :: b in h.completed ==> b in h'.completed && h'.completed[b] == h.completed[b])
  }

  /** The stages of the server are passed in order, and closing is absorbing. */
  ghost predicate Advances(s: State, t: State) {
    && s.blocks.Keys <= t.blocks.Keys
    && (s.sh.closed ==>
          && t.sh.closed && t.h.accepted == s.h.accepted
          && t.h.established == s.h.established && t.blocks.Keys == s.blocks.Keys)
    && (PastWait(s.server) ==> PastWait(t.server) && t.timedOut == s.timedOut)
    && (Emptied(s.server) ==> Emptied(t.server))
  }

  lemma WorkerStepGrows(s: State, step: Step)
    requires ResultsOk(s.blocks, s.h.completed) && Enabled(s, step) && WorkerStep(step)
    ensures Grows(s.h, Apply(s, step).h)
  {
    assert step.SetResult? ==> ResultOk(step.b, s.blocks[step.b], s.h.completed);
  }

  lemma ServerStepGrows(s: State, step: Step)
    requires Enabled(s, step) && (step.ExchangeDeferred? || step.Increment? || step.Settle? || step.Cancel?)
    ensures Grows(s.h, Apply(s, step).h)
  {
  }

  lemma StepGrows(s: State, step: Step)
    requires ResultsOk(s.blocks, s.h.completed) && Enabled(s, step)
    ensures Grows(s.h, Apply(s, step).h)
  {
    match step
    case SetResult(_, _) => WorkerStepGrows(s, step);
    case Push(_) => WorkerStepGrows(s, step);
    case ExchangeDeferred(_) => ServerStepGrows(s, step);
    case Increment => ServerStepGrows(s, step);
    case Settle => ServerStepGrows(s, step);
    case Cancel(_) => ServerStepGrows(s, step);
    case _ => assert Apply(s, step).h == s.h;
  }

  lemma StepAdvances(s: State, step: Step)
    requires StageOk(s) && CurrentOk(s) && Enabled(s, step)
    ensures Advances(s, Apply(s, step))
  {
  }

  lemma {:induction false} RunExtends(s: State, steps: seq<Step>)
    requires Inv(s) && CanRun(s, steps)
    ensures Inv(Run(s, steps)) && Grows(s.h, Run(s, steps).h) && Advances(s, Run(s, steps))
    decreases |steps|
  {
    if steps != [] {
      StepKeepsInv(s, steps[0]);
      StepGrows(s, steps[0]);
      StepAdvances(s, steps[0]);
      RunExtends(Apply(s, steps[0]), steps[1..]);
    }
  }

  // ---------------------------------------------------------------- registration race and key reuse

  /**
   * No completion is lost to the registration race: whatever the interleaving, a completion that some drain has
   * looked at was delivered if its operation was not cancelled and dropped if it was. In particular a block pushed
   * before its entry existed is found by the drain that dequeues it.
   */
  lemma OnlyCancelledAreDropped(s: State, steps: seq<Step>, b: Block)
    requires Reachable(s) && (b in s.sh.queue || b in Batch(s)) && CanRun(s, steps)
    ensures var t := Run(s, steps);
      && (b in t.h.handled <==> b in t.h.delivered || b in t.h.dropped)
      && (b in t.h.delivered ==> b !in t.h.cancelled)
      && (b in t.h.dropped ==> b in t.h.cancelled)
      && (b !in t.h.handled ==> b in t.sh.queue || b in Batch(t))
  {
    ReachableInv(s);
    var t := Run(s, steps);
    assert b in t.h.accepted && Queues(t) && Drains(t) by {
      RunExtends(s, steps);
      assert b in s.h.accepted;
    }
    HandledOrAwaiting(t.h.accepted, t.h.handled, Batch(t), t.sh.queue, t.h.closedDrops, t.h.pushed, b);
    WithoutElements(t.h.handled, t.h.cancelled);
    WithinElements(t.h.handled, t.h.cancelled);
  }

  /**
   * The late completion of an operation whose address has been given to a new operation: the old one was cancelled,
   * and drain neither finishes anything nor touches the registry.
   */
  lemma LateCompletionIsInert(s: State)
    requires Reachable(s) && Enabled(s, Settle)
    requires var old' := s.server.batch[0]; old'.key in s.sh.pending && s.sh.pending[old'.key] != old'
    ensures s.server.batch[0] in s.h.cancelled
    ensures var t := Apply(s, Settle);
      t.sh == s.sh && t.h.delivered == s.h.delivered && t.h.sent == s.h.sent && t.blocks == s.blocks
  {
    assert RegistrySound(s) && Drains(s) && Queues(s) && Handshakes(s) && StageOk(s) by {
      ReachableInv(s);
    }
    SettleFinds(s);
  }

  /**
   * However pushes, cancels and drains interleave, a registered operation stays registered until it is itself
   * finished by drain, itself cancelled, or the registry is cleared; and if finished, then with its own result.
   */
  lemma RegistrationSurvives(s: State, steps: seq<Step>, key: Key)
    requires Reachable(s) && key in s.sh.pending && CanRun(s, steps)
    ensures var b, t := s.sh.pending[key], Run(s, steps);
      && (Matches(t.sh.pending, key, b) || b in t.h.delivered || b in t.h.cancelled || Emptied(t.server))
      && (b in t.h.delivered ==>
            b in t.h.completed && b in t.h.sent && t.h.sent[b] == Rendered(b.kind, Some(t.h.completed[b]), true))
  {
    ReachableInv(s);
    var b, t := s.sh.pending[key], Run(s, steps);
    assert b.key == key && b in s.h.established && Registering(s.server) != Some(b);
    assert RegistrySound(t) && Deliveries(t) && b in t.h.established by {
      RunExtends(s, steps);
    }
    RunRegistersOnce(s, steps, b);
    assert Registering(t.server) != Some(b);
    assert Registrable(b, t.h.established, t.h.cancelled, t.h.delivered, Registering(t.server), Emptied(t.server))
        || b in t.h.delivered || b in t.h.cancelled || Emptied(t.server);
  }

  /** An operation that has left the server thread's hands does not return to them. */
  lemma {:induction false} RunRegistersOnce(s: State, steps: seq<Step>, b: Block)
    requires CanRun(s, steps) && b in s.blocks
    requires HasCurrent(s.server) ==> s.server.cur != b
    ensures var t := Run(s, steps); HasCurrent(t.server) ==> t.server.cur != b
    decreases |steps|
  {
    if steps != [] {
      RunRegistersOnce(Apply(s, steps[0]), steps[1..], b);
    }
  }

  // ---------------------------------------------------------------- what is delivered

  /** In a reachable state, what a finished operation handed over is its worker's result, rendered for its path. */
  lemma FinishedWithItsResult(s: State, b: Block)
    requires Reachable(s) && (b in s.h.inlined || b in s.h.delivered)
    ensures b in s.blocks && b in s.h.completed && s.blocks[b].result == Some(s.h.completed[b])
    ensures Fits(b.kind, s.h.completed[b])
    ensures b in s.h.sent && s.h.sent[b] == Rendered(b.kind, Some(s.h.completed[b]), b in s.h.delivered)
  {
    FinishedAtMostOnce(s);
    NoDupConcat(s.h.inlined, s.h.delivered);
    assert Deliveries(s) && ResultsOk(s.blocks, s.h.completed) by {
      ReachableInv(s);
    }
    assert ResultOk(b, s.blocks[b], s.h.completed);
  }

  /** Over a whole run: whatever a worker passed to complete at some step is what a later finish hands over. */
  lemma CompletionIsDelivered(s: State, b: Block, p: Payload, steps: seq<Step>)
    requires Reachable(s) && Enabled(s, SetResult(b, p)) && CanRun(Apply(s, SetResult(b, p)), steps)
    ensures var t := Run(Apply(s, SetResult(b, p)), steps);
      && (b in t.h.inlined ==> b in t.h.sent && t.h.sent[b] == Rendered(b.kind, Some(p), false))
      && (b in t.h.delivered ==> b in t.h.sent && t.h.sent[b] == Rendered(b.kind, Some(p), true))
  {
    var s' := Apply(s, SetResult(b, p));
    assert Inv(s') by {
      ReachableInv(s);
      StepKeepsInv(s, SetResult(b, p));
    }
    assert s'.h.completed[b] == p;
    var t := Run(s', steps);
    assert Deliveries(t) && Grows(s'.h, t.h) by {
      RunExtends(s', steps);
    }
  }

  /** finishDeferred is called for the accepted pushes in their order, leaving out exactly the cancelled operations. */
  lemma DeliveryKeepsOrder(s: State, steps: seq<Step>)
    requires Reachable(s) && CanRun(s, steps)
    ensures s.h.handled <= s.h.accepted
    ensures s.h.delivered == Without(s.h.handled, s.h.cancelled)
    ensures var t := Run(s, steps); s.h.handled <= t.h.handled && s.h.delivered <= t.h.delivered
  {
    assert Queues(s) && Drains(s) && Grows(s.h, Run(s, steps).h) by {
      ReachableInv(s);
      RunExtends(s, steps);
    }
  }

  // ---------------------------------------------------------------- shutdown

  /** After a wait that ended by its predicate no worker has anything left to do with the protocol. */
  lemma NoWorkerStepAfterWait(s: State, step: Step)
    requires Inv(s) && PastWait(s.server) && !s.timedOut && WorkerStep(step)
    ensures !Enabled(s, step)
  {
    var b := step.b;
    if b in s.h.refused {
      RefusedIsUntouchable(s, b);
    } else if b in s.blocks {
      assert HandshakeAt(s, b);
    }
  }

  /** Over every continuation: no complete, no finishCall and no push happens any more. */
  lemma {:induction false} QuietAfterShutdown(s: State, steps: seq<Step>, i: nat)
    requires Reachable(s) && PastWait(s.server) && !s.timedOut
    requires CanRun(s, steps) && i < |steps|
    ensures !WorkerStep(steps[i])
    decreases |steps|
  {
    assert Inv(s) by {
      ReachableInv(s);
    }
    if WorkerStep(steps[0]) {
      NoWorkerStepAfterWait(s, steps[0]);
    }
    if i > 0 {
      ReachableNext(s, steps[0]);
      StepAdvances(s, steps[0]);
      QuietAfterShutdown(Apply(s, steps[0]), steps[1..], i - 1);
    }
  }

  /** Once AsyncOperations is deleted after a wait that ended by its predicate, nothing at all can happen to it. */
  lemma NoUseAfterDelete(s: State, step: Step)
    requires Reachable(s) && s.server.Deleted? && !s.timedOut
    ensures !Enabled(s, step)
  {
    if WorkerStep(step) {
      ReachableInv(s);
      NoWorkerStepAfterWait(s, step);
    }
  }

  /** A stop that gives up waiting, once the server thread is between operations. */
  lemma WaitTimesOut(s: State) returns (t: State)
    requires Reachable(s) && s.server.Idle? && s.sh.inflight != 0 && s.sh.queue == []
    ensures Reachable(t) && t.server.Resumed? && t.timedOut && t.blocks == s.blocks && t.sh.queue == []
  {
    t := Take(s, Join);
    t := Take(t, Close);
    t := Take(t, WaitTimeout);
  }

  lemma StopTimesOut(s: State) returns (t: State)
    requires Reachable(s) && s.server.Idle? && s.sh.inflight != 0 && s.sh.queue == []
    ensures Reachable(t) && t.server.Deleted? && t.timedOut && t.blocks == s.blocks
  {
    t := WaitTimesOut(s);
    t := Take(t, Swap);
    t := Take(t, EndDrain);
    t := Take(t, Clear);
    t := Take(t, Delete);
  }

  /** A first operation, counted and registered. */
  lemma FirstDeferral(b: Block) returns (s: State)
    ensures Reachable(s) && s.server.Idle? && s.blocks == map[b := BlockState(Deferred, None, Holding)]
    ensures s.sh == Registered(Fresh<Key, Block>().(serving := true, inflight := 1), b.key, b)
    ensures s.h == NO_HISTORY.(established := {b})
  {
    s := FirstExchange(b);
    s := Take(s, Increment);
    s := Take(s, Register);
  }

  /** After a timeout a late worker of a write can indeed push into the deleted AsyncOperations. */
  lemma LatePushAfterTimeout() returns (s: State, b: Block)
    ensures Reachable(s) && s.server.Deleted? && s.timedOut && Enabled(s, Push(b)) && b.kind.Write?
  {
    b := Block(0, 0, Write);
    s := FirstDeferral(b);
    s := StopTimesOut(s);
    s := AboutToPush(s, b);
  }

  /** finishCall on a registered call, up to the point where it holds its locked block and is about to push it. */
  lemma CallLocked(b: Block) returns (s: State)
    requires b.kind.Call?
    ensures Reachable(s) && s.server.Idle? && s.sh.pending == map[b.key := b] && s.sh.queue == []
    ensures s.sh.inflight == 1 && s.blocks == map[b := BlockState(Finished, Some(CallDone([], Good)), Pushing)]
  {
    s := FirstDeferral(b);
    s := Take(s, SetResult(b, CallDone([], Good)));
    s := Take(s, ExchangeFinished(b));
    s := Take(s, Lock(b));
  }

  /** So can the receiver of a call that has locked its block, whatever happens to the registry after that. */
  lemma LateCallPushAfterTimeout() returns (s: State, b: Block)
    ensures Reachable(s) && s.server.Deleted? && s.timedOut && Enabled(s, Push(b)) && b.kind.Call? && !Owned(s, b)
  {
    b := Block(0, 0, Call(0));
    s := CallLocked(b);
    s := StopTimesOut(s);
    assert StageOk(s) by {
      ReachableInv(s);
    }
  }

  /** A call cancelled after the lock is pushed all the same, so it does not hold up a stop. */
  lemma LockedCallOutlivesCancel() returns (s: State, b: Block)
    ensures Reachable(s) && b.kind.Call? && b in s.h.cancelled && b in s.h.pushed && s.sh.inflight == 0
  {
    b := Block(0, 0, Call(0));
    s := CallLocked(b);
    s := Take(s, Cancel(b.key));
    s := Take(s, Push(b));
  }

  /** The next step of the worker of a block that it has not released. */
  function NextStep(s: State, b: Block): Step
    requires b in s.blocks
  {
    match s.blocks[b].worker
    case Holding => SetResult(b, SomePayload(b.kind))
    case ResultSet => ExchangeFinished(b)
    case Locking => Lock(b)
    case _ => Push(b)
  }

  /** A worker that can still go on: one of a read or write, or one of a call that has locked the block already. */
  predicate CanGoOn(s: State, b: Block) {
    b in Outstanding(s) && (!b.kind.Call? || (b in s.blocks && s.blocks[b].worker.Pushing?))
  }

  /**
   * Whether or not the wait timed out: something can still happen to a deleted AsyncOperations exactly when an
   * operation is outstanding that is a read or write, or a call whose worker holds its locked block and is about to
   * push it. What can happen is a step of that operation's worker.
   */
  lemma UseAfterDeleteExactly(s: State)
    requires Reachable(s) && s.server.Deleted?
    ensures (exists step :: Enabled(s, step)) <==> (exists b :: CanGoOn(s, b))
    ensures forall step :: Enabled(s, step) ==> WorkerStep(step) && CanGoOn(s, step.b)
  {
    assert Handshakes(s) && StageOk(s) by {
      ReachableInv(s);
    }
    forall step | Enabled(s, step)
      ensures WorkerStep(step) && CanGoOn(s, step.b)
    {
      assert !Owned(s, step.b);
      assert HandshakeAt(s, step.b);
    }
    forall b | CanGoOn(s, b)
      ensures Enabled(s, NextStep(s, b))
    {
      assert HandshakeAt(s, b);
    }
  }

  /** Closing is absorbing: over every continuation nothing is enqueued and no operation is begun or counted. */
  lemma ClosingAbsorbs(s: State, steps: seq<Step>)
    requires Reachable(s) && s.sh.closed && CanRun(s, steps)
    ensures var t := Run(s, steps);
      && t.sh.closed && t.h.accepted == s.h.accepted
      && t.h.established == s.h.established && t.blocks.Keys == s.blocks.Keys
  {
    ReachableInv(s);
    RunExtends(s, steps);
  }

  /**
   * After the whole stop sequence queue and registry are empty, and every completion that was enqueued before the
   * close has been delivered unless its operation was cancelled. Without a timeout every operation is accounted for.
   */
  lemma StopSettlesEverything(s: State, b: Block)
    requires Reachable(s) && Emptied(s.server)
    ensures s.sh.queue == [] && s.sh.pending == map[] && s.h.handled == s.h.accepted
    ensures b in s.h.accepted ==> (b in s.h.delivered <==> b !in s.h.cancelled)
    ensures !s.timedOut && b in s.blocks ==>
        b in s.h.inlined || b in s.h.refused || b in s.h.delivered || b in s.h.dropped || b in s.h.closedDrops
  {
    assert Handshakes(s) && Queues(s) && Drains(s) && StageOk(s) by {
      ReachableInv(s);
    }
    WithoutElements(s.h.handled, s.h.cancelled);
    WithinElements(s.h.handled, s.h.cancelled);
    assert Batch(s) == [];
    if b in s.blocks {
      assert HandshakeAt(s, b);
    }
  }

  // ---------------------------------------------------------------- method calls

  /**
   * Beginning a call fails without a trace: the counter, the queue and the registry are those of before, and over
   * every continuation the block is never finished, registered or touched again.
   */
  lemma RefusedCallLeavesNoTrace(s: State, steps: seq<Step>)
    requires Reachable(s) && s.server.Begun? && Refuses(s, false)
    requires CanRun(Apply(s, ExchangeDeferred(false)), steps)
    ensures Apply(s, ExchangeDeferred(false)).sh == s.sh
    ensures var b, t := s.server.cur, Run(Apply(s, ExchangeDeferred(false)), steps);
      HasFate(t, b, CallRefused) && !CanTouch(t, b) && !Matches(t.sh.pending, b.key, b)
  {
    var b, s' := s.server.cur, Apply(s, ExchangeDeferred(false));
    assert Inv(s') by {
      ReachableInv(s);
      StepKeepsInv(s, ExchangeDeferred(false));
    }
    var t := Run(s', steps);
    assert b in s'.h.refused;
    assert Inv(t) && Grows(s'.h, t.h) by {
      RunExtends(s', steps);
    }
    RefusedIsUntouchable(t, b);
    assert HandshakeAt(t, b);
  }

  /**
   * The raw pointer a method receiver holds is backed by an owner up to its push exactly as long as the call is
   * neither cancelled nor wiped from the registry: the weak pointer in finishCall then yields the block.
   */
  lemma CallBlockIsOwned(s: State, b: Block)
    requires Reachable(s) && b in s.blocks
    requires b !in s.h.inlined && b !in s.h.refused && b !in s.h.pushed
    ensures Owned(s, b) <==> b !in s.h.cancelled && !Emptied(s.server)
  {
    assert Handshakes(s) && CurrentOk(s) && Queues(s) && Drains(s) && RegistrySound(s) && StageOk(s) by {
      ReachableInv(s);
    }
    assert HandshakeAt(s, b);
    HandledOrAwaiting(s.h.accepted, s.h.handled, Batch(s), s.sh.queue, s.h.closedDrops, s.h.pushed, b);
    WithoutElements(s.h.handled, s.h.cancelled);
    assert b !in s.h.delivered;
    assert Registrable(b, s.h.established, s.h.cancelled, s.h.delivered, Registering(s.server), Emptied(s.server))
        <==> b in s.h.established && b !in s.h.cancelled && Registering(s.server) != Some(b) && !Emptied(s.server);
  }

  /** A call cancelled before finishCall has locked its block: nothing owns it, so it stays counted and unpushed. */
  ghost predicate Orphaned(s: State, b: Block) {
    b.kind.Call? && b in s.h.cancelled && b !in s.h.pushed && b in s.blocks && !s.blocks[b].worker.Pushing?
  }

  lemma OrphanIsUntouchable(s: State, b: Block)
    requires Inv(s) && Orphaned(s, b)
    ensures !CanTouch(s, b) && b in Outstanding(s)
    ensures PastWait(s.server) ==> s.timedOut
  {
    assert b in s.blocks && HandshakeAt(s, b);
    assert !Matches(s.sh.pending, b.key, b);
    HandledOrAwaiting(s.h.accepted, s.h.handled, Batch(s), s.sh.queue, s.h.closedDrops, s.h.pushed, b);
  }

  /** Such a call is never pushed and makes every later stop time out: the counter never returns to zero. */
  lemma {:induction false} OrphanBlocksStop(s: State, b: Block, steps: seq<Step>)
    requires Reachable(s) && Orphaned(s, b) && CanRun(s, steps)
    ensures var t := Run(s, steps); Orphaned(t, b) && (PastWait(t.server) ==> t.timedOut)
    decreases |steps|
  {
    assert Inv(s) by {
      ReachableInv(s);
    }
    OrphanIsUntouchable(s, b);
    if steps != [] {
      ReachableNext(s, steps[0]);
      StepKeepsOrphan(s, b, steps[0]);
      OrphanBlocksStop(Apply(s, steps[0]), b, steps[1..]);
    }
  }

  /** There are such calls: the stack cancels an operation whose receiver is slow. */
  lemma OrphansExist() returns (s: State, b: Block)
    ensures Reachable(s) && Orphaned(s, b) && s.server.Idle?
  {
    b := Block(0, 0, Call(0));
    s := FirstDeferral(b);
    s := Take(s, Cancel(b.key));
  }

  lemma StepKeepsOrphan(s: State, b: Block, step: Step)
    requires Orphaned(s, b) && !CanTouch(s, b) && Enabled(s, step)
    ensures Orphaned(Apply(s, step), b)
  {
  }
}
