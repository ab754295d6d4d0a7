/** The operations of the classes as runs of the protocol: each does what its steps do when nobody interleaves. */
module ProtocolRuns {
  import opened Common
  import opened AsyncResults
  import opened Registry
  import opened Protocol

  // ---------------------------------------------------------------- drain

  function KeyOf(b: Block): Key {
    b.key
  }

  predicate DrainStep(step: Step) {
    step.Swap? || step.Settle? || step.EndDrain?
  }

  /** Drain steps alone, with no worker in between, take s to t. */
  ghost predicate DrainLeads(s: State, t: State) {
    exists steps :: CanRun(s, steps) && Run(s, steps) == t && forall step :: step in steps ==> DrainStep(step)
  }

  lemma DrainStays(s: State)
    ensures DrainLeads(s, s)
  {
    assert CanRun(s, []) && Run(s, []) == s;
  }

  lemma DrainPrepends(s: State, step: Step, t: State)
    requires Enabled(s, step) && DrainStep(step) && DrainLeads(Apply(s, step), t)
    ensures DrainLeads(s, t)
  {
    var rest :|
      CanRun(Apply(s, step), rest) && Run(Apply(s, step), rest) == t && forall x :: x in rest ==> DrainStep(x);
    RunPrepends(s, step, rest);
    assert forall x :: x in [step] + rest ==> DrainStep(x);
  }

  /** The first block of a batch, then the rest. */
  lemma SettleFirst(pending: map<Key, Block>, batch: seq<Block>)
    requires batch != []
    ensures var b, rest := batch[0], Settled(pending, batch[0].key, batch[0]);
      && SettledAll(pending, batch, KeyOf) == SettledAll(rest, batch[1..], KeyOf)
      && FinishedOf(pending, batch, KeyOf)
         == (if Matches(pending, b.key, b) then [b] else []) + FinishedOf(rest, batch[1..], KeyOf)
  {
    var one := [batch[0]];
    assert one + batch[1..] == batch;
    DrainsCompose(pending, one, batch[1..], KeyOf);
    assert one[..0] == [];
  }

  /** The registry and the deliveries of t are those of s after settling the batch. */
  predicate SettledFrom(s: State, batch: seq<Block>, t: State) {
    && t.sh == s.sh.(pending := SettledAll(s.sh.pending, batch, KeyOf))
    && t.h.delivered == s.h.delivered + FinishedOf(s.sh.pending, batch, KeyOf)
    && t.blocks == s.blocks
  }

  lemma SettledFromFirst(s: State, batch: seq<Block>, t: State)
    requires Batch(s) == batch && batch != []
    requires SettledFrom(AfterSettle(s), batch[1..], t)
    ensures SettledFrom(s, batch, t)
  {
    SettleFirst(s.sh.pending, batch);
  }

  /** Where a drain ends: back between operations, or at the end of stop's last drain. */
  function DrainEnd(server: Server): Server {
    if server.Idle? || server.Draining? then Idle else Drained
  }

  /** A batch settled without interruption. */
  lemma {:induction false} SettlingIsSettledAll(s: State, batch: seq<Block>) returns (t: State)
    requires s.server == Draining(batch) || s.server == FinalDrain(batch)
    ensures DrainLeads(s, t) && t.server == DrainEnd(s.server) && SettledFrom(s, batch, t)
    decreases |batch|
  {
    if batch == [] {
      t := s.(server := DrainEnd(s.server));
      DrainStays(t);
      DrainPrepends(s, EndDrain, t);
    } else {
      t := SettlingIsSettledAll(AfterSettle(s), batch[1..]);
      SettledFromFirst(s, batch, t);
      DrainPrepends(s, Settle, t);
    }
  }

  /**
   * A drain that no worker interleaves with, in the server loop or at the end of stop, takes the registry and the
   * deliveries where AsyncOperations.Drain does.
   */
  lemma DrainIsARun(s: State) returns (t: State)
    requires s.server.Idle? || s.server.Resumed?
    ensures DrainLeads(s, t) && t.server == DrainEnd(s.server) && t.blocks == s.blocks
    ensures t.sh == Swapped(s.sh).(pending := SettledAll(s.sh.pending, s.sh.queue, KeyOf))
    ensures t.h.delivered == s.h.delivered + FinishedOf(s.sh.pending, s.sh.queue, KeyOf)
  {
    t := SettlingIsSettledAll(AfterSwap(s), s.sh.queue);
    DrainPrepends(s, Swap, t);
  }

  // ---------------------------------------------------------------- complete and finishCall

  /** The lock of a call's weak pointer, and the push. */
  lemma PushIsARun(s: State, b: Block) returns (steps: seq<Step>)
    requires Enabled(s, Lock(b)) || Enabled(s, Push(b))
    ensures CanRun(s, steps) && forall step :: step in steps ==> WorkerStep(step) && step.b == b
    ensures Run(s, steps).blocks == s.blocks[b := s.blocks[b].(worker := Released)]
    ensures Run(s, steps).sh == Pushed(s.sh, b)
    ensures Run(s, steps).server == s.server && Run(s, steps).h.completed == s.h.completed
  {
    steps := [Push(b)];
    if Enabled(s, Push(b)) {
      RunOne(s, Push(b));
    } else {
      RunOne(AfterLock(s, b), Push(b));
      RunPrepends(s, Lock(b), steps);
      steps := [Lock(b)] + steps;
    }
  }

  /** The last steps of a completion: what they do depends on whether the server thread has exchanged first. */
  lemma ExchangeIsARun(s: State, b: Block) returns (steps: seq<Step>)
    requires Enabled(s, ExchangeFinished(b))
    ensures CanRun(s, steps) && forall step :: step in steps ==> WorkerStep(step) && step.b == b
    ensures Run(s, steps).blocks == s.blocks[b := s.blocks[b].(phase := Finished, worker := Released)]
    ensures Run(s, steps).sh == if s.blocks[b].phase == Deferred then Pushed(s.sh, b) else s.sh
    ensures Run(s, steps).server == s.server && Run(s, steps).h.completed == s.h.completed
    ensures s.blocks[b].phase != Deferred ==> Run(s, steps).h == s.h
  {
    var e := AfterExchangeFinished(s, b);
    steps := [];
    if s.blocks[b].phase == Deferred {
      assert Owned(s, b) ==> Owned(e, b);
      steps := PushIsARun(e, b);
    }
    RunPrepends(s, ExchangeFinished(b), steps);
    steps := [ExchangeFinished(b)] + steps;
  }

  /**
   * A handle's complete, or finishCall, on a block that still waits for its result is a run of worker steps: it sets
   * the result, and changes what AsyncOperations holds exactly when the server thread has exchanged first.
   */
  lemma CompletionIsARun(s: State, b: Block, p: Payload) returns (steps: seq<Step>)
    requires Enabled(s, SetResult(b, p))
    ensures CanRun(s, steps) && forall step :: step in steps ==> WorkerStep(step) && step.b == b
    ensures Run(s, steps).blocks == s.blocks[b := BlockState(Finished, Some(p), Released)]
    ensures Run(s, steps).sh == if s.blocks[b].phase == Deferred then Pushed(s.sh, b) else s.sh
    ensures Run(s, steps).server == s.server && Run(s, steps).h.completed == s.h.completed[b := p]
    ensures s.blocks[b].phase != Deferred ==> Run(s, steps).h == s.h.(completed := s.h.completed[b := p])
  {
    var r := AfterSetResult(s, b, p);
    assert Enabled(r, ExchangeFinished(b)) by {
      assert Owned(s, b) ==> Owned(r, b);
    }
    steps := ExchangeIsARun(r, b);
    RunPrepends(s, SetResult(b, p), steps);
    steps := [SetResult(b, p)] + steps;
  }

  // ---------------------------------------------------------------- the server callbacks

  /** establishDeferral, once the exchange has found no completion, is a run of two steps of the server thread. */
  lemma DeferralIsARun(s: State)
    requires s.server.Exchanged?
    ensures CanRun(s, [Increment] + [Register])
    ensures var t := Run(s, [Increment] + [Register]);
      t.server.Idle? && t.sh == Registered(Counted(s.sh), s.server.cur.key, s.server.cur) && t.blocks == s.blocks
  {
    RunOne(AfterIncrement(s), Register);
    RunPrepends(s, Increment, [Register]);
  }

  /** A callback whose operation completes before the exchange: finished inline with its result, nothing registered. */
  lemma InlineCallbackIsARun(s: State, b: Block, p: Payload, good: bool) returns (steps: seq<Step>)
    requires Enabled(s, Begin(b)) && Fits(b.kind, p)
    ensures CanRun(s, steps)
    ensures var t := Run(s, steps);
      && t.server.Idle? && t.sh == s.sh
      && t.h.inlined == s.h.inlined + [b] && t.h.refused == s.h.refused
      && t.h.sent == s.h.sent[b := Rendered(b.kind, Some(p), false)]
  {
    var begun := AfterBegin(s, b);
    assert Owned(begun, b);
    var completion := CompletionIsARun(begun, b, p);
    var completed := Run(begun, completion);
    RunOne(completed, ExchangeDeferred(good));
    RunsCompose(begun, completion, [ExchangeDeferred(good)]);
    RunPrepends(s, Begin(b), completion + [ExchangeDeferred(good)]);
    steps := [Begin(b)] + (completion + [ExchangeDeferred(good)]);
  }

  /** A callback whose operation is not completed before the exchange: counted and registered. */
  lemma DeferredCallbackIsARun(s: State, b: Block) returns (steps: seq<Step>)
    requires Enabled(s, Begin(b))
    ensures CanRun(s, steps)
    ensures var t := Run(s, steps);
      && t.server.Idle? && t.sh == Registered(Counted(s.sh), b.key, b)
      && t.blocks == s.blocks[b := BlockState(Deferred, None, Holding)]
  {
    var begun := AfterBegin(s, b);
    DeferralIsARun(AfterExchangeDeferred(begun, true));
    RunPrepends(begun, ExchangeDeferred(true), [Increment] + [Register]);
    RunPrepends(s, Begin(b), [ExchangeDeferred(true)] + ([Increment] + [Register]));
    steps := [Begin(b)] + ([ExchangeDeferred(true)] + ([Increment] + [Register]));
  }

  /** A call that fails to begin. */
  lemma RefusedCallbackIsARun(s: State, b: Block)
    requires Enabled(s, Begin(b)) && b.kind.Call?
    ensures CanRun(s, [Begin(b)] + [ExchangeDeferred(false)])
    ensures var t := Run(s, [Begin(b)] + [ExchangeDeferred(false)]);
      t.server.Idle? && t.sh == s.sh && t.h == s.h.(refused := s.h.refused + {b})
  {
    RunOne(AfterBegin(s, b), ExchangeDeferred(false));
    RunPrepends(s, Begin(b), [ExchangeDeferred(false)]);
  }
}
