/** The inductive invariant of the protocol, and its preservation by every step. */
module ProtocolInvariant {
  import opened Common
  import opened AsyncResults
  import opened Registry
  import opened Protocol

  /** The block whose fate the server's exchange has still to decide. */
  function Deciding(server: Server): Option<Block> {
    if server.Begun? then Some(server.cur) else None
  }

  /** The block between the server's exchange and its increment of m_inflight. */
  function Counting(server: Server): Option<Block> {
    if server.Exchanged? then Some(server.cur) else None
  }

  /** The block that is counted but not yet in m_pending. */
  function Registering(server: Server): Option<Block> {
    if server.Incremented? then Some(server.cur) else None
  }

  predicate HasCurrent(server: Server) {
    server.Begun? || server.Exchanged? || server.Incremented?
  }

  /** The wait of shutdown is over. */
  predicate PastWait(server: Server) {
    server.Resumed? || server.FinalDrain? || server.Drained? || server.Cleared? || server.Deleted?
  }

  predicate Emptied(server: Server) {
    server.Cleared? || server.Deleted?
  }

  /** The result of one block is what its worker passed, and is set before the worker's exchange. */
  ghost predicate ResultOk(b: Block, st: BlockState, completed: map<Block, Payload>) {
    && (st.worker.Holding? <==> st.result == None)
    && (st.result.Some? ==> Fits(b.kind, st.result.value))
    && st.result == (if b in completed then Some(completed[b]) else None)
  }

  ghost predicate ResultsOk(blocks: map<Block, BlockState>, completed: map<Block, Payload>) {
    && completed.Keys <= blocks.Keys
    && forall b :: b in blocks ==> ResultOk(b, blocks[b], completed)
  }

  /** The handshake of one block: who has exchanged the phase, and what that entitles the worker to. */
  ghost predicate HandshakeOk(b: Block, st: BlockState, deciding: Option<Block>, counting: Option<Block>,
                              inlined: seq<Block>, refused: set<Block>, established: set<Block>, pushed: set<Block>)
  {
    var early := st.worker.Holding? || st.worker.ResultSet?;
    if deciding == Some(b) then
      && b !in inlined && b !in refused && b !in established && b !in pushed
      && !st.worker.Locking? && !st.worker.Pushing? && st.phase == if early then Initial else Finished
    else if b in inlined then
      && b !in refused && b !in established && b !in pushed
      && st.worker.Released? && st.phase.Deferred?
    else if b in refused then
      && b !in established && b !in pushed
      && early && st.phase.Deferred? && b.kind.Call?
    else
      && (b in established <==> counting != Some(b))
      && (b in pushed <==> st.worker.Released?)
      && st.phase == if early then Deferred else Finished
  }

  ghost predicate HandshakesOk(blocks: map<Block, BlockState>, deciding: Option<Block>, counting: Option<Block>,
                               inlined: seq<Block>, refused: set<Block>, established: set<Block>, pushed: set<Block>)
  {
    && established <= blocks.Keys && pushed <= blocks.Keys && refused <= blocks.Keys
    && (forall b :: b in inlined ==> b in blocks) && NoDup(inlined)
    && forall b :: b in blocks ==> HandshakeOk(b, blocks[b], deciding, counting, inlined, refused, established, pushed)
  }

  ghost predicate Handshakes(s: State) {
    HandshakesOk(s.blocks, Deciding(s.server), Counting(s.server),
                 s.h.inlined, s.h.refused, s.h.established, s.h.pushed)
  }

  ghost predicate HandshakeAt(s: State, b: Block) {
    b in s.blocks &&
    HandshakeOk(b, s.blocks[b], Deciding(s.server), Counting(s.server),
                s.h.inlined, s.h.refused, s.h.established, s.h.pushed)
  }

  /** The operation in the server thread's hands is not yet known to the registry, the queue or the history. */
  ghost predicate CurrentOk(s: State) {
    HasCurrent(s.server) ==>
      && s.server.cur in s.blocks && s.server.cur.key !in s.sh.pending
      && s.server.cur !in s.h.inlined && s.server.cur !in s.h.refused
      && s.server.cur !in s.h.cancelled && s.server.cur !in s.h.handled
  }

  /** Every push is accounted for once: it was enqueued, in order, or dropped because of the close. */
  ghost predicate QueueOk(accepted: seq<Block>, handled: seq<Block>, batch: seq<Block>, queue: seq<Block>,
                          closedDrops: seq<Block>, pushed: set<Block>)
  {
    && accepted == handled + (batch + queue)
    && NoDup(accepted) && NoDup(closedDrops)
    && (forall b :: b in pushed <==> b in accepted || b in closedDrops)
    && (forall b :: b in accepted ==> b !in closedDrops)
  }

  ghost predicate Queues(s: State) {
    QueueOk(s.h.accepted, s.h.handled, Batch(s), s.sh.queue, s.h.closedDrops, s.h.pushed)
  }

  /** The block is one that m_pending has to hold. */
  ghost predicate Registrable(b: Block, established: set<Block>, cancelled: set<Block>, delivered: seq<Block>,
                              registering: Option<Block>, emptied: bool)
  {
    b in established && b !in cancelled && b !in delivered && registering != Some(b) && !emptied
  }

  /** m_pending holds exactly the counted operations that are neither cancelled nor finished, at their own address. */
  ghost predicate RegistryOk(pending: map<Key, Block>, established: set<Block>, cancelled: set<Block>,
                             delivered: seq<Block>, registering: Option<Block>, emptied: bool)
  {
    && cancelled <= established
    && (forall k :: k in pending ==>
          pending[k].key == k && Registrable(pending[k], established, cancelled, delivered, registering, emptied))
    && forall b ::
         Registrable(b, established, cancelled, delivered, registering, emptied) ==> Matches(pending, b.key, b)
  }

  ghost predicate RegistrySound(s: State) {
    RegistryOk(s.sh.pending, s.h.established, s.h.cancelled, s.h.delivered, Registering(s.server), Emptied(s.server))
  }

  ghost predicate DrainOk(handled: seq<Block>, delivered: seq<Block>, dropped: seq<Block>, cancelled: set<Block>) {
    delivered == Without(handled, cancelled) && dropped == Within(handled, cancelled)
  }

  ghost predicate Drains(s: State) {
    DrainOk(s.h.handled, s.h.delivered, s.h.dropped, s.h.cancelled)
  }

  ghost predicate SentOk(sent: map<Block, Delivery>, inlined: seq<Block>, delivered: seq<Block>,
                         completed: map<Block, Payload>)
  {
    && (forall b :: b in sent <==> b in inlined || b in delivered)
    && (forall b :: b in inlined ==>
          b in completed && b in sent && sent[b] == Rendered(b.kind, Some(completed[b]), false))
    && (forall b :: b in delivered ==>
          b in completed && b in sent && sent[b] == Rendered(b.kind, Some(completed[b]), true))
  }

  ghost predicate Deliveries(s: State) {
    SentOk(s.h.sent, s.h.inlined, s.h.delivered, s.h.completed)
  }

  ghost predicate CounterOk(inflight: UInt32, established: set<Block>, pushed: set<Block>, anticipating: bool) {
    && inflight == Wrap32(|established| - |pushed|)
    && |established - pushed| + (if anticipating then 1 else 0) < TWO_TO_THE_32
  }

  ghost predicate Counter(s: State) {
    CounterOk(s.sh.inflight, s.h.established, s.h.pushed, s.server.Begun? || s.server.Exchanged?)
  }

  ghost predicate StageOk(s: State) {
    && (s.sh.closed <==> s.server.Waiting? || PastWait(s.server))
    && (s.sh.serving <==> !s.server.Setup?)
    && (s.h.closedDrops != [] ==> s.sh.closed)
    && (s.timedOut ==> PastWait(s.server))
    && (PastWait(s.server) && !s.server.Resumed? ==> s.sh.queue == [])
    && (PastWait(s.server) && !s.timedOut ==> s.h.established <= s.h.pushed)
    && (Emptied(s.server) ==> s.sh.pending == map[])
  }

  ghost predicate Inv(s: State) {
    && ResultsOk(s.blocks, s.h.completed) && Handshakes(s) && CurrentOk(s) && Queues(s) && RegistrySound(s)
    && Drains(s) && Deliveries(s) && Counter(s) && StageOk(s)
  }

  lemma StartInv()
    ensures Inv(Start())
  {
  }

  /** Nothing owns a refused call any more, so its receiver does not touch it, and it has not got as far as a push. */
  lemma RefusedIsUntouchable(s: State, b: Block)
    requires Handshakes(s) && RegistrySound(s) && Queues(s) && CurrentOk(s)
    requires b in s.h.refused
    ensures !CanTouch(s, b) && b in s.blocks && !s.blocks[b].worker.Pushing?
  {
    assert HandshakeAt(s, b);
    assert b !in s.h.accepted;
    assert !Matches(s.sh.pending, b.key, b);
  }

  lemma ResultsUpdated(blocks: map<Block, BlockState>, completed: map<Block, Payload>, b: Block, st: BlockState)
    requires ResultsOk(blocks, completed)
    ensures ResultOk(b, st, completed) ==> ResultsOk(blocks[b := st], completed)
    ensures st.result.Some? && ResultOk(b, st, completed[b := st.result.value])
        ==> ResultsOk(blocks[b := st], completed[b := st.result.value])
  {
  }

  lemma ResultsKept(s: State, step: Step)
    requires ResultsOk(s.blocks, s.h.completed) && CurrentOk(s) && Enabled(s, step)
    ensures var s' := Apply(s, step); ResultsOk(s'.blocks, s'.h.completed)
  {
    match step
    case Begin(b) => ResultsUpdated(s.blocks, s.h.completed, b, BlockState(Initial, None, Holding));
    case SetResult(b, p) =>
      ResultsUpdated(s.blocks, s.h.completed, b, s.blocks[b].(result := Some(p), worker := ResultSet));
    case ExchangeFinished(b) => ResultsUpdated(s.blocks, s.h.completed, b, AfterExchangeFinished(s, b).blocks[b]);
    case Lock(b) => ResultsUpdated(s.blocks, s.h.completed, b, s.blocks[b].(worker := Pushing));
    case Push(b) => ResultsUpdated(s.blocks, s.h.completed, b, s.blocks[b].(worker := Released));
    case ExchangeDeferred(_) =>
      ResultsUpdated(s.blocks, s.h.completed, s.server.cur, s.blocks[s.server.cur].(phase := Deferred));
    case _ =>
  }

  /** A step that concerns block b only leaves every other block's handshake as it is. */
  lemma HandshakesRefocused(
      b: Block, st: BlockState, blocks: map<Block, BlockState>,
      deciding: Option<Block>, counting: Option<Block>, inlined: seq<Block>,
      refused: set<Block>, established: set<Block>, pushed: set<Block>,
      deciding': Option<Block>, counting': Option<Block>, inlined': seq<Block>,
      refused': set<Block>, established': set<Block>, pushed': set<Block>)
    requires HandshakesOk(blocks, deciding, counting, inlined, refused, established, pushed)
    requires HandshakeOk(b, st, deciding', counting', inlined', refused', established', pushed')
    requires deciding' == deciding || {deciding, deciding'} <= {None, Some(b)}
    requires counting' == counting || {counting, counting'} <= {None, Some(b)}
    requires inlined' == inlined || (b !in inlined && inlined' == inlined + [b])
    requires refused' == refused || refused' == refused + {b}
    requires established' == established || established' == established + {b}
    requires pushed' == pushed || pushed' == pushed + {b}
    ensures HandshakesOk(blocks[b := st], deciding', counting', inlined', refused', established', pushed')
  {
    var blocks' := blocks[b := st];
    forall x | x in blocks'
      ensures HandshakeOk(x, blocks'[x], deciding', counting', inlined', refused', established', pushed')
    {
      if x != b {
        assert HandshakeOk(x, blocks[x], deciding, counting, inlined, refused, established, pushed);
        assert x in inlined' <==> x in inlined;
      }
    }
  }

  /** A step that updates block b only, and leaves b's own handshake in order. */
  lemma HandshakesFollow(s: State, step: Step, b: Block)
    requires Handshakes(s) && Enabled(s, step)
    requires (WorkerStep(step) && step.b == b) || (step.Begin? && step.b == b)
          || ((step.ExchangeDeferred? || step.Increment?) && s.server.cur == b && b in s.blocks)
    requires step.ExchangeDeferred? ==> b !in s.h.inlined
    requires var s' := Apply(s, step);
      b in s'.blocks && HandshakeOk(b, s'.blocks[b], Deciding(s'.server), Counting(s'.server),
                                    s'.h.inlined, s'.h.refused, s'.h.established, s'.h.pushed)
    ensures Handshakes(Apply(s, step))
  {
    var s' := Apply(s, step);
    assert s'.blocks == s.blocks[b := s'.blocks[b]];
    HandshakesRefocused(b, s'.blocks[b], s.blocks,
      Deciding(s.server), Counting(s.server), s.h.inlined, s.h.refused, s.h.established, s.h.pushed,
      Deciding(s'.server), Counting(s'.server), s'.h.inlined, s'.h.refused, s'.h.established, s'.h.pushed);
  }

  lemma WorkerKeepsHandshakes(s: State, step: Step)
    requires Handshakes(s) && RegistrySound(s) && Queues(s) && CurrentOk(s) && Enabled(s, step) && WorkerStep(step)
    ensures Handshakes(Apply(s, step))
  {
    var b := step.b;
    if b in s.h.refused {
      RefusedIsUntouchable(s, b);
    }
    assert HandshakeAt(s, b);
    HandshakesFollow(s, step, b);
  }

  lemma HandshakesKept(s: State, step: Step)
    requires Handshakes(s) && RegistrySound(s) && Queues(s) && CurrentOk(s) && Enabled(s, step)
    ensures Handshakes(Apply(s, step))
  {
    if WorkerStep(step) {
      WorkerKeepsHandshakes(s, step);
    } else if step.Begin? {
      HandshakesFollow(s, step, step.b);
    } else if step.ExchangeDeferred? || step.Increment? {
      var b := s.server.cur;
      assert HandshakeAt(s, b);
      HandshakesFollow(s, step, b);
    }
  }

  lemma CurrentKept(s: State, step: Step)
    requires CurrentOk(s) && Handshakes(s) && Queues(s) && RegistrySound(s) && Enabled(s, step)
    ensures CurrentOk(Apply(s, step))
  {
    match step
    case Begin(b) => BeginIsNew(s, b);
    case ExchangeDeferred(_) =>
    case Increment =>
    case SetResult(_, _) =>
    case ExchangeFinished(_) =>
    case Lock(_) =>
    case Push(_) =>
    case _ => assert !HasCurrent(Apply(s, step).server);
  }

  /** A block that does not exist yet is in no part of the history. */
  lemma BeginIsNew(s: State, b: Block)
    requires Handshakes(s) && Queues(s) && RegistrySound(s) && b !in s.blocks
    ensures b !in s.h.inlined && b !in s.h.refused && b !in s.h.cancelled && b !in s.h.handled
  {
    assert b !in s.h.accepted;
  }

  lemma QueueTakes(accepted: seq<Block>, handled: seq<Block>, batch: seq<Block>, queue: seq<Block>,
                   closedDrops: seq<Block>, pushed: set<Block>, b: Block)
    requires QueueOk(accepted, handled, batch, queue, closedDrops, pushed) && b !in pushed
    ensures QueueOk(accepted + [b], handled, batch, queue + [b], closedDrops, pushed + {b})
    ensures QueueOk(accepted, handled, batch, queue, closedDrops + [b], pushed + {b})
  {
    assert b !in accepted && b !in closedDrops;
  }

  lemma QueueGives(accepted: seq<Block>, handled: seq<Block>, batch: seq<Block>, queue: seq<Block>,
                   closedDrops: seq<Block>, pushed: set<Block>)
    requires QueueOk(accepted, handled, batch, queue, closedDrops, pushed)
    ensures batch == [] ==> QueueOk(accepted, handled, queue, [], closedDrops, pushed)
    ensures batch != [] ==> QueueOk(accepted, handled + [batch[0]], batch[1..], queue, closedDrops, pushed)
  {
  }

  lemma PushKeepsQueues(s: State, b: Block)
    requires Queues(s) && Handshakes(s) && b in s.blocks && s.blocks[b].worker.Pushing?
    ensures Queues(AfterPush(s, b))
  {
    PushingIsNotPushed(s, b);
    QueueTakes(s.h.accepted, s.h.handled, Batch(s), s.sh.queue, s.h.closedDrops, s.h.pushed, b);
  }

  lemma QueuesKept(s: State, step: Step)
    requires Queues(s) && Handshakes(s) && Enabled(s, step)
    ensures Queues(Apply(s, step))
  {
    if step.Push? {
      PushKeepsQueues(s, step.b);
    } else if step.Swap? || step.Settle? {
      QueueGives(s.h.accepted, s.h.handled, Batch(s), s.sh.queue, s.h.closedDrops, s.h.pushed);
    }
  }

  /** Counting an operation, then registering it. */
  lemma RegistryGrows(pending: map<Key, Block>, established: set<Block>, cancelled: set<Block>,
                      delivered: seq<Block>, b: Block)
    requires b !in cancelled
    ensures b !in established && RegistryOk(pending, established, cancelled, delivered, None, false)
      ==> RegistryOk(pending, established + {b}, cancelled, delivered, Some(b), false)
    ensures RegistryOk(pending, established, cancelled, delivered, Some(b), false)
            && b in established && b !in delivered && b.key !in pending
      ==> RegistryOk(pending[b.key := b], established, cancelled, delivered, None, false)
  {
    if RegistryOk(pending, established, cancelled, delivered, None, false) && b !in established {
      forall x | Registrable(x, established + {b}, cancelled, delivered, Some(b), false)
        ensures Matches(pending, x.key, x)
      {
        assert Registrable(x, established, cancelled, delivered, None, false);
      }
    }
  }

  /** Erasing an entry because its operation was finished, or because it was cancelled. */
  lemma RegistryShrinks(pending: map<Key, Block>, established: set<Block>, cancelled: set<Block>,
                        delivered: seq<Block>, key: Key)
    requires RegistryOk(pending, established, cancelled, delivered, None, false)
    requires key in pending
    ensures RegistryOk(Erased(pending, key), established, cancelled, delivered + [pending[key]], None, false)
    ensures RegistryOk(Erased(pending, key), established, cancelled + {pending[key]}, delivered, None, false)
  {
    var b := pending[key];
    assert b.key == key && Registrable(b, established, cancelled, delivered, None, false);
    forall x | Registrable(x, established, cancelled, delivered + [b], None, false)
      || Registrable(x, established, cancelled + {b}, delivered, None, false)
      ensures Matches(Erased(pending, key), x.key, x)
    {
      assert Registrable(x, established, cancelled, delivered, None, false);
    }
  }

  lemma ErasedAbsent(pending: map<Key, Block>, key: Key)
    requires key !in pending
    ensures Erased(pending, key) == pending
  {
  }

  lemma EstablishKeepsRegistry(s: State, step: Step)
    requires RegistrySound(s) && CurrentOk(s) && Drains(s) && Handshakes(s) && Enabled(s, step)
    requires step.Increment? || step.Register?
    ensures RegistrySound(Apply(s, step))
  {
    var b := s.server.cur;
    assert HandshakeAt(s, b);
    WithoutElements(s.h.handled, s.h.cancelled);
    RegistryGrows(s.sh.pending, s.h.established, s.h.cancelled, s.h.delivered, b);
  }

  lemma EraseKeepsRegistry(s: State, step: Step)
    requires RegistrySound(s) && StageOk(s) && Enabled(s, step)
    requires step.Settle? || step.Cancel?
    ensures RegistrySound(Apply(s, step))
  {
    var key := if step.Settle? then s.server.batch[0].key else step.key;
    if key in s.sh.pending {
      RegistryShrinks(s.sh.pending, s.h.established, s.h.cancelled, s.h.delivered, key);
    } else {
      ErasedAbsent(s.sh.pending, key);
      assert s.h.cancelled + {} == s.h.cancelled;
    }
  }

  /** The steps that touch neither the registry nor what it has to hold. */
  lemma OthersKeepRegistry(s: State, step: Step)
    requires RegistrySound(s) && Enabled(s, step)
    requires !(step.Increment? || step.Register? || step.Settle? || step.Cancel? || step.Clear?)
    ensures RegistrySound(Apply(s, step))
  {
    var s' := Apply(s, step);
    assert Emptied(s'.server) == Emptied(s.server) && Registering(s'.server) == Registering(s.server);
    assert s'.sh.pending == s.sh.pending && s'.h.established == s.h.established;
    assert s'.h.cancelled == s.h.cancelled && s'.h.delivered == s.h.delivered;
  }

  lemma RegistryKept(s: State, step: Step)
    requires RegistrySound(s) && CurrentOk(s) && Drains(s) && Handshakes(s) && StageOk(s) && Enabled(s, step)
    ensures RegistrySound(Apply(s, step))
  {
    if step.Increment? || step.Register? {
      EstablishKeepsRegistry(s, step);
    } else if step.Settle? || step.Cancel? {
      EraseKeepsRegistry(s, step);
    } else if step.Clear? {
      assert Apply(s, step).sh.pending == map[];
    } else {
      OthersKeepRegistry(s, step);
    }
  }

  /** What drain finds for the block it looks at: its entry if and only if the block was not cancelled. */
  lemma SettleFinds(s: State)
    requires RegistrySound(s) && Drains(s) && Queues(s) && Handshakes(s) && StageOk(s) && Enabled(s, Settle)
    ensures var b := s.server.batch[0];
      && b in s.blocks && b in s.h.established && b !in s.h.handled && s.blocks[b].worker.Released?
      && (Matches(s.sh.pending, b.key, b) <==> b !in s.h.cancelled)
  {
    var b := s.server.batch[0];
    assert b == s.h.accepted[|s.h.handled|];
    assert b in s.h.pushed;
    assert HandshakeAt(s, b);
    WithoutElements(s.h.handled, s.h.cancelled);
    assert forall i :: 0 <= i < |s.h.handled| ==> s.h.handled[i] == s.h.accepted[i];
    assert b !in s.h.cancelled ==>
      Registrable(b, s.h.established, s.h.cancelled, s.h.delivered, Registering(s.server), Emptied(s.server));
  }

  lemma DrainsKept(s: State, step: Step)
    requires Drains(s) && RegistrySound(s) && Queues(s) && Handshakes(s) && StageOk(s) && Enabled(s, step)
    ensures Drains(Apply(s, step))
  {
    if step.Settle? {
      SettleFinds(s);
      FilterAppend(s.h.handled, s.h.cancelled, s.server.batch[0]);
    } else if step.Cancel? && step.key in s.sh.pending {
      var b := s.sh.pending[step.key];
      assert Registrable(b, s.h.established, s.h.cancelled, s.h.delivered, Registering(s.server), Emptied(s.server));
      WithoutElements(s.h.handled, s.h.cancelled);
      FilterIrrelevant(s.h.handled, s.h.cancelled, b);
    } else if step.Cancel? {
      assert s.h.cancelled + {} == s.h.cancelled;
    }
  }

  lemma SentGrows(sent: map<Block, Delivery>, inlined: seq<Block>, delivered: seq<Block>,
                  completed: map<Block, Payload>, b: Block, p: Payload)
    requires SentOk(sent, inlined, delivered, completed) && b !in inlined && b !in delivered
    ensures b in completed ==>
        && SentOk(sent[b := Rendered(b.kind, Some(completed[b]), false)], inlined + [b], delivered, completed)
        && SentOk(sent[b := Rendered(b.kind, Some(completed[b]), true)], inlined, delivered + [b], completed)
    ensures b !in completed ==> SentOk(sent, inlined, delivered, completed[b := p])
  {
  }

  lemma ResultKeepsDeliveries(s: State, b: Block, p: Payload)
    requires Deliveries(s) && ResultsOk(s.blocks, s.h.completed) && Enabled(s, SetResult(b, p))
    ensures Deliveries(AfterSetResult(s, b, p))
  {
    assert ResultOk(b, s.blocks[b], s.h.completed);
    SentGrows(s.h.sent, s.h.inlined, s.h.delivered, s.h.completed, b, p);
  }

  /** A completion found by the server's exchange has set its result, and nobody has finished it. */
  lemma InlineIsFirst(s: State)
    requires Deliveries(s) && ResultsOk(s.blocks, s.h.completed) && Handshakes(s) && CurrentOk(s) && Drains(s)
    requires s.server.Begun? && Of(s, s.server.cur).phase.Finished?
    ensures var b := s.server.cur;
      && b !in s.h.inlined && b !in s.h.delivered
      && b in s.h.completed && Of(s, b).result == Some(s.h.completed[b])
  {
    var b := s.server.cur;
    WithoutElements(s.h.handled, s.h.cancelled);
    assert ResultOk(b, s.blocks[b], s.h.completed);
    assert HandshakeAt(s, b);
  }

  lemma InlineKeepsDeliveries(s: State, good: bool)
    requires Deliveries(s) && ResultsOk(s.blocks, s.h.completed) && Handshakes(s) && CurrentOk(s) && Drains(s)
    requires Enabled(s, ExchangeDeferred(good))
    ensures Deliveries(AfterExchangeDeferred(s, good))
  {
    var b := s.server.cur;
    if Of(s, b).phase.Finished? {
      InlineIsFirst(s);
      SentGrows(s.h.sent, s.h.inlined, s.h.delivered, s.h.completed, b, s.h.completed[b]);
    }
  }

  lemma SettleKeepsDeliveries(s: State)
    requires Deliveries(s) && ResultsOk(s.blocks, s.h.completed) && Handshakes(s)
    requires RegistrySound(s) && Drains(s) && Queues(s) && StageOk(s) && Enabled(s, Settle)
    ensures Deliveries(AfterSettle(s))
  {
    var b := s.server.batch[0];
    SettleFinds(s);
    WithoutElements(s.h.handled, s.h.cancelled);
    assert ResultOk(b, s.blocks[b], s.h.completed);
    assert HandshakeAt(s, b);
    SentGrows(s.h.sent, s.h.inlined, s.h.delivered, s.h.completed, b, SomePayload(b.kind));
  }

  lemma DeliveriesKept(s: State, step: Step)
    requires Deliveries(s) && ResultsOk(s.blocks, s.h.completed) && Handshakes(s) && CurrentOk(s)
    requires RegistrySound(s) && Drains(s) && Queues(s) && StageOk(s) && Enabled(s, step)
    ensures Deliveries(Apply(s, step))
  {
    match step
    case SetResult(b, p) => ResultKeepsDeliveries(s, b, p);
    case ExchangeDeferred(good) => InlineKeepsDeliveries(s, good);
    case Settle => SettleKeepsDeliveries(s);
    case _ =>
  }

  /** Counting an operation that was anticipated. */
  lemma CounterCounts(inflight: UInt32, established: set<Block>, pushed: set<Block>, b: Block)
    requires CounterOk(inflight, established, pushed, true) && b !in established
    ensures CounterOk(Wrap32(inflight + 1), established + {b}, pushed, false)
  {
    WrapStep(|established| - |pushed|, 1);
    SubsetSize((established + {b}) - pushed, (established - pushed) + {b});
  }

  /** A push, whether or not its operation is counted already. */
  lemma CounterDrops(inflight: UInt32, established: set<Block>, pushed: set<Block>, anticipating: bool, b: Block)
    requires CounterOk(inflight, established, pushed, anticipating) && b !in pushed
    ensures CounterOk(Wrap32(inflight - 1), established, pushed + {b}, anticipating)
  {
    WrapStep(|established| - |pushed|, -1);
    SubsetSize(established - (pushed + {b}), established - pushed);
  }

  lemma SubsetSize(x: set<Block>, y: set<Block>)
    requires x <= y
    ensures |x| <= |y|
  {
    assert y == x + (y - x);
  }

  lemma IncrementKeepsCounter(s: State)
    requires Counter(s) && Handshakes(s) && CurrentOk(s) && Enabled(s, Increment)
    ensures Counter(AfterIncrement(s))
  {
    var b := s.server.cur;
    assert HandshakeOk(b, s.blocks[b], None, Some(b), s.h.inlined, s.h.refused, s.h.established, s.h.pushed);
    CounterCounts(s.sh.inflight, s.h.established, s.h.pushed, b);
  }

  lemma PushingIsNotPushed(s: State, b: Block)
    requires Handshakes(s) && b in s.blocks && s.blocks[b].worker.Pushing?
    ensures b !in s.h.pushed
  {
    assert HandshakeAt(s, b);
  }

  lemma PushKeepsCounter(s: State, b: Block)
    requires Counter(s) && b !in s.h.pushed
    ensures Counter(AfterPush(s, b))
  {
    CounterDrops(s.sh.inflight, s.h.established, s.h.pushed, s.server.Begun? || s.server.Exchanged?, b);
  }

  lemma CounterKept(s: State, step: Step)
    requires Counter(s) && Handshakes(s) && CurrentOk(s) && Enabled(s, step)
    ensures Counter(Apply(s, step))
  {
    match step
    case Begin(_) =>
    case ExchangeDeferred(_) =>
    case Increment => IncrementKeepsCounter(s);
    case Push(b) =>
      PushingIsNotPushed(s, b);
      PushKeepsCounter(s, b);
    case _ => assert Apply(s, step).sh.inflight == s.sh.inflight && Apply(s, step).h.pushed == s.h.pushed;
  }

  /** The joined thread is in no window, so every push has been counted. */
  lemma NobodyIsEarly(s: State)
    requires Handshakes(s) && Counting(s.server) == None
    ensures s.h.pushed <= s.h.established
  {
    forall b | b in s.h.pushed
      ensures b in s.h.established
    {
      assert HandshakeAt(s, b);
    }
  }

  /** Without early pushes the wrapped counter is zero exactly when nothing is outstanding. */
  lemma ZeroIsExact(established: set<Block>, pushed: set<Block>)
    requires pushed <= established && |established - pushed| < TWO_TO_THE_32
    ensures Wrap32(|established| - |pushed|) == |established - pushed|
    ensures Wrap32(|established| - |pushed|) == 0 <==> established <= pushed
  {
    assert established == (established - pushed) + pushed;
  }

  lemma WaitKeepsStage(s: State)
    requires StageOk(s) && Counter(s) && Handshakes(s) && Enabled(s, WaitSatisfied)
    ensures StageOk(Apply(s, WaitSatisfied))
  {
    NobodyIsEarly(s);
    ZeroIsExact(s.h.established, s.h.pushed);
  }

  lemma WorkerKeepsStage(s: State, step: Step)
    requires StageOk(s) && Enabled(s, step) && WorkerStep(step)
    ensures StageOk(Apply(s, step))
  {
  }

  lemma ServerKeepsStage(s: State, step: Step)
    requires StageOk(s) && CurrentOk(s) && Enabled(s, step) && !WorkerStep(step) && !step.WaitSatisfied?
    ensures StageOk(Apply(s, step))
  {
  }

  lemma StageKept(s: State, step: Step)
    requires StageOk(s) && Counter(s) && Handshakes(s) && CurrentOk(s) && Enabled(s, step)
    ensures StageOk(Apply(s, step))
  {
    if WorkerStep(step) {
      WorkerKeepsStage(s, step);
    } else if step.WaitSatisfied? {
      WaitKeepsStage(s);
    } else {
      ServerKeepsStage(s, step);
    }
  }

  /** Every step keeps the invariant. */
  lemma StepKeepsInv(s: State, step: Step)
    requires Inv(s) && Enabled(s, step)
    ensures Inv(Apply(s, step))
  {
    ResultsKept(s, step);
    HandshakesKept(s, step);
    CurrentKept(s, step);
    QueuesKept(s, step);
    RegistryKept(s, step);
    DrainsKept(s, step);
    DeliveriesKept(s, step);
    CounterKept(s, step);
    StageKept(s, step);
  }

  lemma {:induction false} RunKeepsInv(s: State, steps: seq<Step>)
    requires Inv(s) && CanRun(s, steps)
    ensures Inv(Run(s, steps))
    decreases |steps|
  {
    if steps != [] {
      StepKeepsInv(s, steps[0]);
      RunKeepsInv(Apply(s, steps[0]), steps[1..]);
    }
  }

  lemma ReachableInv(s: State)
    requires Reachable(s)
    ensures Inv(s)
  {
    var steps :| CanRun(Start(), steps) && Run(Start(), steps) == s;
    StartInv();
    RunKeepsInv(Start(), steps);
  }
}
