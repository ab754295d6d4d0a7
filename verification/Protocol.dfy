/**
 * The deferred-operation protocol as a transition system, at the granularity of the code's atomic actions:
 * one step per critical section, per phase exchange and per server-thread action between them.
 */
module Protocol {
  import opened Common
  import opened AsyncResults
  import opened Registry

  /** A target address. */
  type Key = nat

  /** A block: its identity, and the fields its constructor fixes. */
  datatype Block = Block(id: nat, key: Key, kind: Kind)

  datatype Phase = Initial | Finished | Deferred

  /**
   * Where the one completion of a block stands: handle held, result set, about to lock the weak pointer of a call's
   * block, about to push, or over. A worker about to push holds a shared_ptr of its own to the block.
   */
  datatype Worker = Holding | ResultSet | Locking | Pushing | Released

  datatype BlockState = BlockState(phase: Phase, result: Option<Payload>, worker: Worker)

  /** The server thread up to its join, then the thread that runs stop. */
  datatype Server =
    | Setup
    | Idle
    | Begun(cur: Block)       // inside beginRead, beginWrite or beginCall
    | Exchanged(cur: Block)   // exchange(Deferred) found no completion; m_inflight not yet incremented
    | Incremented(cur: Block) // m_inflight incremented; not yet in m_pending
    | Draining(batch: seq<Block>)
    | Joined
    | Waiting                 // m_closed set, in wait_for
    | Resumed
    | FinalDrain(batch: seq<Block>)
    | Drained
    | Cleared
    | Deleted

  /** What happened so far; no step's effect on the other fields depends on it. */
  datatype History = History(
    accepted: seq<Block>,      // pushes that were enqueued, in order
    handled: seq<Block>,       // blocks drain has looked at, in order
    delivered: seq<Block>,     // finishDeferred calls, in order
    dropped: seq<Block>,       // completions drain dropped, in order
    closedDrops: seq<Block>,   // pushes after the close
    inlined: seq<Block>,       // finishInline calls, in order
    established: set<Block>,   // ++m_inflight done
    pushed: set<Block>,        // --m_inflight done
    cancelled: set<Block>,     // erased from m_pending by cancel
    refused: set<Block>,       // method calls whose beginCall failed
    completed: map<Block, Payload>, // what the worker passed
    sent: map<Block, Delivery>)     // what the finishing call handed over

  datatype State = State(
    blocks: map<Block, BlockState>,
    server: Server,
    sh: Shared<Key, Block>,
    timedOut: bool,
    h: History)

  const NO_HISTORY := History([], [], [], [], [], [], {}, {}, {}, {}, map[], map[])

  function Start(): State {
    State(map[], Setup, Fresh(), false, NO_HISTORY)
  }

  datatype Step =
    | SetServing
    | Begin(b: Block)
    | SetResult(b: Block, p: Payload)
    | ExchangeFinished(b: Block)
    | Lock(b: Block)
    | Push(b: Block)
    | ExchangeDeferred(beginGood: bool)
    | Increment
    | Register
    | Swap
    | Settle
    | EndDrain
    | Cancel(key: Key)
    | Join
    | Close
    | WaitSatisfied
    | WaitTimeout
    | Clear
    | Delete

  predicate WorkerStep(step: Step) {
    step.SetResult? || step.ExchangeFinished? || step.Lock? || step.Push?
  }

  /** Operations counted but not yet pushed. */
  function Outstanding(s: State): set<Block> {
    s.h.established - s.h.pushed
  }

  /** Operations pushed but not yet counted. */
  function Early(s: State): set<Block> {
    s.h.pushed - s.h.established
  }

  /** The blocks the drain in progress has still to look at. */
  function Batch(s: State): seq<Block> {
    if s.server.Draining? || s.server.FinalDrain? then s.server.batch else []
  }

  function Of(s: State, b: Block): BlockState {
    if b in s.blocks then s.blocks[b] else BlockState(Initial, None, Holding)
  }

  /** Some shared_ptr other than the worker's keeps the block alive. */
  ghost predicate Owned(s: State, b: Block) {
    || Matches(s.sh.pending, b.key, b)
    || b in s.sh.queue
    || ((s.server.Begun? || s.server.Exchanged? || s.server.Incremented?) && s.server.cur == b)
    || b in Batch(s)
  }

  /**
   * A worker can touch its block before it holds a shared_ptr to push. Read and write handles share ownership of
   * theirs; a method receiver works through a raw pointer, and it is assumed not to be inside finishCall, up to its
   * lock, when the block has no owner left.
   */
  ghost predicate CanTouch(s: State, b: Block) {
    b in s.blocks && (b.kind.Call? ==> Owned(s, b))
  }

  /**
   * Which steps can be taken. Beside CanTouch, two conditions are assumptions on the environment rather than tests
   * in the code: a new block (Begin) is a new object, its address is not that of a registered operation, and fewer
   * than 2^32 operations are outstanding; and the receiver of a method call sets its result once (SetResult of a
   * Call). For reads and writes the latter is the test that complete makes on its handle: see HandleProtocol.
   */
  ghost predicate Enabled(s: State, step: Step) {
    match step
    case SetServing => s.server.Setup?
    case Begin(b) =>
      && s.server.Idle?
      && !s.sh.closed && (b.kind.Call? || s.sh.serving)
      && b !in s.blocks && b.key !in s.sh.pending
      && |Outstanding(s)| + 1 < TWO_TO_THE_32
    case SetResult(b, p) => CanTouch(s, b) && s.blocks[b].worker == Holding && Fits(b.kind, p)
    case ExchangeFinished(b) => CanTouch(s, b) && s.blocks[b].worker == ResultSet
    case Lock(b) => CanTouch(s, b) && s.blocks[b].worker == Locking
    case Push(b) => b in s.blocks && s.blocks[b].worker == Pushing
    case ExchangeDeferred(_) => s.server.Begun?
    case Increment => s.server.Exchanged?
    case Register => s.server.Incremented?
    case Swap => s.server.Idle? || s.server.Resumed?
    case Settle => Batch(s) != []
    case EndDrain => (s.server.Draining? || s.server.FinalDrain?) && s.server.batch == []
    case Cancel(key) => s.server.Idle? || s.server.Cleared?
    case Join => s.server.Idle?
    case Close => s.server.Joined?
    case WaitSatisfied => s.server.Waiting? && s.sh.inflight == 0
    case WaitTimeout => s.server.Waiting? && s.sh.inflight != 0
    case Clear => s.server.Drained?
    case Delete => s.server.Cleared?
  }

  /** unifiedCall returns the receiver's bad status: beginCall failed and nothing has finished the call. */
  predicate Refuses(s: State, beginGood: bool)
    requires s.server.Begun?
  {
    s.server.cur.kind.Call? && !beginGood && Of(s, s.server.cur).phase != Finished
  }

  function WithBlock(s: State, b: Block, st: BlockState): State {
    s.(blocks := s.blocks[b := st])
  }

  function AfterBegin(s: State, b: Block): State {
    WithBlock(s, b, BlockState(Initial, None, Holding)).(server := Begun(b))
  }

  function AfterSetResult(s: State, b: Block, p: Payload): State {
    WithBlock(s, b, Of(s, b).(result := Some(p), worker := ResultSet))
      .(h := s.h.(completed := s.h.completed[b := p]))
  }

  function AfterExchangeFinished(s: State, b: Block): State {
    var next := if Of(s, b).phase != Deferred then Released else if b.kind.Call? then Locking else Pushing;
    WithBlock(s, b, Of(s, b).(phase := Finished, worker := next))
  }

  function AfterLock(s: State, b: Block): State {
    WithBlock(s, b, Of(s, b).(worker := Pushing))
  }

  function AfterPush(s: State, b: Block): State {
    WithBlock(s, b, Of(s, b).(worker := Released))
      .(sh := Pushed(s.sh, b),
        h := s.h.(pushed := s.h.pushed + {b},
                  accepted := if s.sh.closed then s.h.accepted else s.h.accepted + [b],
                  closedDrops := if s.sh.closed then s.h.closedDrops + [b] else s.h.closedDrops))
  }

  function AfterExchangeDeferred(s: State, good: bool): State
    requires s.server.Begun?
  {
    var b := s.server.cur;
    var st := Of(s, b);
    if st.phase == Finished then
      WithBlock(s, b, st.(phase := Deferred)).(server := Idle,
        h := s.h.(inlined := s.h.inlined + [b], sent := s.h.sent[b := Rendered(b.kind, st.result, false)]))
    else if Refuses(s, good) then
      WithBlock(s, b, st.(phase := Deferred)).(server := Idle,
        h := s.h.(refused := s.h.refused + {b}))
    else
      WithBlock(s, b, st.(phase := Deferred)).(server := Exchanged(b))
  }

  function AfterIncrement(s: State): State
    requires s.server.Exchanged?
  {
    s.(server := Incremented(s.server.cur), sh := Counted(s.sh),
       h := s.h.(established := s.h.established + {s.server.cur}))
  }

  function AfterRegister(s: State): State
    requires s.server.Incremented?
  {
    s.(server := Idle, sh := Registered(s.sh, s.server.cur.key, s.server.cur))
  }

  function AfterSwap(s: State): State {
    s.(server := if s.server.Idle? then Draining(s.sh.queue) else FinalDrain(s.sh.queue), sh := Swapped(s.sh))
  }

  function WithBatch(server: Server, batch: seq<Block>): Server {
    if server.Draining? then Draining(batch) else FinalDrain(batch)
  }

  function AfterSettle(s: State): State
    requires Batch(s) != []
  {
    var b := s.server.batch[0];
    var found := Matches(s.sh.pending, b.key, b);
    s.(server := WithBatch(s.server, s.server.batch[1..]),
       sh := s.sh.(pending := Settled(s.sh.pending, b.key, b)),
       h := s.h.(handled := s.h.handled + [b],
                 delivered := if found then s.h.delivered + [b] else s.h.delivered,
                 dropped := if found then s.h.dropped else s.h.dropped + [b],
                 sent := if found then s.h.sent[b := Rendered(b.kind, Of(s, b).result, true)] else s.h.sent))
  }

  function AfterCancel(s: State, key: Key): State {
    s.(sh := s.sh.(pending := Erased(s.sh.pending, key)),
       h := s.h.(cancelled := s.h.cancelled + if key in s.sh.pending then {s.sh.pending[key]} else {}))
  }

  function Apply(s: State, step: Step): State
    requires Enabled(s, step)
  {
    match step
    case SetServing => s.(server := Idle, sh := s.sh.(serving := true))
    case Begin(b) => AfterBegin(s, b)
    case SetResult(b, p) => AfterSetResult(s, b, p)
    case ExchangeFinished(b) => AfterExchangeFinished(s, b)
    case Lock(b) => AfterLock(s, b)
    case Push(b) => AfterPush(s, b)
    case ExchangeDeferred(good) => AfterExchangeDeferred(s, good)
    case Increment => AfterIncrement(s)
    case Register => AfterRegister(s)
    case Swap => AfterSwap(s)
    case Settle => AfterSettle(s)
    case EndDrain => s.(server := if s.server.Draining? then Idle else Drained)
    case Cancel(key) => AfterCancel(s, key)
    case Join => s.(server := Joined)
    case Close => s.(server := Waiting, sh := s.sh.(closed := true))
    case WaitSatisfied => s.(server := Resumed)
    case WaitTimeout => s.(server := Resumed, timedOut := true)
    case Clear => s.(server := Cleared, sh := s.sh.(pending := map[]))
    case Delete => s.(server := Deleted)
  }

  /** The run's steps are enabled one after the other, starting from s. */
  ghost predicate CanRun(s: State, steps: seq<Step>)
    decreases |steps|
  {
    steps == [] || (Enabled(s, steps[0]) && CanRun(Apply(s, steps[0]), steps[1..]))
  }

  ghost function Run(s: State, steps: seq<Step>): State
    requires CanRun(s, steps)
    decreases |steps|
  {
    if steps == [] then s else Run(Apply(s, steps[0]), steps[1..])
  }

  /** Running two sequences of steps one after the other is running their concatenation. */
  lemma {:induction false} RunsCompose(s: State, first: seq<Step>, second: seq<Step>)
    ensures CanRun(s, first + second) <==> CanRun(s, first) && CanRun(Run(s, first), second)
    ensures CanRun(s, first + second) ==> Run(s, first + second) == Run(Run(s, first), second)
    decreases |first|
  {
    if first == [] {
      assert first + second == second;
    } else {
      assert (first + second)[1..] == first[1..] + second;
      if Enabled(s, first[0]) {
        RunsCompose(Apply(s, first[0]), first[1..], second);
      }
    }
  }

  lemma RunOne(s: State, step: Step)
    requires Enabled(s, step)
    ensures CanRun(s, [step]) && Run(s, [step]) == Apply(s, step)
  {
    assert [step][1..] == [];
  }

  /** An enabled first step and a run after it. */
  lemma RunPrepends(s: State, step: Step, rest: seq<Step>)
    requires Enabled(s, step) && CanRun(Apply(s, step), rest)
    ensures CanRun(s, [step] + rest) && Run(s, [step] + rest) == Run(Apply(s, step), rest)
  {
    RunOne(s, step);
    RunsCompose(s, [step], rest);
  }

  ghost predicate Reachable(s: State) {
    exists steps :: CanRun(Start(), steps) && Run(Start(), steps) == s
  }
}
