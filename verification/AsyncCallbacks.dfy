/** Completion handles, the server callbacks that start an operation, and the stop sequence of the server. */
module AsyncCallbacks {
  import opened Common
  import opened VariantValues
  import opened AsyncResults
  import opened Registry
  import opened AsyncLayer
  import P = Protocol

  /** AsyncReadHandle and AsyncWriteHandle: the move-only owner of the right to complete one block. */
  class Handle {
    var block: AsyncBlock?

    constructor (block: AsyncBlock)
      ensures this.block == block
    {
      this.block := block;
    }

    constructor MoveFrom(other: Handle)
      modifies other
      ensures block == old(other.block) && other.block == null
    {
      block := other.block;
      new;
      other.block := null;
    }

    method Complete(operations: AsyncOperations, p: Payload)
      modifies this, operations`queue, operations`inflight, if block == null then {} else {block as object}
      ensures block == null
      ensures old(block) != null ==> old(block).phase == P.Finished && old(block).result == Some(p)
      ensures old(block) != null && old(block.phase) == P.Deferred ==>
        && operations.queue == old(operations.queue) + (if operations.closed then [] else [old(block)])
        && operations.inflight == Wrap32(old(operations.inflight) - 1)
      ensures old(block) == null || old(block.phase) != P.Deferred ==>
        operations.queue == old(operations.queue) && operations.inflight == old(operations.inflight)
    {
      if block == null {
        return;
      }
      var completed: AsyncBlock := block;
      block := null;
      completed.result := Some(p);
      var previous := completed.Exchange(P.Finished);
      if previous == P.Deferred {
        operations.Push(completed);
      }
    }

    /** The destructor: a handle that still holds its block completes it with BadInternalError. */
    method Destroy(operations: AsyncOperations, now: int)
      modifies this, operations`queue, operations`inflight, if block == null then {} else {block as object}
      ensures block == null
      ensures old(block) != null ==>
        old(block).phase == P.Finished && old(block).result == Some(Abandoned(old(block).kind, now))
      ensures old(block) != null && old(block.phase) == P.Deferred ==>
        && operations.queue == old(operations.queue) + (if operations.closed then [] else [old(block)])
        && operations.inflight == Wrap32(old(operations.inflight) - 1)
      ensures old(block) == null || old(block.phase) != P.Deferred ==>
        operations.queue == old(operations.queue) && operations.inflight == old(operations.inflight)
    {
      if block != null {
        Complete(operations, Abandoned(block.kind, now));
      }
    }
  }

  /** What a handle dropped uncompleted completes with. */
  function Abandoned(kind: Kind, now: int): Payload {
    if kind.Read? then ReadDone(DataValue(NULL_VARIANT, BadInternalError, true, now, true, now))
    else WriteDone(BadInternalError)
  }

  lemma AbandonedIsBad(kind: Kind, now: int)
    requires !kind.Call?
    ensures Fits(kind, Abandoned(kind, now))
    ensures match Rendered(kind, Some(Abandoned(kind, now)), false)
            case ReadTarget(v) => v == DataValue(NULL_VARIANT, BadInternalError, true, now, true, now)
            case WriteStatus(status) => status == BadInternalError
            case _ => false
  {
  }

  /** AsyncMethodBlock::finishCall; `owned` tells whether the block's weak pointer to itself still yields it. */
  method FinishCall(block: AsyncBlock, operations: AsyncOperations,
                    outputs: seq<Variant>, status: StatusCode, owned: bool)
    modifies block, operations`queue, operations`inflight
    ensures block.phase == P.Finished && block.result == Some(CallDone(outputs, status))
    ensures old(block.phase) == P.Deferred && owned ==>
      && operations.queue == old(operations.queue) + (if operations.closed then [] else [block])
      && operations.inflight == Wrap32(old(operations.inflight) - 1)
    ensures old(block.phase) != P.Deferred || !owned ==>
      operations.queue == old(operations.queue) && operations.inflight == old(operations.inflight)
  {
    block.result := Some(CallDone(outputs, status));
    var previous := block.Exchange(P.Finished);
    if previous == P.Deferred && owned {
      operations.Push(block);
    }
  }

  /**
   * unifiedRead, between the worker's possible completions: `early` is the completion that beginRead performs
   * before it returns, if any.
   */
  method UnifiedRead(operations: AsyncOperations?, handlesIo: bool, current: DataValue, target: Target,
                     early: Option<DataValue>)
    returns (status: StatusCode, started: Option<AsyncBlock>, handle: Handle?)
    modifies operations, target`value, target.outputs
    ensures started.Some? <==> handlesIo && operations != null && old(operations.serving && !operations.closed)
    ensures started.None? ==> status == Good && target.value == current
    ensures target.outputs[..] == old(target.outputs[..])
    ensures started.Some? ==> fresh(handle) && handle.block == if early.Some? then null else started.value
    ensures started.Some? ==>
      var block := started.value;
      && fresh(block) && block.target == target && block.kind.Read?
      && block.kind.placeholder.hasSource == old(target.value.hasSourceTimestamp)
      && block.kind.placeholder.hasServer == old(target.value.hasServerTimestamp)
      && block.kind.placeholder.source == old(target.value.sourceTimestamp)
      && block.kind.placeholder.server == old(target.value.serverTimestamp)
      && (early.Some? ==> status == Good && target.value == early.value)
      && (early.None? ==>
            && status == GoodCompletesAsynchronously && block.phase == P.Deferred && block.result == None
            && target.value == old(target.value))
    ensures operations != null ==>
      operations.View() ==
        if started.Some? && early.None? then Registered(Counted(old(operations.View())), target, started.value)
        else old(operations.View())
  {
    started, handle := None, null;
    if handlesIo && operations != null {
      var active := operations.DeferralActive();
      if active {
        var block := new AsyncBlock(target, Read(PlaceholderOf(target.value)));
        started := Some(block);
        handle := new Handle(block);
        if early.Some? {
          handle.Complete(operations, ReadDone(early.value));
        }
        var previous := block.Exchange(P.Deferred);
        if previous == P.Finished {
          block.FinishInline();
          return Good, started, handle;
        }
        operations.EstablishDeferral(block);
        return GoodCompletesAsynchronously, started, handle;
      }
    }
    target.value := current;
    status := Good;
  }

  /** unifiedWrite; `direct` is what setValue returns when the write is not deferred. */
  method UnifiedWrite(operations: AsyncOperations?, handlesIo: bool, target: Target?, hasContext: bool,
                      direct: StatusCode, early: Option<StatusCode>)
    returns (status: StatusCode, started: Option<AsyncBlock>, handle: Handle?)
    modifies operations
    ensures started.Some? <==>
      target != null && hasContext && handlesIo && operations != null && old(operations.serving && !operations.closed)
    ensures target == null || !hasContext ==> status == BadInternalError
    ensures started.Some? ==> fresh(handle) && handle.block == if early.Some? then null else started.value
    ensures target != null && hasContext && started.None? ==> status == direct
    ensures started.Some? ==>
      && fresh(started.value) && started.value.target == target && started.value.kind == Write
      && status == (if early.Some? then early.value else GoodCompletesAsynchronously)
      && (early.None? ==> started.value.phase == P.Deferred && started.value.result == None)
    ensures operations != null ==>
      operations.View() ==
        if started.Some? && early.None? then Registered(Counted(old(operations.View())), target, started.value)
        else old(operations.View())
  {
    started, handle := None, null;
    if target == null || !hasContext {
      return BadInternalError, None, null;
    }
    if handlesIo && operations != null {
      var active := operations.DeferralActive();
      if active {
        var block := new AsyncBlock(target, Write);
        started := Some(block);
        handle := new Handle(block);
        if early.Some? {
          handle.Complete(operations, WriteDone(early.value));
        }
        var previous := block.Exchange(P.Deferred);
        if previous == P.Finished {
          return block.result.value.status, started, handle;
        }
        operations.EstablishDeferral(block);
        return GoodCompletesAsynchronously, started, handle;
      }
    }
    status := direct;
  }

  /** How beginCall returns: its status, and the finishCall performed before it returned, if any. */
  datatype Beginning = Beginning(status: StatusCode, finished: Option<(seq<Variant>, StatusCode)>)

  datatype CallOutcome = OutOfService | Inline | BadBegin | DeferredCall(block: AsyncBlock)

  /** unifiedCall: refused after the close, finished inline, failed to begin without a trace, or deferred. */
  method UnifiedCall(operations: AsyncOperations?, target: Target, begin: Beginning)
    returns (status: StatusCode, outcome: CallOutcome)
    modifies operations, target.outputs
    ensures outcome.OutOfService? <==> operations == null || old(operations.closed)
    ensures outcome.OutOfService? ==> status == BadOutOfService
    ensures outcome.Inline? <==> operations != null && old(!operations.closed) && begin.finished.Some?
    ensures outcome.Inline? ==>
      && status == begin.finished.value.1
      && forall i :: 0 <= i < target.outputs.Length ==>
           target.outputs[i] ==
             if i < |begin.finished.value.0| then begin.finished.value.0[i] else old(target.outputs[i])
    ensures outcome.BadBegin? ==> begin.finished.None? && begin.status != Good && status == begin.status
    ensures outcome.DeferredCall? ==>
      && begin.finished.None? && begin.status == Good && status == GoodCompletesAsynchronously
      && fresh(outcome.block) && outcome.block.target == target && outcome.block.phase == P.Deferred
      && outcome.block.kind == Call(target.outputs.Length) && outcome.block.result == None
    ensures !outcome.Inline? ==> target.outputs[..] == old(target.outputs[..])
    ensures operations != null ==>
      operations.View() ==
        if outcome.DeferredCall? then Registered(Counted(old(operations.View())), target, outcome.block)
        else old(operations.View())
  {
    if operations == null {
      return BadOutOfService, OutOfService;
    }
    var closed := operations.IsClosed();
    if closed {
      return BadOutOfService, OutOfService;
    }
    var block := new AsyncBlock(target, Call(target.outputs.Length));
    if begin.finished.Some? {
      FinishCall(block, operations, begin.finished.value.0, begin.finished.value.1, true);
    }
    var previous := block.Exchange(P.Deferred);
    if previous == P.Finished {
      block.CopyOutputs();
      return block.result.value.callStatus, Inline;
    }
    if begin.status != Good {
      return begin.status, BadBegin;
    }
    operations.EstablishDeferral(block);
    return GoodCompletesAsynchronously, DeferredCall(block);
  }

  /** What stop does to AsyncOperations after the join: close and wait, a last drain, an empty registry. */
  method WindDown(operations: AsyncOperations, stack: Stack, late: seq<AsyncBlock>) returns (timedOut: bool)
    requires Apart(operations.queue)
    modifies stack, operations
    modifies set b | b in operations.queue :: b.target
    modifies set b | b in operations.queue :: b.target.outputs
    ensures operations.closed && operations.queue == [] && operations.pending == map[]
    ensures !timedOut ==> operations.inflight == 0
    ensures var finished := FinishedOf(old(operations.pending), old(operations.queue), TargetOf);
      Progress(old(operations.queue), finished, stack, old(stack.reported), old(MemoryOf(operations.queue)))
  {
    ghost var queue, told, before := operations.queue, stack.reported, MemoryOf(operations.queue);
    ghost var finished := FinishedOf(operations.pending, queue, TargetOf);
    timedOut := operations.Shutdown(late);
    assert MemoryOf(queue) == before;
    operations.Drain(stack);
    assert Progress(queue, finished, stack, told, before);
    operations.ClearRegistry();
  }

  datatype Started = Running | NoRunningFlag | NoServer | WrongNamespace | StartupFailed

  /** The fields of UaServer that start sets up and stop winds down. */
  class UaServer {
    var stack: Stack?
    var operations: AsyncOperations?

    /**
     * start: deferral is switched on before the server thread exists, and stays on when the startup of the stack fails.
     * `created` is what UA_Server_new returns, `nsIndex` the index that linkServer is given for its namespace, and
     * `startup` the verdict of UA_Server_run_startup.
     */
    method Start(hasFlag: bool, created: Stack?, nsIndex: int, startup: StatusCode) returns (outcome: Started)
      modifies this
      ensures outcome ==
        if !hasFlag then NoRunningFlag
        else if created == null then NoServer
        else if nsIndex != 2 then WrongNamespace
        else if startup != Good then StartupFailed
        else Running
      ensures stack == if outcome.NoRunningFlag? then old(stack) else created
      ensures outcome.NoRunningFlag? || outcome.NoServer? ==> operations == old(operations)
      ensures outcome.Running? || outcome.StartupFailed? || outcome.WrongNamespace? ==>
        && operations != null && fresh(operations)
        && operations.View() == Fresh().(serving := !outcome.WrongNamespace?)
    {
      if !hasFlag {
        return NoRunningFlag;
      }
      stack := created;
      if stack == null {
        return NoServer;
      }
      operations := new AsyncOperations();
      if nsIndex != 2 {
        return WrongNamespace;
      }
      operations.SetServing();
      outcome := if startup == Good then Running else StartupFailed;
    }

    /** A server that was never started has no AsyncOperations. */
    method Stop(late: seq<AsyncBlock>) returns (timedOut: bool)
      requires operations != null ==> stack != null && Apart(operations.queue)
      modifies this, stack, operations
      modifies if operations == null then {} else set b | b in operations.queue :: b.target
      modifies if operations == null then {} else set b | b in operations.queue :: b.target.outputs
      ensures stack == null && operations == null
      ensures old(operations) != null ==>
        var ops, queue := old(operations), old(operations.queue);
        && ops.closed && ops.queue == [] && ops.pending == map[] && (!timedOut ==> ops.inflight == 0)
        && var finished := FinishedOf(old(operations.pending), queue, TargetOf);
           Progress(queue, finished, old(stack), old(stack.reported), old(MemoryOf(operations.queue)))
    {
      timedOut := false;
      if operations != null {
        timedOut := WindDown(operations, stack, late);
      }
      stack := null;
      operations := null;
    }
  }
}
