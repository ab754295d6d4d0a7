/** A deferred operation from its callback through its completion to the drain that finishes it, in plain terms. */
module Lifecycles {
  import opened Common
  import opened VariantValues
  import opened AsyncResults
  import opened Registry
  import opened AsyncLayer
  import opened AsyncCallbacks
  import P = Protocol

  /** A registered block of a batch is finished once, and nothing else is finished at its target. */
  lemma FinishedOnce(pending: map<Target, AsyncBlock>, batch: seq<AsyncBlock>, block: AsyncBlock) returns (i: nat)
    requires block in batch && Matches(pending, block.target, block)
    ensures block.target !in SettledAll(pending, batch, TargetOf)
    ensures var finished := FinishedOf(pending, batch, TargetOf);
      && i < |finished| && finished[i] == block
      && forall j :: 0 <= j < |finished| && j != i ==> finished[j].target != block.target
  {
    DrainIsExact(pending, batch, TargetOf);
    var finished := FinishedOf(pending, batch, TargetOf);
    assert block in finished;
    i :| 0 <= i < |finished| && finished[i] == block;
    forall j | 0 <= j < |finished| && j != i
      ensures finished[j].target != block.target
    {
      assert finished[j] in finished && Matches(pending, finished[j].target, finished[j]);
    }
  }

  /** The new reports tell of the target once, and that as given. */
  ghost predicate ToldOnce(now: seq<Report>, before: seq<Report>, report: Report) {
    && before <= now
    && exists i :: |before| <= i < |now| && now[i] == report &&
         forall j :: |before| <= j < |now| && j != i ==> now[j].target != report.target
  }

  lemma ToldInOrderIsToldOnce(now: seq<Report>, before: seq<Report>, finished: seq<AsyncBlock>, i: nat)
    requires Told(now, before, finished) && i < |finished|
    requires forall j :: 0 <= j < |finished| && j != i ==> finished[j].target != finished[i].target
    ensures finished[i].Tells(now[|before| + i]) && ToldOnce(now, before, now[|before| + i])
  {
    forall j | |before| <= j < |now| && j != |before| + i
      ensures now[j].target != now[|before| + i].target
    {
      assert finished[j - |before|].Tells(now[|before| + (j - |before|)]);
    }
  }

  /** A drain, seen from one registered block of its batch. */
  method DrainOne(operations: AsyncOperations, stack: Stack, block: AsyncBlock)
    requires Apart(operations.queue) && block in operations.queue && Matches(operations.pending, block.target, block)
    modifies operations`queue, operations`pending, stack
    modifies set b | b in operations.queue :: b.target
    modifies set b | b in operations.queue :: b.target.outputs
    ensures operations.queue == [] && block.target !in operations.pending
    ensures block.Shows(Rendered(block.kind, block.result, true)) && block.FillsOnly(old(block.target.Contents()))
    ensures exists report :: block.Tells(report) && ToldOnce(stack.reported, old(stack.reported), report)
  {
    ghost var pending, batch, told := operations.pending, operations.queue, stack.reported;
    ghost var before := MemoryOf(batch);
    ghost var finished := FinishedOf(pending, batch, TargetOf);
    ghost var i := FinishedOnce(pending, batch, block);
    operations.Drain(stack);
    assert block in finished && Accounted(block, finished, before);
    ToldInOrderIsToldOnce(stack.reported, told, finished, i);
  }

  /** The target is free: no registered operation has it, and it shares its outputs with no queued one. */
  ghost predicate Free(operations: AsyncOperations, target: Target)
    reads operations, operations.queue
  {
    && Apart(operations.queue) && target !in operations.pending
    && forall b :: b in operations.queue && b.target != target ==> b.target.outputs != target.outputs
  }

  /** The block has been registered at its free target, completed with the result and pushed. */
  twostate predicate Enqueued(operations: AsyncOperations, target: Target, new block: AsyncBlock,
                              kind: Kind, p: Payload)
    reads operations, block, operations.queue, target, target.outputs
  {
    && block.target == target && block.kind == kind && block.result == Some(p)
    && operations.queue == old(operations.queue) + [block] && Apart(operations.queue)
    && Matches(operations.pending, target, block)
    && operations.inflight == old(operations.inflight)
    && target.Contents() == old(target.Contents())
  }

  method ReadPushed(operations: AsyncOperations, target: Target, current: DataValue, v: DataValue)
    returns (block: AsyncBlock)
    requires operations.serving && !operations.closed && Free(operations, target)
    modifies operations, target`value, target.outputs
    ensures fresh(block) && Enqueued(operations, target, block, Read(PlaceholderOf(old(target.value))), ReadDone(v))
  {
    WrapStep(operations.inflight + 1, -1);
    var _, started, handle := UnifiedRead(operations, true, current, target, None);
    block := started.value;
    handle.Complete(operations, ReadDone(v));
  }

  method WritePushed(operations: AsyncOperations, target: Target, direct: StatusCode, s: StatusCode)
    returns (block: AsyncBlock)
    requires operations.serving && !operations.closed && Free(operations, target)
    modifies operations
    ensures fresh(block) && Enqueued(operations, target, block, Write, WriteDone(s))
  {
    WrapStep(operations.inflight + 1, -1);
    var _, started, handle := UnifiedWrite(operations, true, target, true, direct, None);
    block := started.value;
    handle.Complete(operations, WriteDone(s));
  }

  method CallPushed(operations: AsyncOperations, target: Target, given: seq<Variant>, s: StatusCode)
    returns (block: AsyncBlock)
    requires !operations.closed && Free(operations, target)
    modifies operations, target.outputs
    ensures fresh(block) && Enqueued(operations, target, block, Call(target.outputs.Length), CallDone(given, s))
  {
    WrapStep(operations.inflight + 1, -1);
    var _, outcome := UnifiedCall(operations, target, Beginning(Good, None));
    block := outcome.block;
    FinishCall(block, operations, given, s, true);
  }

  /**
   * A deferred read: after complete and a drain the target shows the worker's value and status, with exactly the
   * timestamps it had room for when the read began, the worker's or else its own; the stack is told once; and
   * AsyncOperations is as before. The queue may hold completions of cancelled operations at the same target.
   */
  method ReadCompletedLate(operations: AsyncOperations, stack: Stack, target: Target, current: DataValue, v: DataValue)
    requires operations.serving && !operations.closed && Free(operations, target)
    modifies operations, stack, target, target.outputs
    modifies set b | b in operations.queue :: b.target
    modifies set b | b in operations.queue :: b.target.outputs
    ensures var was, t := old(target.value), target.value;
      && t.value == v.value && t.status == v.status
      && t.hasSourceTimestamp == was.hasSourceTimestamp && t.hasServerTimestamp == was.hasServerTimestamp
      && (was.hasSourceTimestamp ==>
            t.sourceTimestamp == if v.hasSourceTimestamp then v.sourceTimestamp else was.sourceTimestamp)
      && (was.hasServerTimestamp ==>
            t.serverTimestamp == if v.hasServerTimestamp then v.serverTimestamp else was.serverTimestamp)
    ensures ToldOnce(stack.reported, old(stack.reported), ReadReport(target))
    ensures operations.queue == [] && target !in operations.pending && operations.inflight == old(operations.inflight)
  {
    var block := ReadPushed(operations, target, current, v);
    DrainOne(operations, stack, block);
    PolicingTouchesOnlyStamps(v, block.kind.placeholder);
  }

  /** A deferred write: after complete and a drain the stack is told the worker's status, once. */
  method WriteCompletedLate(operations: AsyncOperations, stack: Stack, target: Target,
                            direct: StatusCode, s: StatusCode)
    requires operations.serving && !operations.closed && Free(operations, target)
    modifies operations, stack, target, target.outputs
    modifies set b | b in operations.queue :: b.target
    modifies set b | b in operations.queue :: b.target.outputs
    ensures ToldOnce(stack.reported, old(stack.reported), StatusReport(target, s))
    ensures target.Contents() == old(target.Contents())
    ensures operations.queue == [] && target !in operations.pending && operations.inflight == old(operations.inflight)
  {
    var block := WritePushed(operations, target, direct, s);
    DrainOne(operations, stack, block);
  }

  /** A deferred call: the outputs that fit are written, the other slots kept, and the stack is told the status once. */
  method CallCompletedLate(operations: AsyncOperations, stack: Stack, target: Target,
                           given: seq<Variant>, s: StatusCode)
    requires !operations.closed && Free(operations, target)
    modifies operations, stack, target, target.outputs
    modifies set b | b in operations.queue :: b.target
    modifies set b | b in operations.queue :: b.target.outputs
    ensures forall i :: 0 <= i < target.outputs.Length ==>
      target.outputs[i] == if i < |given| then given[i] else old(target.outputs[i])
    ensures target.value == old(target.value)
    ensures ToldOnce(stack.reported, old(stack.reported), StatusReport(target, s))
    ensures operations.queue == [] && target !in operations.pending && operations.inflight == old(operations.inflight)
  {
    var block := CallPushed(operations, target, given, s);
    DrainOne(operations, stack, block);
  }
}
