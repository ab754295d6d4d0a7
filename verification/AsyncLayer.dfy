/** The deferred-operation layer in its own form: blocks, handles and AsyncOperations as objects updated in place. */
module AsyncLayer {
  import opened Common
  import opened VariantValues
  import opened AsyncResults
  import opened Registry
  import P = Protocol

  /** What a target holds. */
  datatype Memory = Memory(value: DataValue, outputs: seq<Variant>)

  /** The memory the stack lends to one operation: its address is the operation's key. */
  class Target {
    var value: DataValue
    const outputs: array<Variant>

    constructor (value: DataValue, outputs: array<Variant>)
      ensures this.value == value && this.outputs == outputs
    {
      this.value := value;
      this.outputs := outputs;
    }

    function Contents(): Memory
      reads this, outputs
    {
      Memory(value, outputs[..])
    }
  }

  /** A UA_Server_setAsync...Result call; reads carry their result in the target itself. */
  datatype Report = ReadReport(target: Target) | StatusReport(target: Target, status: StatusCode)

  class Stack {
    var reported: seq<Report>

    constructor ()
      ensures reported == []
    {
      reported := [];
    }

    method SetAsyncResult(report: Report)
      modifies this
      ensures reported == old(reported) + [report]
    {
      reported := reported + [report];
    }
  }

  class AsyncBlock {
    const target: Target
    const kind: Kind
    var phase: P.Phase
    var result: Option<Payload>

    constructor (target: Target, kind: Kind)
      ensures this.target == target && this.kind == kind && phase == P.Initial && result == None
    {
      this.target := target;
      this.kind := kind;
      phase := P.Initial;
      result := None;
    }

    /** A method block's size is that of the output array it points to. */
    predicate WellFormed() {
      kind.Call? ==> kind.outputSize == target.outputs.Length
    }

    /** The delivery is what the target holds. */
    ghost predicate Shows(d: Delivery)
      reads target, target.outputs
    {
      match d
      case ReadTarget(v) => target.value == v
      case CallOutputs(written, _) => |written| <= target.outputs.Length && target.outputs[..|written|] == written
      case _ => true
    }

    /** Beside what the block delivers, its target holds what it held before. */
    ghost predicate FillsOnly(before: Memory)
      reads this, target, target.outputs
    {
      && (!kind.Read? ==> target.value == before.value)
      && |before.outputs| == target.outputs.Length
      && forall i :: (if kind.Call? then |Rendered(kind, result, true).written| else 0) <= i < target.outputs.Length ==>
           target.outputs[i] == before.outputs[i]
    }

    method Exchange(next: P.Phase) returns (previous: P.Phase)
      modifies this`phase
      ensures previous == old(phase) && phase == next
    {
      previous := phase;
      phase := next;
    }

    method FillTarget(police: bool)
      requires kind.Read?
      modifies target`value
      ensures result.Some? && result.value.ReadDone? ==>
          target.value == Filled(result.value.value, kind.placeholder, police)
      ensures !(result.Some? && result.value.ReadDone?) ==> target.value == old(target.value)
    {
      if result.None? || !result.value.ReadDone? {
        return;
      }
      var ph := kind.placeholder;
      target.value := result.value.value;
      if !police {
        return;
      }
      if !ph.hasSource {
        target.value := target.value.(hasSourceTimestamp := false, sourceTimestamp := 0);
      } else if !target.value.hasSourceTimestamp {
        target.value := target.value.(hasSourceTimestamp := true, sourceTimestamp := ph.source);
      }
      if !ph.hasServer {
        target.value := target.value.(hasServerTimestamp := false, serverTimestamp := 0);
      } else if !target.value.hasServerTimestamp {
        target.value := target.value.(hasServerTimestamp := true, serverTimestamp := ph.server);
      }
    }

    method CopyOutputs()
      requires WellFormed() && kind.Call?
      modifies target.outputs
      ensures var given := if result.Some? && result.value.CallDone? then result.value.outputs else [];
        forall i :: 0 <= i < target.outputs.Length ==>
          target.outputs[i] == if i < Min(|given|, kind.outputSize) then given[i] else old(target.outputs[i])
    {
      var given := if result.Some? && result.value.CallDone? then result.value.outputs else [];
      var n := Min(|given|, kind.outputSize);
      for i := 0 to n
        invariant forall j :: 0 <= j < i ==> target.outputs[j] == given[j]
        invariant forall j :: i <= j < target.outputs.Length ==> target.outputs[j] == old(target.outputs[j])
      {
        target.outputs[i] := given[i];
      }
    }

    /** Fills what the kind of block fills: the value of a read, the outputs of a call, nothing for a write. */
    method Fill(police: bool)
      requires WellFormed()
      modifies target`value, target.outputs
      ensures Shows(Rendered(kind, result, police))
      ensures FillsOnly(old(target.Contents()))
    {
      match kind
      case Read(_) => FillTarget(police);
      case Write =>
      case Call(_) => CopyOutputs();
    }

    method FinishInline()
      requires WellFormed()
      modifies target`value, target.outputs
      ensures Shows(Rendered(kind, result, false)) && FillsOnly(old(target.Contents()))
      ensures kind.Read? && result.Some? && result.value.ReadDone? ==> target.value == result.value.value
      ensures kind.Call? && result.Some? && result.value.CallDone? ==>
        forall i :: 0 <= i < target.outputs.Length ==>
          target.outputs[i] ==
            if i < |result.value.outputs| then result.value.outputs[i] else old(target.outputs[i])
    {
      Fill(false);
    }

    /** finishDeferred of all three kinds: a write's and a call's status go to the stack beside the target. */
    method FinishDeferred(stack: Stack)
      requires WellFormed()
      modifies target`value, target.outputs, stack
      ensures Shows(Rendered(kind, result, true)) && FillsOnly(old(target.Contents()))
      ensures |stack.reported| == |old(stack.reported)| + 1 && old(stack.reported) <= stack.reported
      ensures Tells(stack.reported[|old(stack.reported)|])
      ensures kind.Read? ==> stack.reported == old(stack.reported) + [ReadReport(target)]
      ensures kind.Read? && result.Some? && result.value.ReadDone? ==>
        var v, ph, t := result.value.value, kind.placeholder, target.value;
        && t.value == v.value && t.status == v.status
        && t.hasSourceTimestamp == ph.hasSource && t.hasServerTimestamp == ph.hasServer
        && (ph.hasSource ==> t.sourceTimestamp == if v.hasSourceTimestamp then v.sourceTimestamp else ph.source)
        && (ph.hasServer ==> t.serverTimestamp == if v.hasServerTimestamp then v.serverTimestamp else ph.server)
      ensures kind.Write? && result.Some? && result.value.WriteDone? ==>
        stack.reported == old(stack.reported) + [StatusReport(target, result.value.status)]
      ensures kind.Call? && result.Some? && result.value.CallDone? ==>
        && stack.reported == old(stack.reported) + [StatusReport(target, result.value.callStatus)]
        && forall i :: 0 <= i < target.outputs.Length ==>
             target.outputs[i] ==
               if i < |result.value.outputs| then result.value.outputs[i] else old(target.outputs[i])
    {
      Fill(true);
      match kind
      case Read(_) =>
        stack.SetAsyncResult(ReadReport(target));
      case Write =>
        var status := if result.Some? && result.value.WriteDone? then result.value.status else BadInternalError;
        stack.SetAsyncResult(StatusReport(target, status));
      case Call(_) =>
        var status := if result.Some? && result.value.CallDone? then result.value.callStatus else BadInternalError;
        stack.SetAsyncResult(StatusReport(target, status));
    }

    /** The report is the one for this block: a read has no status of its own, the others tell that of the result. */
    predicate Tells(report: Report)
      reads this
    {
      match kind
      case Read(_) => report == ReadReport(target)
      case Write =>
        report == StatusReport(target,
          if result.Some? && result.value.WriteDone? then result.value.status else BadInternalError)
      case Call(_) =>
        report == StatusReport(target,
          if result.Some? && result.value.CallDone? then result.value.callStatus else BadInternalError)
    }
  }

  function TargetOf(b: AsyncBlock): Target {
    b.target
  }

  /** Different targets lie in different memory. */
  ghost predicate Apart(blocks: seq<AsyncBlock>) {
    && (forall b :: b in blocks ==> b.WellFormed())
    && (forall b, c :: b in blocks && c in blocks && b.target != c.target ==> b.target.outputs != c.target.outputs)
  }

  /** What the targets of a batch hold. */
  ghost function MemoryOf(batch: seq<AsyncBlock>): (m: map<Target, Memory>)
    reads batch, (set b | b in batch :: b.target), (set b | b in batch :: b.target.outputs)
    ensures forall b :: b in batch ==> b.target in m && m[b.target] == b.target.Contents()
  {
    map t | t in (set b | b in batch :: b.target) :: t.Contents()
  }

  function TargetsOf(blocks: seq<AsyncBlock>): set<Target> {
    set b | b in blocks :: b.target
  }

  /**
   * One block of a batch of which some are finished: its target holds its own result and no more than that if it is one
   * of them, and all it held before if it shares its target with none of them.
   */
  ghost predicate Accounted(b: AsyncBlock, finished: seq<AsyncBlock>, before: map<Target, Memory>)
    reads b, b.target, b.target.outputs
  {
    && b.target in before
    && (b in finished ==> b.Shows(Rendered(b.kind, b.result, true)) && b.FillsOnly(before[b.target]))
    && (b.target !in TargetsOf(finished) ==> b.target.Contents() == before[b.target])
  }

  /** Where a drain stands that has finished some blocks of its batch so far. */
  ghost predicate Progress(batch: seq<AsyncBlock>, finished: seq<AsyncBlock>, stack: Stack,
                           told: seq<Report>, before: map<Target, Memory>)
    reads stack, batch, finished, (set b | b in batch :: b.target), (set b | b in batch :: b.target.outputs)
  {
    && (forall b :: b in finished ==> b in batch)
    && (forall b :: b in batch ==> Accounted(b, finished, before))
    && Told(stack.reported, told, finished)
  }

  lemma OneTargetMore(finished: seq<AsyncBlock>, block: AsyncBlock)
    ensures TargetsOf(finished + [block]) == TargetsOf(finished) + {block.target}
  {
  }

  /** Finishing one more block of a batch, at a target of its own. */
  method FinishNext(block: AsyncBlock, stack: Stack, ghost batch: seq<AsyncBlock>, ghost finished: seq<AsyncBlock>,
                    ghost told: seq<Report>, ghost before: map<Target, Memory>)
    requires Apart(batch) && block in batch && block.target !in TargetsOf(finished)
    requires Progress(batch, finished, stack, told, before)
    modifies stack, block.target`value, block.target.outputs
    ensures Progress(batch, finished + [block], stack, told, before)
  {
    assert Accounted(block, finished, before);
    block.FinishDeferred(stack);
    OneTargetMore(finished, block);
    assert Told(stack.reported, told, finished + [block]);
    forall b | b in batch
      ensures Accounted(b, finished + [block], before)
    {
      if b.target != block.target {
        assert b.target.outputs != block.target.outputs;
        assert old(Accounted(b, finished, before));
      }
    }
  }

  /** The stack was told of these blocks, in this order, after what it had been told before. */
  ghost predicate Told(now: seq<Report>, before: seq<Report>, blocks: seq<AsyncBlock>)
    reads blocks
  {
    && |now| == |before| + |blocks| && before <= now
    && forall i :: 0 <= i < |blocks| ==> blocks[i].Tells(now[|before| + i])
  }

  class AsyncOperations {
    var pending: map<Target, AsyncBlock>
    var queue: seq<AsyncBlock>
    var serving: bool
    var closed: bool
    var inflight: UInt32

    function View(): Shared<Target, AsyncBlock>
      reads this
    {
      Shared(pending, queue, serving, closed, inflight)
    }

    constructor ()
      ensures View() == Fresh()
    {
      pending, queue, serving, closed, inflight := map[], [], false, false, 0;
    }

    method DeferralActive() returns (active: bool)
      ensures active <==> serving && !closed
    {
      active := serving && !closed;
    }

    method IsClosed() returns (r: bool)
      ensures r <==> closed
    {
      r := closed;
    }

    method SetServing()
      modifies this`serving
      ensures View() == old(View()).(serving := true)
    {
      serving := true;
    }

    method EstablishDeferral(block: AsyncBlock)
      modifies this`pending, this`inflight
      ensures View() == Registered(Counted(old(View())), block.target, block)
      ensures pending == old(pending)[block.target := block]
      ensures inflight == if old(inflight) == TWO_TO_THE_32 - 1 then 0 else old(inflight) + 1
    {
      inflight := Wrap32(inflight + 1);
      pending := pending[block.target := block];
    }

    method Push(block: AsyncBlock)
      modifies this`queue, this`inflight
      ensures View() == Pushed(old(View()), block)
      ensures queue == if closed then old(queue) else old(queue) + [block]
      ensures inflight == if old(inflight) == 0 then TWO_TO_THE_32 - 1 else old(inflight) - 1
    {
      if !closed {
        queue := queue + [block];
      }
      inflight := Wrap32(inflight - 1);
    }

    method Cancel(key: Target)
      modifies this`pending
      ensures View() == old(View()).(pending := Erased(old(pending), key))
      ensures pending == old(pending) - {key}
    {
      pending := Erased(pending, key);
    }

    /** The body of drain's loop, for a block of a batch some of whose blocks are finished already. */
    method Settle(block: AsyncBlock, stack: Stack, ghost batch: seq<AsyncBlock>, ghost finished: seq<AsyncBlock>,
                  ghost told: seq<Report>, ghost before: map<Target, Memory>)
      returns (found: bool, ghost done: seq<AsyncBlock>)
      requires Apart(batch) && block in batch && Progress(batch, finished, stack, told, before)
      requires TargetsOf(finished) !! pending.Keys
      modifies this`pending, stack, block.target`value, block.target.outputs
      ensures found == Matches(old(pending), block.target, block)
      ensures pending == Settled(old(pending), block.target, block)
      ensures !found ==>
        block.target.Contents() == old(block.target.Contents()) && stack.reported == old(stack.reported)
      ensures done == finished + if found then [block] else []
      ensures Progress(batch, done, stack, told, before) && TargetsOf(done) !! pending.Keys
    {
      found := Matches(pending, block.target, block);
      done := finished;
      if found {
        FinishNext(block, stack, batch, finished, told, before);
        pending := Erased(pending, block.target);
        done := finished + [block];
        OneTargetMore(finished, block);
      }
    }

    /** Drain's loop. */
    method SettleBatch(batch: seq<AsyncBlock>, stack: Stack)
      requires Apart(batch)
      modifies this`pending, stack, (set b | b in batch :: b.target), (set b | b in batch :: b.target.outputs)
      ensures pending == SettledAll(old(pending), batch, TargetOf)
      ensures var finished := FinishedOf(old(pending), batch, TargetOf);
        Progress(batch, finished, stack, old(stack.reported), old(MemoryOf(batch)))
    {
      ghost var pending0, told, before := pending, stack.reported, MemoryOf(batch);
      ghost var finished: seq<AsyncBlock> := [];
      for i := 0 to |batch|
        invariant pending == SettledAll(pending0, batch[..i], TargetOf)
        invariant finished == FinishedOf(pending0, batch[..i], TargetOf)
        invariant TargetsOf(finished) !! pending.Keys
        invariant Progress(batch, finished, stack, told, before)
      {
        DrainExtends(pending0, batch, i);
        var _, done := Settle(batch[i], stack, batch, finished, told, before);
        finished := done;
      }
      assert batch[..|batch|] == batch;
    }

    method Drain(stack: Stack)
      requires Apart(queue)
      modifies this`queue, this`pending, stack
      modifies (set b | b in queue :: b.target), (set b | b in queue :: b.target.outputs)
      ensures View() == Swapped(old(View())).(pending := SettledAll(old(pending), old(queue), TargetOf))
      ensures var finished := FinishedOf(old(pending), old(queue), TargetOf);
        Progress(old(queue), finished, stack, old(stack.reported), old(MemoryOf(queue)))
      ensures forall b :: b in old(queue) && old(b.target !in pending || pending[b.target] !in queue) ==>
        b.target.value == old(b.target.value) && b.target.outputs[..] == old(b.target.outputs[..])
    {
      var batch := queue;
      ghost var before := MemoryOf(batch);
      OnlyRegisteredTargets(pending, batch);
      queue := [];
      assert MemoryOf(batch) == before;
      SettleBatch(batch, stack);
    }

    /**
     * The close and the wait. What other threads do while the mutex is released is their pushes: `late` lists the
     * blocks pushed before the wait ends or times out.
     */
    method Shutdown(late: seq<AsyncBlock>) returns (timedOut: bool)
      modifies this`closed, this`queue, this`inflight
      ensures closed && queue == old(queue) && pending == old(pending) && serving == old(serving)
      ensures !timedOut ==> inflight == 0
      ensures timedOut ==> inflight == Wrap32(old(inflight) - |late|)
    {
      closed := true;
      var i := 0;
      ghost var start := inflight as int;
      while inflight != 0 && i < |late|
        invariant 0 <= i <= |late| && closed
        invariant queue == old(queue) && pending == old(pending) && serving == old(serving)
        invariant inflight == Wrap32(start - i)
      {
        WrapStep(start - i, -1);
        Push(late[i]);
        i := i + 1;
      }
      timedOut := inflight != 0;
    }

    method ClearRegistry()
      modifies this`pending
      ensures View() == old(View()).(pending := map[])
    {
      pending := map[];
    }
  }

  /** Only targets whose registered operation is in the batch are finished. */
  lemma OnlyRegisteredTargets(pending: map<Target, AsyncBlock>, batch: seq<AsyncBlock>)
    ensures forall t :: t in TargetsOf(FinishedOf(pending, batch, TargetOf)) ==> t in pending && pending[t] in batch
  {
    DrainIsExact(pending, batch, TargetOf);
  }

  lemma DrainExtends(pending: map<Target, AsyncBlock>, batch: seq<AsyncBlock>, i: nat)
    requires i < |batch|
    ensures var b, now := batch[i], SettledAll(pending, batch[..i], TargetOf);
      && SettledAll(pending, batch[..i+1], TargetOf) == Settled(now, b.target, b)
      && FinishedOf(pending, batch[..i+1], TargetOf)
         == FinishedOf(pending, batch[..i], TargetOf) + if Matches(now, b.target, b) then [b] else []
  {
    assert batch[..i+1][..i] == batch[..i];
  }
}
