/**
 * The protocol with its completion handles. Here the code's own test, that the handle still holds a block, decides
 * who completes a read or write; what the protocol assumes of those workers is then proved of every run.
 */
module HandleProtocol {
  import opened Common
  import opened AsyncResults
  import opened Registry
  import opened Protocol
  import opened ProtocolInvariant
  import opened ProtocolTheorems
  import opened AsyncCallbacks
  import H = HandleRuns

  /**
   * The protocol, its handles, and for every handle the block it completed last: complete has returned, and the
   * destructor as well, only when that block's worker is done with it.
   */
  datatype System = System(s: State, w: H.World, last: map<H.HandleId, Block>)

  /**
   * An operation on a handle by whichever thread owns it, the beginning of the destructor of a handle that holds a
   * block, or any other step of the protocol. Destroy is the end of a destructor: the handle is gone after it.
   */
  datatype Event = OnHandle(op: H.Op) | Dropping(h: H.HandleId, now: int) | Other(step: Step)

  /** The step is one that reads and writes take through their handles only. */
  predicate ThroughHandle(step: Step) {
    (step.Begin? || step.SetResult?) && !step.b.kind.Call?
  }

  /** No call of complete on the handle is under way. */
  predicate AtRest(sys: System, h: H.HandleId) {
    h in sys.last ==> Of(sys.s, sys.last[h]).worker.Released?
  }

  /** A handle's operations have no condition but a live handle that is at rest, and a result of its type. */
  ghost predicate PossibleOp(sys: System, op: H.Op) {
    && H.Allowed(sys.w, op)
    && match op
       case Create(_, b) => Enabled(sys.s, Begin(b))
       case Move(from, _) => AtRest(sys, from)
       case Complete(h, p) => AtRest(sys, h) && (sys.w.holds[h].Some? ==> Fits(sys.w.holds[h].value.kind, p))
       case Destroy(h, _) => AtRest(sys, h) && sys.w.holds[h] == None
  }

  ghost predicate Possible(sys: System, event: Event) {
    match event
    case OnHandle(op) => PossibleOp(sys, op)
    case Dropping(h, now) => h in sys.w.holds && sys.w.holds[h].Some? && AtRest(sys, h)
    case Other(step) => !ThroughHandle(step) && Enabled(sys.s, step)
  }

  /** The result that the operation sets, if it completes a block. */
  function Completion(w: H.World, op: H.Op): Option<(Block, Payload)>
    requires H.Allowed(w, op)
  {
    if op.Complete? && w.holds[op.h].Some? then Some((w.holds[op.h].value, op.p)) else None
  }

  /** What an operation on a handle does to the protocol: moves and operations on an empty handle do nothing. */
  function StateAfter(s: State, w: H.World, op: H.Op): State
    requires H.Allowed(w, op)
  {
    if op.Create? then AfterBegin(s, op.b)
    else
      match Completion(w, op)
      case Some((b, p)) => AfterSetResult(s, b, p)
      case None => s
  }

  function LastAfter(sys: System, op: H.Op): map<H.HandleId, Block>
    requires H.Allowed(sys.w, op)
  {
    if op.Complete? && sys.w.holds[op.h].Some? then sys.last[op.h := sys.w.holds[op.h].value]
    else if op.Destroy? then sys.last - {op.h}
    else sys.last
  }

  function AfterOp(sys: System, op: H.Op): System
    requires H.Allowed(sys.w, op)
  {
    System(StateAfter(sys.s, sys.w, op), H.Do(sys.w, op), LastAfter(sys, op))
  }

  /** The destructor of a handle that holds a block calls complete on it. */
  function DroppingOp(w: H.World, h: H.HandleId, now: int): H.Op
    requires h in w.holds && w.holds[h].Some?
  {
    H.Complete(h, Abandoned(w.holds[h].value.kind, now))
  }

  function Next(sys: System, event: Event): System
    requires Possible(sys, event)
  {
    match event
    case OnHandle(op) => AfterOp(sys, op)
    case Dropping(h, now) => AfterOp(sys, DroppingOp(sys.w, h, now))
    case Other(step) => sys.(s := Apply(sys.s, step))
  }

  ghost predicate CanHappen(sys: System, events: seq<Event>)
    decreases |events|
  {
    events == [] || (Possible(sys, events[0]) && CanHappen(Next(sys, events[0]), events[1..]))
  }

  ghost function AfterEvents(sys: System, events: seq<Event>): System
    requires CanHappen(sys, events)
    decreases |events|
  {
    if events == [] then sys else AfterEvents(Next(sys, events[0]), events[1..])
  }

  const AT_START := System(Start(), H.NO_HANDLES, map[])

  // ---------------------------------------------------------------- handles and waiting blocks

  /** Every read or write waits for its result exactly while a handle holds it. */
  ghost predicate Linked(sys: System) {
    && H.Linear(sys.w)
    && (forall b :: b in sys.w.created <==> b in sys.s.blocks && !b.kind.Call?)
    && forall b :: b in sys.s.blocks && !b.kind.Call? ==>
         (sys.s.blocks[b].worker.Holding? <==> H.Held(sys.w.holds, b))
  }

  /** The result of every read or write is the one completion made through its handles, if any was made. */
  ghost predicate Logged(sys: System) {
    forall b :: b in sys.s.blocks && !b.kind.Call? ==>
      H.CompletionsOf(sys.w.completions, b) == Logs(sys.s.blocks[b].result)
  }

  function Logs(result: Option<Payload>): seq<Payload> {
    match result case None => [] case Some(p) => [p]
  }

  /** The handle's own test is as good as the protocol's: every completion it lets through is an enabled step. */
  lemma HandleSuffices(sys: System, op: H.Op)
    requires Linked(sys) && PossibleOp(sys, op) && Completion(sys.w, op).Some?
    ensures var (b, p) := Completion(sys.w, op).value;
      Enabled(sys.s, SetResult(b, p)) && StateAfter(sys.s, sys.w, op) == Apply(sys.s, SetResult(b, p))
  {
    assert H.Held(sys.w.holds, Completion(sys.w, op).value.0);
  }

  /** Who holds what after an operation on a handle; a handle is empty when it goes. */
  lemma HeldAfterOp(w: H.World, op: H.Op, b: Block)
    requires H.Linear(w) && H.Allowed(w, op) && (op.Destroy? ==> w.holds[op.h] == None)
    ensures H.Held(H.Do(w, op).holds, b) <==>
        if op.Create? && op.b == b then true
        else H.Held(w.holds, b) && !(Completion(w, op).Some? && Completion(w, op).value.0 == b)
  {
    match op
    case Create(h, x) => H.HeldAfter(w.holds, h, Some(x));
    case Move(from, to) => H.HeldAfterMove(w, from, to, b);
    case Complete(h, _) => H.HeldAfter(w.holds, h, None);
    case Destroy(h, now) => H.HeldAfterDestroy(w, h, now, b);
  }

  lemma OpKeepsLinked(sys: System, op: H.Op)
    requires Linked(sys) && PossibleOp(sys, op)
    ensures Linked(AfterOp(sys, op))
  {
    H.OpKeepsLinear(sys.w, op);
    var sys' := AfterOp(sys, op);
    forall b | b in sys'.s.blocks && !b.kind.Call?
      ensures sys'.s.blocks[b].worker.Holding? <==> H.Held(sys'.w.holds, b)
    {
      HeldAfterOp(sys.w, op, b);
    }
  }

  /** Any other step leaves the blocks that are waited for as they are. */
  lemma OtherLeavesWaiting(s: State, step: Step, b: Block)
    requires CurrentOk(s) && Enabled(s, step) && !ThroughHandle(step) && !b.kind.Call?
    ensures b in s.blocks <==> b in Apply(s, step).blocks
    ensures b in s.blocks ==>
      && Apply(s, step).blocks[b].result == s.blocks[b].result
      && (Apply(s, step).blocks[b].worker.Holding? <==> s.blocks[b].worker.Holding?)
  {
  }

  lemma OtherKeepsLinked(sys: System, step: Step)
    requires Linked(sys) && CurrentOk(sys.s) && Possible(sys, Other(step))
    ensures Linked(Next(sys, Other(step)))
  {
    forall b: Block | !b.kind.Call?
      ensures b in sys.s.blocks <==> b in Apply(sys.s, step).blocks
      ensures b in sys.s.blocks ==>
        (Apply(sys.s, step).blocks[b].worker.Holding? <==> sys.s.blocks[b].worker.Holding?)
    {
      OtherLeavesWaiting(sys.s, step, b);
    }
  }

  lemma CreateKeepsLogged(sys: System, h: H.HandleId, b: Block)
    requires Linked(sys) && Logged(sys) && b !in sys.s.blocks && b !in sys.w.created
    ensures var w' := H.World(sys.w.holds[h := Some(b)], sys.w.created + {b}, sys.w.completions);
      Logged(sys.(s := AfterBegin(sys.s, b), w := w'))
  {
    assert H.CompletionsOf(sys.w.completions, b) == [];
  }

  lemma CompletionKeepsLogged(s: State, log: seq<(Block, Payload)>, b: Block, p: Payload, x: Block)
    requires x in s.blocks && b in s.blocks && s.blocks[b].result == None
    requires H.CompletionsOf(log, x) == Logs(s.blocks[x].result)
    ensures H.CompletionsOf(log + [(b, p)], x) == Logs(AfterSetResult(s, b, p).blocks[x].result)
  {
    H.CompletionAppends(log, b, p);
  }

  lemma OpKeepsLogged(sys: System, op: H.Op)
    requires Linked(sys) && Logged(sys) && ResultsOk(sys.s.blocks, sys.s.h.completed) && PossibleOp(sys, op)
    ensures Logged(AfterOp(sys, op))
  {
    if op.Create? {
      CreateKeepsLogged(sys, op.h, op.b);
    } else if Completion(sys.w, op).Some? {
      var (b, p) := Completion(sys.w, op).value;
      assert H.Held(sys.w.holds, b);
      assert ResultOk(b, sys.s.blocks[b], sys.s.h.completed);
      forall x | x in sys.s.blocks && !x.kind.Call?
        ensures H.CompletionsOf(sys.w.completions + [(b, p)], x) == Logs(AfterSetResult(sys.s, b, p).blocks[x].result)
      {
        CompletionKeepsLogged(sys.s, sys.w.completions, b, p, x);
      }
    }
  }

  lemma OtherKeepsLogged(sys: System, step: Step)
    requires Logged(sys) && CurrentOk(sys.s) && Possible(sys, Other(step))
    ensures Logged(Next(sys, Other(step)))
  {
    forall b | b in Apply(sys.s, step).blocks && !b.kind.Call?
      ensures H.CompletionsOf(sys.w.completions, b) == Logs(Apply(sys.s, step).blocks[b].result)
    {
      OtherLeavesWaiting(sys.s, step, b);
    }
  }

  /** Every read or write that is being completed is so by a handle that still exists. */
  ghost predicate Attended(sys: System) {
    && sys.last.Keys <= sys.w.holds.Keys
    && forall b :: b in sys.s.blocks && !b.kind.Call? && InProgress(sys.s.blocks[b].worker) ==> IsLast(sys.last, b)
  }

  /** The result is set, and the push not over. */
  predicate InProgress(worker: Worker) {
    !worker.Holding? && !worker.Released?
  }

  predicate IsLast(last: map<H.HandleId, Block>, b: Block) {
    b in last.Values
  }

  /** Only a block whose completion is over can lose its handle. */
  lemma LastMoves(last: map<H.HandleId, Block>, h: H.HandleId, b: Block, x: Block)
    requires IsLast(last, x) && (h in last ==> last[h] != x)
    ensures IsLast(last[h := b], x) && IsLast(last - {h}, x)
  {
    var g :| g in last && last[g] == x;
    assert last[h := b][g] == x && (last - {h})[g] == x;
  }

  lemma OpKeepsAttended(sys: System, op: H.Op)
    requires Attended(sys) && PossibleOp(sys, op)
    ensures Attended(AfterOp(sys, op))
  {
    var sys' := AfterOp(sys, op);
    forall x | x in sys'.s.blocks && !x.kind.Call? && InProgress(sys'.s.blocks[x].worker)
      ensures IsLast(sys'.last, x)
    {
      if Completion(sys.w, op).Some? {
        var b := Completion(sys.w, op).value.0;
        assert sys'.last[op.h] == b;
        if x != b {
          LastMoves(sys.last, op.h, b, x);
        }
      } else if op.Destroy? {
        LastMoves(sys.last, op.h, x, x);
      }
    }
  }

  lemma OtherKeepsAttended(sys: System, step: Step)
    requires Attended(sys) && CurrentOk(sys.s) && Possible(sys, Other(step))
    ensures Attended(Next(sys, Other(step)))
  {
    forall b | b in Apply(sys.s, step).blocks && !b.kind.Call? && InProgress(Apply(sys.s, step).blocks[b].worker)
      ensures b in sys.s.blocks && InProgress(sys.s.blocks[b].worker)
    {
      OtherLeavesWaiting(sys.s, step, b);
    }
  }

  /** What every run keeps: blocks and handles are linked, and the protocol is in a reachable state. */
  ghost predicate Sound(sys: System) {
    Linked(sys) && Logged(sys) && Attended(sys) && Reachable(sys.s)
  }

  lemma OpKeepsSound(sys: System, op: H.Op)
    requires Sound(sys) && PossibleOp(sys, op)
    ensures Sound(AfterOp(sys, op))
  {
    OpKeepsLinked(sys, op);
    OpKeepsAttended(sys, op);
    assert ResultsOk(sys.s.blocks, sys.s.h.completed) by {
      ReachableInv(sys.s);
    }
    OpKeepsLogged(sys, op);
    if op.Create? {
      ReachableNext(sys.s, Begin(op.b));
    } else if Completion(sys.w, op).Some? {
      HandleSuffices(sys, op);
      var (b, p) := Completion(sys.w, op).value;
      ReachableNext(sys.s, SetResult(b, p));
    }
  }

  lemma OtherKeepsSound(sys: System, step: Step)
    requires Sound(sys) && Possible(sys, Other(step))
    ensures Sound(Next(sys, Other(step)))
  {
    assert CurrentOk(sys.s) by {
      ReachableInv(sys.s);
    }
    OtherKeepsLinked(sys, step);
    OtherKeepsLogged(sys, step);
    OtherKeepsAttended(sys, step);
    ReachableNext(sys.s, step);
  }

  lemma EventKeepsSound(sys: System, event: Event)
    requires Sound(sys) && Possible(sys, event)
    ensures Sound(Next(sys, event))
  {
    match event
    case OnHandle(op) => OpKeepsSound(sys, op);
    case Dropping(h, now) =>
      var b := sys.w.holds[h].value;
      assert !b.kind.Call?;
      AbandonedIsBad(b.kind, now);
      OpKeepsSound(sys, DroppingOp(sys.w, h, now));
    case Other(step) => OtherKeepsSound(sys, step);
  }

  /**
   * Over every run of handle operations and other steps: a read or write waits for its result exactly while a handle
   * holds it, and the protocol is in a reachable state, so all that is proved of those holds here too.
   */
  lemma {:induction false} EveryRunIsSound(sys: System, events: seq<Event>)
    requires Sound(sys) && CanHappen(sys, events)
    ensures Sound(AfterEvents(sys, events))
    decreases |events|
  {
    if events != [] {
      EventKeepsSound(sys, events[0]);
      EveryRunIsSound(Next(sys, events[0]), events[1..]);
    }
  }

  lemma FromTheStart(events: seq<Event>)
    requires CanHappen(AT_START, events)
    ensures Sound(AfterEvents(AT_START, events))
  {
    assert CanRun(Start(), []) && Run(Start(), []) == Start();
    EveryRunIsSound(AT_START, events);
  }

  /** Every method call has been finished by its receiver, or refused. */
  predicate CallsOver(s: State) {
    forall b :: b in s.blocks && b.kind.Call? ==> s.blocks[b].worker.Released? || b in s.h.refused
  }

  /**
   * Over every run from the start: when all handles are gone, or those left are empty and at rest, the receivers of
   * method calls are done and the server thread is between operations, nothing is in flight.
   */
  lemma HandlesGoneMeansNothingInFlight(events: seq<Event>)
    requires CanHappen(AT_START, events)
    requires var sys := AfterEvents(AT_START, events);
      && (forall h :: h in sys.w.holds ==> sys.w.holds[h] == None && AtRest(sys, h))
      && CallsOver(sys.s) && !HasCurrent(sys.s.server)
    ensures var sys := AfterEvents(AT_START, events); sys.s.sh.inflight == 0 && Outstanding(sys.s) == {}
  {
    var sys := AfterEvents(AT_START, events);
    FromTheStart(events);
    forall b | b in sys.s.blocks && b !in sys.s.h.refused
      ensures sys.s.blocks[b].worker.Released?
    {
      if !b.kind.Call? {
        assert !H.Held(sys.w.holds, b);
        assert InProgress(sys.s.blocks[b].worker) ==> IsLast(sys.last, b);
      }
    }
    QuietMeansNothingInFlight(sys.s);
  }

  /**
   * Over every run from the start: a read or write that a handle still holds has no result, and any other was completed
   * exactly once through its handles, with the result that the protocol will hand over.
   */
  lemma ResultIsTheCompletion(events: seq<Event>, b: Block)
    requires CanHappen(AT_START, events)
    requires b in AfterEvents(AT_START, events).s.blocks && !b.kind.Call?
    ensures var sys := AfterEvents(AT_START, events);
      if H.Held(sys.w.holds, b) then
        b !in sys.s.h.completed && H.CompletionsOf(sys.w.completions, b) == []
      else
        b in sys.s.h.completed && H.CompletionsOf(sys.w.completions, b) == [sys.s.h.completed[b]]
  {
    FromTheStart(events);
    var sys := AfterEvents(AT_START, events);
    assert ResultsOk(sys.s.blocks, sys.s.h.completed) by {
      ReachableInv(sys.s);
    }
    assert ResultOk(b, sys.s.blocks[b], sys.s.h.completed);
  }
}
