/** Completion handles over arbitrary sequences of moves, completions and destructions. */
module HandleRuns {
  import opened Common
  import opened AsyncResults
  import opened Protocol
  import opened AsyncCallbacks

  type HandleId = nat

  /** The live handles, each with the block it holds if any, and every completion performed so far, in order. */
  datatype World = World(holds: map<HandleId, Option<Block>>, created: set<Block>, completions: seq<(Block, Payload)>)

  datatype Op =
    | Create(h: HandleId, b: Block)
    | Move(from: HandleId, to: HandleId)
    | Complete(h: HandleId, p: Payload)
    | Destroy(h: HandleId, now: int)

  /**
   * What C++ scoping and types permit: a new handle is a new object, made for a new read or write block, and the
   * others are operations on live handles.
   */
  predicate Allowed(w: World, op: Op) {
    match op
    case Create(h, b) => h !in w.holds && b !in w.created && !b.kind.Call?
    case Move(from, to) => from in w.holds && to !in w.holds
    case Complete(h, _) => h in w.holds
    case Destroy(h, _) => h in w.holds
  }

  function Completed(w: World, h: HandleId, p: Payload): World
    requires h in w.holds
  {
    match w.holds[h]
    case None => w
    case Some(b) => w.(holds := w.holds[h := None], completions := w.completions + [(b, p)])
  }

  /** Destroying a handle is completing it and then letting it go. */
  function Dropped(w: World, h: HandleId, now: int): World
    requires h in w.holds
  {
    if w.holds[h].Some? then Completed(w, h, Abandoned(w.holds[h].value.kind, now)) else w
  }

  function Do(w: World, op: Op): World
    requires Allowed(w, op)
  {
    match op
    case Create(h, b) => w.(holds := w.holds[h := Some(b)], created := w.created + {b})
    case Move(from, to) => w.(holds := w.holds[to := w.holds[from]][from := None])
    case Complete(h, p) => Completed(w, h, p)
    case Destroy(h, now) => var w' := Dropped(w, h, now); w'.(holds := w'.holds - {h})
  }

  ghost predicate CanDo(w: World, ops: seq<Op>)
    decreases |ops|
  {
    ops == [] || (Allowed(w, ops[0]) && CanDo(Do(w, ops[0]), ops[1..]))
  }

  ghost function DoAll(w: World, ops: seq<Op>): World
    requires CanDo(w, ops)
    decreases |ops|
  {
    if ops == [] then w else DoAll(Do(w, ops[0]), ops[1..])
  }

  function CompletionsOf(log: seq<(Block, Payload)>, b: Block): seq<Payload> {
    if log == [] then []
    else CompletionsOf(log[..|log|-1], b) + if log[|log|-1].0 == b then [log[|log|-1].1] else []
  }

  predicate Held(holds: map<HandleId, Option<Block>>, b: Block) {
    Some(b) in holds.Values
  }

  ghost predicate Linear(w: World) {
    && (forall h :: h in w.holds && w.holds[h].Some? ==> w.holds[h].value in w.created)
    && (forall h, g :: h in w.holds && g in w.holds && h != g && w.holds[h].Some? ==> w.holds[h] != w.holds[g])
    && (forall b :: |CompletionsOf(w.completions, b)| == if b in w.created && !Held(w.holds, b) then 1 else 0)
  }

  const NO_HANDLES := World(map[], {}, [])

  lemma CompletionAppends(log: seq<(Block, Payload)>, b: Block, p: Payload)
    ensures forall x :: CompletionsOf(log + [(b, p)], x) == CompletionsOf(log, x) + if x == b then [p] else []
  {
    assert (log + [(b, p)])[..|log|] == log;
  }

  /** Only the holder's own block is affected when its entry changes to something else. */
  lemma HeldAfter(holds: map<HandleId, Option<Block>>, h: HandleId, v: Option<Block>)
    requires h !in holds || forall g :: g in holds && g != h && holds[h].Some? ==> holds[g] != holds[h]
    ensures forall b ::
      Held(holds[h := v], b) <==> v == Some(b) || (Held(holds, b) && !(h in holds && holds[h] == Some(b)))
    ensures h in holds ==> forall b :: Held(holds - {h}, b) <==> Held(holds, b) && holds[h] != Some(b)
  {
    var after := holds[h := v];
    assert after[h] == v;
    forall b | Held(holds, b) && !(h in holds && holds[h] == Some(b))
      ensures Held(after, b) && Held(holds - {h}, b)
    {
      var g :| g in holds && holds[g] == Some(b);
      assert after[g] == Some(b) && g in holds - {h} && (holds - {h})[g] == Some(b);
    }
  }

  lemma CompletedKeepsLinear(w: World, h: HandleId, p: Payload)
    requires Linear(w) && h in w.holds
    ensures Linear(Completed(w, h, p))
  {
    if w.holds[h].Some? {
      CompletionAppends(w.completions, w.holds[h].value, p);
      HeldAfter(w.holds, h, None);
      assert Held(w.holds, w.holds[h].value);
    }
  }

  lemma HeldAfterMove(w: World, from: HandleId, to: HandleId, b: Block)
    requires Allowed(w, Move(from, to))
    ensures Held(Do(w, Move(from, to)).holds, b) <==> Held(w.holds, b)
  {
    var w' := Do(w, Move(from, to));
    if Held(w.holds, b) {
      var g :| g in w.holds && w.holds[g] == Some(b);
      assert w'.holds[if g == from then to else g] == Some(b);
    }
  }

  lemma DroppedKeepsLinear(w: World, h: HandleId, now: int)
    requires Linear(w) && h in w.holds
    ensures Linear(Dropped(w, h, now)) && Dropped(w, h, now).holds == w.holds[h := None]
  {
    if w.holds[h].Some? {
      CompletedKeepsLinear(w, h, Abandoned(w.holds[h].value.kind, now));
    }
  }

  lemma OpKeepsLinear(w: World, op: Op)
    requires Linear(w) && Allowed(w, op)
    ensures Linear(Do(w, op))
  {
    match op
    case Create(h, b) =>
      HeldAfter(w.holds, h, Some(b));
    case Move(from, to) =>
      forall b
        ensures Held(Do(w, op).holds, b) <==> Held(w.holds, b)
      {
        HeldAfterMove(w, from, to, b);
      }
    case Complete(h, p) =>
      CompletedKeepsLinear(w, h, p);
    case Destroy(h, now) =>
      DroppedKeepsLinear(w, h, now);
      HeldAfter(Dropped(w, h, now).holds, h, None);
  }

  lemma HeldAfterDestroy(w: World, h: HandleId, now: int, b: Block)
    requires Linear(w) && h in w.holds
    ensures Held(Do(w, Destroy(h, now)).holds, b) <==> Held(w.holds, b) && w.holds[h] != Some(b)
  {
    DroppedKeepsLinear(w, h, now);
    HeldAfter(w.holds, h, None);
    HeldAfter(w.holds[h := None], h, None);
  }

  lemma {:induction false} OpsKeepLinear(w: World, ops: seq<Op>)
    requires Linear(w) && CanDo(w, ops)
    ensures Linear(DoAll(w, ops))
    decreases |ops|
  {
    if ops != [] {
      OpKeepsLinear(w, ops[0]);
      OpsKeepLinear(Do(w, ops[0]), ops[1..]);
    }
  }

  /**
   * Over any sequence of operations a block is completed exactly once if no handle holds it any more and not at all
   * while one does, and it is never held twice. So when all handles are gone every block has been completed once.
   */
  lemma HandlesAreLinear(ops: seq<Op>, b: Block)
    requires CanDo(NO_HANDLES, ops) && b in DoAll(NO_HANDLES, ops).created
    ensures var w := DoAll(NO_HANDLES, ops);
      && |CompletionsOf(w.completions, b)| == (if Held(w.holds, b) then 0 else 1)
      && (forall h, g :: h in w.holds && g in w.holds && w.holds[h] == w.holds[g] == Some(b) ==> h == g)
      && (w.holds == map[] ==> |CompletionsOf(w.completions, b)| == 1)
  {
    OpsKeepLinear(NO_HANDLES, ops);
  }

  /** A moved handle does what the old one would have done, and the old one nothing any more. */
  lemma MoveIsTransparent(w: World, from: HandleId, to: HandleId, p: Payload)
    requires Allowed(w, Move(from, to))
    ensures var moved := Do(w, Move(from, to));
      && Do(moved, Complete(to, p)).completions == Do(w, Complete(from, p)).completions
      && Do(moved, Complete(from, p)) == moved
  {
  }

  /** The only completion of a block is the first one asked of its holder, or BadInternalError when it was dropped. */
  lemma FirstCompletionWins(ops: seq<Op>, op: Op)
    requires CanDo(NO_HANDLES, ops)
    requires var w := DoAll(NO_HANDLES, ops); Allowed(w, op) && (op.Complete? || op.Destroy?)
    ensures var w := DoAll(NO_HANDLES, ops); var w' := Do(w, op);
      match w.holds[op.h]
      case None => w'.completions == w.completions
      case Some(b) =>
        CompletionsOf(w.completions, b) == [] &&
        CompletionsOf(w'.completions, b) == [if op.Complete? then op.p else Abandoned(b.kind, op.now)]
  {
    var w := DoAll(NO_HANDLES, ops);
    OpsKeepLinear(NO_HANDLES, ops);
    if w.holds[op.h].Some? {
      var b := w.holds[op.h].value;
      assert Held(w.holds, b);
      CompletionAppends(w.completions, b, if op.Complete? then op.p else Abandoned(b.kind, op.now));
    }
  }
}
