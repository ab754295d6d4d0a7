/** What a worker hands to `complete` or `finishCall`, and what the stack is given for it. */
module AsyncResults {
  import opened Common
  import opened VariantValues

  datatype StatusCode =
    | Good
    | GoodCompletesAsynchronously
    | Bad
    | BadInternalError
    | BadOutOfService
    | BadOutOfRange
    | BadNotSupported
    | BadInvalidArgument
    | BadTypeMismatch
    | BadDataEncodingInvalid
    | BadNodeIdUnknown
    | OtherStatus(code: UInt32)

  datatype DataValue = DataValue(
    value: Variant,
    status: StatusCode,
    hasSourceTimestamp: bool,
    sourceTimestamp: int,
    hasServerTimestamp: bool,
    serverTimestamp: int)

  /** The timestamps found in a read target when its block is created. */
  datatype Placeholder = Placeholder(hasSource: bool, hasServer: bool, source: int, server: int)

  function PlaceholderOf(target: DataValue): Placeholder {
    Placeholder(target.hasSourceTimestamp, target.hasServerTimestamp, target.sourceTimestamp, target.serverTimestamp)
  }

  datatype Kind = Read(placeholder: Placeholder) | Write | Call(outputSize: nat)

  datatype Payload =
    | ReadDone(value: DataValue)
    | WriteDone(status: StatusCode)
    | CallDone(outputs: seq<Variant>, callStatus: StatusCode)

  predicate Fits(kind: Kind, p: Payload) {
    match kind
    case Read(_) => p.ReadDone?
    case Write => p.WriteDone?
    case Call(_) => p.CallDone?
  }

  function SomePayload(kind: Kind): (p: Payload)
    ensures Fits(kind, p)
  {
    match kind
    case Read(_) => ReadDone(DataValue(NULL_VARIANT, Good, false, 0, false, 0))
    case Write => WriteDone(Good)
    case Call(_) => CallDone([], Good)
  }

  /** What the stack finds at the operation's address, and the status it is told. */
  datatype Delivery =
    | Untouched
    | ReadTarget(value: DataValue)
    | WriteStatus(status: StatusCode)
    | CallOutputs(written: seq<Variant>, callStatus: StatusCode)

  /** One stamp of a read target: dropped when the placeholder had none, taken from the placeholder when missing. */
  function PolicedStamp(placeholderHas: bool, placeholderStamp: int, has: bool, stamp: int): (bool, int) {
    if !placeholderHas then (false, 0)
    else if !has then (true, placeholderStamp)
    else (has, stamp)
  }

  /** The target of a read after fillTarget with a result set. */
  function Filled(result: DataValue, ph: Placeholder, police: bool): DataValue {
    if !police then result
    else
      var (hasSource, source) :=
        PolicedStamp(ph.hasSource, ph.source, result.hasSourceTimestamp, result.sourceTimestamp);
      var (hasServer, server) :=
        PolicedStamp(ph.hasServer, ph.server, result.hasServerTimestamp, result.serverTimestamp);
      result.(hasSourceTimestamp := hasSource, sourceTimestamp := source,
              hasServerTimestamp := hasServer, serverTimestamp := server)
  }

  function Min(a: nat, b: nat): nat {
    if a < b then a else b
  }

  /**
   * What finishInline (deferred false) or finishDeferred (deferred true) hands over, from the block's result as it is
   * at that moment. Without a result a read target is not filled, and writes and calls still hold their initial status.
   */
  function Rendered(kind: Kind, result: Option<Payload>, deferred: bool): Delivery {
    match (kind, result)
    case (Read(ph), Some(ReadDone(v))) => ReadTarget(Filled(v, ph, deferred))
    case (Read(_), _) => Untouched
    case (Write, Some(WriteDone(status))) => WriteStatus(status)
    case (Write, _) => WriteStatus(BadInternalError)
    case (Call(size), Some(CallDone(outputs, status))) => CallOutputs(outputs[..Min(|outputs|, size)], status)
    case (Call(_), _) => CallOutputs([], BadInternalError)
  }

  /**
   * A deferred read shows a stamp exactly when the request asked for one; a stamp the worker supplied
   * is kept, a missing one falls back to the placeholder's; nothing else of the result changes.
   * An inline read is the result itself.
   */
  lemma PolicingTouchesOnlyStamps(result: DataValue, ph: Placeholder)
    ensures Filled(result, ph, false) == result
    ensures var t := Filled(result, ph, true);
            && t.value == result.value && t.status == result.status
            && t.hasSourceTimestamp == ph.hasSource && t.hasServerTimestamp == ph.hasServer
            && (ph.hasSource && result.hasSourceTimestamp ==> t.sourceTimestamp == result.sourceTimestamp)
            && (ph.hasSource && !result.hasSourceTimestamp ==> t.sourceTimestamp == ph.source)
            && (ph.hasServer && result.hasServerTimestamp ==> t.serverTimestamp == result.serverTimestamp)
            && (ph.hasServer && !result.hasServerTimestamp ==> t.serverTimestamp == ph.server)
            && (!ph.hasSource ==> t.sourceTimestamp == 0) && (!ph.hasServer ==> t.serverTimestamp == 0)
    ensures PlaceholderOf(result) == ph && ph.hasSource && ph.hasServer ==> Filled(result, ph, true) == result
  {
  }

  /**
   * What is handed over is the result itself: an inline read the whole value, a write the status, a call its status and
   * the longest prefix of the outputs that fits; a deferred read differs from an inline one in its stamps only.
   */
  lemma RenderedIsTheResult(kind: Kind, p: Payload)
    requires Fits(kind, p)
    ensures kind.Read? ==> Rendered(kind, Some(p), false) == ReadTarget(p.value)
    ensures kind.Read? ==> Rendered(kind, Some(p), true) == ReadTarget(Filled(p.value, kind.placeholder, true))
    ensures kind.Write? ==> forall d :: Rendered(kind, Some(p), d) == WriteStatus(p.status)
    ensures kind.Call? ==> forall d ::
        var r := Rendered(kind, Some(p), d);
        && r.CallOutputs? && r.callStatus == p.callStatus && r.written <= p.outputs && |r.written| <= kind.outputSize
        && (r.written == p.outputs || |r.written| == kind.outputSize)
  {
  }
}
