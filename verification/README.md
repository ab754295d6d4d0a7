# open62541-compat: a verified model

open62541-compat offers the programming interface of a commercial OPC UA toolkit on top of the open62541 stack. This
project models three parts of it in Dafny and proves what they promise.

**Deferred operations.** A read, write or method call may be completed by a worker thread after the server's callback
has returned. A block per operation carries an atomic phase; whoever exchanges it second finishes the operation. A
deferred block is registered under the address of its target, a completion goes through a queue, and a counter of
operations in flight tells `stop` when to go on.

- `Protocol.dfy` is the transition system: one step per critical section, per phase exchange and per action of the server
  thread in between, so that every window of the code exists in the model. In particular a worker can push between the
  server's exchange and its increment, where the unsigned counter wraps below zero. A drain is a swap and then one step
  per block, with worker steps in between.
- `ProtocolInvariant.dfy` has the inductive invariant, one small predicate per concern, each kept by every step.
- `ProtocolTheorems.dfy` has what follows for every reachable state and every run.
- `Registry.dfy` defines the effect of each critical section on the fields of `AsyncOperations`. The transition system
  and the classes share these definitions.
- `AsyncLayer.dfy` and `AsyncCallbacks.dfy` are the same layer as objects updated in place: blocks, `AsyncOperations`,
  handles, the three server callbacks, `start` and `stop`. Their methods are proved against `Registry`, and
  `ProtocolRuns.dfy` shows that drain, completions and callbacks do what the corresponding steps do. `Lifecycles.dfy`
  follows a read, a write and a call from the callback through the completion to the drain, in plain terms.
- `AsyncResults.dfy` is what finishing an operation hands to the stack. `HandleRuns.dfy` shows that completion handles
  are linear over any sequence of moves, completions and destructions, and `HandleProtocol.dfy` runs them together with
  the protocol: the guard of `complete` is then the handle's own, and that a block is completed once is a theorem.

**UaVariant** (`UaVariantModel.dfy`, `VariantValues.dfy`). Null, scalar, 1-D array and matrix over the stack's four variant
fields; the setters, `setMatrix` with its checked 64-bit product, `toArray`, `toMatrix`, the shape queries and the
range-checked integer conversion. The matrix rule is that of section 5.2.2.16 of OPC 10000-6.

**Node ids and the node tree** (`NodeIdText.dfy`, `NodeTree.dfy`). What the text of `toFullString` identifies, and the
node list and reference graph of `NodeManagerBase`.

## What is assumed of the surroundings

These are the conditions under which a step of the protocol is enabled (`Enabled` and `CanTouch` in `Protocol.dfy`).

- One server thread calls the callbacks, drain and cancel; `stop` runs after it is joined.
- A new block is a new object, and the stack does not start an operation at an address that is still registered.
- Fewer than 2^32 operations are outstanding.
- The result setters of the stack do not call cancel or drain before they return.
- A method receiver calls `finishCall` at most once, and the block does not lose its last owner before `finishCall` has
  locked its weak pointer: the receiver holds a raw pointer (src/nodemanagerbase.cpp:180). `CallBlockIsOwned` says
  when that would be: exactly from a cancel, or the clearing of the registry, on. Once the lock has succeeded, the
  receiver owns the block itself and pushes it whatever happens to the registry.
- A handle is used by one thread at a time: it is not moved, completed or destroyed while a `complete` on it is under way
  (`AtRest` in `HandleProtocol.dfy`). Handles share ownership of their blocks, so nothing is assumed of them after a
  cancel; that they complete a block once is proved (`HandleSuffices`).

## What turned out to need a condition

- A scalar setter makes the variant that scalar except over a 1-D array of the same type, whose first element it
  overwrites (`ScalarSetterIsExact`, `ScalarOverArrayStaysArray`).
- `setMatrix` compares the length after narrowing it to 32 bits, so the round trip holds exactly for inputs shorter than
  2^32 elements (`MatrixRoundTrip`, `LongInputIsTruncated`).
- The text of a node id ends a string identifier at its first NUL, so it identifies an id exactly up to that
  (`TextIdentifies`, `NulHidesTheRest`).
- The wait of `stop` is what makes the delete safe: after a timeout a step is possible exactly if a read or write is
  outstanding, or a call that has locked its block for the push (`UseAfterDeleteExactly`, `LatePushAfterTimeout`,
  `LateCallPushAfterTimeout`).
- A method call that is cancelled before `finishCall` has locked its block stays counted for good, so the wait can then
  only time out (`OrphanBlocksStop`, `OrphansExist`); cancelled after the lock it is pushed and dropped
  (`LockedCallOutlivesCancel`).
- `changeType` over an array of another integer type reports Good and keeps its first element only
  (`ChangeTypeKeepsTheFirst`).
- A null variant answers `isArray` with true while `arrayType` calls it a scalar (`QueriesAgree`).

## Model

| member | source | states |
|---|---|---|
| ProtocolInvariant.StepKeepsInv | src/async_operations.cpp:129-257 | every step any thread can take in any state of the invariant keeps all of it: handshake, results, queue order, registry contents, drain verdicts, deliveries, counter and stages of stop |
| ProtocolInvariant.ReachableInv | src/async_operations.cpp:129-257 | the invariant holds in every state of every interleaving |
| ProtocolInvariant.SettleFinds | src/async_operations.cpp:174-181 | when drain looks at a block, the registry holds exactly that block at its address if and only if the operation was not cancelled |
| ProtocolInvariant.RefusedIsUntouchable | src/nodemanagerbase.cpp:193-194 | after beginCall failed without finishing, nothing owns the block any more, so no step can touch it |
| ProtocolTheorems.InflightCountsExactly | src/async_operations.cpp:147-163 | m_inflight is, modulo 2^32, counted-not-pushed minus pushed-not-counted; the latter has at most one member, only in the window before the increment, and none after the join, from when zero means nothing outstanding |
| ProtocolTheorems.CounterCanWrap | src/async_operations.cpp:147-163 | a reachable state in which the counter is 2^32 - 1 and the queue holds a block the registry does not know |
| HandleProtocol.HandlesGoneMeansNothingInFlight | src/async_operations.cpp:225-257 | over every run of handle operations and other steps: when all handles are gone, or those left are empty and at rest, method receivers are done and the server thread is between operations, m_inflight is 0 |
| HandleProtocol.HandleSuffices | src/async_operations.cpp:231-236 | the test that the handle still holds its block is all it takes: whatever it lets through is a first completion the protocol allows |
| HandleProtocol.EventKeepsSound | include/async_operations.h:178-206 | every handle operation, every destructor and every other step keeps: a read or write waits for its result exactly while one handle holds it, its result is the one completion made, and the handle that completes it exists until the push is over |
| HandleProtocol.EveryRunIsSound | include/async_operations.h:178-206 | the same over every run, in which the protocol stays in reachable states, so every theorem about those holds with handles too |
| HandleProtocol.ResultIsTheCompletion | src/async_operations.cpp:225-257 | over every run a held read or write has no result, and any other was completed exactly once, with the result the protocol hands over |
| ProtocolTheorems.QuietMeansNothingInFlight | src/async_operations.cpp:147-163 | in every reachable state in which every worker is done and the server thread is between operations, m_inflight is 0 (that workers are done is derived from the handles by HandlesGoneMeansNothingInFlight) |
| ProtocolTheorems.OneFate | src/async_operations.cpp:156-191 | every operation is in exactly one place: running, finished inline, refused, awaiting drain, finished by drain, dropped as cancelled, dropped as closed |
| ProtocolTheorems.FinishedAtMostOnce | src/nodemanagerbase.cpp:85-93 | no operation is finished twice, nor both inline and by drain |
| ProtocolTheorems.RunExtends | src/async_operations.cpp:129-257 | over every run no record of an operation is undone, a passed result is never overwritten, closing and the stages of stop are never left |
| ProtocolTheorems.OnlyCancelledAreDropped | src/async_operations.cpp:165-183 | over every run, an enqueued completion some drain has looked at was delivered if not cancelled and dropped if cancelled, even if pushed before it was registered |
| ProtocolTheorems.LateCompletionIsInert | src/async_operations.cpp:174-179 | a completion whose address now belongs to a new operation is one of a cancelled operation, and leaves the registry, all targets and all blocks as they are |
| ProtocolTheorems.RegistrationSurvives | src/async_operations.cpp:147-191 | over every run a registered operation stays registered until it is itself finished, cancelled, or wiped by stop; if finished, with its own result |
| ProtocolTheorems.FinishedWithItsResult | src/async_operations.cpp:28-120 | whenever an operation has been finished its result was set, and what was handed over is that result, policed only on the deferred path |
| ProtocolTheorems.CompletionIsDelivered | src/async_operations.cpp:231-257 | over every run from the moment a worker passes a result, a finish of that block hands over that very result |
| ProtocolTheorems.DeliveryKeepsOrder | src/async_operations.cpp:156-183 | across all drains, deliveries are the accepted pushes in order with exactly the cancelled ones left out |
| ProtocolTheorems.NoWorkerStepAfterWait | src/async_operations.cpp:193-201 | after a wait that ended by its predicate no completion, exchange or push is possible |
| ProtocolTheorems.QuietAfterShutdown | src/uaserver.cpp:161-177 | the same over every continuation of the run |
| ProtocolTheorems.NoUseAfterDelete | src/uaserver.cpp:175-176 | once AsyncOperations is deleted after such a wait, no step of any thread is possible |
| ProtocolTheorems.UseAfterDeleteExactly | src/uaserver.cpp:161-177 | timeout or not: a step is possible after the delete if and only if an operation is outstanding that is a read or write, or a call that has locked its block for the push; and it is a step of its worker |
| ProtocolTheorems.LatePushAfterTimeout | src/async_operations.cpp:193-201 | a reachable state in which the worker of a write is about to push into the deleted AsyncOperations |
| ProtocolTheorems.LateCallPushAfterTimeout | src/async_operations.cpp:91-96 | one in which the receiver of a call is, though nothing else owns its block any more |
| ProtocolTheorems.OrphanBlocksStop | src/async_operations.cpp:82-98 | a method call cancelled before finishCall has locked its block is never pushed over any run, so every later wait of stop times out |
| ProtocolTheorems.LockedCallOutlivesCancel | src/async_operations.cpp:93-95 | a call cancelled after the lock can be pushed all the same, and the counter is back at 0 |
| ProtocolTheorems.OrphansExist | src/async_operations.cpp:185-191 | a reachable state with such a call |
| ProtocolTheorems.ClosingAbsorbs | src/async_operations.cpp:129-163 | over every run after the close nothing is enqueued and no operation is begun or counted |
| ProtocolTheorems.StopSettlesEverything | src/uaserver.cpp:161-170 | after stop's sequence queue and registry are empty and every completion enqueued before the close was delivered unless cancelled; without a timeout every operation is accounted for |
| ProtocolTheorems.RefusedCallLeavesNoTrace | src/nodemanagerbase.cpp:193-194 | a call that fails to begin leaves counter, queue and registry as before, and over every continuation is never finished, registered or touched |
| ProtocolTheorems.CallBlockIsOwned | src/nodemanagerbase.cpp:175-197 | up to its push a deferred or running call's block has an owner beside its worker exactly as long as it is neither cancelled nor wiped by stop |
| ProtocolRuns.DrainIsARun | src/async_operations.cpp:165-183 | the drain method's effect, in the server loop and at the end of stop, is that of a run of drain steps no worker interleaves with |
| ProtocolRuns.CompletionIsARun | src/async_operations.cpp:231-257 | complete and finishCall are runs of steps of that worker; they change AsyncOperations exactly when the server exchanged first |
| ProtocolRuns.DeferralIsARun | src/async_operations.cpp:147-154 | establishDeferral is a run of the increment and the registration |
| ProtocolRuns.InlineCallbackIsARun | src/nodemanagerbase.cpp:85-91 | a callback whose operation completes before the exchange is a run that finishes it inline with its result and leaves AsyncOperations as it was |
| ProtocolRuns.DeferredCallbackIsARun | src/nodemanagerbase.cpp:85-93 | a callback whose operation does not is a run that counts and registers it |
| ProtocolRuns.RefusedCallbackIsARun | src/nodemanagerbase.cpp:178-194 | a call that fails to begin is a run that changes neither AsyncOperations nor what was finished |
| Registry.DrainIsExact | src/async_operations.cpp:172-182 | one drain finishes exactly the blocks of its batch that are registered at their own address, once each, and erases exactly those entries |
| Registry.DrainsCompose | src/async_operations.cpp:165-183 | draining twice is draining the concatenated batches |
| AsyncLayer.AsyncBlock.FillTarget | src/async_operations.cpp:28-56 | the target holds the policed result, and is untouched without one |
| AsyncLayer.AsyncBlock.CopyOutputs | src/async_operations.cpp:100-105 | exactly the first min(outputs, outputSize) slots are written, each with its output |
| AsyncLayer.AsyncBlock.FinishInline | src/async_operations.cpp:58-61 | the target holds the unpoliced result of a read, the fitting outputs of a call, and what it held before in all else |
| AsyncLayer.AsyncBlock.FinishDeferred | src/async_operations.cpp:63-80 | the target holds the result with exactly the timestamps the placeholder had room for; output slots beyond the given ones are kept; one report reaches the stack, with the status the worker passed for a write or a call |
| AsyncLayer.AsyncOperations.constructor | src/async_operations.cpp:122-127 | nothing pending, queued, in flight, serving or closed |
| AsyncLayer.AsyncOperations.EstablishDeferral | src/async_operations.cpp:147-154 | the counter moves up modulo 2^32 and the block is the one registered at its address; the queue stays |
| AsyncLayer.AsyncOperations.Push | src/async_operations.cpp:156-163 | appended last unless closed; the counter moves down modulo 2^32 in both cases |
| AsyncLayer.AsyncOperations.Cancel | src/async_operations.cpp:185-191 | only the entry at that address goes |
| AsyncLayer.FinishNext | src/async_operations.cpp:180 | finishing one more block of a batch keeps what was delivered before it and every target not concerned |
| AsyncLayer.AsyncOperations.Settle | src/async_operations.cpp:174-181 | the loop body finishes and erases a block exactly when it is the registered one; a dropped block leaves its target, and what the stack was told, untouched |
| AsyncLayer.AsyncOperations.SettleBatch | src/async_operations.cpp:172-182 | the loop over the batch, for any batch |
| AsyncLayer.AsyncOperations.Drain | src/async_operations.cpp:165-183 | the queue is emptied, the registry loses exactly the finished entries, every finished block's target holds its result and nothing else new, the target of a completion whose operation is not registered any more is untouched, and the stack was told of the finished ones in queue order |
| AsyncLayer.AsyncOperations.Shutdown | src/async_operations.cpp:193-201 | closed; nothing is enqueued by late pushes; no timeout means a zero counter |
| AsyncLayer.AsyncOperations.ClearRegistry | src/async_operations.cpp:203-206 | only the registry is emptied |
| AsyncCallbacks.Handle.MoveFrom | include/async_operations.h:182 | the right to complete moves: the source keeps nothing |
| AsyncCallbacks.Handle.Complete | src/async_operations.cpp:231-240 | the handle is empty afterwards; a block it held has the result and phase Finished; if the server had exchanged first the block is last in the queue unless closed and the counter one lower, else both are as before; an empty handle does nothing |
| AsyncCallbacks.Handle.Destroy | src/async_operations.cpp:225-229 | a handle dropped uncompleted completes its block with BadInternalError, with the same effect on queue and counter |
| AsyncCallbacks.AbandonedIsBad | src/async_operations.cpp:225-246 | an inline finish of a dropped handle's block shows a null value with BadInternalError, or the status BadInternalError |
| AsyncCallbacks.FinishCall | src/async_operations.cpp:82-98 | result and phase are set; if the server had exchanged first and the weak pointer still yields the block, it is last in the queue unless closed and the counter one lower, else both are as before |
| AsyncCallbacks.UnifiedRead | src/nodemanagerbase.cpp:66-100 | exactly one of: direct value, inline with the worker's value untouched, or registered and counted with the target untouched; the block remembers the four timestamp fields the target had, and the worker's handle holds the block until completed |
| AsyncCallbacks.UnifiedWrite | src/nodemanagerbase.cpp:102-141 | null arguments are refused; otherwise the direct status, the worker's status inline, or registered and counted |
| AsyncCallbacks.UnifiedCall | src/nodemanagerbase.cpp:144-198 | exactly one of: out of service, inline with exactly the fitting outputs written, bad begin status with AsyncOperations as before, or registered and counted as a call of that many outputs |
| AsyncCallbacks.WindDown | src/uaserver.cpp:165-170 | afterwards closed, empty queue, empty registry; what was queued and registered before is finished and told in order, and no other queued target is touched |
| AsyncCallbacks.UaServer.Start | src/uaserver.cpp:56-86 | which failure wins; AsyncOperations is fresh and already serving when the stack's startup runs, and not yet serving when linkServer throws |
| AsyncCallbacks.UaServer.Stop | src/uaserver.cpp:161-177 | both pointers are gone, the old AsyncOperations is closed and empty, and what was queued and registered is finished and told; a server never started is stopped without effect |
| Lifecycles.FinishedOnce | src/async_operations.cpp:172-182 | a registered block of a batch is finished once, and nothing else is finished at its target |
| Lifecycles.DrainOne | src/async_operations.cpp:165-183 | a drain of any queue, seen from one registered block: it leaves the registry, its target holds its result, and the stack is told of that target once |
| Lifecycles.ReadCompletedLate | src/async_operations.cpp:28-71 | callback, complete, drain of a deferred read: the target ends with the worker's value and status and with exactly the timestamps it had when the read began, the worker's or else its own; told once; counter, queue and registry as before; also when cancelled completions at the same address are queued |
| Lifecycles.WriteCompletedLate | src/async_operations.cpp:73-80 | callback, complete, drain of a deferred write: the stack is told the worker's status once, and the target is untouched |
| Lifecycles.CallCompletedLate | src/async_operations.cpp:82-120 | callback, finishCall, drain of a deferred call: exactly the fitting outputs are written and the stack is told the status once |
| HandleRuns.OpsKeepLinear | include/async_operations.h:178-206 | every sequence of handle operations keeps: no block held twice, completed once if no longer held, not at all while held |
| HandleRuns.HandlesAreLinear | src/async_operations.cpp:225-257 | over every sequence each block is completed exactly once when its holder is gone and not before |
| HandleRuns.MoveIsTransparent | include/async_operations.h:182 | a moved handle completes what the old one would have completed, and the old one does nothing any more |
| HandleRuns.FirstCompletionWins | src/async_operations.cpp:225-257 | the single completion is the first one asked of the holder, or BadInternalError on a drop; later ones change nothing |
| UaVariantModel.ShapeIsUnique | src/uavariant.cpp:1048-1120 | no variant is two of null, scalar, array, matrix, or one of them in two ways |
| UaVariantModel.QueriesAgree | src/uavariant.cpp:1048-1125 | all shape and size queries agree with the one shape, with the exact bound of the 32-bit sizes |
| UaVariantModel.NarrowingKeepsLowBits | src/uavariant.cpp:1088-1120 | sizes cast to 32 bits are exact on 32-bit values and elsewhere off by a multiple of 2^32 |
| UaVariantModel.ScalarSetterIsExact | src/uavariant.cpp:205-222 | a scalar setter yields the scalar if and only if the variant held no 1-D array of the same type; otherwise element 0 is overwritten |
| UaVariantModel.ScalarOverArrayStaysArray | src/uavariant.cpp:205-222 | a concrete input for which it does not |
| UaVariantModel.ValidateMatrixDimensions | src/uavariant.cpp:463-477 | Good exactly for no dimensions and no elements, or dimensions all at least 1 whose full product is the length and below 2^31; the 64-bit accumulator never overflows and the early exit loses nothing |
| UaVariantModel.SetMatrixShapes | src/uavariant.cpp:492-501 | a refusal keeps the variant; an accepted list of dimensions leaves a matrix of that shape, no dimensions an empty array |
| UaVariantModel.CopyIsFaithful | src/uavariant.cpp:105-111 | a copy of any setter-built variant is equal to it |
| UaVariantModel.MatrixRoundTrip | src/uavariant.cpp:492-501 | whatever setMatrix accepted comes back through toMatrix with elements and dimensions, through a copy too, if and only if shorter than 2^32; toArray gives the elements always |
| UaVariantModel.LongInputIsTruncated | src/uavariant.cpp:495 | 2^32 + 1 elements with dimensions [1] are accepted, refused by toMatrix, and leave no matrix |
| UaVariantModel.MatrixReadsAreExact | src/uavariant.cpp:945-965 | of all setter-built variants toMatrix reads exactly the matrices of its own type, as they are, and answers BadTypeMismatch with nothing handed out for null, scalar, array and any other type |
| UaVariantModel.MatrixStatusIsExact | src/uavariant.cpp:945-965 | for every variant, one wrapped from the stack included, each of the three statuses by an if-and-only-if on the fields |
| UaVariantModel.ArrayRoundTrip | src/uavariant.cpp:859-872 | an array comes back as set, through a copy too, and as no other type |
| UaVariantModel.ArrayReadsAreExact | src/uavariant.cpp:859-872 | toArray reads exactly the arrays and matrices of its own type, flat, and refuses null, scalars and other types |
| UaVariantModel.ChangeTypeIsAllOrNothing | src/uavariant.cpp:166-190 | on every setter-built variant, every target and whatever a floating-point conversion or the printer yields: Good means the target type, with the value unchanged or a scalar; any other status means no change; no outcome exactly where the empty-array sentinel would be read |
| UaVariantModel.NumberSurvives | src/uavariant.cpp:781-836 | an integer or Boolean scalar changes its type exactly when the target can hold the number, and keeps it; else BadOutOfRange |
| UaVariantModel.ChangeTypeOutcomes | src/uavariant.cpp:166-190 | status and value per branch: text for String, Bad for an empty or non-numeric variant, the floating-point conversion or BadOutOfRange, BadNotSupported for any other target and for arrays |
| UaVariantModel.RangesFollowTheWidth | src/uavariant.cpp:786-814 | the numbers each integer type holds, as powers of two of its width |
| UaVariantModel.ScalarRoundTrip | src/uavariant.cpp:747-779 | a scalar is read back as set; getters of other types refuse it unless both are numbers, and refuse a null variant |
| UaVariantModel.ChangeTypeKeepsTheFirst | src/uavariant.cpp:781-836 | on integer arrays and matrices of another type: Good exactly when the target can hold the first element, which alone is kept; else no change |
| UaVariantModel.ChangeTypeIsReversible | src/uavariant.cpp:166-190 | a successful change of type can be changed back, giving the original |
| UaVariantModel.OpKeepsWellFormed | src/uavariant.cpp:205-222 | each setter, clear, assignment and change of type, to any type, keeps a variant of one shape; it has no defined result exactly when it goes through the empty-array sentinel |
| UaVariantModel.EverySequenceIsWellFormed | src/uavariant.cpp:119-129 | so does every sequence of them from an empty variant |
| UaVariantModel.MatrixProductsFit | src/uavariant.cpp:949-951 | the unchecked 64-bit products of toMatrix and noOfMatrixElements cannot overflow on a setter-built matrix |
| UaVariantModel.MatrixCountIsExact | src/uavariant.cpp:1101-1111 | the number of elements of a setter-built matrix is that of its array |
| UaVariantModel.UaVariant.Assign | src/uavariant.cpp:119-129 | the value becomes the copy of the other's; self-assignment changes nothing |
| UaVariantModel.UaVariant.SetScalar | src/uavariant.cpp:205-222 | the reuse and the reallocation branch together |
| UaVariantModel.UaVariant.Set1DArray | src/uavariant.cpp:303-319 | the variant is that array whatever it was before |
| UaVariantModel.UaVariant.ApplyMatrixDimensions | src/uavariant.cpp:479-490 | the dimensions are written and nothing else changes |
| UaVariantModel.UaVariant.SetMatrix | src/uavariant.cpp:492-501 | status and new value are those the round trip and shape lemmas are about |
| UaVariantModel.UaVariant.GetMatrix | src/uavariant.cpp:944-965 | status, elements and dimensions are those MatrixReadsAreExact and MatrixStatusIsExact are about |
| UaVariantModel.UaVariant.GetArray | src/uavariant.cpp:859-872 | status and elements are those ArrayReadsAreExact is about |
| UaVariantModel.UaVariant.NoOfMatrixElements | src/uavariant.cpp:1101-1111 | the length of a matrix whose dimensions fit it, else -1 |
| UaVariantModel.UaVariant.ChangeType | src/uavariant.cpp:166-190 | status and new value are those the conversion lemmas are about |
| NodeIdText.ToFullString | src/uanodeid.cpp:106-142 | the printed bytes, through both snprintf buffers and c_str(), are the whole text the lemmas are about |
| NodeIdText.GuidBufferSuffices | src/uanodeid.cpp:129-139 | 42 bytes never truncate a GUID, and no smaller buffer would do |
| NodeIdText.TextReadsBack | src/uanodeid.cpp:106-142 | a reader with labels of its own gets the id back from its text, a string identifier up to its first NUL |
| NodeIdText.TextIdentifies | src/uanodeid.cpp:106-142 | two ids print alike if and only if namespace, kind and identifier agree, a string identifier up to its first NUL |
| NodeIdText.TextIsInjective | src/uanodeid.cpp:106-142 | on ids without NUL in a string identifier, equal text is equal id |
| NodeIdText.NulHidesTheRest | src/uanodeid.cpp:114-117 | two different ids with the same text |
| NodeIdText.TwoDigitsEach | src/uanodeid.cpp:122-126 | every byte of an opaque id stands as two lower-case digits at twice its index, a leading zero included |
| NodeIdText.NoLeadingZero | src/uanodeid.cpp:112 | decimal numbers have no leading zero |
| NodeTree.NodeManagerBase.GetNode | src/nodemanagerbase.cpp:54-64 | the root or a listed node with that id, and null exactly when there is none |
| NodeTree.NodeManagerBase.AddNodeAndReference | src/nodemanagerbase.cpp:437-457 | per kind of node and stack verdict: what is returned or thrown, what is listed, which reference is added and which ids are taken; ids stay unique and every listed node keeps a listed or root parent |
| NodeTree.NodeManagerBase.AddById | src/nodemanagerbase.cpp:460-469 | an unknown parent id is refused without change; otherwise the same for the one node with that id, and no other reference list changes |
| NodeTree.AddThenFind | src/nodemanagerbase.cpp:437-457 | an accepted object, data variable or method is what getNode then finds under its id; any other node is not found anew |
| NodeTree.NodeManagerBase.RefersMore | include/uanode.h:54 | appending references keeps the tree valid |
| NodeTree.NodeManagerBase.Destroy | src/nodemanagerbase.cpp:44-52 | every listed node is deleted exactly once, last first |
| NodeTree.ListedIsReachable | src/nodemanagerbase.cpp:235-239 | a path of references from the root to every listed node |
| NodeTree.FoundIsReachable | src/nodemanagerbase.cpp:54-64 | whatever getNode can return is reachable and is the only node with its id |

## Left out

- The open62541 stack itself: variant fields, copying as value copy, refusal of a duplicate node id and the result
  setters (as events) are all that is used of it; allocation is taken to succeed.
- The 60 s of shutdown's wait as real time: the wait ends either by its predicate or by a timeout.
- AsyncLayer.AsyncOperations.Shutdown: other threads' pushes during the wait are a list given to the method; every
  interleaving of them is in the transition system.
- AsyncCallbacks.UnifiedRead: a completion before the exchange is a parameter and one after it a separate call; every
  interleaving in between is in the transition system.
- AsyncCallbacks.UnifiedWrite: as UnifiedRead.
- AsyncCallbacks.UnifiedCall: as UnifiedRead, and the input arguments are not modelled.
- ProtocolRuns.DrainIsARun: says what the method's steps do when no worker comes between; what holds with workers in
  between is said of all runs.
- The three block classes are one class with a kind; method blocks' unused arguments are not modelled.
- Locks and the condition variable: each critical section is one step.
- runThread's loop and the repeated drain callback: protocol steps, not code of a class.
- AsyncCallbacks.UaServer.Start: the configuration and log calls are not modelled, nor the application's afterStartUp.
- UaVariantModel.UaVariant.SetScalar: requires a defined result; over an empty array of the same type the code writes
  through the stack's empty-array sentinel, which no C++ semantics gives a meaning.
- UaVariantModel.UaVariant.GetMatrix: requires partial products below 2^63, which holds for setter-built matrices
  (MatrixProductsFit); on a variant wrapped from the stack's own type they can overflow a signed 64-bit number.
- UaVariantModel.UaVariant.NoOfMatrixElements: as GetMatrix.
- UaVariantModel.UaVariant.ChangeType: requires that the empty-array sentinel is not read as a number; what a conversion
  from or to floating point and the printing of a value yield is a parameter.
- UaVariant::operator== compares arrayLength bytes of memory, so it says nothing about contents and is not modelled.
- The setters and getters per type are one setter and one getter over a type tag; value detachment only throws.
- set1DArrayComplexTypes: its element-wise copying is taken to be set1DArray's.
- NodeTree.NodeManagerBase.AddNodeAndReference: the attributes and arguments passed to the stack are not modelled, nor the
  cast of a method's properties to arguments; the stack's verdict is a parameter that is good only for a new id, and the
  parent of a call with a node is the root or a listed node.
- addUaReference (always throws), browse names, releaseReference: no effect on the list or the reference graph.
- Client sessions, configuration files, logging, date formatting and arithmetic, semaphores, status tables: input and
  output, thin wrappers or small.
