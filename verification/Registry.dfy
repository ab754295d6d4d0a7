/**
 * The fields of AsyncOperations and the effect of each of its critical sections on them.
 * The class AsyncOperations and the protocol's transition system share these definitions:
 * K is the type of target addresses, B the type of blocks.
 */
module Registry {
  import opened Common

  datatype Shared<K(==), B> = Shared(
    pending: map<K, B>,
    queue: seq<B>,
    serving: bool,
    closed: bool,
    inflight: UInt32)

  function Fresh<K, B>(): Shared<K, B> {
    Shared(map[], [], false, false, 0)
  }

  /** First half of establishDeferral, under the queue mutex. */
  function Counted<K, B>(sh: Shared<K, B>): Shared<K, B> {
    sh.(inflight := Wrap32(sh.inflight + 1))
  }

  /** Second half of establishDeferral: the registry belongs to the server thread. */
  function Registered<K, B>(sh: Shared<K, B>, key: K, b: B): Shared<K, B> {
    sh.(pending := sh.pending[key := b])
  }

  function Pushed<K, B>(sh: Shared<K, B>, b: B): Shared<K, B> {
    sh.(queue := if sh.closed then sh.queue else sh.queue + [b],
        inflight := Wrap32(sh.inflight - 1))
  }

  function Swapped<K, B>(sh: Shared<K, B>): Shared<K, B> {
    sh.(queue := [])
  }

  predicate Matches<K(==), B(==)>(pending: map<K, B>, key: K, b: B) {
    key in pending && pending[key] == b
  }

  function Erased<K, B>(pending: map<K, B>, key: K): map<K, B> {
    map k | k in pending && k != key :: pending[k]
  }

  /** The registry after drain has looked at one block of its batch. */
  function Settled<K, B(==)>(pending: map<K, B>, key: K, b: B): map<K, B> {
    if Matches(pending, key, b) then Erased(pending, key) else pending
  }

  /** The registry after drain has looked at every block of its batch, in order. */
  function SettledAll<K, B(==)>(pending: map<K, B>, batch: seq<B>, key: B -> K): map<K, B> {
    if batch == [] then pending
    else
      var b := batch[|batch|-1];
      Settled(SettledAll(pending, batch[..|batch|-1], key), key(b), b)
  }

  /** The blocks of a batch that drain finishes, in order. */
  function FinishedOf<K, B(==)>(pending: map<K, B>, batch: seq<B>, key: B -> K): seq<B> {
    if batch == [] then []
    else
      var front, b := batch[..|batch|-1], batch[|batch|-1];
      FinishedOf(pending, front, key) +
      if Matches(SettledAll(pending, front, key), key(b), b) then [b] else []
  }

  /**
   * What one drain does, said without its loop: it finishes exactly the blocks of its batch that the registry
   * holds at their own address, once each however often they occur, and erases exactly those entries.
   */
  lemma {:induction false} DrainIsExact<K, B>(pending: map<K, B>, batch: seq<B>, key: B -> K)
    ensures forall b :: b in FinishedOf(pending, batch, key) <==> b in batch && Matches(pending, key(b), b)
    ensures NoDup(FinishedOf(pending, batch, key))
    ensures SettledAll(pending, batch, key)
         == map k | k in pending && !(pending[k] in batch && key(pending[k]) == k) :: pending[k]
  {
    if batch != [] {
      var front, b := batch[..|batch|-1], batch[|batch|-1];
      DrainIsExact(pending, front, key);
      assert batch == front + [b];
    }
  }

  /** Draining one batch and then another is draining their concatenation. */
  lemma {:induction false} DrainsCompose<K, B>(pending: map<K, B>, first: seq<B>, second: seq<B>, key: B -> K)
    ensures SettledAll(pending, first + second, key) == SettledAll(SettledAll(pending, first, key), second, key)
    ensures FinishedOf(pending, first + second, key)
         == FinishedOf(pending, first, key) + FinishedOf(SettledAll(pending, first, key), second, key)
  {
    if second == [] {
      assert first + second == first;
    } else {
      var front := second[..|second|-1];
      DrainsCompose(pending, first, front, key);
      assert (first + second)[..|first + second|-1] == first + front;
    }
  }
}
