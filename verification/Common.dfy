/** Small shared vocabulary: options, 32-bit counters and facts about sequences. */
module Common {

  datatype Option<+T> = None | Some(value: T)

  const TWO_TO_THE_32: int := 0x1_0000_0000

  /** The values of a C++ `unsigned int`. */
  type UInt32 = x: int | 0 <= x < TWO_TO_THE_32

  /** Unsigned arithmetic wraps: the result is reduced modulo 2^32. */
  function Wrap32(x: int): UInt32 {
    x % TWO_TO_THE_32
  }

  /** Incrementing (or decrementing) a wrapped counter is wrapping the counter's true value moved by d. */
  lemma WrapStep(x: int, d: int)
    ensures Wrap32(Wrap32(x) + d) == Wrap32(x + d)
  {
    var q := x / TWO_TO_THE_32;
    assert x == q * TWO_TO_THE_32 + Wrap32(x);
    var y := Wrap32(x) + d;
    assert x + d == q * TWO_TO_THE_32 + y;
    ModShift(y, q);
  }

  lemma ModShift(y: int, q: int)
    ensures (y + q * TWO_TO_THE_32) % TWO_TO_THE_32 == y % TWO_TO_THE_32
  {
    var n := TWO_TO_THE_32;
    var r := y % n;
    var p := y / n;
    assert y == p * n + r;
    assert y + q * n == (p + q) * n + r;
    DivUnique(y + q * n, p + q, r);
  }

  lemma DivUnique(x: int, q: int, r: int)
    requires 0 <= r < TWO_TO_THE_32 && x == q * TWO_TO_THE_32 + r
    ensures x % TWO_TO_THE_32 == r
  {
  }

  ghost predicate NoDup<T>(s: seq<T>) {
    forall i, j :: 0 <= i < j < |s| ==> s[i] != s[j]
  }

  lemma NoDupConcat<T>(x: seq<T>, y: seq<T>)
    ensures NoDup(x + y) <==> NoDup(x) && NoDup(y) && forall e :: e in x ==> e !in y
  {
    var s := x + y;
    assert forall i :: 0 <= i < |x| ==> s[i] == x[i];
    assert forall j :: 0 <= j < |y| ==> s[|x| + j] == y[j];
    if NoDup(s) {
      forall e | e in x
        ensures e !in y
      {
        var i :| 0 <= i < |x| && x[i] == e;
        forall j | 0 <= j < |y|
          ensures y[j] != e
        {
          assert s[i] != s[|x| + j];
        }
      }
    } else if NoDup(x) && NoDup(y) {
      var i, j :| 0 <= i < j < |s| && s[i] == s[j];
      assert s[i] in x && s[j] in y;
    }
  }

  /** The elements of s outside x, in the order of s. */
  function Without<T(==)>(s: seq<T>, x: set<T>): seq<T> {
    if s == [] then []
    else Without(s[..|s|-1], x) + if s[|s|-1] in x then [] else [s[|s|-1]]
  }

  /** The elements of s inside x, in the order of s. */
  function Within<T(==)>(s: seq<T>, x: set<T>): seq<T> {
    if s == [] then []
    else Within(s[..|s|-1], x) + if s[|s|-1] in x then [s[|s|-1]] else []
  }

  lemma WithoutElements<T>(s: seq<T>, x: set<T>)
    ensures forall e :: e in Without(s, x) <==> e in s && e !in x
  {
    if s != [] {
      WithoutElements(s[..|s|-1], x);
      assert s == s[..|s|-1] + [s[|s|-1]];
    }
  }

  lemma WithinElements<T>(s: seq<T>, x: set<T>)
    ensures forall e :: e in Within(s, x) <==> e in s && e in x
  {
    if s != [] {
      WithinElements(s[..|s|-1], x);
      assert s == s[..|s|-1] + [s[|s|-1]];
    }
  }

  /** Filtering keeps a sequence free of duplicates. */
  lemma {:induction false} WithoutNoDup<T>(s: seq<T>, x: set<T>)
    requires NoDup(s)
    ensures NoDup(Without(s, x))
  {
    if s != [] {
      var front := s[..|s|-1];
      WithoutNoDup(front, x);
      WithoutElements(front, x);
      assert s[|s|-1] !in front;
    }
  }

  /** An element outside s can be added to the filter without effect on s. */
  lemma {:induction false} FilterIrrelevant<T>(s: seq<T>, x: set<T>, e: T)
    requires e !in s
    ensures Without(s, x + {e}) == Without(s, x)
    ensures Within(s, x + {e}) == Within(s, x)
  {
    if s != [] {
      assert s[|s|-1] in s;
      FilterIrrelevant(s[..|s|-1], x, e);
    }
  }

  lemma FilterAppend<T>(s: seq<T>, x: set<T>, e: T)
    ensures Without(s + [e], x) == Without(s, x) + if e in x then [] else [e]
    ensures Within(s + [e], x) == Within(s, x) + if e in x then [e] else []
  {
    assert (s + [e])[..|s|] == s;
  }
}
