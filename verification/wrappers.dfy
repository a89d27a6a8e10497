/** Failure-compatible helper datatypes and small sequence facts shared by
    the rest of the model. */
module Wrappers {

  /** A value that may be absent: a missing regex match, a failed hex decode. */
  datatype Option<+T> = None | Some(value: T) {

    predicate IsFailure() {
      None?
    }

    function PropagateFailure<U>(): Option<U>
      requires None?
    {
      None
    }

    function Extract(): T
      requires Some?
    {
      value
    }
  }

  function Min(a: int, b: int): int {
    if a <= b then a else b
  }

  /** Concatenation regroups freely, and the empty sequence is its unit. */
  lemma AppendAssoc<T>(a: seq<T>, b: seq<T>, c: seq<T>)
    ensures a + b + c == a + (b + c)
    ensures [] + a == a
  {
  }

  /** Dropping the last element of a concatenation with a non-empty right
      part drops it from the right part. */
  lemma AppendDropLast<T>(a: seq<T>, b: seq<T>)
    requires |b| > 0
    ensures (a + b)[..|a + b| - 1] == a + b[..|b| - 1]
    ensures (a + b)[|a + b| - 1] == b[|b| - 1]
  {
  }

  /** The first `i + 1` elements are the first `i` and element `i`. */
  lemma TakeOneMore<T>(s: seq<T>, i: nat)
    requires i < |s|
    ensures s[..i + 1][..i] == s[..i]
    ensures s[..i + 1][i] == s[i]
  {
  }
}
