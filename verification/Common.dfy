/** What several parts share: optional values, sequences without repetition, and pieces of
    memory that do not overlap. */
module Common {

  datatype Option<T> = None | Some(value: T)

  ghost predicate Distinct(q: seq<nat>) {
    forall i, j :: 0 <= i < j < |q| ==> q[i] != q[j]
  }

  /** What comes after place `k` of a linked list; 0 is the end. */
  function After(q: seq<nat>, k: int): nat {
    if 0 <= k + 1 < |q| then q[k + 1] else 0
  }

  /** The `n` bytes at `a` and the `m` bytes at `b` do not overlap. */
  ghost predicate Apart(a: nat, n: nat, b: nat, m: nat) {
    a + n <= b || b + m <= a
  }

  function RemoveAt<T>(q: seq<T>, k: int): seq<T>
    requires 0 <= k < |q|
  {
    q[..k] + q[k + 1..]
  }

  lemma NoneAppended<T>(a: seq<T>)
    ensures a + [] == a
  {
  }

  lemma Appended<T>(a: seq<T>, b: seq<T>, c: seq<T>)
    ensures a + (b + c) == a + b + c
  {
  }
}
