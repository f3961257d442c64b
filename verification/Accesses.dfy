/** The order in which memory is read and freed. */
module Accesses {
  datatype Access<T> = Freed(it: T) | Read(it: T)

  /** Something is read after it was freed. */
  ghost predicate Stale<T>(log: seq<Access<T>>) {
    exists i, j :: 0 <= i < j < |log| && log[i].Freed? && log[j] == Read(log[i].it)
  }

  /** b is a, followed by reads. */
  ghost predicate ReadsOn<T>(a: seq<Access<T>>, b: seq<Access<T>>) {
    a <= b && forall i :: |a| <= i < |b| ==> b[i].Read?
  }

  lemma {:induction false} ReadsOneMore<T>(a: seq<Access<T>>, b: seq<Access<T>>, x: T)
    requires ReadsOn(a, b)
    ensures ReadsOn(a, b + [Read(x)])
  {
  }
}
