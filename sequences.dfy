/** Facts about sequence concatenation that the proofs use by name. */
module Sequences {
  /** Dropping the head of a concatenation whose left part is not empty. */
  lemma TailOfAppend<T>(a: seq<T>, b: seq<T>)
    requires a != []
    ensures (a + b)[0] == a[0] && (a + b)[1..] == a[1..] + b
  {
  }

  lemma SeqAssoc<T>(a: seq<T>, b: seq<T>, c: seq<T>)
    ensures a + (b + c) == a + b + c
  {
  }

  /** Appending six phases one at a time is appending their concatenation. */
  lemma ConcatRegroups<T>(s: seq<T>, a: seq<T>, b: seq<T>, c: seq<T>, d: seq<T>, e: seq<T>, f: seq<T>)
    ensures s + a + b + c + d + e + f == s + (a + b + c + d + e + f)
  {
  }

  lemma AppendFive<T>(s: seq<T>, a: T, b: T, c: T, d: T, e: T)
    ensures s + [a] + [b] + [c] + [d] + [e] == s + [a, b, c, d, e]
  {
  }

  /** Where each part of `a + [x] + b` sits. */
  lemma IndexAroundMiddle<T>(a: seq<T>, x: T, b: seq<T>)
    ensures |a + [x] + b| == |a| + 1 + |b|
    ensures forall i :: 0 <= i < |a| ==> (a + [x] + b)[i] == a[i]
    ensures (a + [x] + b)[|a|] == x
    ensures forall k :: |a| < k < |a| + 1 + |b| ==> (a + [x] + b)[k] == b[k - |a| - 1]
  {
  }
}
