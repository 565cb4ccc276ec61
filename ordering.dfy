/** The ordering step of `InvokeRequest`: the resolved behaviors sorted by the
    `Order` of their `[PipelineOrder]` attribute, 0 when the attribute is absent,
    with LINQ's `OrderBy`, which is a stable sort. */
module Ordering {
  import opened Wrappers
  import opened Runtime
  import opened Sequences

  /** A resolved behavior instance: its implementation type and the order its
      class declares, if any. */
  datatype Behavior = Behavior(impl: TypeId, order: Option<int>)

  /** The sort key: `GetCustomAttribute<PipelineOrderAttribute>()?.Order ?? 0`. */
  function Key(b: Behavior): int {
    b.order.GetOr(0)
  }

  ghost predicate Sorted(s: seq<Behavior>) {
    forall i, j :: 0 <= i < j < |s| ==> Key(s[i]) <= Key(s[j])
  }

  /** The behaviors of `s` whose key is `k`, in the order `s` has them. */
  function WithKey(s: seq<Behavior>, k: int): seq<Behavior>
  {
    if s == [] then []
    else (if Key(s[0]) == k then [s[0]] else []) + WithKey(s[1..], k)
  }

  /** `r` keeps, for every key, the relative order `s` had: the stability of a sort. */
  ghost predicate SameTies(r: seq<Behavior>, s: seq<Behavior>) {
    forall k :: WithKey(r, k) == WithKey(s, k)
  }

  /** Inserts `b` before the first element whose key is not smaller than its own. */
  function Insert(b: Behavior, s: seq<Behavior>): seq<Behavior> {
    if s == [] || Key(b) <= Key(s[0]) then [b] + s
    else [s[0]] + Insert(b, s[1..])
  }

  /** `OrderBy(Key)`: a stable insertion sort. */
  function OrderBy(s: seq<Behavior>): seq<Behavior> {
    if s == [] then [] else Insert(s[0], OrderBy(s[1..]))
  }

  /** Putting a key no larger than the head's in front keeps a sequence sorted. */
  lemma ConsSorted(x: Behavior, t: seq<Behavior>)
    requires Sorted(t)
    requires t != [] ==> Key(x) <= Key(t[0])
    ensures Sorted([x] + t)
  {
    forall i, j | 0 <= i < j < |[x] + t| ensures Key(([x] + t)[i]) <= Key(([x] + t)[j]) {
      if i == 0 {
        assert ([x] + t)[j] == t[j - 1];
      } else {
        assert ([x] + t)[i] == t[i - 1] && ([x] + t)[j] == t[j - 1];
      }
    }
  }

  lemma {:induction false} InsertSorted(b: Behavior, s: seq<Behavior>)
    requires Sorted(s)
    ensures Sorted(Insert(b, s))
    ensures Insert(b, s)[0] == if s == [] || Key(b) <= Key(s[0]) then b else s[0]
  {
    if s == [] || Key(b) <= Key(s[0]) {
      ConsSorted(b, s);
    } else {
      InsertSorted(b, s[1..]);
      ConsSorted(s[0], Insert(b, s[1..]));
    }
  }

  lemma {:induction false} InsertPermutes(b: Behavior, s: seq<Behavior>)
    ensures multiset(Insert(b, s)) == multiset(s) + multiset{b}
  {
    if s == [] || Key(b) <= Key(s[0]) {
    } else {
      InsertPermutes(b, s[1..]);
      assert s == [s[0]] + s[1..];
    }
  }

  /** Inserting `b` adds it to its own key's run at the front, and touches no
      other key's run. */
  lemma {:induction false} InsertWithKey(b: Behavior, s: seq<Behavior>, k: int)
    ensures WithKey(Insert(b, s), k) == (if Key(b) == k then [b] else []) + WithKey(s, k)
  {
    if s == [] || Key(b) <= Key(s[0]) {
      assert ([b] + s)[1..] == s;
    } else {
      var h := if Key(s[0]) == k then [s[0]] else [];
      var bk := if Key(b) == k then [b] else [];
      var rest := WithKey(s[1..], k);
      assert h + bk == bk + h;  // Key(s[0]) < Key(b), so one of them is empty
      calc {
        WithKey(Insert(b, s), k);
        { TailOfAppend([s[0]], Insert(b, s[1..])); }
        h + WithKey(Insert(b, s[1..]), k);
        { InsertWithKey(b, s[1..], k); }
        h + (bk + rest);
        { SeqAssoc(h, bk, rest); }
        bk + h + rest;
        { SeqAssoc(bk, h, rest); }
        bk + (h + rest);
      }
    }
  }

  /** The result is sorted ascending by key. */
  lemma {:induction false} OrderBySorted(s: seq<Behavior>)
    ensures Sorted(OrderBy(s))
    ensures multiset(OrderBy(s)) == multiset(s)
  {
    if s != [] {
      OrderBySorted(s[1..]);
      InsertSorted(s[0], OrderBy(s[1..]));
      InsertPermutes(s[0], OrderBy(s[1..]));
      assert s == [s[0]] + s[1..];
    }
  }

  /** Behaviors with equal keys keep the order in which the resolver returned them. */
  lemma {:induction false} OrderByStable(s: seq<Behavior>)
    ensures SameTies(OrderBy(s), s)
  {
    if s != [] {
      OrderByStable(s[1..]);
      forall k ensures WithKey(OrderBy(s), k) == WithKey(s, k) {
        InsertWithKey(s[0], OrderBy(s[1..]), k);
      }
    }
  }

  /** In a sorted sequence the first element has the least key of all. */
  lemma {:induction false} FirstKeyIsLeast(s: seq<Behavior>, k: int)
    requires Sorted(s)
    requires WithKey(s, k) != []
    ensures Key(s[0]) <= k
  {
    if Key(s[0]) != k {
      assert WithKey(s[1..], k) != [];
      FirstKeyIsLeast(s[1..], k);
    }
  }

  /** A sequence whose runs are those of an empty one is empty. */
  lemma NoRunsMeansEmpty(r: seq<Behavior>, q: seq<Behavior>)
    requires SameTies(r, q)
    ensures r == [] ==> q == []
  {
    if q != [] {
      assert WithKey(q, Key(q[0])) != [];
    }
  }

  /** Two sorted sequences with the same runs for every key are equal. */
  lemma {:induction false} SortedTiesDetermine(r: seq<Behavior>, q: seq<Behavior>)
    requires Sorted(r) && Sorted(q)
    requires SameTies(r, q)
    ensures r == q
    decreases |r|
  {
    NoRunsMeansEmpty(r, q);
    NoRunsMeansEmpty(q, r);
    if r != [] {
      var m := Key(r[0]);
      assert WithKey(r, m) != [];
      FirstKeyIsLeast(q, m);
      assert WithKey(q, Key(q[0])) != [];
      FirstKeyIsLeast(r, Key(q[0]));
      assert Key(q[0]) == m;
      assert WithKey(r, m) == [r[0]] + WithKey(r[1..], m);
      assert WithKey(q, m) == [q[0]] + WithKey(q[1..], m);
      assert r[0] == WithKey(r, m)[0] == WithKey(q, m)[0] == q[0];
      forall k ensures WithKey(r[1..], k) == WithKey(q[1..], k) {
        if k == m {
          assert WithKey(r[1..], m) == WithKey(r, m)[1..];
          assert WithKey(q[1..], m) == WithKey(q, m)[1..];
        } else {
          assert WithKey(r[1..], k) == WithKey(r, k);
          assert WithKey(q[1..], k) == WithKey(q, k);
        }
      }
      SortedTiesDetermine(r[1..], q[1..]);
      assert r == [r[0]] + r[1..] && q == [q[0]] + q[1..];
    }
  }

  /** `OrderBy` is THE stable sort: any sorted arrangement that keeps every key's
      run in input order is exactly its result. */
  lemma OrderByIsTheStableSort(s: seq<Behavior>, r: seq<Behavior>)
    requires Sorted(r) && SameTies(r, s)
    ensures r == OrderBy(s)
  {
    OrderBySorted(s);
    OrderByStable(s);
    SortedTiesDetermine(r, OrderBy(s));
  }
}
