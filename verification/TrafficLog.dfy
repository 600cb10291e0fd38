/** Sums over flows and over the plain log of observations that the traffic monitor stands for. */
module TrafficLog {
  import opened FlowKeys

  type Bucket = map<Key, Count>

  const ZERO := Count(0, 0)

  /** What is counted. */
  datatype Measure = Bytes | Packets

  function Of(c: Count, m: Measure): nat {
    if m == Bytes then c.bytes else c.packets
  }

  function Plus(a: Count, b: Count): Count {
    Count(a.bytes + b.bytes, a.packets + b.packets)
  }

  function Get(b: Bucket, k: Key): Count {
    if k in b then b[k] else ZERO
  }

  function Add(b: Bucket, k: Key, c: Count): Bucket {
    b[k := Plus(Get(b, k), c)]
  }

  function Merge(a: Bucket, b: Bucket): Bucket {
    map k | k in a.Keys + b.Keys :: Plus(Get(a, k), Get(b, k))
  }

  ghost function Total(b: Bucket, m: Measure): nat {
    if b == map[] then 0
    else
      var k :| k in b;
      Of(b[k], m) + Total(b - {k}, m)
  }

  /** The total does not depend on the order of summation. */
  lemma {:induction false} TotalWithout(b: Bucket, k: Key, m: Measure)
    requires k in b
    ensures Total(b, m) == Of(b[k], m) + Total(b - {k}, m)
    decreases |b|
  {
    var j :| j in b && Total(b, m) == Of(b[j], m) + Total(b - {j}, m);
    if j != k {
      TotalWithout(b - {j}, k, m);
      TotalWithout(b - {k}, j, m);
      assert b - {j} - {k} == b - {k} - {j};
    }
  }

  lemma TotalOfAdd(b: Bucket, k: Key, c: Count, m: Measure)
    ensures Total(Add(b, k, c), m) == Total(b, m) + Of(c, m)
  {
    var a := Add(b, k, c);
    TotalWithout(a, k, m);
    assert a - {k} == b - {k};
    if k in b {
      TotalWithout(b, k, m);
    } else {
      assert b - {k} == b;
    }
  }

  lemma PlusZero(c: Count)
    ensures Plus(c, ZERO) == c && Plus(ZERO, c) == c
  {
  }

  lemma MergeOneMore(a: Bucket, b: Bucket, k: Key)
    requires k in b
    ensures Merge(a, b) == Add(Merge(a, b - {k}), k, b[k])
  {
    PlusZero(Get(a, k));
    hide Plus;
    var l, r := Merge(a, b), Add(Merge(a, b - {k}), k, b[k]);
    assert l.Keys == r.Keys;
    forall j | j in l ensures l[j] == r[j] {
      if j != k { assert Get(b - {k}, j) == Get(b, j); }
    }
  }

  lemma MergeNothing(a: Bucket)
    ensures Merge(a, map[]) == a
  {
    forall k | k in a ensures Merge(a, map[])[k] == a[k] {
      PlusZero(a[k]);
    }
  }

  lemma {:induction false} TotalOfMerge(a: Bucket, b: Bucket, m: Measure)
    ensures Total(Merge(a, b), m) == Total(a, m) + Total(b, m)
    decreases |b|
  {
    if b == map[] {
      MergeNothing(a);
      assert b == map[];
    } else {
      hide Merge, Add;
      var k :| k in b;
      TotalOfMerge(a, b - {k}, m);
      MergeOneMore(a, b, k);
      TotalOfAdd(Merge(a, b - {k}), k, b[k], m);
      TotalWithout(b, k, m);
    }
  }

  // ---------------------------------------------------------------- the log

  /** One accepted observation. */
  datatype Observation = Observation(second: int, key: Key, bytes: nat)

  type Log = seq<Observation>

  function One(o: Observation): Count {
    Count(o.bytes, 1)
  }

  /** Bytes or packets of a flow over the seconds from, ..., to - 1. */
  function FlowSum(log: Log, from: int, to: int, key: Key, m: Measure): nat {
    if log == [] then 0
    else
      var o := log[|log| - 1];
      FlowSum(log[..|log| - 1], from, to, key, m) + if from <= o.second < to && o.key == key then Of(One(o), m) else 0
  }

  /** Bytes or packets of all traffic over the seconds from, ..., to - 1. */
  function TotalSum(log: Log, from: int, to: int, m: Measure): nat {
    if log == [] then 0
    else
      var o := log[|log| - 1];
      TotalSum(log[..|log| - 1], from, to, m) + if from <= o.second < to then Of(One(o), m) else 0
  }

  /** The flows of one second. */
  function BucketOf(log: Log, second: int): Bucket {
    if log == [] then map[]
    else
      var o := log[|log| - 1];
      var before := BucketOf(log[..|log| - 1], second);
      if o.second == second then Add(before, o.key, One(o)) else before
  }

  lemma BucketOfAppend(log: Log, o: Observation, second: int)
    ensures BucketOf(log + [o], second)
            == if o.second == second then Add(BucketOf(log, second), o.key, One(o)) else BucketOf(log, second)
  {
    assert (log + [o])[..|log|] == log;
  }

  lemma {:induction false} BucketSums(log: Log, second: int, key: Key, m: Measure)
    ensures Of(Get(BucketOf(log, second), key), m) == FlowSum(log, second, second + 1, key, m)
    ensures Total(BucketOf(log, second), m) == TotalSum(log, second, second + 1, m)
  {
    if log != [] {
      var front, o := log[..|log| - 1], log[|log| - 1];
      BucketSums(front, second, key, m);
      TotalOfAdd(BucketOf(front, second), o.key, One(o), m);
    }
  }

  lemma {:induction false} SumsSplit(log: Log, from: int, mid: int, to: int, key: Key, m: Measure)
    requires from <= mid <= to
    ensures FlowSum(log, from, to, key, m) == FlowSum(log, from, mid, key, m) + FlowSum(log, mid, to, key, m)
    ensures TotalSum(log, from, to, m) == TotalSum(log, from, mid, m) + TotalSum(log, mid, to, m)
  {
    if log != [] { SumsSplit(log[..|log| - 1], from, mid, to, key, m); }
  }

  lemma {:induction false} EmptySums(log: Log, from: int, key: Key, m: Measure)
    ensures FlowSum(log, from, from, key, m) == 0 && TotalSum(log, from, from, m) == 0
  {
    if log != [] { EmptySums(log[..|log| - 1], from, key, m); }
  }

  // ---------------------------------------------------------------- windows of buckets

  type Buckets = map<int, Bucket>

  function At(buckets: Buckets, second: int): Bucket {
    if second in buckets then buckets[second] else map[]
  }

  /** The flows of n consecutive seconds. */
  function WindowFlows(buckets: Buckets, from: int, n: nat): Bucket {
    if n == 0 then map[] else Merge(WindowFlows(buckets, from, n - 1), At(buckets, from + n - 1))
  }

  /** Buckets that agree with the log give the log's sums, flow by flow and in total. */
  lemma {:induction false} WindowSums(buckets: Buckets, log: Log, from: int, n: nat, key: Key, m: Measure)
    requires forall s :: from <= s < from + n ==> At(buckets, s) == BucketOf(log, s)
    ensures Of(Get(WindowFlows(buckets, from, n), key), m) == FlowSum(log, from, from + n, key, m)
    ensures Total(WindowFlows(buckets, from, n), m) == TotalSum(log, from, from + n, m)
  {
    hide Merge, BucketOf, FlowSum, TotalSum, Total, Of, Get;
    if n == 0 {
      EmptyWindow(log, from, key, m);
    } else {
      var s := from + n - 1;
      WindowSums(buckets, log, from, n - 1, key, m);
      SumsSplit(log, from, s, from + n, key, m);
      BucketSums(log, s, key, m);
      assert At(buckets, s) == BucketOf(log, s);
      var before := WindowFlows(buckets, from, n - 1);
      TotalOfMerge(before, At(buckets, s), m);
      GetOfMerge(before, At(buckets, s), key, m);
    }
  }

  lemma EmptyWindow(log: Log, from: int, key: Key, m: Measure)
    ensures Of(Get(map[], key), m) == FlowSum(log, from, from, key, m)
    ensures Total(map[], m) == TotalSum(log, from, from, m)
  {
    EmptySums(log, from, key, m);
  }

  lemma GetOfMerge(a: Bucket, b: Bucket, k: Key, m: Measure)
    ensures Of(Get(Merge(a, b), k), m) == Of(Get(a, k), m) + Of(Get(b, k), m)
  {
  }
}
