/** The traffic monitor's code: maps updated in place, with a reference-counted key table. */
module TrafficMeter {
  import opened Words
  import opened FlowKeys
  import opened TrafficLog
  import opened TrafficMonitor

  /** The live buckets that hold a key. */
  ghost function Holders(buckets: Buckets, k: Key): set<int> {
    set s | s in buckets && k in buckets[s]
  }

  ghost predicate Tally(keys: map<Key, int>, k: Key, n: nat) {
    if n > 0 then k in keys && keys[k] == n else k !in keys
  }

  /** Each key is counted once for every live bucket that holds it. */
  ghost predicate KeysOk(buckets: Buckets, keys: map<Key, int>) {
    forall k: Key :: Tally(keys, k, |Holders(buckets, k)|)
  }

  lemma KeysAreAllKeys(buckets: Buckets, keys: map<Key, int>)
    requires KeysOk(buckets, keys)
    ensures keys.Keys == AllKeys(buckets) && |keys| == |AllKeys(buckets)|
  {
    forall k ensures k in keys <==> k in AllKeys(buckets) {
      assert Tally(keys, k, |Holders(buckets, k)|);
      if k in AllKeys(buckets) {
        var s :| s in buckets && k in buckets[s];
        assert s in Holders(buckets, k);
      }
      assert forall s :: s in Holders(buckets, k) ==> k in AllKeys(buckets);
      assert k in AllKeys(buckets) || Holders(buckets, k) == {};
    }
    assert keys.Keys == AllKeys(buckets);
  }

  lemma HoldersWithout(buckets: Buckets, second: int, k: Key)
    requires second in buckets
    ensures |Holders(buckets - {second}, k)| == |Holders(buckets, k)| - if k in buckets[second] then 1 else 0
  {
    assert Holders(buckets - {second}, k) == Holders(buckets, k) - {second};
  }

  lemma HoldersWith(buckets: Buckets, second: int, bucket: Bucket, k: Key)
    requires At(buckets, second).Keys <= bucket.Keys
    ensures |Holders(buckets[second := bucket], k)|
            == |Holders(buckets, k)| + if k in bucket && k !in At(buckets, second) then 1 else 0
  {
    var after := buckets[second := bucket];
    if k in bucket {
      assert Holders(after, k) == Holders(buckets, k) + {second};
    } else {
      assert Holders(after, k) == Holders(buckets, k);
    }
  }

  datatype Record = Record(second: int, key: Key, count: Count)

  /** One pass over a bucket of Snapshot's double loop. */
  method Accumulate(flows: Bucket, bucket: Bucket) returns (after: Bucket, point: Count)
    ensures after == Merge(flows, bucket)
    ensures forall m :: Of(point, m) == Total(bucket, m)
  {
    after, point := flows, ZERO;
    var left := bucket.Keys;
    ghost var done: Bucket := map[];
    MergeNothing(flows);
    while left != {}
      invariant left <= bucket.Keys
      invariant done == bucket - left
      invariant after == Merge(flows, done)
      invariant forall m :: Of(point, m) == Total(done, m)
      decreases left
    {
      var k := Pick(left);
      left := left - {k};
      ghost var more := bucket - left;
      assert more - {k} == done && more[k] == bucket[k];
      MergeOneMore(flows, more, k);
      forall m ensures Total(more, m) == Of(bucket[k], m) + Total(done, m) {
        TotalWithout(more, k, m);
      }
      after := Add(after, k, bucket[k]);
      point := Plus(point, bucket[k]);
      done := more;
    }
    assert done == bucket;
  }

  ghost function RateOf(rate: map<Key, nat>, k: Key): nat {
    if k in rate then rate[k] else 0
  }

  method AccumulateRate(rate: map<Key, nat>, bucket: Bucket) returns (after: map<Key, nat>)
    ensures forall k :: RateOf(after, k) == RateOf(rate, k) + Of(Get(bucket, k), Bytes)
  {
    after := rate;
    var left := bucket.Keys;
    while left != {}
      invariant left <= bucket.Keys
      invariant forall k :: RateOf(after, k) == RateOf(rate, k) + if k in left then 0 else Of(Get(bucket, k), Bytes)
      decreases left
    {
      var k := Pick(left);
      left := left - {k};
      after := after[k := (if k in after then after[k] else 0) + bucket[k].bytes];
    }
  }

  class Meter {
    var buckets: Buckets
    var keys: map<Key, int>
    var flushed: set<int>

    ghost predicate Valid()
      reads this
    {
      KeysOk(buckets, keys)
    }

    ghost function View(): Monitor
      reads this
    {
      Monitor(buckets, flushed)
    }

    constructor ()
      ensures Valid() && View() == Monitor(map[], {})
    {
      buckets, keys, flushed := map[], map[], {};
    }

    /** Drop one reference to every key of a bucket that is about to go. */
    method Release(second: int)
      requires Valid() && second in buckets
      modifies this`keys
      ensures KeysOk(buckets - {second}, keys)
    {
      var left := buckets[second].Keys;
      ghost var rest := buckets - {second};
      forall k: Key ensures Tally(keys, k, if k in left then |Holders(buckets, k)| else |Holders(rest, k)|) {
        HoldersWithout(buckets, second, k);
        assert Tally(keys, k, |Holders(buckets, k)|);
      }
      while left != {}
        invariant left <= buckets[second].Keys
        invariant forall k: Key :: Tally(keys, k, if k in left then |Holders(buckets, k)| else |Holders(rest, k)|)
        decreases left
      {
        var k := Pick(left);
        assert Tally(keys, k, |Holders(buckets, k)|);
        HoldersWithout(buckets, second, k);
        left := left - {k};
        keys := keys[k := keys[k] - 1];
        if keys[k] <= 0 {
          keys := keys - {k};
        }
      }
    }

    method Prune(now: int)
      requires Valid()
      modifies this
      ensures Valid() && View() == Pruned(old(View()), now)
      ensures forall s :: s in buckets <==> s in old(buckets) && now - 60 < s
      ensures forall s :: s in buckets ==> buckets[s] == old(buckets)[s]
      ensures forall s :: s in flushed <==> s in old(flushed) && !(s in old(buckets) && s <= now - 60)
    {
      var left := buckets.Keys;
      while left != {}
        invariant Valid() && left <= buckets.Keys
        invariant forall s :: s in buckets ==> s in old(buckets) && buckets[s] == old(buckets)[s]
        invariant forall s :: s in old(buckets) && (s in left || s > now - WINDOW) ==> s in buckets
        invariant forall s :: s in buckets && s !in left ==> s > now - WINDOW
        invariant flushed == old(flushed) - (old(buckets).Keys - buckets.Keys)
        decreases left
      {
        var second := Pick(left);
        left := left - {second};
        if second <= now - WINDOW {
          Release(second);
          buckets := buckets - {second};
          flushed := flushed - {second};
        }
      }
      ghost var kept := Pruned(old(View()), now).buckets;
      assert forall s :: s in buckets ==> s in kept && buckets[s] == kept[s];
      assert forall s :: s in kept ==> s in buckets;
      assert buckets == kept;
      assert old(buckets).Keys - buckets.Keys == set s | s in old(buckets) && s <= now - WINDOW;
    }

    /** Make sure the current second has a bucket. */
    method OpenBucket(now: int)
      requires Valid()
      modifies this`buckets
      ensures Valid() && buckets == old(buckets)[now := At(old(buckets), now)]
    {
      if now !in buckets {
        KeysAfterOpening(buckets, keys, now);
        buckets := buckets[now := map[]];
      } else {
        assert buckets[now := buckets[now]] == buckets;
      }
    }

    /** Count a packet in the current second unless the key table is full; returns whether it was counted. */
    method CountPacket(key: Key, bytes: nat, now: int) returns (counted: bool)
      requires Valid() && now in buckets
      modifies this`buckets, this`keys
      ensures Valid()
      ensures counted
              == (key in old(buckets)[now] || key in AllKeys(old(buckets)) || |AllKeys(old(buckets))| < MAX_FLOWS)
      ensures buckets == if counted then old(buckets)[now := Add(old(buckets)[now], key, Count(bytes, 1))]
                         else old(buckets)
    {
      hide KeysOk, AllKeys, Add;
      KeysAreAllKeys(buckets, keys);
      KeysAfterCounting(buckets, keys, now, key, Count(bytes, 1));
      AddedKeyIsHeld(buckets[now], key, Count(bytes, 1));
      if key !in buckets[now] {
        if key !in keys && |keys| >= MAX_FLOWS {
          return false;
        }
        keys := keys[key := (if key in keys then keys[key] else 0) + 1];
      }
      buckets := buckets[now := Add(buckets[now], key, Count(bytes, 1))];
      return true;
    }

    /** Returns whether the observation was counted. */
    method Observe(key: Key, packetBytes: int, now: int) returns (counted: bool)
      requires Valid()
      modifies this
      ensures Valid()
      ensures
        if packetBytes <= 0 || key.source == "" || key.destination == "" then !counted && View() == old(View())
        else View() == Observed(old(View()), now, key, packetBytes) && counted == Admits(old(View()), now, key)
    {
      if packetBytes <= 0 || key.source == "" || key.destination == "" {
        return false;
      }
      Prune(now);
      hide KeysOk, Add, Pruned;
      ghost var pruned := buckets;
      OpenBucket(now);
      OpeningAddsNoKeys(pruned, now);
      HeldKeyIsLive(pruned, now, key);
      counted := CountPacket(key, packetBytes, now);
      ghost var bucket := At(pruned, now);
      assert buckets == pruned[now := if counted then Add(bucket, key, Count(packetBytes, 1)) else bucket];
    }

    method Snapshot(now: int) returns (flows: Bucket, rate: map<Key, nat>, series: seq<Count>, total: Count)
      requires Valid()
      modifies this
      ensures Valid() && View() == Pruned(old(View()), now)
      ensures SnapshotOf(buckets, now, flows, rate, series, total)
    {
      Prune(now);
      flows, rate, series, total := SumUp(buckets, now);
    }

    /** flushHistory up to the point where it releases the lock: the records for the sink, oldest second first. */
    method BeginFlush(now: int) returns (records: seq<Record>, seconds: set<int>)
      requires Valid()
      modifies this
      ensures Valid() && View() == Pruned(old(View()), now)
      ensures seconds == (set s | s in buckets && s !in flushed && s < now) && seconds == Batch(View(), now).Keys
      ensures RecordsOf(Batch(View(), now), records)
    {
      Prune(now);
      seconds := set s | s in buckets && s !in flushed && s < now;
      ghost var batch := Batch(View(), now);
      records := [];
      var left := seconds;
      while left != {}
        invariant left <= seconds && Valid() && View() == Pruned(old(View()), now)
        invariant RecordsOf(batch - left, records)
        invariant forall i, s :: 0 <= i < |records| && s in left ==> records[i].second < s
        decreases left
      {
        var second := Least(left);
        var more := RecordsOfSecond(second, buckets[second]);
        RecordsAppend(batch, left, records, second, more);
        records := records + more;
        left := left - {second};
      }
      assert batch - left == batch;
    }

    method EndFlush(seconds: set<int>)
      requires Valid()
      modifies this
      ensures Valid() && View() == old(View()).(flushed := old(flushed) + seconds)
    {
      flushed := flushed + seconds;
    }
  }

  /** What a snapshot shows: the minute's flows, their totals, each second's total and the rate window's bytes. */
  ghost predicate SnapshotOf(buckets: Buckets, now: int, flows: Bucket, rate: map<Key, nat>, series: seq<Count>,
                             total: Count) {
    && flows == WindowFlows(buckets, now - WINDOW + 1, WINDOW)
    && |series| == WINDOW
    && (forall i, m :: 0 <= i < WINDOW ==> Of(series[i], m) == Total(At(buckets, now - WINDOW + 1 + i), m))
    && (forall m :: Of(total, m) == Total(flows, m))
    && (forall k :: RateOf(rate, k) == Of(Get(WindowFlows(buckets, now - RATE_WINDOW + 1, RATE_WINDOW), k), Bytes))
  }

  function SumOfSeries(series: seq<Count>, m: Measure): nat {
    if series == [] then 0 else SumOfSeries(series[..|series| - 1], m) + Of(series[|series| - 1], m)
  }

  lemma {:induction false} SeriesSums(log: Log, from: int, series: seq<Count>, key: Key, m: Measure)
    requires forall i :: 0 <= i < |series| ==> Of(series[i], m) == TotalSum(log, from + i, from + i + 1, m)
    ensures SumOfSeries(series, m) == TotalSum(log, from, from + |series|, m)
  {
    if series == [] {
      EmptySums(log, from, key, m);
    } else {
      var n := |series| - 1;
      SeriesSums(log, from, series[..n], key, m);
      SumsSplit(log, from, from + n, from + n + 1, key, m);
    }
  }

  /**
   In every run a snapshot shows exactly the accepted observations of its window: each flow, each of the 60
   points, the total (which is the sum of the points and of the flows) and the rate window's bytes.
   */
  lemma SnapshotShowsTheLog(start: int, events: seq<Event>, flows: Bucket, rate: map<Key, nat>, series: seq<Count>,
                            total: Count, key: Key, m: Measure)
    requires
      var w := Run(start, events);
      |series| == 60 && SnapshotOf(Pruned(w.monitor, w.now).buckets, w.now, flows, rate, series, total)
    ensures
      var w := Run(start, events);
      var from := w.now - 59;
      && Of(Get(flows, key), m) == FlowSum(w.log, from, w.now + 1, key, m)
      && (forall i :: 0 <= i < 60 ==> Of(series[i], m) == TotalSum(w.log, from + i, from + i + 1, m))
      && Of(total, m) == TotalSum(w.log, from, w.now + 1, m) == SumOfSeries(series, m) == Total(flows, m)
      && RateOf(rate, key) == FlowSum(w.log, w.now - 4, w.now + 1, key, Bytes)
  {
    hide Pruned, SnapshotOf, FlowSum, TotalSum, Total, Of, Get, RateOf, SumOfSeries, Run, Refines;
    RunRefines(start, events);
    var w := Run(start, events);
    SnapshotSums(Pruned(w.monitor, w.now).buckets, w.log, w.now, flows, rate, series, total, key, m);
  }

  ghost predicate AllWellFormed(buckets: Buckets) {
    forall s, k :: s in buckets && k in buckets[s] ==> WellFormed(k)
  }

  /** Every observed key was made by the code. */
  ghost predicate FromTheCode(events: seq<Event>) {
    forall i :: 0 <= i < |events| && events[i].Observe? ==> Produced(events[i].key)
  }

  lemma StepKeepsWellFormed(w: World, e: Event)
    requires AllWellFormed(w.monitor.buckets) && (e.Observe? ==> WellFormed(e.key))
    ensures AllWellFormed(Step(w, e).monitor.buckets)
  {
    hide WellFormed, Admits;
  }

  lemma {:induction false} RunKeepsWellFormed(start: int, events: seq<Event>)
    requires FromTheCode(events)
    ensures AllWellFormed(Run(start, events).monitor.buckets)
  {
    hide Step, Produced, WellFormed;
    if events != [] {
      var front, last := events[..|events| - 1], events[|events| - 1];
      RunKeepsWellFormed(start, front);
      if last.Observe? { ProducedIsWellFormed(last.key); }
      StepKeepsWellFormed(Run(start, front), last);
    }
  }

  lemma {:induction false} WindowWellFormed(buckets: Buckets, from: int, n: nat, k: Key)
    requires AllWellFormed(buckets) && k in WindowFlows(buckets, from, n)
    ensures WellFormed(k)
  {
    hide WellFormed;
    if n > 0 && k in WindowFlows(buckets, from, n - 1) { WindowWellFormed(buckets, from, n - 1, k); }
  }

  /** In every run a snapshot has one sorted flow list, whatever the order in which its map was walked. */
  lemma SnapshotListIsUnique(start: int, events: seq<Event>, flows: Bucket, rate: map<Key, nat>, series: seq<Count>,
                             total: Count, xs: seq<Flow>, ys: seq<Flow>)
    requires FromTheCode(events)
    requires
      var w := Run(start, events);
      |series| == WINDOW && SnapshotOf(Pruned(w.monitor, w.now).buckets, w.now, flows, rate, series, total)
    requires Lists(flows, xs) && Sorted(xs) && Lists(flows, ys) && Sorted(ys)
    ensures xs == ys
  {
    hide WellFormed, Run, Lists, Sorted, FromTheCode;
    RunKeepsWellFormed(start, events);
    var w := Run(start, events);
    forall k | k in flows ensures WellFormed(k) {
      WindowWellFormed(Pruned(w.monitor, w.now).buckets, w.now - WINDOW + 1, WINDOW, k);
    }
    SortedListIsUnique(flows, xs, ys);
  }

  lemma SnapshotSums(buckets: Buckets, log: Log, now: int, flows: Bucket, rate: map<Key, nat>, series: seq<Count>,
                     total: Count, key: Key, m: Measure)
    requires Refines(buckets, log, now)
    requires SnapshotOf(buckets, now, flows, rate, series, total)
    ensures
      var from := now - WINDOW + 1;
      && |series| == WINDOW
      && Of(Get(flows, key), m) == FlowSum(log, from, now + 1, key, m)
      && (forall i :: 0 <= i < WINDOW ==> Of(series[i], m) == TotalSum(log, from + i, from + i + 1, m))
      && Of(total, m) == TotalSum(log, from, now + 1, m) == SumOfSeries(series, m) == Total(flows, m)
      && RateOf(rate, key) == FlowSum(log, now - RATE_WINDOW + 1, now + 1, key, Bytes)
  {
    hide BucketOf, FlowSum, TotalSum, WindowFlows, Total, Of, Get, At, RateOf, SumOfSeries;
    var from := now - WINDOW + 1;
    WindowSums(buckets, log, from, WINDOW, key, m);
    WindowSums(buckets, log, now - RATE_WINDOW + 1, RATE_WINDOW, key, Bytes);
    forall i | 0 <= i < WINDOW ensures Of(series[i], m) == TotalSum(log, from + i, from + i + 1, m) {
      BucketSums(log, from + i, key, m);
      assert At(buckets, from + i) == BucketOf(log, from + i);
    }
    SeriesSums(log, from, series, key, m);
  }

  method SumUp(buckets: Buckets, now: int)
    returns (flows: Bucket, rate: map<Key, nat>, series: seq<Count>, total: Count)
    ensures SnapshotOf(buckets, now, flows, rate, series, total)
  {
    hide Merge, Total, Of, Get;
    flows, rate, series, total := map[], map[], [], ZERO;
    var from := now - WINDOW + 1;
    EmptyTotals();
    for i := 0 to WINDOW
      invariant flows == WindowFlows(buckets, from, i)
      invariant |series| == i
      invariant forall j, m :: 0 <= j < i ==> Of(series[j], m) == Total(At(buckets, from + j), m)
      invariant forall m :: Of(total, m) == Total(flows, m)
      invariant forall k ::
                  RateOf(rate, k) == Of(Get(WindowFlows(buckets, now - RATE_WINDOW + 1, RecentSeconds(i)), k), Bytes)
    {
      var second := from + i;
      var bucket := At(buckets, second);
      var point;
      ghost var before := flows;
      flows, point := Accumulate(flows, bucket);
      TotalsAdd(before, bucket, total, point);
      if second > now - RATE_WINDOW {
        RatesAdd(WindowFlows(buckets, now - RATE_WINDOW + 1, RecentSeconds(i)), bucket);
        rate := AccumulateRate(rate, bucket);
      }
      total := Plus(total, point);
      series := series + [point];
    }
  }

  lemma EmptyTotals()
    ensures forall m :: Of(ZERO, m) == Total(map[], m)
    ensures forall k :: Of(Get(map[], k), Bytes) == 0
  {
  }

  lemma TotalsAdd(flows: Bucket, bucket: Bucket, total: Count, point: Count)
    requires forall m :: Of(total, m) == Total(flows, m)
    requires forall m :: Of(point, m) == Total(bucket, m)
    ensures forall m :: Of(Plus(total, point), m) == Total(Merge(flows, bucket), m)
  {
    forall m ensures Of(Plus(total, point), m) == Total(Merge(flows, bucket), m) {
      TotalOfMerge(flows, bucket, m);
      assert Of(Plus(total, point), m) == Of(total, m) + Of(point, m);
    }
  }

  lemma RatesAdd(flows: Bucket, bucket: Bucket)
    ensures forall k :: Of(Get(Merge(flows, bucket), k), Bytes) == Of(Get(flows, k), Bytes) + Of(Get(bucket, k), Bytes)
  {
    forall k ensures Of(Get(Merge(flows, bucket), k), Bytes) == Of(Get(flows, k), Bytes) + Of(Get(bucket, k), Bytes) {
      GetOfMerge(flows, bucket, k, Bytes);
    }
  }

  function RecentSeconds(i: nat): nat {
    if i < WINDOW - RATE_WINDOW then 0 else i - (WINDOW - RATE_WINDOW)
  }

  lemma AddedKeyIsHeld(bucket: Bucket, key: Key, c: Count)
    ensures key in Add(bucket, key, c)
  {
  }

  lemma HeldKeyIsLive(buckets: Buckets, now: int, key: Key)
    ensures key in At(buckets, now) ==> key in AllKeys(buckets)
  {
  }

  lemma OpeningAddsNoKeys(buckets: Buckets, now: int)
    ensures AllKeys(buckets[now := At(buckets, now)]) == AllKeys(buckets)
  {
    var after := buckets[now := At(buckets, now)];
    forall k | k in AllKeys(buckets) ensures k in AllKeys(after) {
      var s :| s in buckets && k in buckets[s];
      assert s in after && k in after[s];
    }
  }

  lemma KeysAfterOpening(buckets: Buckets, keys: map<Key, int>, now: int)
    requires KeysOk(buckets, keys) && now !in buckets
    ensures KeysOk(buckets[now := map[]], keys)
  {
    var after := buckets[now := map[]];
    forall k: Key ensures Tally(keys, k, |Holders(after, k)|) {
      assert Holders(after, k) == Holders(buckets, k);
      assert Tally(keys, k, |Holders(buckets, k)|);
    }
  }

  lemma KeysAfterCounting(buckets: Buckets, keys: map<Key, int>, now: int, key: Key, c: Count)
    requires KeysOk(buckets, keys) && now in buckets
    ensures
      var more := if key in buckets[now] then keys else keys[key := (if key in keys then keys[key] else 0) + 1];
      KeysOk(buckets[now := Add(buckets[now], key, c)], more)
  {
    var bucket := Add(buckets[now], key, c);
    var more := if key in buckets[now] then keys else keys[key := (if key in keys then keys[key] else 0) + 1];
    var after := buckets[now := bucket];
    forall k: Key ensures Tally(more, k, |Holders(after, k)|) {
      HoldersWith(buckets, now, bucket, k);
      assert Tally(keys, k, |Holders(buckets, k)|);
    }
  }

  // ---------------------------------------------------------------- records

  /** The list holds every (second, flow) of the batch once, with its totals, ordered by second. */
  ghost predicate RecordsOf(batch: Buckets, records: seq<Record>) {
    && (forall i :: 0 <= i < |records| ==> InBatch(batch, records[i]))
    && (forall r :: InBatch(batch, r) ==> r in records)
    && (forall i, j :: 0 <= i < j < |records| ==> records[i] != records[j] && records[i].second <= records[j].second)
  }

  predicate InBatch(batch: Buckets, r: Record) {
    r.second in batch && r.key in batch[r.second] && batch[r.second][r.key] == r.count
  }

  method RecordsOfSecond(second: int, bucket: Bucket) returns (records: seq<Record>)
    ensures RecordsOf(map[second := bucket], records)
  {
    records := [];
    var left := bucket.Keys;
    while left != {}
      invariant left <= bucket.Keys
      invariant RecordsOf(map[second := bucket - left], records)
      decreases left
    {
      var k := Pick(left);
      left := left - {k};
      records := records + [Record(second, k, bucket[k])];
    }
    assert bucket - left == bucket;
  }

  lemma RecordsAppend(batch: Buckets, left: set<int>, records: seq<Record>, second: int, more: seq<Record>)
    requires RecordsOf(batch - left, records) && second in left && second in batch
    requires RecordsOf(map[second := batch[second]], more)
    requires forall i :: 0 <= i < |records| ==> records[i].second < second
    ensures RecordsOf(batch - (left - {second}), records + more)
    ensures forall i :: 0 <= i < |records + more| ==> (records + more)[i].second <= second
  {
    var all := records + more;
    forall i | 0 <= i < |all| ensures InBatch(batch - (left - {second}), all[i]) && all[i].second <= second {
      if i < |records| { assert InBatch(batch - left, records[i]); }
      else { assert InBatch(map[second := batch[second]], more[i - |records|]); }
    }
    forall r | InBatch(batch - (left - {second}), r) ensures r in all {
      if r.second == second { assert InBatch(map[second := batch[second]], r); }
      else { assert InBatch(batch - left, r); }
    }
    forall i, j | 0 <= i < j < |all| ensures all[i] != all[j] && all[i].second <= all[j].second {
      if |records| <= j { assert InBatch(map[second := batch[second]], more[j - |records|]); }
      if |records| <= i { assert more[i - |records|] != more[j - |records|]; }
    }
  }

  /** The least second of a set, as sorting the seconds yields it. */
  method Least(s: set<int>) returns (least: int)
    requires s != {}
    ensures least in s && forall x :: x in s ==> least <= x
  {
    least := Pick(s);
    var left := s - {least};
    while left != {}
      invariant left <= s && least in s
      invariant forall x :: x in s ==> x in left || least <= x
      decreases left
    {
      var x := Pick(left);
      left := left - {x};
      if x < least {
        least := x;
      }
    }
  }
}
