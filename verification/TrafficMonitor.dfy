/**
 The traffic monitor (internal/routing/traffic.go): per-second buckets over a sliding minute, a capped key
 table, snapshots, and history flushes that run the sink without holding the monitor's lock.

 Times are whole seconds on a non-decreasing clock; counters are unbounded.
 */
module TrafficMonitor {
  import opened Words
  import opened FlowKeys
  import opened TrafficLog

  const WINDOW := 60
  const RATE_WINDOW := 5
  const MAX_FLOWS := 4096

  // ---------------------------------------------------------------- the monitor as a value

  /** The key table is not part of the value: it is determined by the buckets. */
  datatype Monitor = Monitor(buckets: Buckets, flushed: set<int>)

  ghost function AllKeys(buckets: Buckets): set<Key> {
    set s, k | s in buckets && k in buckets[s] :: k
  }

  function Pruned(m: Monitor, now: int): Monitor {
    Monitor(map s | s in m.buckets && s > now - WINDOW :: m.buckets[s],
            m.flushed - set s | s in m.buckets && s <= now - WINDOW)
  }

  /** Is there room for an observation of this key, after pruning? */
  ghost predicate Admits(m: Monitor, now: int, key: Key) {
    var keys := AllKeys(Pruned(m, now).buckets);
    key in keys || |keys| < MAX_FLOWS
  }

  ghost function Observed(m: Monitor, now: int, key: Key, bytes: nat): Monitor {
    var p := Pruned(m, now);
    var bucket := At(p.buckets, now);
    p.(buckets := p.buckets[now := if Admits(m, now, key) then Add(bucket, key, Count(bytes, 1)) else bucket])
  }

  /** What a flush begun now would hand to the sink. */
  function Batch(m: Monitor, now: int): Buckets {
    map s | s in m.buckets && s !in m.flushed && s < now :: m.buckets[s]
  }

  predicate NoRecords(batch: Buckets) {
    forall s :: s in batch ==> batch[s] == map[]
  }

  // ---------------------------------------------------------------- runs

  /** A flush between reading the buckets and hearing from the sink. */
  datatype Flight = Flight(begun: int, batch: Buckets)

  datatype World = World(
    now: int,
    monitor: Monitor,
    log: Log,                    // the accepted observations
    flight: Option<Flight>,      // flushMu admits one flush at a time
    delivered: seq<Buckets>,     // the batches the sink took
    successes: seq<int>)         // when the successful flushes began

  datatype Event =
    | Tick(elapsed: nat)
    | Observe(key: Key, bytes: nat)
    | Snapshot
    | BeginFlush
    | EndFlush(ok: bool)

  function Init(now: int): World {
    World(now, Monitor(map[], {}), [], None, [], [])
  }

  ghost function Step(w: World, e: Event): World {
    match e
    case Tick(elapsed) => w.(now := w.now + elapsed)
    case Observe(key, bytes) =>
      if bytes == 0 || key.source == "" || key.destination == "" then w
      else
        w.(monitor := Observed(w.monitor, w.now, key, bytes),
           log := if Admits(w.monitor, w.now, key) then w.log + [Observation(w.now, key, bytes)] else w.log)
    case Snapshot => w.(monitor := Pruned(w.monitor, w.now))
    case BeginFlush =>
      if w.flight.Some? then w
      else
        var p := Pruned(w.monitor, w.now);
        var batch := Batch(p, w.now);
        if NoRecords(batch) then w.(monitor := p, successes := w.successes + [w.now])
        else w.(monitor := p, flight := Some(Flight(w.now, batch)))
    case EndFlush(ok) =>
      if w.flight.None? then w
      else if !ok then w.(flight := None)
      else
        var f := w.flight.value;
        w.(monitor := w.monitor.(flushed := w.monitor.flushed + f.batch.Keys), flight := None,
           delivered := w.delivered + [f.batch], successes := w.successes + [f.begun])
  }

  ghost function Run(start: int, events: seq<Event>): World {
    if events == [] then Init(start) else Step(Run(start, events[..|events| - 1]), events[|events| - 1])
  }

  // ---------------------------------------------------------------- refinement of the log

  /** The buckets are the log's, second by second, over the last minute, and hold nothing else. */
  ghost predicate Refines(buckets: Buckets, log: Log, now: int) {
    && (forall s :: now - WINDOW < s ==> At(buckets, s) == BucketOf(log, s))
    && (forall s :: s in buckets ==> s <= now)
    && (forall i :: 0 <= i < |log| ==> log[i].second <= now)
  }

  ghost predicate Capped(buckets: Buckets) {
    |AllKeys(buckets)| <= MAX_FLOWS
  }

  lemma AllKeysShrink(a: Buckets, b: Buckets)
    requires forall s :: s in a ==> s in b && a[s] == b[s]
    ensures AllKeys(a) <= AllKeys(b) && |AllKeys(a)| <= |AllKeys(b)|
  {
    var x, y := AllKeys(a), AllKeys(b);
    forall k | k in x ensures k in y {
      var s :| s in a && k in a[s];
      assert s in b && k in b[s];
    }
    SubsetSize(x, y);
  }

  lemma {:induction false} SubsetSize<T>(a: set<T>, b: set<T>)
    requires a <= b
    ensures |a| <= |b|
    decreases |a|
  {
    if a != {} {
      var x :| x in a;
      SubsetSize(a - {x}, b - {x});
    }
  }

  lemma PruneKeeps(m: Monitor, log: Log, now: int)
    requires Refines(m.buckets, log, now) && Capped(m.buckets)
    ensures Refines(Pruned(m, now).buckets, log, now) && Capped(Pruned(m, now).buckets)
  {
    var p := Pruned(m, now);
    assert forall s :: now - WINDOW < s ==> At(p.buckets, s) == At(m.buckets, s);
    AllKeysShrink(p.buckets, m.buckets);
  }

  lemma {:induction false} NothingYet(log: Log, s: int)
    requires forall i :: 0 <= i < |log| ==> log[i].second != s
    ensures BucketOf(log, s) == map[]
  {
    if log != [] { NothingYet(log[..|log| - 1], s); }
  }

  lemma TickKeepsRefines(m: Monitor, log: Log, now: int, later: int)
    requires Refines(m.buckets, log, now) && now <= later
    ensures Refines(m.buckets, log, later)
  {
    forall s | later - WINDOW < s ensures At(m.buckets, s) == BucketOf(log, s) {
      assert now - WINDOW < s;
    }
  }

  lemma AllKeysAfterAdd(buckets: Buckets, now: int, b: Bucket, key: Key)
    requires b.Keys <= At(buckets, now).Keys + {key} && At(buckets, now).Keys <= b.Keys
    ensures AllKeys(buckets[now := b]) <= AllKeys(buckets) + {key}
    ensures AllKeys(buckets) <= AllKeys(buckets[now := b])
  {
    var after := buckets[now := b];
    forall k | k in AllKeys(after) ensures k in AllKeys(buckets) + {key} {
      var s :| s in after && k in after[s];
      if s == now && k != key { assert now in buckets && k in buckets[now]; }
      if s != now { assert s in buckets && k in buckets[s]; }
    }
    forall k | k in AllKeys(buckets) ensures k in AllKeys(after) {
      var s :| s in buckets && k in buckets[s];
      assert s in after && k in after[s];
    }
  }

  lemma ObserveKeeps(m: Monitor, log: Log, now: int, key: Key, bytes: nat)
    requires Refines(m.buckets, log, now) && Capped(m.buckets)
    ensures
      var o := Observed(m, now, key, bytes);
      var l := if Admits(m, now, key) then log + [Observation(now, key, bytes)] else log;
      Refines(o.buckets, l, now) && Capped(o.buckets)
  {
    PruneKeeps(m, log, now);
    ObserveKeepsCap(m, now, key, bytes);
    ObserveKeepsRefines(m, log, now, key, bytes);
  }

  lemma ObserveKeepsRefines(m: Monitor, log: Log, now: int, key: Key, bytes: nat)
    requires Refines(Pruned(m, now).buckets, log, now)
    ensures
      var l := if Admits(m, now, key) then log + [Observation(now, key, bytes)] else log;
      Refines(Observed(m, now, key, bytes).buckets, l, now)
  {
    hide Capped, AllKeys, Admits, Pruned, BucketOf, Add;
    var p, o := Pruned(m, now), Observed(m, now, key, bytes);
    var l := if Admits(m, now, key) then log + [Observation(now, key, bytes)] else log;
    forall s | now - WINDOW < s ensures At(o.buckets, s) == BucketOf(l, s) {
      BucketOfAppend(log, Observation(now, key, bytes), s);
      assert At(p.buckets, s) == BucketOf(log, s);
    }
  }

  lemma ObserveKeepsCap(m: Monitor, now: int, key: Key, bytes: nat)
    requires Capped(Pruned(m, now).buckets)
    ensures Capped(Observed(m, now, key, bytes).buckets)
  {
    var p, o := Pruned(m, now), Observed(m, now, key, bytes);
    var keys := AllKeys(p.buckets);
    if Admits(m, now, key) {
      AllKeysAfterAdd(p.buckets, now, o.buckets[now], key);
      SubsetSize(AllKeys(o.buckets), keys + {key});
      if key in keys { assert keys + {key} == keys; }
    } else {
      assert o.buckets[now] == At(p.buckets, now);
      forall k | k in AllKeys(o.buckets) ensures k in keys {
        var s :| s in o.buckets && k in o.buckets[s];
        assert s in p.buckets && k in p.buckets[s];
      }
      SubsetSize(AllKeys(o.buckets), keys);
    }
  }

  // ---------------------------------------------------------------- history

  /** A second that is over and can no longer be picked for a flush. */
  predicate Settled(now: int, monitor: Monitor, s: int) {
    s < now && (s in monitor.flushed || s !in monitor.buckets)
  }

  ghost predicate DeliveredOk(w: World) {
    && (forall i, s :: 0 <= i < |w.delivered| && s in w.delivered[i] ==>
          Settled(w.now, w.monitor, s) && w.delivered[i][s] == BucketOf(w.log, s))
    && (forall i, j, s :: 0 <= i < j < |w.delivered| && s in w.delivered[i] ==> s !in w.delivered[j])
  }

  predicate WasDelivered(delivered: seq<Buckets>, s: int) {
    exists i :: 0 <= i < |delivered| && s in delivered[i]
  }

  /** Every second with traffic that a flush begun at the given time could see has been delivered. */
  ghost predicate Covered(log: Log, delivered: seq<Buckets>, begun: int) {
    forall s :: begun - WINDOW < s < begun && BucketOf(log, s) != map[] ==> WasDelivered(delivered, s)
  }

  ghost predicate FlightOk(w: World) {
    w.flight.Some? ==>
      var f := w.flight.value;
      && f.begun <= w.now
      && (forall s :: s in f.batch ==>
            s < f.begun && f.batch[s] == BucketOf(w.log, s) && !WasDelivered(w.delivered, s))
      && (forall s :: f.begun - WINDOW < s < f.begun && BucketOf(w.log, s) != map[] ==>
            s in f.batch || WasDelivered(w.delivered, s))
  }

  ghost predicate FlushedOk(w: World) {
    && (forall s :: s in w.monitor.flushed ==> WasDelivered(w.delivered, s))
    && (forall i :: 0 <= i < |w.successes| ==> w.successes[i] <= w.now)
    && (forall i :: 0 <= i < |w.successes| ==> Covered(w.log, w.delivered, w.successes[i]))
  }

  ghost predicate Inv(w: World) {
    && Refines(w.monitor.buckets, w.log, w.now) && Capped(w.monitor.buckets)
    && DeliveredOk(w) && FlightOk(w) && FlushedOk(w)
  }

  /** The history part depends on the log only through seconds that are over. */
  lemma HistoryKept(w: World, v: World)
    requires DeliveredOk(w) && FlightOk(w) && FlushedOk(w)
    requires v.delivered == w.delivered && v.flight == w.flight && v.successes == w.successes && w.now <= v.now
    requires v.monitor.flushed <= w.monitor.flushed
    requires forall s :: s < w.now ==> BucketOf(v.log, s) == BucketOf(w.log, s)
    requires forall s :: s < w.now && s in v.monitor.buckets ==> s in w.monitor.buckets
    requires forall s :: s in w.monitor.flushed && s !in v.monitor.flushed ==> s !in v.monitor.buckets
    ensures DeliveredOk(v) && FlightOk(v) && FlushedOk(v)
  {
    forall i, s | 0 <= i < |v.delivered| && s in v.delivered[i]
      ensures Settled(v.now, v.monitor, s) && v.delivered[i][s] == BucketOf(v.log, s)
    {
      assert Settled(w.now, w.monitor, s);
    }
  }

  lemma ObserveStepKeepsInv(w: World, key: Key, bytes: nat)
    requires Inv(w)
    ensures Inv(Step(w, Observe(key, bytes)))
  {
    var v := Step(w, Observe(key, bytes));
    if v != w {
      ObserveKeeps(w.monitor, w.log, w.now, key, bytes);
      hide Refines, Capped, DeliveredOk, FlightOk, FlushedOk, Admits;
      forall s | s < w.now ensures BucketOf(v.log, s) == BucketOf(w.log, s) {
        BucketOfAppend(w.log, Observation(w.now, key, bytes), s);
      }
      HistoryKept(w, v);
    }
  }

  lemma BatchIsNewAndFinal(w: World, s: int)
    requires Refines(w.monitor.buckets, w.log, w.now) && DeliveredOk(w) && FlushedOk(w)
    requires forall t :: t in w.monitor.buckets ==> w.now - WINDOW < t
    ensures
      var batch := Batch(w.monitor, w.now);
      && (s in batch ==> s < w.now && batch[s] == BucketOf(w.log, s) && !WasDelivered(w.delivered, s))
      && (w.now - WINDOW < s < w.now && BucketOf(w.log, s) != map[] ==> s in batch || WasDelivered(w.delivered, s))
  {
    var batch := Batch(w.monitor, w.now);
    if w.now - WINDOW < s { assert At(w.monitor.buckets, s) == BucketOf(w.log, s); }
    if WasDelivered(w.delivered, s) {
      var i :| 0 <= i < |w.delivered| && s in w.delivered[i];
      assert Settled(w.now, w.monitor, s);
    }
  }

  lemma PruneStepKeepsInv(w: World)
    requires Inv(w)
    ensures Inv(w.(monitor := Pruned(w.monitor, w.now)))
  {
    PruneKeeps(w.monitor, w.log, w.now);
    HistoryKept(w, w.(monitor := Pruned(w.monitor, w.now)));
  }

  lemma BeginFlushKeepsInv(w: World)
    requires Inv(w)
    ensures Inv(Step(w, BeginFlush))
  {
    PruneStepKeepsInv(w);
    var mid := w.(monitor := Pruned(w.monitor, w.now));
    var batch := Batch(mid.monitor, w.now);
    forall s
      ensures s in batch ==> s < w.now && batch[s] == BucketOf(w.log, s) && !WasDelivered(w.delivered, s)
      ensures w.now - WINDOW < s < w.now && BucketOf(w.log, s) != map[] ==> s in batch || WasDelivered(w.delivered, s)
    {
      BatchIsNewAndFinal(mid, s);
    }
    BeginFromBatch(mid, batch);
  }

  lemma BeginFromBatch(w: World, batch: Buckets)
    requires Inv(w)
    requires forall s :: s in batch ==> s < w.now && batch[s] == BucketOf(w.log, s) && !WasDelivered(w.delivered, s)
    requires forall s :: w.now - WINDOW < s < w.now && BucketOf(w.log, s) != map[] ==>
               s in batch || WasDelivered(w.delivered, s)
    ensures w.flight.None? && NoRecords(batch) ==> Inv(w.(successes := w.successes + [w.now]))
    ensures w.flight.None? ==> Inv(w.(flight := Some(Flight(w.now, batch))))
  {
    hide Refines, Capped;
    if w.flight.None? {
      if NoRecords(batch) {
        assert Covered(w.log, w.delivered, w.now);
        var v := w.(successes := w.successes + [w.now]);
        assert DeliveredOk(v) && FlightOk(v) && FlushedOk(v);
      }
      var u := w.(flight := Some(Flight(w.now, batch)));
      assert DeliveredOk(u) && FlushedOk(u);
      assert FlightOk(u);
    }
  }

  /** A batch of settled seconds not delivered before extends what was delivered. */
  lemma DeliveredExtends(w: World, v: World, batch: Buckets)
    requires DeliveredOk(w) && v.delivered == w.delivered + [batch] && v.log == w.log && v.now == w.now
    requires forall s :: Settled(w.now, w.monitor, s) ==> Settled(v.now, v.monitor, s)
    requires forall s :: s in batch ==>
               Settled(v.now, v.monitor, s) && batch[s] == BucketOf(w.log, s) && !WasDelivered(w.delivered, s)
    ensures DeliveredOk(v)
  {
    hide Settled, BucketOf;
    forall i, s | 0 <= i < |v.delivered| && s in v.delivered[i]
      ensures Settled(v.now, v.monitor, s) && v.delivered[i][s] == BucketOf(v.log, s)
    {
      if i < |w.delivered| { assert v.delivered[i] == w.delivered[i]; }
    }
    forall i, j, s | 0 <= i < j < |v.delivered| && s in v.delivered[i] ensures s !in v.delivered[j] {
      assert v.delivered[i] == w.delivered[i];
    }
  }

  lemma EndFlushKeepsInv(w: World, ok: bool)
    requires Inv(w)
    ensures Inv(Step(w, EndFlush(ok)))
  {
    hide Refines, Capped;
    var v := Step(w, EndFlush(ok));
    if w.flight.Some? && ok {
      var f := w.flight.value;
      assert v.delivered[|w.delivered|] == f.batch;
      assert forall s :: WasDelivered(w.delivered, s) ==> WasDelivered(v.delivered, s) by {
        forall s | WasDelivered(w.delivered, s) ensures WasDelivered(v.delivered, s) {
          var i :| 0 <= i < |w.delivered| && s in w.delivered[i];
          assert v.delivered[i] == w.delivered[i];
        }
      }
      forall s | s in f.batch ensures WasDelivered(v.delivered, s) {
        assert s in v.delivered[|w.delivered|];
      }
      assert Covered(v.log, v.delivered, f.begun);
      assert forall t :: Covered(w.log, w.delivered, t) ==> Covered(v.log, v.delivered, t);
      assert FlushedOk(v);
      DeliveredExtends(w, v, f.batch);
    }
  }

  lemma StepKeepsInv(w: World, e: Event)
    requires Inv(w)
    ensures Inv(Step(w, e))
  {
    match e
    case Tick(elapsed) =>
      TickKeepsRefines(w.monitor, w.log, w.now, w.now + elapsed);
      HistoryKept(w, Step(w, e));
    case Observe(key, bytes) => ObserveStepKeepsInv(w, key, bytes);
    case Snapshot => PruneStepKeepsInv(w);
    case BeginFlush => BeginFlushKeepsInv(w);
    case EndFlush(ok) => EndFlushKeepsInv(w, ok);
  }

  lemma {:induction false} RunKeepsInv(start: int, events: seq<Event>)
    ensures Inv(Run(start, events))
  {
    if events != [] {
      hide Inv, Step;
      RunKeepsInv(start, events[..|events| - 1]);
      StepKeepsInv(Run(start, events[..|events| - 1]), events[|events| - 1]);
    } else {
      EmptyRunOk(start);
    }
  }

  lemma EmptyRunOk(start: int)
    ensures Inv(Init(start))
  {
    assert AllKeys(map[]) == {};
  }

  lemma RunRefines(start: int, events: seq<Event>)
    ensures
      var w := Run(start, events);
      Refines(Pruned(w.monitor, w.now).buckets, w.log, w.now)
  {
    RunKeepsInv(start, events);
    var w := Run(start, events);
    PruneKeeps(w.monitor, w.log, w.now);
  }

  // ---------------------------------------------------------------- main results

  /**
   The monitor refines its log: whatever was observed, snapshotted and flushed, the flows of the last minute
   are the sums over the accepted observations of that minute, and so is their total.
   */
  lemma MonitorRefinesLog(start: int, events: seq<Event>, key: Key, m: Measure)
    ensures
      var w := Run(start, events);
      var flows := WindowFlows(w.monitor.buckets, w.now - 59, 60);
      && Of(Get(flows, key), m) == FlowSum(w.log, w.now - 59, w.now + 1, key, m)
      && Total(flows, m) == TotalSum(w.log, w.now - 59, w.now + 1, m)
      && |AllKeys(w.monitor.buckets)| <= 4096
  {
    RunKeepsInv(start, events);
    var w := Run(start, events);
    WindowSums(w.monitor.buckets, w.log, w.now - WINDOW + 1, WINDOW, key, m);
  }

  /** The flows with an accepted observation in the last minute. */
  ghost function RecentKeys(log: Log, now: int): set<Key> {
    set i | 0 <= i < |log| && now - 60 < log[i].second :: log[i].key
  }

  lemma {:induction false} BucketHolds(log: Log, s: int, key: Key)
    ensures key in BucketOf(log, s) <==> exists i :: 0 <= i < |log| && log[i].second == s && log[i].key == key
  {
    if log != [] {
      var front, o := log[..|log| - 1], log[|log| - 1];
      BucketHolds(front, s, key);
      if o.second == s && o.key == key {
        assert log[|log| - 1].second == s && log[|log| - 1].key == key;
      }
      if key in BucketOf(front, s) {
        var i :| 0 <= i < |front| && front[i].second == s && front[i].key == key;
        assert log[i].second == s && log[i].key == key;
      }
    }
  }

  lemma LiveKeysAreRecent(start: int, events: seq<Event>)
    ensures
      var w := Run(start, events);
      AllKeys(Pruned(w.monitor, w.now).buckets) == RecentKeys(w.log, w.now)
  {
    RunKeepsInv(start, events);
    var w := Run(start, events);
    var pruned := Pruned(w.monitor, w.now).buckets;
    forall k ensures k in AllKeys(pruned) <==> k in RecentKeys(w.log, w.now) {
      if k in AllKeys(pruned) {
        var s :| s in pruned && k in pruned[s];
        assert At(w.monitor.buckets, s) == BucketOf(w.log, s);
        BucketHolds(w.log, s, k);
      }
      if k in RecentKeys(w.log, w.now) {
        var i :| 0 <= i < |w.log| && w.now - WINDOW < w.log[i].second && w.log[i].key == k;
        var s := w.log[i].second;
        BucketHolds(w.log, s, k);
        assert At(w.monitor.buckets, s) == BucketOf(w.log, s);
        assert s in pruned && k in pruned[s];
      }
    }
  }

  /** An observation is dropped exactly when its flow is new to the last minute and 4096 flows are in it already. */
  lemma DroppedExactlyWhenFull(start: int, events: seq<Event>, key: Key, bytes: nat)
    requires bytes > 0 && key.source != "" && key.destination != ""
    ensures
      var w := Run(start, events);
      var recent := RecentKeys(w.log, w.now);
      var counted := Step(w, Observe(key, bytes)).log == w.log + [Observation(w.now, key, bytes)];
      && |recent| <= 4096
      && (!counted <==> key !in recent && |recent| == 4096)
      && (!counted ==> Step(w, Observe(key, bytes)).log == w.log)
  {
    LiveKeysAreRecent(start, events);
    RunKeepsInv(start, events);
    var w := Run(start, events);
    PruneKeeps(w.monitor, w.log, w.now);
    assert w.log + [Observation(w.now, key, bytes)] != w.log;
  }

  /** An observation of a flow already seen in the last minute is never dropped. */
  lemma SeenFlowIsNeverDropped(start: int, events: seq<Event>, key: Key, bytes: nat, second: int)
    requires
      var w := Run(start, events);
      w.now - WINDOW < second && key in BucketOf(w.log, second)
    requires bytes > 0 && key.source != "" && key.destination != ""
    ensures
      var w := Run(start, events);
      Step(w, Observe(key, bytes)).log == w.log + [Observation(w.now, key, bytes)]
  {
    RunKeepsInv(start, events);
    var w := Run(start, events);
    assert At(w.monitor.buckets, second) == BucketOf(w.log, second);
    var pruned := Pruned(w.monitor, w.now).buckets;
    assert second in pruned && key in pruned[second];
  }

  /** Successful flushes deliver each (second, flow) at most once, with that second's final totals. */
  lemma DeliveredAtMostOnceAndFinal(start: int, events: seq<Event>)
    ensures
      var w := Run(start, events);
      && (forall i, s :: 0 <= i < |w.delivered| && s in w.delivered[i] ==>
            s < w.now && w.delivered[i][s] == BucketOf(w.log, s))
      && (forall i, j, s :: 0 <= i < j < |w.delivered| && s in w.delivered[i] ==> s !in w.delivered[j])
  {
    RunKeepsInv(start, events);
    var w := Run(start, events);
    forall i, s | 0 <= i < |w.delivered| && s in w.delivered[i] ensures s < w.now {
      assert Settled(w.now, w.monitor, s);
    }
  }

  /** A second that some successful flush could see, after its end and inside the window, has been delivered. */
  lemma FlushedSecondsAreDelivered(start: int, events: seq<Event>, flush: nat, second: int)
    requires
      var w := Run(start, events);
      && flush < |w.successes| && w.successes[flush] - 60 < second < w.successes[flush]
      && BucketOf(w.log, second) != map[]
    ensures
      var w := Run(start, events);
      exists i ::
        0 <= i < |w.delivered| && second in w.delivered[i] && w.delivered[i][second] == BucketOf(w.log, second)
  {
    RunKeepsInv(start, events);
    var w := Run(start, events);
    assert Covered(w.log, w.delivered, w.successes[flush]);
    assert WasDelivered(w.delivered, second);
  }

  /** Observations without bytes, source or destination are ignored. */
  lemma EmptyObservationIgnored(w: World, key: Key, bytes: nat)
    requires bytes == 0 || key.source == "" || key.destination == ""
    ensures Step(w, Observe(key, bytes)) == w
  {
  }

  /**
   A flush that the sink takes is a success of the time it began: afterwards every second with traffic that is over and
   in the window has been delivered, and delivered batches stay delivered. One that the sink refuses changes nothing
   but the monitor's pruning.
   */
  lemma FlushDelivers(start: int, events: seq<Event>, second: int)
    requires Run(start, events).flight.None?
    ensures
      var w := Run(start, events);
      var begun := Step(w, BeginFlush);
      var taken, refused := Step(begun, EndFlush(true)), Step(begun, EndFlush(false));
      && taken.successes == w.successes + [w.now] && w.delivered <= taken.delivered && taken.flight.None?
      && (w.now - 60 < second < w.now && BucketOf(w.log, second) != map[] ==>
            exists i :: 0 <= i < |taken.delivered| && second in taken.delivered[i]
                        && taken.delivered[i][second] == BucketOf(w.log, second))
      && refused.delivered == w.delivered && refused.flight.None?
      && refused.monitor == Pruned(w.monitor, w.now)
  {
    hide Refines, Capped, BucketOf, Pruned, Batch, NoRecords;
    var w := Run(start, events);
    var begun := Step(w, BeginFlush);
    var taken := Step(begun, EndFlush(true));
    var more := [BeginFlush, EndFlush(true)];
    assert (events + more)[..|events| + 1] == events + [BeginFlush] && (events + [BeginFlush])[..|events|] == events;
    assert Run(start, events + more) == taken;
    if w.now - 60 < second < w.now && BucketOf(w.log, second) != map[] {
      FlushedSecondsAreDelivered(start, events + more, |w.successes|, second);
    }
  }
}
