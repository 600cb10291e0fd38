/** The per-host request limiter (internal/control/server.go, rateLimit). Times are nanoseconds. */
module RateLimiter {

  const MINUTE := 60_000_000_000
  const LIMIT := 120

  /** The hits less than a minute old, in order. */
  function Recent(hits: seq<int>, now: int): seq<int> {
    if hits == [] then []
    else
      var last := hits[|hits| - 1];
      if now - last < MINUTE then Recent(hits[..|hits| - 1], now) + [last] else Recent(hits[..|hits| - 1], now)
  }

  predicate Admits(hits: seq<int>, now: int) {
    |Recent(hits, now)| < LIMIT
  }

  /** The hits a host is left with after a request. */
  function After(hits: seq<int>, now: int): seq<int> {
    if Admits(hits, now) then Recent(hits, now) + [now] else Recent(hits, now)
  }

  /**
   One host's slice. The loop compacts the slice into its own backing array while reading from it; the
   append then reuses the array when it has room and moves to a larger one when not.
   */
  class Window {
    var buffer: array<int>
    var length: nat

    ghost predicate Valid()
      reads this
    {
      length <= buffer.Length
    }

    ghost function Hits(): seq<int>
      requires Valid()
      reads this, buffer
    {
      buffer[..length]
    }

    constructor ()
      ensures Valid() && Hits() == [] && fresh(buffer)
    {
      buffer := new int[0];
      length := 0;
    }

    /** The compaction writes at or before the place it reads, so it is a filter. */
    method Compact(now: int)
      requires Valid()
      modifies this`length, buffer
      ensures Valid() && Hits() == Recent(old(Hits()), now)
    {
      ghost var was := Hits();
      var kept, count := 0, length;
      for i := 0 to count
        invariant length == count <= buffer.Length && 0 <= kept <= i
        invariant buffer[..kept] == Recent(was[..i], now)
        invariant buffer[i..length] == was[i..]
      {
        assert was[..i + 1][..i] == was[..i];
        var x := buffer[i];
        assert x == buffer[i..length][0] == was[i];
        ghost var rest := buffer[i + 1..length];
        assert rest == was[i + 1..];
        if now - x < MINUTE {
          buffer[kept] := x;
          kept := kept + 1;
        }
        assert buffer[i + 1..length] == rest;
      }
      assert was[..count] == was;
      length := kept;
    }

    method Append(x: int)
      requires Valid()
      modifies this, buffer
      ensures Valid() && Hits() == old(Hits()) + [x]
      ensures buffer == old(buffer) || fresh(buffer)
    {
      if length == buffer.Length {
        var larger := new int[2 * length + 1](_ => 0);
        var count := length;
        for i := 0 to count
          invariant buffer == old(buffer) && length == count == old(length) && Hits() == old(Hits())
          invariant larger[..i] == buffer[..i]
        {
          larger[i] := buffer[i];
        }
        buffer := larger;
      }
      buffer[length] := x;
      length := length + 1;
    }

    method Request(now: int) returns (admitted: bool)
      requires Valid()
      modifies this, buffer
      ensures Valid()
      ensures admitted == Admits(old(Hits()), now) && Hits() == After(old(Hits()), now)
      ensures buffer == old(buffer) || fresh(buffer)
    {
      Compact(now);
      if length >= LIMIT {
        return false;
      }
      Append(now);
      return true;
    }
  }

  // ---------------------------------------------------------------- runs of one host

  /** The hits kept after requests at the given times. */
  function Kept(times: seq<int>): seq<int> {
    if times == [] then [] else After(Kept(times[..|times| - 1]), times[|times| - 1])
  }

  /** The times of the admitted requests. */
  function Admitted(times: seq<int>): seq<int> {
    if times == [] then []
    else
      var front, now := times[..|times| - 1], times[|times| - 1];
      if Admits(Kept(front), now) then Admitted(front) + [now] else Admitted(front)
  }

  ghost predicate Ordered(times: seq<int>) {
    forall i, j :: 0 <= i < j < |times| ==> times[i] <= times[j]
  }

  predicate Stale(hit: int, now: int) {
    hit <= now - MINUTE
  }

  lemma {:induction false} StaleAreDropped(hits: seq<int>, now: int)
    requires forall i :: 0 <= i < |hits| ==> Stale(hits[i], now)
    ensures Recent(hits, now) == []
  {
    if hits != [] { StaleAreDropped(hits[..|hits| - 1], now); }
  }

  lemma RecentUnfolds(hits: seq<int>, now: int)
    requires hits != [] && !Stale(hits[|hits| - 1], now)
    ensures Recent(hits, now) == Recent(hits[..|hits| - 1], now) + [hits[|hits| - 1]]
  {
  }

  lemma LastStaleAllStale(hits: seq<int>, now: int)
    requires Ordered(hits) && hits != [] && Stale(hits[|hits| - 1], now)
    ensures forall i :: 0 <= i < |hits| ==> Stale(hits[i], now)
  {
    forall i | 0 <= i < |hits| ensures Stale(hits[i], now) {
      assert i == |hits| - 1 || hits[i] <= hits[|hits| - 1];
    }
  }

  lemma {:induction false} RecentIsSuffix(hits: seq<int>, now: int) returns (k: nat)
    requires Ordered(hits)
    ensures k <= |hits| && Recent(hits, now) == hits[k..]
    ensures forall i :: 0 <= i < |hits| ==> (i < k <==> Stale(hits[i], now))
  {
    if hits == [] {
      k := 0;
    } else if Stale(hits[|hits| - 1], now) {
      hide Recent, Stale, Ordered;
      LastStaleAllStale(hits, now);
      StaleAreDropped(hits, now);
      k := |hits|;
    } else {
      hide Recent, Stale;
      var front, last := hits[..|hits| - 1], hits[|hits| - 1];
      k := RecentIsSuffix(front, now);
      RecentUnfolds(hits, now);
      assert hits == front + [last];
      forall i | 0 <= i < |hits| ensures i < k <==> Stale(hits[i], now) {
        if i < |front| { assert front[i] == hits[i]; }
      }
    }
  }

  /** The kept hits are the admitted ones from position k on, and those before are at least a minute old. */
  ghost predicate KeptFrom(admitted: seq<int>, kept: seq<int>, now: int, k: nat) {
    && k <= |admitted| && kept == admitted[k..]
    && Ordered(admitted)
    && (forall i :: 0 <= i < |admitted| ==> admitted[i] <= now)
    && (forall i :: 0 <= i < k ==> Stale(admitted[i], now))
  }

  lemma RecentKept(admitted: seq<int>, kept: seq<int>, before: int, now: int, k: nat) returns (j: nat)
    requires KeptFrom(admitted, kept, before, k) && before <= now
    ensures KeptFrom(admitted, Recent(kept, now), now, j)
    ensures forall i :: j <= i < |admitted| ==> !Stale(admitted[i], now)
  {
    assert forall i :: 0 <= i < |kept| ==> kept[i] == admitted[k + i];
    j := RecentIsSuffix(kept, now);
    assert kept[j..] == admitted[k + j..];
    forall i | 0 <= i < |admitted|
      ensures i < k + j <==> Stale(admitted[i], now)
    {
      if i >= k { assert admitted[i] == kept[i - k]; }
    }
    j := k + j;
  }

  lemma {:induction false} KeptIsSuffix(times: seq<int>, now: int) returns (k: nat)
    requires Ordered(times) && forall i :: 0 <= i < |times| ==> times[i] <= now
    ensures KeptFrom(Admitted(times), Recent(Kept(times), now), now, k)
    ensures forall i :: k <= i < |Admitted(times)| ==> !Stale(Admitted(times)[i], now)
    decreases |times|
  {
    if times == [] {
      k := 0;
    } else {
      var front, last := times[..|times| - 1], times[|times| - 1];
      k := KeptIsSuffix(front, last);
      KeptFromAppend(Admitted(front), Recent(Kept(front), last), last, k);
      k := RecentKept(Admitted(times), Kept(times), last, now, k);
    }
  }

  lemma KeptFromAppend(admitted: seq<int>, kept: seq<int>, now: int, k: nat)
    requires KeptFrom(admitted, kept, now, k)
    ensures KeptFrom(admitted + [now], kept + [now], now, k)
  {
    assert (admitted + [now])[k..] == admitted[k..] + [now];
  }

  /** Over every run with non-decreasing times, any 121 consecutive admissions span at least a minute. */
  lemma {:induction false} SpacedAdmissions(times: seq<int>, i: nat)
    requires Ordered(times) && i + 120 < |Admitted(times)|
    ensures Admitted(times)[i + 120] - Admitted(times)[i] >= 60_000_000_000
  {
    var front, now := times[..|times| - 1], times[|times| - 1];
    if i + LIMIT < |Admitted(front)| {
      SpacedAdmissions(front, i);
    } else {
      var k := KeptIsSuffix(front, now);
      assert |Admitted(front)| == i + LIMIT && |Admitted(front)| - k < LIMIT;
    }
  }

  /** A request is refused exactly when 120 admitted ones are less than a minute old. */
  lemma RefusedExactlyWhenFull(times: seq<int>, now: int)
    requires Ordered(times) && forall i :: 0 <= i < |times| ==> times[i] <= now
    ensures !Admits(Kept(times), now) <==>
              |Admitted(times)| >= 120 && now - Admitted(times)[|Admitted(times)| - 120] < 60_000_000_000
  {
    var k := KeptIsSuffix(times, now);
  }
}
