/**
 The bounded flow history table (internal/storage/store.go: InsertFlowHistory, TrimFlowHistory,
 trimFlowHistory). Rows keep their insertion order; recorded times are whole seconds.
 */
module FlowHistory {
  import opened Words

  const MAX_INT64 := 0x7FFF_FFFF_FFFF_FFFF

  /** A record on its way in; ports and ICMP fields are carried in the note. */
  datatype Record = Record(recordedAt: int, source: string, destination: string, protocol: string, note: string,
                           bytes: u64, packets: u64)

  datatype Row = Row(id: nat, record: Record, size: nat)

  datatype HistoryError = LimitNotPositive | CounterOutOfRange

  function StorageBytes(r: Record): nat {
    96 + |r.source| + |r.destination| + |r.protocol|
  }

  function Sum(rows: seq<Row>): nat {
    if rows == [] then 0 else Sum(rows[..|rows| - 1]) + rows[|rows| - 1].size
  }

  function Ids(rows: seq<Row>): set<nat> {
    set i | 0 <= i < |rows| :: rows[i].id
  }

  /** DELETE of the given ids. */
  function Without(rows: seq<Row>, ids: set<nat>): seq<Row> {
    if rows == [] then []
    else
      var last := rows[|rows| - 1];
      if last.id in ids then Without(rows[..|rows| - 1], ids) else Without(rows[..|rows| - 1], ids) + [last]
  }

  /** ORDER BY recorded_at, id. */
  predicate Older(a: Row, b: Row) {
    a.record.recordedAt < b.record.recordedAt || (a.record.recordedAt == b.record.recordedAt && a.id < b.id)
  }

  function InsertOrdered(rows: seq<Row>, row: Row): seq<Row> {
    if rows == [] || Older(rows[|rows| - 1], row) then rows + [row]
    else InsertOrdered(rows[..|rows| - 1], row) + [rows[|rows| - 1]]
  }

  function Ordered(rows: seq<Row>): seq<Row> {
    if rows == [] then [] else InsertOrdered(Ordered(rows[..|rows| - 1]), rows[|rows| - 1])
  }

  ghost predicate IsOrdered(rows: seq<Row>) {
    forall i, j :: 0 <= i < j < |rows| ==> Older(rows[i], rows[j])
  }

  ghost predicate UniqueIds(rows: seq<Row>) {
    forall i, j :: 0 <= i < j < |rows| ==> rows[i].id != rows[j].id
  }

  // ---------------------------------------------------------------- sums

  lemma {:induction false} SumConcat(a: seq<Row>, b: seq<Row>)
    ensures Sum(a + b) == Sum(a) + Sum(b)
  {
    if b == [] {
      assert a + b == a;
    } else {
      assert (a + b)[..|a + b| - 1] == a + b[..|b| - 1];
      SumConcat(a, b[..|b| - 1]);
    }
  }

  /** The bytes of the rows with one of the given ids. */
  function SumWhere(rows: seq<Row>, ids: set<nat>): nat {
    if rows == [] then 0
    else SumWhere(rows[..|rows| - 1], ids) + if rows[|rows| - 1].id in ids then rows[|rows| - 1].size else 0
  }

  lemma {:induction false} DeletingSubtracts(rows: seq<Row>, ids: set<nat>)
    ensures Sum(Without(rows, ids)) + SumWhere(rows, ids) == Sum(rows)
  {
    if rows != [] {
      var front, last := rows[..|rows| - 1], rows[|rows| - 1];
      DeletingSubtracts(front, ids);
      if last.id !in ids {
        assert (Without(front, ids) + [last])[..|Without(front, ids)|] == Without(front, ids);
      }
    }
  }

  /** Both branches of InsertOrdered end in a last row behind a front. */
  lemma InsertOrderedShape(rows: seq<Row>, row: Row) returns (front: seq<Row>, last: Row)
    ensures InsertOrdered(rows, row) == front + [last]
    ensures rows == [] || Older(rows[|rows| - 1], row) ==> front == rows && last == row
    ensures !(rows == [] || Older(rows[|rows| - 1], row)) ==>
              front == InsertOrdered(rows[..|rows| - 1], row) && last == rows[|rows| - 1]
  {
    if rows == [] || Older(rows[|rows| - 1], row) {
      front, last := rows, row;
    } else {
      front, last := InsertOrdered(rows[..|rows| - 1], row), rows[|rows| - 1];
    }
  }

  lemma SumAppend(rows: seq<Row>, row: Row, ids: set<nat>)
    ensures Sum(rows + [row]) == Sum(rows) + row.size
    ensures SumWhere(rows + [row], ids) == SumWhere(rows, ids) + if row.id in ids then row.size else 0
  {
    assert (rows + [row])[..|rows|] == rows;
  }

  lemma {:induction false} InsertOrderedSums(rows: seq<Row>, row: Row, ids: set<nat>)
    ensures Sum(InsertOrdered(rows, row)) == Sum(rows) + row.size
    ensures SumWhere(InsertOrdered(rows, row), ids) == SumWhere(rows, ids) + if row.id in ids then row.size else 0
  {
    hide InsertOrdered;
    var front, last := InsertOrderedShape(rows, row);
    SumAppend(front, last, ids);
    if !(rows == [] || Older(rows[|rows| - 1], row)) {
      InsertOrderedSums(rows[..|rows| - 1], row, ids);
    }
  }

  lemma {:induction false} OrderedSums(rows: seq<Row>, ids: set<nat>)
    ensures Sum(Ordered(rows)) == Sum(rows) && SumWhere(Ordered(rows), ids) == SumWhere(rows, ids)
  {
    hide InsertOrdered;
    if rows != [] {
      OrderedSums(rows[..|rows| - 1], ids);
      InsertOrderedSums(Ordered(rows[..|rows| - 1]), rows[|rows| - 1], ids);
    }
  }

  lemma {:induction false} InsertOrderedMultiset(rows: seq<Row>, row: Row)
    ensures multiset(InsertOrdered(rows, row)) == multiset(rows) + multiset{row}
  {
    hide InsertOrdered;
    var front, last := InsertOrderedShape(rows, row);
    if !(rows == [] || Older(rows[|rows| - 1], row)) {
      InsertOrderedMultiset(rows[..|rows| - 1], row);
      assert rows == rows[..|rows| - 1] + [rows[|rows| - 1]];
    }
  }

  lemma {:induction false} OrderedMultiset(rows: seq<Row>)
    ensures multiset(Ordered(rows)) == multiset(rows)
  {
    hide InsertOrdered;
    if rows != [] {
      OrderedMultiset(rows[..|rows| - 1]);
      InsertOrderedMultiset(Ordered(rows[..|rows| - 1]), rows[|rows| - 1]);
      assert rows == rows[..|rows| - 1] + [rows[|rows| - 1]];
    }
  }

  lemma {:induction false} InsertOrderedSorts(rows: seq<Row>, row: Row)
    requires IsOrdered(rows) && forall i :: 0 <= i < |rows| ==> rows[i].id != row.id
    ensures IsOrdered(InsertOrdered(rows, row))
    ensures forall r :: r in InsertOrdered(rows, row) ==> r in rows || r == row
  {
    if rows == [] || Older(rows[|rows| - 1], row) {
    } else {
      var front, last := rows[..|rows| - 1], rows[|rows| - 1];
      InsertOrderedSorts(front, row);
      var inner := InsertOrdered(front, row);
      forall i | 0 <= i < |inner| ensures Older(inner[i], last) {
        assert inner[i] in inner;
        if inner[i] != row {
          var k :| 0 <= k < |front| && front[k] == inner[i];
          assert Older(rows[k], rows[|rows| - 1]);
        }
      }
    }
  }

  lemma {:induction false} OrderedSorts(rows: seq<Row>)
    requires UniqueIds(rows)
    ensures IsOrdered(Ordered(rows))
  {
    if rows != [] {
      var front, last := rows[..|rows| - 1], rows[|rows| - 1];
      OrderedSorts(front);
      OrderedMultiset(front);
      forall i | 0 <= i < |Ordered(front)| ensures Ordered(front)[i].id != last.id {
        assert Ordered(front)[i] in multiset(front);
        var k :| 0 <= k < |front| && front[k] == Ordered(front)[i];
        assert rows[k].id != last.id;
      }
      InsertOrderedSorts(Ordered(front), last);
    }
  }

  lemma {:induction false} SumWherePrefix(rows: seq<Row>, k: nat)
    requires IsOrdered(rows) && UniqueIds(rows) && k <= |rows|
    ensures SumWhere(rows, Ids(rows[..k])) == Sum(rows[..k])
  {
    SumWhereOfPrefix(rows, k, |rows|);
    assert rows[..|rows|] == rows;
  }

  lemma {:induction false} SumWhereOfPrefix(rows: seq<Row>, k: nat, n: nat)
    requires UniqueIds(rows) && k <= |rows| && n <= |rows|
    ensures SumWhere(rows[..n], Ids(rows[..k])) == Sum(rows[..if n < k then n else k])
  {
    if n > 0 {
      SumWhereOfPrefix(rows, k, n - 1);
      assert rows[..n][..n - 1] == rows[..n - 1];
      if n <= k {
        assert rows[..k][n - 1].id in Ids(rows[..k]);
      } else {
        assert rows[n - 1].id !in Ids(rows[..k]);
      }
    }
  }

  // ---------------------------------------------------------------- trimming

  /** The survivors of a trim that removes the k oldest rows, where k is the least number that fits the budget. */
  ghost predicate TrimmedAt(rows: seq<Row>, maxBytes: int, k: nat, survivors: seq<Row>) {
    var ordered := Ordered(rows);
    && k <= |ordered| && survivors == Without(rows, Ids(ordered[..k]))
    && Sum(ordered[k..]) <= maxBytes
    && forall j :: 0 <= j < k ==> Sum(ordered[j..]) > maxBytes
  }

  lemma UniqueOrdered(rows: seq<Row>)
    requires UniqueIds(rows)
    ensures IsOrdered(Ordered(rows)) && UniqueIds(Ordered(rows)) && |Ordered(rows)| == |rows|
  {
    OrderedSorts(rows);
    OrderedMultiset(rows);
    assert |multiset(Ordered(rows))| == |multiset(rows)|;
    var o := Ordered(rows);
    forall i, j | 0 <= i < j < |o| ensures o[i].id != o[j].id {
      assert Older(o[i], o[j]);
      SameIdSameRow(rows, o[i], o[j]);
    }
  }

  lemma SameIdSameRow(rows: seq<Row>, a: Row, b: Row)
    requires UniqueIds(rows)
    ensures a in multiset(rows) && b in multiset(rows) && a.id == b.id ==> a == b
  {
  }

  /** A trim brings the table within the budget and removes nothing when it already is. */
  lemma TrimFitsBudget(rows: seq<Row>, maxBytes: int, k: nat, survivors: seq<Row>)
    requires UniqueIds(rows) && maxBytes > 0 && TrimmedAt(rows, maxBytes, k, survivors)
    ensures Sum(survivors) <= maxBytes
    ensures Sum(rows) <= maxBytes <==> k == 0
    ensures k == 0 ==> survivors == rows
  {
    hide Ordered, Sum, UniqueIds, Without;
    SurvivorSum(rows, k);
    OrderedSums(rows, {});
    assert Ordered(rows)[0..] == Ordered(rows);
    if k == 0 {
      assert Ids(Ordered(rows)[..0]) == {};
      WithoutNothing(rows);
    }
  }

  lemma SurvivorSum(rows: seq<Row>, k: nat)
    requires UniqueIds(rows) && k <= |Ordered(rows)|
    ensures Sum(Without(rows, Ids(Ordered(rows)[..k]))) == Sum(Ordered(rows)[k..])
  {
    hide Ordered, Sum, SumWhere, UniqueIds, IsOrdered, Ids, Without;
    var ordered := Ordered(rows);
    var ids := Ids(ordered[..k]);
    UniqueOrdered(rows);
    OrderedSums(rows, ids);
    DeletingSubtracts(rows, ids);
    SumWherePrefix(ordered, k);
    assert ordered == ordered[..k] + ordered[k..];
    SumConcat(ordered[..k], ordered[k..]);
  }

  lemma NothingToTrim(rows: seq<Row>, maxBytes: int)
    requires Sum(rows) <= maxBytes
    ensures TrimmedAt(rows, maxBytes, 0, rows)
  {
    OrderedSums(rows, {});
    hide Ordered, Sum, Without;
    assert Ordered(rows)[0..] == Ordered(rows) && Ids(Ordered(rows)[..0]) == {};
    WithoutNothing(rows);
  }

  lemma SumTail(rows: seq<Row>, i: nat)
    requires i <= |rows|
    ensures Sum(rows[i..]) == if i == |rows| then 0 else rows[i].size + Sum(rows[i + 1..])
  {
    if i < |rows| {
      assert rows[i..] == [rows[i]] + rows[i + 1..];
      SumConcat([rows[i]], rows[i + 1..]);
      assert [rows[i]][..0] == [];
    }
  }

  lemma {:induction false} WithoutNothing(rows: seq<Row>)
    ensures Without(rows, {}) == rows
  {
    if rows != [] {
      WithoutNothing(rows[..|rows| - 1]);
      assert rows == rows[..|rows| - 1] + [rows[|rows| - 1]];
    }
  }

  lemma {:induction false} WithoutMembers(rows: seq<Row>, ids: set<nat>, r: Row)
    ensures r in Without(rows, ids) <==> r in rows && r.id !in ids
  {
    if rows != [] {
      WithoutMembers(rows[..|rows| - 1], ids, r);
      assert rows == rows[..|rows| - 1] + [rows[|rows| - 1]];
    }
  }

  /** Oldest first: every removed row is older than every survivor. */
  lemma RemovesOldestFirst(rows: seq<Row>, maxBytes: int, k: nat, survivors: seq<Row>, removed: Row, survivor: Row)
    requires UniqueIds(rows) && TrimmedAt(rows, maxBytes, k, survivors)
    requires removed in rows && removed !in survivors && survivor in survivors
    ensures
      && survivor in rows
      && (removed.record.recordedAt < survivor.record.recordedAt
          || (removed.record.recordedAt == survivor.record.recordedAt && removed.id < survivor.id))
  {
    hide Ordered, Sum, UniqueIds, Without;
    var ordered := Ordered(rows);
    var ids := Ids(ordered[..k]);
    UniqueOrdered(rows);
    OrderedMultiset(rows);
    WithoutMembers(rows, ids, removed);
    WithoutMembers(rows, ids, survivor);
    assert removed in multiset(ordered) && survivor in multiset(ordered);
    var i :| 0 <= i < |ordered| && ordered[i] == removed;
    var j :| 0 <= j < |ordered| && ordered[j] == survivor;
    assert i < k by {
      var m :| 0 <= m < k && ordered[..k][m].id == removed.id;
    }
    assert forall m :: 0 <= m < k ==> ordered[..k][m].id in ids;
    assert j >= k;
  }

  /** The trim stops as soon as it fits: with the youngest removed row the table would still be over the budget. */
  lemma RemovesNoMoreThanNeeded(rows: seq<Row>, maxBytes: int, k: nat, survivors: seq<Row>, last: Row)
    requires UniqueIds(rows) && TrimmedAt(rows, maxBytes, k, survivors)
    requires last in rows && last !in survivors
    requires forall r :: r in rows && r !in survivors ==>
               r == last || r.record.recordedAt < last.record.recordedAt
               || (r.record.recordedAt == last.record.recordedAt && r.id < last.id)
    ensures Sum(survivors) + last.size > maxBytes
  {
    hide Sum, UniqueIds, Without, Ordered, Ids;
    var o := Ordered(rows);
    UniqueOrdered(rows);
    SurvivorSum(rows, k);
    var i := RemovedIsEarly(rows, k, last);
    var j := k - 1;
    LateIsRemoved(rows, k, j);
    assert o[j] == last;
    SumTail(o, j);
  }

  /** A removed row is one of the k first. */
  lemma RemovedIsEarly(rows: seq<Row>, k: nat, removed: Row) returns (i: nat)
    requires UniqueIds(rows) && k <= |Ordered(rows)| && removed in rows
    requires removed !in Without(rows, Ids(Ordered(rows)[..k]))
    ensures i < k && Ordered(rows)[i] == removed
  {
    hide Ordered, Sum, Without;
    var o := Ordered(rows);
    UniqueOrdered(rows);
    OrderedMultiset(rows);
    WithoutMembers(rows, Ids(o[..k]), removed);
    assert removed in multiset(o);
    i :| 0 <= i < |o| && o[i] == removed;
    var m :| 0 <= m < k && o[..k][m].id == removed.id;
    assert o[m].id == o[i].id;
  }

  lemma LateIsRemoved(rows: seq<Row>, k: nat, j: nat)
    requires UniqueIds(rows) && j < k <= |Ordered(rows)|
    ensures Ordered(rows)[j] in rows && Ordered(rows)[j] !in Without(rows, Ids(Ordered(rows)[..k]))
  {
    hide Ordered, Sum, Without;
    var o := Ordered(rows);
    OrderedMultiset(rows);
    WithoutMembers(rows, Ids(o[..k]), o[j]);
    assert o[j] in multiset(o);
    assert o[..k][j].id in Ids(o[..k]);
  }

  // ---------------------------------------------------------------- the store

  class History {
    var rows: seq<Row>
    var nextId: nat

    ghost predicate Valid()
      reads this
    {
      UniqueIds(rows) && forall i :: 0 <= i < |rows| ==> rows[i].id < nextId
    }

    constructor ()
      ensures Valid() && rows == []
    {
      rows, nextId := [], 1;
    }

    /** trimFlowHistory inside its transaction. */
    method Trim(maxBytes: int) returns (ghost k: nat)
      requires Valid() && maxBytes > 0
      modifies this`rows
      ensures Valid()
      ensures TrimmedAt(old(rows), maxBytes, k, rows) && Sum(rows) <= maxBytes
      ensures Sum(old(rows)) <= maxBytes ==> rows == old(rows)
    {
      hide Ordered, Sum, UniqueIds, Without, Ids;
      k := 0;
      var total := Sum(rows);
      var ordered := Ordered(rows);
      OrderedSums(rows, {});
      assert ordered[0..] == ordered;
      if total <= maxBytes {
        NothingToTrim(rows, maxBytes);
        return;
      }
      var removed, next := 0, 0;
      while next < |ordered| && total - removed > maxBytes
        invariant 0 <= next <= |ordered| && rows == old(rows)
        invariant total - removed == Sum(ordered[next..])
        invariant forall j :: 0 <= j < next ==> Sum(ordered[j..]) > maxBytes
      {
        SumTail(ordered, next);
        removed := removed + ordered[next].size;
        next := next + 1;
      }
      k := next;
      SumTail(ordered, next);
      ghost var before := rows;
      DeleteFirst(ordered, next);
      TrimFitsBudget(before, maxBytes, k, rows);
    }

    /** The DELETE loop. */
    method DeleteFirst(ordered: seq<Row>, count: nat)
      requires Valid() && count <= |ordered|
      modifies this`rows
      ensures Valid() && rows == Without(old(rows), Ids(ordered[..count]))
    {
      assert Ids(ordered[..0]) == {};
      WithoutNothing(rows);
      for i := 0 to count
        invariant rows == Without(old(rows), Ids(ordered[..i]))
      {
        WithoutTwice(old(rows), Ids(ordered[..i]), {ordered[i].id});
        assert ordered[..i + 1] == ordered[..i] + [ordered[i]];
        IdsAppend(ordered[..i], ordered[i]);
        rows := Without(rows, {ordered[i].id});
      }
      WithoutUnique(old(rows), Ids(ordered[..count]), nextId);
    }

    method TrimFlowHistory(maxBytes: int) returns (r: Result<(), HistoryError>, ghost k: nat)
      requires Valid()
      modifies this`rows
      ensures Valid()
      ensures r.Err? <==> maxBytes <= 0
      ensures r.Err? ==> rows == old(rows)
      ensures r.Ok? ==> TrimmedAt(old(rows), maxBytes, k, rows) && Sum(rows) <= maxBytes
    {
      k := 0;
      if maxBytes <= 0 {
        return Err(LimitNotPositive), 0;
      }
      k := Trim(maxBytes);
      return Ok(()), k;
    }

    /** One transaction: a record out of range leaves the table as it was. An empty batch does not even trim. */
    method InsertFlowHistory(records: seq<Record>, maxBytes: int) returns (r: Result<(), HistoryError>, ghost k: nat)
      requires Valid()
      modifies this
      ensures Valid()
      ensures records == [] ==> r.Ok? && rows == old(rows)
      ensures records != [] ==> (r.Ok? <==> maxBytes > 0 && forall i :: 0 <= i < |records| ==> InRange(records[i]))
      ensures r.Err? ==> rows == old(rows)
      ensures records != [] && r.Ok? ==>
                TrimmedAt(old(rows) + NewRows(records, old(nextId)), maxBytes, k, rows) && Sum(rows) <= maxBytes
    {
      k := 0;
      if records == [] {
        return Ok(()), 0;
      }
      if maxBytes <= 0 {
        return Err(LimitNotPositive), 0;
      }
      var before, id := rows, nextId;
      assert NewRows(records[..0], old(nextId)) == [];
      for i := 0 to |records|
        invariant nextId == id + i && id == old(nextId)
        invariant rows == before + NewRows(records[..i], id)
        invariant Valid() && before == old(rows)
        invariant forall j :: 0 <= j < i ==> InRange(records[j])
      {
        if records[i].bytes > MAX_INT64 || records[i].packets > MAX_INT64 {
          rows, nextId := before, id;
          return Err(CounterOutOfRange), 0;
        }
        assert records[..i + 1][..i] == records[..i];
        rows := rows + [Row(nextId, records[i], StorageBytes(records[i]))];
        nextId := nextId + 1;
      }
      assert records[..|records|] == records;
      k := Trim(maxBytes);
      return Ok(()), k;
    }
  }

  /** The counters fit a signed 64-bit column. */
  predicate InRange(r: Record)
    ensures InRange(r) <==> r.bytes < 0x8000_0000_0000_0000 && r.packets < 0x8000_0000_0000_0000
  {
    r.bytes <= MAX_INT64 && r.packets <= MAX_INT64
  }

  function NewRows(records: seq<Record>, id: nat): seq<Row> {
    if records == [] then []
    else
      var n := |records| - 1;
      NewRows(records[..n], id) + [Row(id + n, records[n], StorageBytes(records[n]))]
  }

  /** The new rows keep the records in order, under consecutive ids, with 96 bytes and the length of their texts. */
  lemma {:induction false} NewRowsSpelledOut(records: seq<Record>, id: nat, i: nat)
    requires i < |records|
    ensures |NewRows(records, id)| == |records|
    ensures
      var r := records[i];
      NewRows(records, id)[i] == Row(id + i, r, 96 + |r.source| + |r.destination| + |r.protocol|)
  {
    var n := |records| - 1;
    if n > 0 { NewRowsSpelledOut(records[..n], id, if i < n then i else 0); }
  }

  lemma {:induction false} WithoutTwice(rows: seq<Row>, a: set<nat>, b: set<nat>)
    ensures Without(Without(rows, a), b) == Without(rows, a + b)
  {
    if rows != [] {
      var front, last := rows[..|rows| - 1], rows[|rows| - 1];
      WithoutTwice(front, a, b);
      if last.id !in a {
        assert (Without(front, a) + [last])[..|Without(front, a)|] == Without(front, a);
      }
    }
  }

  lemma IdsAppend(rows: seq<Row>, row: Row)
    ensures Ids(rows + [row]) == Ids(rows) + {row.id}
  {
    var all := rows + [row];
    forall n | n in Ids(rows) + {row.id} ensures n in Ids(all) {
      if n == row.id { assert all[|rows|].id == n; }
      else {
        var i :| 0 <= i < |rows| && rows[i].id == n;
        assert all[i].id == n;
      }
    }
  }

  lemma {:induction false} WithoutUnique(rows: seq<Row>, ids: set<nat>, bound: nat)
    requires UniqueIds(rows) && forall i :: 0 <= i < |rows| ==> rows[i].id < bound
    ensures UniqueIds(Without(rows, ids))
    ensures forall i :: 0 <= i < |Without(rows, ids)| ==> Without(rows, ids)[i].id < bound
  {
    if rows != [] {
      var front, last := rows[..|rows| - 1], rows[|rows| - 1];
      WithoutUnique(front, ids, bound);
      forall i | 0 <= i < |Without(front, ids)| ensures Without(front, ids)[i].id != last.id {
        WithoutMembers(front, ids, Without(front, ids)[i]);
        var k :| 0 <= k < |front| && front[k] == Without(front, ids)[i];
        assert rows[k].id != last.id;
      }
    }
  }
}
