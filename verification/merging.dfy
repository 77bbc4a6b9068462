/** `BatchMPC.__add__`: the union of two batches (tudatpy/data/mpc.py). */
module Merging {
  import opened Results
  import opened Seqs
  import opened Observations
  import opened Observatories
  import opened BatchState

  /** The order `sort_values("epoch")` sorts by: the Julian Date column. */
  function EpochLe(a: Row, b: Row): bool {
    a.epoch <= b.epoch
  }

  ghost predicate SortedByEpoch(rows: seq<Row>) {
    Chain(rows, EpochLe)
  }

  lemma PrependSorted(h: Row, rest: seq<Row>)
    requires SortedByEpoch(rest)
    requires forall j :: 0 <= j < |rest| ==> h.epoch <= rest[j].epoch
    ensures SortedByEpoch([h] + rest)
  {
    var r := [h] + rest;
    forall i, j | 0 <= i < j < |r|
      ensures EpochLe(r[i], r[j])
    {
      assert r[j] == rest[j - 1];
      if i > 0 {
        assert r[i] == rest[i - 1];
      }
    }
  }

  lemma SortedTail(s: seq<Row>)
    requires SortedByEpoch(s) && |s| > 0
    ensures SortedByEpoch(s[1..])
    ensures forall j :: 0 <= j < |s| - 1 ==> s[0].epoch <= s[1..][j].epoch
  {
    forall i, j | 0 <= i < j < |s| - 1
      ensures EpochLe(s[1..][i], s[1..][j])
    {
      assert EpochLe(s[i + 1], s[j + 1]);
    }
    forall j | 0 <= j < |s| - 1
      ensures s[0].epoch <= s[1..][j].epoch
    {
      assert EpochLe(s[0], s[j + 1]);
    }
  }

  lemma LowerBoundByMultiset(lo: real, rest: seq<Row>, x: Row, tail: seq<Row>)
    requires multiset(rest) == multiset(tail) + multiset{x}
    requires lo <= x.epoch
    requires forall j :: 0 <= j < |tail| ==> lo <= tail[j].epoch
    ensures forall j :: 0 <= j < |rest| ==> lo <= rest[j].epoch
  {
    forall j | 0 <= j < |rest|
      ensures lo <= rest[j].epoch
    {
      assert rest[j] in multiset(rest);
      if rest[j] != x {
        assert rest[j] in multiset(tail);
        assert rest[j] in tail;
      }
    }
  }

  /** Insert one row into an epoch-sorted table. */
  function InsertByEpoch(x: Row, sorted: seq<Row>): (r: seq<Row>)
    requires SortedByEpoch(sorted)
    ensures SortedByEpoch(r)
    ensures multiset(r) == multiset(sorted) + multiset{x}
  {
    if |sorted| == 0 then [x]
    else if x.epoch <= sorted[0].epoch then
      assert forall j :: 0 <= j < |sorted| ==> x.epoch <= sorted[j].epoch by {
        forall j | 0 <= j < |sorted| ensures x.epoch <= sorted[j].epoch {
          if j > 0 { assert EpochLe(sorted[0], sorted[j]); }
        }
      }
      PrependSorted(x, sorted);
      [x] + sorted
    else
      var tail := sorted[1..];
      SortedTail(sorted);
      var rest := InsertByEpoch(x, tail);
      LowerBoundByMultiset(sorted[0].epoch, rest, x, tail);
      PrependSorted(sorted[0], rest);
      assert sorted == [sorted[0]] + tail;
      [sorted[0]] + rest
  }

  /** `sort_values("epoch")`: a reordering of the table by non-decreasing epoch. */
  function SortByEpoch(rows: seq<Row>): (r: seq<Row>)
    ensures SortedByEpoch(r)
    ensures multiset(r) == multiset(rows)
  {
    if |rows| == 0 then []
    else
      assert rows == [rows[0]] + rows[1..];
      InsertByEpoch(rows[0], SortByEpoch(rows[1..]))
  }

  /** The table of `a + b`: both tables concatenated, sorted by epoch, exact
      duplicate rows dropped (the first kept). */
  function MergedRows(a: seq<Row>, b: seq<Row>): (r: seq<Row>)
    ensures NoDup(r)
    ensures forall row :: row in r <==> row in a || row in b
    ensures SortedByEpoch(r)
  {
    var sorted := SortByEpoch(a + b);
    DistinctKeepsChain(sorted, EpochLe);
    assert forall row :: row in sorted <==> row in multiset(a + b);
    Distinct(sorted)
  }

  /** `a + b`: a new batch (with its own registry fetch) holding the merged
      table, with its metadata refreshed. */
  function Merge(a: Batch, b: Batch, fetched: Option<seq<Observatory>>): (r: Result<Batch>)
    ensures r.Err? <==> fetched.None?
    ensures r.Ok? ==> NoDup(r.value.rows)
    ensures r.Ok? ==> forall row :: row in r.value.rows <==> row in a.rows || row in b.rows
    ensures r.Ok? ==> SortedByEpoch(r.value.rows)
    ensures r.Ok? ==> r.value.registry == fetched.value && Consistent(r.value)
  {
    match NewBatch(fetched)
    case Err(e) => Err(e)
    case Ok(empty) =>
      var rows := MergedRows(a.rows, b.rows);
      var r := Refresh(empty.(rows := rows));
      assert r.rows == rows;
      Ok(r)
  }

  /** Merging a duplicate-free batch into one that already holds its rows
      yields exactly the larger batch's rows, once each. */
  lemma MergeAbsorbsContainedBatch(a: Batch, b: Batch, fetched: Option<seq<Observatory>>)
    requires fetched.Some?
    requires forall row :: row in a.rows ==> row in b.rows
    ensures Merge(a, b, fetched).Ok?
    ensures forall row :: row in Merge(a, b, fetched).value.rows <==> row in b.rows
  {
  }
}
