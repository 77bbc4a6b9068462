/** `get_observations` as tudatpy/data/mpc.py writes it, over the DataFrame
    the constructor creates: `pd.DataFrame()` has no columns until a table
    with columns is concatenated onto it, and `_refresh_metadata` reads the
    `observatory` column. */
module AsWritten {
  import opened Results
  import opened Observations
  import opened BatchState
  import opened Ingestion

  /** The DataFrame behind a batch: column-less, or a table with the
      observation columns. */
  datatype Frame = Columnless | Columns(rows: seq<Row>)

  function RowsIn(f: Frame): seq<Row> {
    match f
    case Columnless => []
    case Columns(rows) => rows
  }

  /** `pd.concat([self._table, obs])` for a fetched table `obs`: the result
      has the observation columns whatever the left side was. */
  function Concat(f: Frame, rows: seq<Row>): (r: Frame)
    ensures r.Columns?
    ensures RowsIn(r) == RowsIn(f) + rows
  {
    Columns(RowsIn(f) + rows)
  }

  /** `_refresh_metadata` on the frame: `self._table.observatory` raises on a
      column-less frame. */
  function RefreshAsWritten(b: Batch, f: Frame): (r: Result<Batch>)
    ensures r.Err? <==> f.Columnless?
    ensures r.Err? ==> r.error == NoSuchColumn("observatory")
    ensures r.Ok? ==> r.value == Refresh(b.(rows := RowsIn(f)))
  {
    match f
    case Columnless => Err(NoSuchColumn("observatory"))
    case Columns(rows) => Ok(Refresh(b.(rows := rows)))
  }

  /** The query loop over the frame: only a successful query concatenates. */
  function FetchInto(f: Frame, codes: seq<Designation>, fetch: ObservationSource, tm: TimeModel): (r: Frame)
    ensures r.Columnless? <==> f.Columnless? && forall i :: 0 <= i < |codes| ==> fetch(codes[i]).None?
    ensures RowsIn(r) == RowsIn(f) + Fetched(codes, fetch, tm)
  {
    if |codes| == 0 then f
    else
      var init := codes[..|codes| - 1];
      var code := codes[|codes| - 1];
      assert forall i :: 0 <= i < |init| ==> init[i] == codes[i];
      var prev := FetchInto(f, init, fetch, tm);
      match fetch(code)
      case None => prev
      case Some(raws) => Concat(prev, NormalizeAll(raws, tm, true))
  }

  /** `get_observations` as written: it raises when the batch is still
      column-less and no query succeeds. */
  function GetObservationsAsWritten(b: Batch, f: Frame, codes: seq<Designation>, fetch: ObservationSource, tm: TimeModel): (r: Result<Batch>)
    ensures r.Err? <==> f.Columnless? && forall i :: 0 <= i < |codes| ==> fetch(codes[i]).None?
    ensures r.Ok? ==> r.value.rows == RowsIn(f) + Fetched(codes, fetch, tm)
  {
    RefreshAsWritten(b, FetchInto(f, codes, fetch, tm))
  }

  /** A fresh batch whose single query fails raises instead of staying an
      empty batch. */
  lemma FreshBatchFailingQueryRaises(registry: seq<Observatories.Observatory>, code: Designation,
                                     fetch: ObservationSource, tm: TimeModel)
    requires fetch(code).None?
    ensures NewBatch(Some(registry)).Ok?
    ensures GetObservationsAsWritten(NewBatch(Some(registry)).value, Columnless, [code], fetch, tm)
      == Err(NoSuchColumn("observatory"))
  {
  }

  /** An empty list of codes on a fresh batch raises too. */
  lemma FreshBatchNoCodesRaises(registry: seq<Observatories.Observatory>, fetch: ObservationSource, tm: TimeModel)
    ensures NewBatch(Some(registry)).Ok?
    ensures GetObservationsAsWritten(NewBatch(Some(registry)).value, Columnless, [], fetch, tm).Err?
  {
  }

  /** Apart from that case the code as written computes what the corrected
      `Ingestion.GetObservations` computes, which reads a column-less frame
      as an empty table and so never raises. */
  lemma AsWrittenAgreesOtherwise(b: Batch, f: Frame, codes: seq<Designation>, fetch: ObservationSource, tm: TimeModel)
    requires RowsIn(f) == b.rows
    requires f.Columns? || exists i :: 0 <= i < |codes| && fetch(codes[i]).Some?
    ensures GetObservationsAsWritten(b, f, codes, fetch, tm)
      == Ok(Refresh(b.(rows := b.rows + Fetched(codes, fetch, tm))))
  {
    var g := FetchInto(f, codes, fetch, tm);
    assert g.Columns?;
    assert RowsIn(g) == b.rows + Fetched(codes, fetch, tm);
  }
}
