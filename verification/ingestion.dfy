/** Adding observations to a batch: `get_observations`, `_add_table`,
    `from_pandas` and `from_astropy` (tudatpy/data/mpc.py). */
module Ingestion {
  import opened Results
  import opened Observations
  import opened BatchState

  /** The class of a table handed to `from_pandas` / `from_astropy`. */
  datatype TableKind = PandasDataFrame | AstropyQTable | AstropyTable | OtherKind

  /** A supplied table: its class, its column names and its rows. */
  datatype InputTable = InputTable(kind: TableKind, columns: seq<string>, rows: seq<RawRow>)

  /** `_req_cols`, the mandatory columns. */
  const REQUIRED_COLUMNS: seq<string> := ["number", "epoch", "RA", "DEC", "band", "observatory"]

  /** The only reference frame accepted. */
  const SUPPORTED_FRAME: string := "J2000"

  /** `set(_req_cols).issubset(set(columns))`. */
  predicate HasRequiredColumns(columns: seq<string>) {
    forall i :: 0 <= i < |REQUIRED_COLUMNS| ==> REQUIRED_COLUMNS[i] in columns
  }

  /** The Minor Planet Center observation query for one code, as an oracle:
      `None` when the query raises. */
  type ObservationSource = Designation -> Option<seq<RawRow>>

  /** `_add_table`: normalise the supplied rows (angles converted only when
      `inDegrees`), append them after the existing rows, refresh once. */
  function AddTable(b: Batch, raws: seq<RawRow>, tm: TimeModel, inDegrees: bool): (r: Batch)
    ensures |r.rows| == |b.rows| + |raws|
    ensures r.rows[..|b.rows|] == b.rows
    ensures forall i :: 0 <= i < |raws| ==> r.rows[|b.rows| + i] == Normalize(raws[i], tm, inDegrees)
    ensures r.registry == b.registry
    ensures RegistryCoherent(b) ==> Consistent(r)
  {
    var added := NormalizeAll(raws, tm, inDegrees);
    var rows := b.rows + added;
    assert rows[..|b.rows|] == b.rows;
    assert forall i :: 0 <= i < |raws| ==> rows[|b.rows| + i] == added[i];
    var r := Refresh(b.(rows := rows));
    assert r.rows == rows;
    r
  }

  /** The validation `from_pandas` and `from_astropy` share once the class
      test has passed: frame first, then the mandatory columns, and only then
      `_add_table`. */
  function AddValidated(b: Batch, t: InputTable, tm: TimeModel, inDegrees: bool, frame: string): (r: Outcome)
    ensures r.raised == Some(UnsupportedFrame) <==> frame != SUPPORTED_FRAME
    ensures r.raised == Some(MissingColumns) <==>
      frame == SUPPORTED_FRAME && !HasRequiredColumns(t.columns)
    ensures r.raised.Some? ==> r.batch == b
    ensures r.raised.None? ==> r.batch == AddTable(b, t.rows, tm, inDegrees)
  {
    if frame != SUPPORTED_FRAME then Outcome(b, Some(UnsupportedFrame))
    else if !HasRequiredColumns(t.columns) then Outcome(b, Some(MissingColumns))
    else Outcome(AddTable(b, t.rows, tm, inDegrees), None)
  }

  /** `from_pandas`: the table must be a DataFrame. */
  function FromPandas(b: Batch, t: InputTable, tm: TimeModel, inDegrees: bool, frame: string): (r: Outcome)
    ensures r.raised == Some(WrongTableType) <==> t.kind != PandasDataFrame
    ensures r.raised == Some(UnsupportedFrame) <==>
      t.kind == PandasDataFrame && frame != SUPPORTED_FRAME
    ensures r.raised == Some(MissingColumns) <==>
      t.kind == PandasDataFrame && frame == SUPPORTED_FRAME && !HasRequiredColumns(t.columns)
    ensures r.raised.None? <==>
      t.kind == PandasDataFrame && frame == SUPPORTED_FRAME && HasRequiredColumns(t.columns)
    ensures r.raised.Some? ==> r.batch == b
    ensures r.raised.None? ==> r.batch.rows == b.rows + NormalizeAll(t.rows, tm, inDegrees)
    ensures r.raised.None? ==> r.batch.registry == b.registry
    ensures r.raised.None? && RegistryCoherent(b) ==> Consistent(r.batch)
  {
    if t.kind != PandasDataFrame then Outcome(b, Some(WrongTableType))
    else AddValidated(b, t, tm, inDegrees, frame)
  }

  /** `from_astropy`: the table must be an astropy QTable or Table. */
  function FromAstropy(b: Batch, t: InputTable, tm: TimeModel, inDegrees: bool, frame: string): (r: Outcome)
    ensures r.raised == Some(WrongTableType) <==> t.kind !in {AstropyQTable, AstropyTable}
    ensures r.raised == Some(UnsupportedFrame) <==>
      t.kind in {AstropyQTable, AstropyTable} && frame != SUPPORTED_FRAME
    ensures r.raised == Some(MissingColumns) <==>
      t.kind in {AstropyQTable, AstropyTable} && frame == SUPPORTED_FRAME && !HasRequiredColumns(t.columns)
    ensures r.raised.None? <==>
      t.kind in {AstropyQTable, AstropyTable} && frame == SUPPORTED_FRAME && HasRequiredColumns(t.columns)
    ensures r.raised.Some? ==> r.batch == b
    ensures r.raised.None? ==> r.batch.rows == b.rows + NormalizeAll(t.rows, tm, inDegrees)
    ensures r.raised.None? ==> r.batch.registry == b.registry
    ensures r.raised.None? && RegistryCoherent(b) ==> Consistent(r.batch)
  {
    if !(t.kind == AstropyQTable || t.kind == AstropyTable) then Outcome(b, Some(WrongTableType))
    else AddValidated(b, t, tm, inDegrees, frame)
  }

  /** The rows one code contributes: its normalised rows (angles always in
      degrees from this source), or none when its query fails. */
  function Contribution(code: Designation, fetch: ObservationSource, tm: TimeModel): seq<Row> {
    match fetch(code)
    case None => []
    case Some(raws) => NormalizeAll(raws, tm, true)
  }

  /** The rows a sequence of codes contributes, code by code. */
  function Fetched(codes: seq<Designation>, fetch: ObservationSource, tm: TimeModel): seq<Row> {
    if |codes| == 0 then []
    else Fetched(codes[..|codes| - 1], fetch, tm) + Contribution(codes[|codes| - 1], fetch, tm)
  }

  /** The codes whose query failed, in order. */
  function FailedCodes(codes: seq<Designation>, fetch: ObservationSource): seq<Designation> {
    if |codes| == 0 then []
    else
      FailedCodes(codes[..|codes| - 1], fetch)
      + (if fetch(codes[|codes| - 1]).None? then [codes[|codes| - 1]] else [])
  }

  /** Contributions of consecutive code lists are concatenated. */
  lemma {:induction false} FetchedAppend(a: seq<Designation>, c: seq<Designation>, fetch: ObservationSource, tm: TimeModel)
    ensures Fetched(a + c, fetch, tm) == Fetched(a, fetch, tm) + Fetched(c, fetch, tm)
    decreases |c|
  {
    if |c| == 0 {
      assert a + c == a;
    } else {
      var c', last := c[..|c| - 1], c[|c| - 1];
      assert (a + c)[..|a + c| - 1] == a + c';
      assert (a + c)[|a + c| - 1] == last;
      assert Fetched(a + c, fetch, tm) == Fetched(a + c', fetch, tm) + Contribution(last, fetch, tm);
      assert Fetched(c, fetch, tm) == Fetched(c', fetch, tm) + Contribution(last, fetch, tm);
      FetchedAppend(a, c', fetch, tm);
    }
  }

  /** A failing code contributes nothing and does not stop the codes after it. */
  lemma FailingCodeIsSkipped(pre: seq<Designation>, code: Designation, post: seq<Designation>,
                             fetch: ObservationSource, tm: TimeModel)
    requires fetch(code).None?
    ensures Fetched(pre + [code] + post, fetch, tm) == Fetched(pre, fetch, tm) + Fetched(post, fetch, tm)
  {
    FetchedAppend(pre + [code], post, fetch, tm);
    FetchedAppend(pre, [code], fetch, tm);
    assert Fetched([code], fetch, tm) == [] by {
      assert [code][..0] == [];
    }
    assert Fetched(pre + [code], fetch, tm) == Fetched(pre, fetch, tm);
  }

  /** Every code whose query fails is reported, and no other. */
  lemma {:induction false} FailedCodesExact(codes: seq<Designation>, fetch: ObservationSource)
    ensures forall c :: c in FailedCodes(codes, fetch) <==> c in codes && fetch(c).None?
  {
    if |codes| > 0 {
      var init := codes[..|codes| - 1];
      FailedCodesExact(init, fetch);
      assert codes == init + [codes[|codes| - 1]];
    }
  }

  /** `get_observations`: query each code in turn; a failing query is reported
      and skipped, the rows of each successful one are appended in code order,
      and the metadata is refreshed once after the loop. */
  method GetObservations(b: Batch, codes: seq<Designation>, fetch: ObservationSource, tm: TimeModel)
    returns (r: Batch, failed: seq<Designation>)
    ensures r == Refresh(b.(rows := b.rows + Fetched(codes, fetch, tm)))
    ensures r.rows == b.rows + Fetched(codes, fetch, tm)
    ensures failed == FailedCodes(codes, fetch)
    ensures r.registry == b.registry
    ensures RegistryCoherent(b) ==> Consistent(r)
  {
    var table := b.rows;
    failed := [];
    var i := 0;
    while i < |codes|
      invariant 0 <= i <= |codes|
      invariant table == b.rows + Fetched(codes[..i], fetch, tm)
      invariant failed == FailedCodes(codes[..i], fetch)
    {
      assert codes[..i + 1][..i] == codes[..i];
      assert Fetched(codes[..i + 1], fetch, tm) == Fetched(codes[..i], fetch, tm) + Contribution(codes[i], fetch, tm);
      match fetch(codes[i]) {
        case None =>
          failed := failed + [codes[i]];
        case Some(raws) =>
          table := table + NormalizeAll(raws, tm, true);
      }
      i := i + 1;
    }
    assert codes[..|codes|] == codes;
    r := Refresh(b.(rows := table));
  }
}
