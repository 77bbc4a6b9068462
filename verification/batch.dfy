/** The state of a `BatchMPC` object, its constructor and `_refresh_metadata`
    (tudatpy/data/mpc.py). */
module BatchState {
  import opened Results
  import opened Seqs
  import opened Observations
  import opened Observatories

  /** The derived fields `_refresh_metadata` recomputes. `epochStart` and
      `epochEnd` are `None` where pandas yields NaN (the minimum of no rows). */
  datatype Metadata = Metadata(
    observatories: seq<string>,
    spaceTelescopes: seq<string>,
    bands: seq<string>,
    objects: seq<string>,
    size: nat,
    epochStart: Option<real>,
    epochEnd: Option<real>)

  /** A batch: the table, the observatory registry fetched when the object was
      built, the registry's space-telescope codes (`_MPC_space_telescopes`),
      and the metadata. */
  datatype Batch = Batch(
    rows: seq<Row>,
    registry: seq<Observatory>,
    registrySpaceTelescopes: seq<string>,
    meta: Metadata)

  /** The result of a call that mutates a batch in place: the batch afterwards
      and the exception raised, if any. */
  datatype Outcome = Outcome(batch: Batch, raised: Option<Error>)

  /** The metadata a freshly constructed batch starts with. */
  const InitialMetadata := Metadata([], [], [], [], 0, Some(0.0), Some(0.0))

  function ObservatoryColumn(rows: seq<Row>): seq<string> {
    seq(|rows|, i requires 0 <= i < |rows| => rows[i].observatory)
  }

  function BandColumn(rows: seq<Row>): seq<string> {
    seq(|rows|, i requires 0 <= i < |rows| => rows[i].band)
  }

  function NumberColumn(rows: seq<Row>): seq<string> {
    seq(|rows|, i requires 0 <= i < |rows| => rows[i].number)
  }

  /** The predicate "is one of `codes`", as a query mask. */
  function ListedIn(codes: seq<string>): string -> bool {
    c => c in codes
  }

  /** `epochJ2000secondsTDB.min()`. */
  function EarliestTdb(rows: seq<Row>): (m: Option<real>)
    ensures m.None? <==> |rows| == 0
    ensures m.Some? ==> exists i :: 0 <= i < |rows| && rows[i].tdbSeconds == m.value
    ensures m.Some? ==> forall i :: 0 <= i < |rows| ==> m.value <= rows[i].tdbSeconds
  {
    if |rows| == 0 then None
    else
      assert forall i :: 1 <= i < |rows| ==> rows[i] == rows[1..][i - 1];
      match EarliestTdb(rows[1..])
      case None => Some(rows[0].tdbSeconds)
      case Some(m) => Some(if rows[0].tdbSeconds <= m then rows[0].tdbSeconds else m)
  }

  /** `epochJ2000secondsTDB.max()`. */
  function LatestTdb(rows: seq<Row>): (m: Option<real>)
    ensures m.None? <==> |rows| == 0
    ensures m.Some? ==> exists i :: 0 <= i < |rows| && rows[i].tdbSeconds == m.value
    ensures m.Some? ==> forall i :: 0 <= i < |rows| ==> rows[i].tdbSeconds <= m.value
  {
    if |rows| == 0 then None
    else
      assert forall i :: 1 <= i < |rows| ==> rows[i] == rows[1..][i - 1];
      match LatestTdb(rows[1..])
      case None => Some(rows[0].tdbSeconds)
      case Some(m) => Some(if rows[0].tdbSeconds >= m then rows[0].tdbSeconds else m)
  }

  /** The metadata `_refresh_metadata` derives from a table. */
  function MetadataOf(rows: seq<Row>, registrySpaceTelescopes: seq<string>): Metadata {
    var observatories := Distinct(ObservatoryColumn(rows));
    Metadata(
      observatories,
      Select(observatories, ListedIn(registrySpaceTelescopes)),
      Distinct(BandColumn(rows)),
      Distinct(NumberColumn(rows)),
      |rows|,
      EarliestTdb(rows),
      LatestTdb(rows))
  }

  /** The registry's space-telescope list is the one `_get_station_info` derives. */
  ghost predicate RegistryCoherent(b: Batch) {
    b.registrySpaceTelescopes == SpaceTelescopeCodes(b.registry)
  }

  /** Metadata agrees with the table: what every mutating call leaves behind. */
  ghost predicate Consistent(b: Batch) {
    RegistryCoherent(b) && b.meta == MetadataOf(b.rows, b.registrySpaceTelescopes)
  }

  /** What holds of every batch, fresh or refreshed: the batch's space
      telescopes are observatories of the batch that the registry marks as
      space telescopes. */
  ghost predicate WellFormed(b: Batch) {
    && RegistryCoherent(b)
    && forall i :: 0 <= i < |b.meta.spaceTelescopes| ==>
         b.meta.spaceTelescopes[i] in b.meta.observatories
         && b.meta.spaceTelescopes[i] in b.registrySpaceTelescopes
  }

  /** `BatchMPC()`: fetch the registry (`fetched`, `None` when the query
      failed), derive its space telescopes, and start with an empty table. A
      failed fetch makes the constructor raise. */
  function NewBatch(fetched: Option<seq<Observatory>>): (r: Result<Batch>)
    ensures r.Err? <==> fetched.None?
    ensures r.Err? ==> r.error == RegistryUnavailable
    ensures r.Ok? ==> r.value.rows == [] && r.value.registry == fetched.value
    ensures r.Ok? ==> r.value.meta.size == 0 && r.value.meta.observatories == []
    ensures r.Ok? ==> WellFormed(r.value)
  {
    match fetched
    case None => Err(RegistryUnavailable)
    case Some(registry) =>
      Ok(Batch([], registry, SpaceTelescopeCodes(registry), InitialMetadata))
  }

  /** `_refresh_metadata`. The `drop_duplicates()` it starts with discards its
      result, so the table is left as it is; what the metadata holds is
      stated by `RefreshMetadata`. */
  function Refresh(b: Batch): (r: Batch)
    ensures r.rows == b.rows
    ensures r.registry == b.registry && r.registrySpaceTelescopes == b.registrySpaceTelescopes
    ensures r.meta.size == |b.rows|
    ensures RegistryCoherent(b) ==> Consistent(r)
  {
    Batch(b.rows, b.registry, b.registrySpaceTelescopes, MetadataOf(b.rows, b.registrySpaceTelescopes))
  }

  /** After `_refresh_metadata`: the observatory, band and object lists hold
      each value of their column once, in order of first appearance; the
      space telescopes are exactly the batch's observatories the registry
      marks, in observatory order; the epoch range is the least and greatest
      TDB epoch of the table, and NaN (`None`) for an empty table. */
  lemma RefreshMetadata(b: Batch)
    ensures var m := Refresh(b).meta;
      && DistinctOf(m.observatories, ObservatoryColumn(b.rows))
      && DistinctOf(m.bands, BandColumn(b.rows))
      && DistinctOf(m.objects, NumberColumn(b.rows))
      && (forall c :: c in m.spaceTelescopes <==> c in m.observatories && c in b.registrySpaceTelescopes)
      && OrderedBy(m.spaceTelescopes, m.observatories)
    ensures var m := Refresh(b).meta;
      && (m.epochStart.None? <==> |b.rows| == 0)
      && (m.epochEnd.None? <==> |b.rows| == 0)
    ensures var m := Refresh(b).meta;
      m.epochStart.Some? ==>
        (exists i :: 0 <= i < |b.rows| && b.rows[i].tdbSeconds == m.epochStart.value)
        && forall i :: 0 <= i < |b.rows| ==> m.epochStart.value <= b.rows[i].tdbSeconds
    ensures var m := Refresh(b).meta;
      m.epochEnd.Some? ==>
        (exists i :: 0 <= i < |b.rows| && b.rows[i].tdbSeconds == m.epochEnd.value)
        && forall i :: 0 <= i < |b.rows| ==> b.rows[i].tdbSeconds <= m.epochEnd.value
  {
    var m := Refresh(b).meta;
    SpaceTelescopesListed(m.observatories, b.registrySpaceTelescopes);
  }

  /** The space telescopes of a batch are its observatories the registry
      marks, in the order of the observatory list. */
  lemma SpaceTelescopesListed(observatories: seq<string>, registrySpaceTelescopes: seq<string>)
    requires NoDup(observatories)
    ensures forall c :: c in Select(observatories, ListedIn(registrySpaceTelescopes)) <==>
      c in observatories && c in registrySpaceTelescopes
    ensures OrderedBy(Select(observatories, ListedIn(registrySpaceTelescopes)), observatories)
  {
    var telescopes := Select(observatories, ListedIn(registrySpaceTelescopes));
    SelectOrderedBy(observatories, ListedIn(registrySpaceTelescopes));
    forall c
      ensures c in telescopes <==> c in observatories && c in registrySpaceTelescopes
    {
      SelectMembership(observatories, ListedIn(registrySpaceTelescopes), c);
    }
  }

  /** Every batch the model produces, fresh or refreshed, is well formed. */
  lemma ConsistentIsWellFormed(b: Batch)
    requires Consistent(b)
    ensures WellFormed(b)
  {
    var obs := b.meta.observatories;
    forall c | c in b.meta.spaceTelescopes
      ensures c in obs && c in b.registrySpaceTelescopes
    {
      SelectMembership(obs, ListedIn(b.registrySpaceTelescopes), c);
    }
  }

  /** A refreshed, non-empty batch has its start epoch no later than its end. */
  lemma EpochRangeOrdered(b: Batch)
    requires Consistent(b) && |b.rows| > 0
    ensures b.meta.epochStart.Some? && b.meta.epochEnd.Some?
    ensures b.meta.epochStart.value <= b.meta.epochEnd.value
  {
    assert b.meta.epochStart.value <= b.rows[0].tdbSeconds <= b.meta.epochEnd.value;
  }
}
