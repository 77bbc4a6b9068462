/** `BatchMPC.filter` (tudatpy/data/mpc.py). */
module Filtering {
  import opened Results
  import opened Seqs
  import opened Observations
  import opened BatchState

  /** A `bands`, `observatories` or `observatories_exclude` argument: one
      string, a list of strings, or (wrongly) an integer. */
  datatype Selector = Single(name: string) | Several(names: seq<string>) | Integer(value: int)

  /** An `epoch_start` / `epoch_end` argument: a float or int (seconds since
      J2000 in TDB), a datetime (UTC), or a value of any other type. */
  datatype Bound = TdbSeconds(seconds: real) | UtcInstant(at: Timestamp) | OtherType

  /** The arguments of `filter`; `None` is an omitted argument. */
  datatype FilterArgs = FilterArgs(
    bands: Option<Selector>,
    observatories: Option<Selector>,
    exclude: Option<Selector>,
    start: Option<Bound>,
    end: Option<Bound>)

  /** The query `column == @sel` for one value: equality with a string,
      membership in a list; an integer equals no string. */
  predicate Matches(sel: Selector, x: string) {
    match sel
    case Single(s) => x == s
    case Several(names) => x in names
    case Integer(_) => false
  }

  /** The argument normalisation `if isinstance(arg, str): arg = [arg]`. */
  function AsList(sel: Selector): (r: Selector)
    ensures !r.Single?
    ensures forall x :: Matches(r, x) == Matches(sel, x)
  {
    match sel
    case Single(s) => Several([s])
    case _ => sel
  }

  /** `epoch_start`: the column chosen by the bound's type, inclusive; a bound
      of another type selects everything. */
  predicate NotBefore(bound: Bound, row: Row) {
    match bound
    case TdbSeconds(t) => row.tdbSeconds >= t
    case UtcInstant(u) => row.utc >= u
    case OtherType => true
  }

  /** `epoch_end`, likewise inclusive. */
  predicate NotAfter(bound: Bound, row: Row) {
    match bound
    case TdbSeconds(t) => row.tdbSeconds <= t
    case UtcInstant(u) => row.utc <= u
    case OtherType => true
  }

  predicate BandOk(args: FilterArgs, row: Row) {
    args.bands.Some? ==> Matches(AsList(args.bands.value), row.band)
  }

  predicate IncludeOk(args: FilterArgs, row: Row) {
    args.observatories.Some? ==> Matches(AsList(args.observatories.value), row.observatory)
  }

  predicate ExcludeOk(args: FilterArgs, row: Row) {
    args.exclude.Some? ==> !Matches(args.exclude.value, row.observatory)
  }

  predicate StartOk(args: FilterArgs, row: Row) {
    args.start.Some? ==> NotBefore(args.start.value, row)
  }

  predicate EndOk(args: FilterArgs, row: Row) {
    args.end.Some? ==> NotAfter(args.end.value, row)
  }

  function BandMask(args: FilterArgs): Row -> bool { row => BandOk(args, row) }
  function IncludeMask(args: FilterArgs): Row -> bool { row => IncludeOk(args, row) }
  function ExcludeMask(args: FilterArgs): Row -> bool { row => ExcludeOk(args, row) }
  function StartMask(args: FilterArgs): Row -> bool { row => StartOk(args, row) }
  function EndMask(args: FilterArgs): Row -> bool { row => EndOk(args, row) }

  /** The row predicate `filter` keeps, stated directly from the arguments:
      band in `bands`, observatory in `observatories`, observatory not in
      `observatories_exclude`, epoch at or after the start and at or before the
      end, each only when the argument is given. */
  predicate Admits(args: FilterArgs, row: Row) {
    && (args.bands.Some? ==> Matches(args.bands.value, row.band))
    && (args.observatories.Some? ==> Matches(args.observatories.value, row.observatory))
    && (args.exclude.Some? ==> !Matches(args.exclude.value, row.observatory))
    && (args.start.Some? ==> NotBefore(args.start.value, row))
    && (args.end.Some? ==> NotAfter(args.end.value, row))
  }

  function AdmittedBy(args: FilterArgs): Row -> bool { row => Admits(args, row) }

  /** The query sequence of `filter`, one query per argument given. */
  function QueryRows(rows: seq<Row>, args: FilterArgs): seq<Row> {
    var t1 := QueryIf(rows, args.bands.Some?, BandMask(args));
    var t2 := QueryIf(t1, args.observatories.Some?, IncludeMask(args));
    var t3 := QueryIf(t2, args.exclude.Some?, ExcludeMask(args));
    var t4 := QueryIf(t3, args.start.Some?, StartMask(args));
    QueryIf(t4, args.end.Some?, EndMask(args))
  }

  /** `if given: table = table.query(mask)`. */
  function QueryIf(t: seq<Row>, given: bool, mask: Row -> bool): seq<Row> {
    if given then Select(t, mask) else t
  }

  /** A query for an omitted argument would keep every row. */
  lemma QueryIfGiven(t: seq<Row>, given: bool, mask: Row -> bool)
    requires !given ==> forall row :: mask(row)
    ensures QueryIf(t, given, mask) == Select(t, mask)
  {
    if !given {
      SelectAll(t, mask);
    }
  }

  /** The successive queries keep exactly the rows satisfying every given
      predicate, in table order. */
  lemma {:induction false} QueryRowsIsConjunction(rows: seq<Row>, args: FilterArgs)
    ensures QueryRows(rows, args) == Select(rows, AdmittedBy(args))
  {
    var b, i, e, s, n := BandMask(args), IncludeMask(args), ExcludeMask(args), StartMask(args), EndMask(args);
    QueryIfGiven(rows, args.bands.Some?, b);
    var t1 := Select(rows, b);
    QueryIfGiven(t1, args.observatories.Some?, i);
    var t2 := Select(t1, i);
    QueryIfGiven(t2, args.exclude.Some?, e);
    var t3 := Select(t2, e);
    QueryIfGiven(t3, args.start.Some?, s);
    var t4 := Select(t3, s);
    QueryIfGiven(t4, args.end.Some?, n);
    assert QueryRows(rows, args) == Select(t4, n);
    forall row
      ensures AdmittedBy(args)(row) == (b(row) && i(row) && e(row) && s(row) && n(row))
    {
      StagesAreAdmits(args, row);
    }
    SelectFive(rows, b, i, e, s, n, AdmittedBy(args));
  }

  lemma StagesAreAdmits(args: FilterArgs, row: Row)
    ensures (BandOk(args, row) && IncludeOk(args, row) && ExcludeOk(args, row)
             && StartOk(args, row) && EndOk(args, row)) == Admits(args, row)
  {
    if args.bands.Some? {
      assert Matches(AsList(args.bands.value), row.band) == Matches(args.bands.value, row.band);
    }
    if args.observatories.Some? {
      assert Matches(AsList(args.observatories.value), row.observatory)
        == Matches(args.observatories.value, row.observatory);
    }
  }

  /** `filter`. Passing `observatories` as an integer fails its assertion;
      passing both an include and an exclude list raises. Both checks come
      before any query, so a raising call leaves the batch as it was. */
  function Filter(b: Batch, args: FilterArgs): (r: Outcome)
    ensures r.raised == Some(ObservatoriesNotText) <==>
      args.observatories.Some? && args.observatories.value.Integer?
    ensures r.raised == Some(IncludeAndExclude) <==>
      args.observatories.Some? && !args.observatories.value.Integer? && args.exclude.Some?
    ensures r.raised.None? || r.raised == Some(ObservatoriesNotText) || r.raised == Some(IncludeAndExclude)
    ensures r.raised.Some? ==> r.batch == b
    ensures r.raised.None? ==> r.batch.rows == Select(b.rows, AdmittedBy(args))
    ensures r.raised.None? ==> r.batch.registry == b.registry
    ensures r.raised.None? ==> r.batch.registrySpaceTelescopes == b.registrySpaceTelescopes
    ensures r.raised.None? ==> r.batch.meta == MetadataOf(r.batch.rows, b.registrySpaceTelescopes)
    ensures r.raised.None? && RegistryCoherent(b) ==> Consistent(r.batch)
  {
    if args.observatories.Some? && args.observatories.value.Integer? then
      Outcome(b, Some(ObservatoriesNotText))
    else if args.observatories.Some? && args.exclude.Some? then
      Outcome(b, Some(IncludeAndExclude))
    else
      QueryRowsIsConjunction(b.rows, args);
      Outcome(Refresh(b.(rows := QueryRows(b.rows, args))), None)
  }

  /** Filtering never adds a row: what it keeps is a sub-multiset of the table. */
  lemma FilterNeverAddsRows(b: Batch, args: FilterArgs)
    ensures |Filter(b, args).batch.rows| <= |b.rows|
    ensures multiset(Filter(b, args).batch.rows) <= multiset(b.rows)
  {
  }

  /** The rows admitted by both argument sets. */
  function BothAdmit(a1: FilterArgs, a2: FilterArgs): Row -> bool {
    row => Admits(a1, row) && Admits(a2, row)
  }

  /** Two successive filters keep exactly the rows both admit. */
  lemma FilterTwiceIsConjunction(b: Batch, a1: FilterArgs, a2: FilterArgs)
    requires Filter(b, a1).raised.None?
    requires Filter(Filter(b, a1).batch, a2).raised.None?
    ensures Filter(Filter(b, a1).batch, a2).batch.rows == Select(b.rows, BothAdmit(a1, a2))
  {
    SelectSelect(b.rows, AdmittedBy(a1), AdmittedBy(a2), BothAdmit(a1, a2));
  }

  function BandsOnly(bands: Selector): FilterArgs {
    FilterArgs(Some(bands), None, None, None, None)
  }

  function ObservatoriesOnly(observatories: Selector): FilterArgs {
    FilterArgs(None, Some(observatories), None, None, None)
  }

  function BandsAndObservatories(bands: Selector, observatories: Selector): FilterArgs {
    FilterArgs(Some(bands), Some(observatories), None, None, None)
  }

  /** Filtering by bands and then by observatories gives the same batch as one
      call with both arguments. */
  lemma FilterBandsThenObservatories(b: Batch, bands: Selector, observatories: Selector)
    requires !observatories.Integer?
    ensures Filter(Filter(b, BandsOnly(bands)).batch, ObservatoriesOnly(observatories)).raised.None?
    ensures Filter(b, BandsAndObservatories(bands, observatories)).raised.None?
    ensures Filter(Filter(b, BandsOnly(bands)).batch, ObservatoriesOnly(observatories)).batch
      == Filter(b, BandsAndObservatories(bands, observatories)).batch
  {
    var a1 := BandsOnly(bands);
    var a2 := ObservatoriesOnly(observatories);
    var a := BandsAndObservatories(bands, observatories);
    var first := Filter(b, a1);
    var second := Filter(first.batch, a2);
    var both := Filter(b, a);
    assert second.raised.None? && both.raised.None?;
    assert second.batch.rows == both.batch.rows by {
      FilterTwiceIsConjunction(b, a1, a2);
      SelectSame(b.rows, BothAdmit(a1, a2), AdmittedBy(a));
    }
    SameRowsSameMetadata(second.batch, both.batch);
  }

  /** A refreshed batch's metadata is fixed by its rows and registry. */
  lemma SameRowsSameMetadata(b1: Batch, b2: Batch)
    requires b1.rows == b2.rows && b1.registrySpaceTelescopes == b2.registrySpaceTelescopes
    requires b1.meta == MetadataOf(b1.rows, b1.registrySpaceTelescopes)
    requires b2.meta == MetadataOf(b2.rows, b2.registrySpaceTelescopes)
    ensures b1.meta == b2.meta
  {
  }
}
