# BatchMPC, modelled in Dafny

This project models `BatchMPC`, the observation-batch class of tudatpy's
Minor Planet Center interface (`tudatpy/data/mpc.py`). A batch holds a table
of astrometric observations: object number, Julian Date, TDB seconds since
J2000, UTC epoch, right ascension, declination, band and observatory code.
It also holds metadata derived from that table and the observatory registry
fetched when the batch was built. The model covers:

- how observations enter a batch: `get_observations`, `from_pandas`,
  `from_astropy` and `_add_table`;
- how the metadata is recomputed (`_refresh_metadata`);
- `filter`;
- the union of two batches (`__add__`);
- the space-telescope classification of the registry;
- `to_tudat`, which registers bodies and ground stations in a tudat
  environment and builds one link and one observation set per (object,
  observatory) pair;
- `create_default_angular_observation_settings`.

Everything is functional. A table is a `seq<Row>`. A call that mutates a
batch in place returns an `Outcome`: the batch afterwards plus the exception
raised, if any. The raising branches return the batch they were given,
because every check in the source comes before the first change. The
exceptions are named values of `Results.Error`:

- `RegistryUnavailable`: the constructor's `ValueError` when the registry
  fetch failed.
- `WrongTableType`, `UnsupportedFrame`, `MissingColumns`: the `ValueError`,
  `NotImplementedError` and `ValueError` of the two table importers.
- `ObservatoriesNotText`: the `AssertionError` of `filter`.
- `IncludeAndExclude`: the `ValueError` of `filter`.
- `BodyMissing(name)`: the lookup failure `to_tudat` re-raises.
- `ExcludedLinkTarget`: the bare `Exception` at line 395.
- `NoSuchColumn`: the `AttributeError` of the finding below.

Things the model receives as parameters instead of computing them:

- The registry fetch and the per-object observation query are parameters.
  The registry arrives as an `Option` (`None` when the query raised). The
  observation source is a function from designation to `Option` of raw rows.
- The astropy time-scale conversions are the two uninterpreted functions of
  `Observations.TimeModel`: UTC Julian Date to TDB Julian Date, and Julian
  Date to a UTC instant.
- The tudat `SystemOfBodies` is `Export.Env`: the body names, and the
  ground-station names of each body.

The modules follow the source's structure:

| module | file | models |
|---|---|---|
| `Results` | results.dfy | `Option`, `Result`, the exceptions |
| `Seqs` | seqs.dfy | pandas `unique()` / `drop_duplicates()` (`Distinct`) and boolean-mask queries (`Select`) |
| `Observations` | observations.dfy | rows, the epoch and angle conversions, `number.astype(str)` |
| `Observatories` | observatories.dfy | registry entries, `_get_station_info`'s space-telescope test |
| `BatchState` | batch.dfy | the batch, the constructor, `_refresh_metadata` |
| `Filtering` | filtering.dfy | `filter` |
| `Merging` | merging.dfy | `__add__` |
| `Ingestion` | ingestion.dfy | `_add_table`, `from_pandas`, `from_astropy`, `get_observations` |
| `Dicts` | dicts.dfy | Python dictionaries with string keys, in insertion order |
| `Export` | export.dfy | `to_tudat`, `create_default_angular_observation_settings` |
| `AsWritten` | aswritten.dfy | `get_observations` over the constructor's column-less DataFrame (see Findings) |

## Model

| member | source | states |
|---|---|---|
| `Observatories.SpaceTelescopeCodes` | tudatpy/data/mpc.py:115-119 | A code is listed as a space telescope exactly when some registry entry with that code has an undefined (NaN) longitude. |
| `BatchState.NewBatch` | tudatpy/data/mpc.py:19-37 | The constructor raises exactly when the registry could not be fetched. Otherwise it gives an empty, well-formed batch over the fetched registry. |
| `BatchState.EarliestTdb` | tudatpy/data/mpc.py:109 | `epoch_start` is NaN exactly for an empty table. Otherwise it is the TDB epoch of some row and no row is earlier. |
| `BatchState.LatestTdb` | tudatpy/data/mpc.py:110 | `epoch_end` is NaN exactly for an empty table. Otherwise it is the TDB epoch of some row and no row is later. |
| `BatchState.Refresh` | tudatpy/data/mpc.py:97-107 | A refresh keeps every row, because the discarded `drop_duplicates()` removes none. It keeps the registry and sets `size` to the row count. With a coherent registry the metadata agrees with the table afterwards. |
| `BatchState.RefreshMetadata` | tudatpy/data/mpc.py:97-110 | After a refresh, observatories, bands and objects hold each value of their column exactly once, in order of first appearance. The space telescopes are exactly the observatories the registry marks, in observatory order. The epoch range is the least and greatest TDB epoch. |
| `BatchState.SpaceTelescopesListed` | tudatpy/data/mpc.py:102-104 | The list comprehension keeps exactly the observatories found in the registry's space-telescope list, in their order. |
| `BatchState.ConsistentIsWellFormed` | tudatpy/data/mpc.py:101-104 | Every space telescope of a refreshed batch is one of its observatories and one of the registry's space telescopes. |
| `BatchState.EpochRangeOrdered` | tudatpy/data/mpc.py:109-110 | A refreshed non-empty batch has `epoch_start <= epoch_end`. |
| `Seqs.Distinct` | tudatpy/data/mpc.py:101-106 | `unique()` yields every value of the column exactly once, in order of first occurrence, and no other value. |
| `Seqs.DistinctOfUnique` | tudatpy/data/mpc.py:101-106 | At most one sequence lists each value of a column once in first-occurrence order, so the metadata lists are determined by the table. |
| `Seqs.DistinctKeepsChain` | tudatpy/data/mpc.py:88-89 | `drop_duplicates()` after `sort_values` leaves the table sorted. |
| `Seqs.Select` | tudatpy/data/mpc.py:278-292 | A query keeps a sub-multiset of the rows, all of which satisfy its mask. |
| `Seqs.SelectMembership` | tudatpy/data/mpc.py:278-292 | A query keeps exactly the rows that satisfy its mask. |
| `Seqs.SelectSelect` | tudatpy/data/mpc.py:278-292 | Two queries in a row are one query by the conjunction of their masks. |
| `Seqs.SelectOrderedBy` | tudatpy/data/mpc.py:102-104 | Filtering a list without repetitions keeps the survivors in their relative order. |
| `Observations.NatToDecimal` | tudatpy/data/mpc.py:191 | `str` of a non-negative integer is a non-empty string of decimal digits with no leading zero. |
| `Observations.DecimalRoundTrip` | tudatpy/data/mpc.py:191 | Reading the decimal text of a number back gives the number, so `astype(str)` loses no designation. |
| `Observations.SecondsSinceJ2000` | tudatpy/data/mpc.py:180-183 | `(jd - 2451545.0) * 86400` is inverted by dividing by 86400 and adding the J2000 Julian Date. |
| `Observations.Radians` | tudatpy/data/mpc.py:186-188 | Over the reals, `np.radians` is inverted by `np.degrees`, so converting an angle loses nothing but rounding. |
| `Observations.Normalize` | tudatpy/data/mpc.py:179-191 | A normalised row has a text designation and keeps the Julian Date, band and observatory. Its TDB seconds and UTC epoch come from the Julian Date. Its angles are converted to radians exactly when they were given in degrees. |
| `Observations.Asteroid433Example` | tudatpy/data/mpc.py:153-167 | Object 433 observed half a day after J2000 gets the designation "433" and 43200 TDB seconds, with the time-scale offset taken as zero. |
| `Ingestion.AddTable` | tudatpy/data/mpc.py:176-193 | The supplied rows, normalised, are appended after the existing rows in their order, and the metadata is refreshed. |
| `Ingestion.AddValidated` | tudatpy/data/mpc.py:206-215 | A frame other than J2000 raises first, then a missing mandatory column. Otherwise the table is added. A raising call leaves the batch unchanged. |
| `Ingestion.FromPandas` | tudatpy/data/mpc.py:217-232 | Each error is raised exactly under its condition, checked in order: table type, then frame, then columns. A raising call changes nothing. A successful one appends the normalised rows, keeps the registry, and leaves a batch with a coherent registry consistent with its table. |
| `Ingestion.FromAstropy` | tudatpy/data/mpc.py:195-215 | The same for QTable or Table input. |
| `Ingestion.FetchedAppend` | tudatpy/data/mpc.py:148-168 | The rows several code lists contribute are the concatenation of what each list contributes, in order. |
| `Ingestion.FailingCodeIsSkipped` | tudatpy/data/mpc.py:148-172 | A code whose query raises contributes nothing and does not stop the codes after it. |
| `Ingestion.FailedCodesExact` | tudatpy/data/mpc.py:148-172 | The codes reported as failed are exactly those whose query raised. |
| `Ingestion.GetObservations` | tudatpy/data/mpc.py:146-174 | The rows of the successful codes are appended in code order and the failed codes are reported. The metadata is refreshed once, after the loop, so it agrees with the table even under partial failure. |
| `Filtering.AsList` | tudatpy/data/mpc.py:268-271 | Wrapping a string argument in a list changes no row's admission. |
| `Filtering.Filter` | tudatpy/data/mpc.py:234-294 | An integer `observatories` fails the assertion. Giving both an include and an exclude list raises. Either way the batch is unchanged. Otherwise the rows kept are exactly those every given criterion admits, in table order, and the metadata is refreshed. |
| `Filtering.QueryRowsIsConjunction` | tudatpy/data/mpc.py:277-292 | The successive queries keep exactly the rows that satisfy every given band, include, exclude, start and end condition, with both bounds inclusive. |
| `Filtering.StagesAreAdmits` | tudatpy/data/mpc.py:268-292 | The per-argument masks, after string arguments are wrapped into lists, together admit exactly what the direct conjunction admits. |
| `Filtering.FilterNeverAddsRows` | tudatpy/data/mpc.py:277-292 | Filtering never adds a row: the result is a sub-multiset of the table. |
| `Filtering.FilterTwiceIsConjunction` | tudatpy/data/mpc.py:277-294 | Two successive filters keep exactly the rows both argument sets admit. |
| `Filtering.FilterBandsThenObservatories` | tudatpy/data/mpc.py:277-294 | Filtering by bands and then by observatories gives the batch that one call with both gives. |
| `Merging.InsertByEpoch` | tudatpy/data/mpc.py:88 | Inserting a row into an epoch-sorted table keeps it sorted and adds exactly that row. |
| `Merging.SortByEpoch` | tudatpy/data/mpc.py:88 | `sort_values("epoch")` gives a permutation of the table with non-decreasing epochs. |
| `Merging.MergedRows` | tudatpy/data/mpc.py:86-90 | The merged table has no repeated row, holds exactly the rows of either operand, and is sorted by epoch. |
| `Merging.Merge` | tudatpy/data/mpc.py:83-94 | `a + b` raises exactly when the new batch's registry fetch fails. Otherwise it is a fresh, consistent batch over the new registry, with the merged table. |
| `Merging.MergeAbsorbsContainedBatch` | tudatpy/data/mpc.py:83-94 | Adding a batch whose rows the other already holds gives a table with the same set of rows as the other operand, each once and sorted by epoch. |
| `Dicts.Lookup` | tudatpy/data/mpc.py:407 | Looking up a key gives its value, and a missing key gives nothing. |
| `Dicts.Put` | tudatpy/data/mpc.py:412-421 | Assigning a key keeps an existing key in its place, or appends a new one. The key then maps to the new value and every other key keeps its value. |
| `Export.FirstMissing` | tudatpy/data/mpc.py:321-326 | The first satellite body that is not in `bodies`, scanning in order; none exactly when all are present. |
| `Export.ValidateMeaning` | tudatpy/data/mpc.py:305-326 | The input checks raise exactly for a missing station body or a missing satellite body, and the station body is checked first. |
| `Export.ValidateKeeps` | tudatpy/data/mpc.py:305-326 | Checks that passed keep passing once bodies are added. |
| `Export.PlanFor` | tudatpy/data/mpc.py:313-329 | The excluded space telescopes are exactly the batch's space telescopes that are not keys of `included_satellites`, or all of them without a dictionary. |
| `Export.WellFormedCovers` | tudatpy/data/mpc.py:313-329 | Every excluded telescope is an observatory of the batch with a registry entry. |
| `Export.StationsOf` | tudatpy/data/mpc.py:334-336 | `tempStations` holds exactly the registry entries whose code is an observatory of the batch. |
| `Export.JoinRow` | tudatpy/data/mpc.py:339-345 | The left join of a row yields at least one copy of it. Each copy carries its own observatory's code, or no code when no station entry matches. |
| `Export.Join` | tudatpy/data/mpc.py:339-345 | The left join has at least one copy of every table row and only copies of table rows, each carrying its own observatory's code or, when no station matches, no code. |
| `Export.AtMostOneMatch` | tudatpy/data/mpc.py:334-345 | With unique registry codes a row matches at most one station entry. |
| `Export.JoinRowOnce` | tudatpy/data/mpc.py:339-347 | With unique registry codes a row appears exactly once in the merged table, and is kept exactly when its observatory is not excluded. |
| `Export.KeptRowsOnce` | tudatpy/data/mpc.py:339-347 | With unique registry codes the merged table, excluded rows removed, is exactly the batch's rows from non-excluded observatories, in table order. |
| `Export.KeptRowsOutside` | tudatpy/data/mpc.py:346-347 | No kept row was observed from an excluded telescope. |
| `Export.CombosNotExcluded` | tudatpy/data/mpc.py:383-395 | No distinct (number, observatory) pair of the kept rows has an excluded observatory. |
| `Export.ExportRaisesOnlyForMissingBodies` | tudatpy/data/mpc.py:393-395 | For a well-formed batch the `raise Exception` at line 395 is unreachable, so the export raises only for a missing body. |
| `Export.AddBodies` | tudatpy/data/mpc.py:352-356 | `create_empty_body` runs exactly for the objects not yet bodies. The existing bodies keep their order and no body is repeated. |
| `Export.AddBodiesPresent` | tudatpy/data/mpc.py:352-356 | When every object is already a body, nothing changes. |
| `Export.AddStation` | tudatpy/data/mpc.py:362-380 | A station is added to the station body only when it is not a space telescope and not already in that body's station list. |
| `Export.AddStations` | tudatpy/data/mpc.py:359-380 | After the station loop the station body's stations are the old ones, kept in order, plus the registry's non-space-telescope stations of the batch, with none repeated. Other bodies are untouched. |
| `Export.AddStationsPresent` | tudatpy/data/mpc.py:359-380 | When every station is present or a space telescope, nothing changes. |
| `Export.GroundStationCodes` | tudatpy/data/mpc.py:359-364 | The codes the station loop adds are exactly the batch's observatories with a registry entry that are not space telescopes. |
| `Export.ExtendMeaning` | tudatpy/data/mpc.py:349-380 | The environment after the body and station loops: old bodies kept in order, the batch's objects added, and only the station body's station list extended, by the batch's ground stations. |
| `Export.ExtendIdempotent` | tudatpy/data/mpc.py:352-380 | Adding the batch's bodies and stations a second time changes nothing. |
| `Export.BuildLinks` | tudatpy/data/mpc.py:387-445 | The link loop raises exactly when some pair's observatory is excluded. Otherwise the i-th set belongs to the i-th pair. The dictionary's keys are exactly the pairs' keys, and each key maps to the link of the last pair that has it. |
| `Export.RowsOfSelect` | tudatpy/data/mpc.py:424-426 | Selecting one pair's merged rows and dropping the join gives that pair's rows. |
| `Export.ToTudat` | tudatpy/data/mpc.py:296-448 | A missing station body or satellite body raises and changes nothing. Otherwise the objects become bodies and the ground stations are added to the station body. The only other possible exception is the one at line 395. |
| `Export.ExportMatchesDirectDefinition` | tudatpy/data/mpc.py:383-445 | For a well-formed batch with unique registry codes the export succeeds. It makes one observation set per distinct (number, observatory) pair of the non-excluded rows, in first-occurrence order, holding exactly that pair's rows in table order. |
| `Export.ExportLinksMatchDirectDefinition` | tudatpy/data/mpc.py:397-421 | The dictionary's keys are `"{number}_{satellite}"` for mapped satellites and `"{number}_{station}"` otherwise, one per pair. Each key maps to the link of the last pair that has it. |
| `Export.DirectSets` | tudatpy/data/mpc.py:383-445 | The pairs the export loops over are the distinct pairs of the non-excluded rows, and each pair's set is built from the batch's own rows. |
| `Export.SetIsDirect` | tudatpy/data/mpc.py:423-443 | The two queries for one pair select exactly that pair's rows of the batch. |
| `Export.ExportTwiceAddsNothing` | tudatpy/data/mpc.py:349-380 | Exporting the same batch again into the environment the first export left adds no body or station and returns the same result. |
| `Export.DefaultAngularSettings` | tudatpy/data/mpc.py:553-559 | One angular-position setting per link, in the dictionary's value order. Every link of the dictionary has one. |
| `AsWritten.FetchInto` | tudatpy/data/mpc.py:148-172 | The DataFrame stays column-less exactly when it started so and every query failed. Otherwise it holds the old rows and then the fetched ones. |
| `AsWritten.GetObservationsAsWritten` | tudatpy/data/mpc.py:146-174 | `get_observations` as written raises exactly when the DataFrame is still column-less and no query succeeded. |
| `AsWritten.FreshBatchFailingQueryRaises` | tudatpy/data/mpc.py:146-174 | On a fresh batch, one failing query makes `get_observations` raise. |
| `AsWritten.FreshBatchNoCodesRaises` | tudatpy/data/mpc.py:146-174 | On a fresh batch, an empty code list makes `get_observations` raise. |
| `AsWritten.AsWrittenAgreesOtherwise` | tudatpy/data/mpc.py:146-174 | In every other case the code as written computes what `Ingestion.GetObservations` computes. |

## Left out

- Observatory positions: the X/Y/Z computation of `_add_observatory_positions` (Earth radius, cosine and sine of the longitude) is floating-point trigonometry. Stations carry no position, and the position argument of `basic_station` is not modelled.
- Time scales: the UTC-to-TDB and JD-to-datetime conversions of astropy are the uninterpreted functions of `TimeModel`, so leap seconds are not modelled.
- Remote queries: `MPC.get_observatory_codes` and `MPC.get_observations` are network I/O. They are parameters: an `Option` registry and an `ObservationSource` oracle. A query that raises for any reason is `None`.
- Reporting: the `print` calls of the error handlers are not modelled. `get_observations` returns the failed codes instead of printing them.
- Tudat kernel objects: `SystemOfBodies`, link ends, `link_definition`, `single_observation_set` and `ObservationCollection` are foreign C++ bindings, represented by plain records. The collection is its list of sets.
- Other methods: `plot_observations` (matplotlib), `summary` (printing), `observatories_table` (a pandas report) and the read-only properties and `__len__` are left out. The properties are the fields of `Batch` and `Metadata`.
- Columns: a table's extra columns, and the DataFrame index that `pd.concat` carries along, are not modelled. A row has exactly the observation columns.
- `from_astropy`'s `table.to_pandas()` is taken as the identity on rows.
- `Merging.Merge`: the order among rows with equal epochs is not stated, because pandas' default `sort_values` is not a stable sort. The model sorts stably, and its contract claims only sortedness, the set of rows and the absence of repeats.
- `Export.PlanFor`: the excluded list is `list(set(...) - set(...))`, whose order Python leaves unspecified. The model keeps the batch's order, and its contract states the membership only.
- `Export.ExportMatchesDirectDefinition`, `Export.ExportLinksMatchDirectDefinition`, `Export.DirectSets` and `Export.SetIsDirect`: require unique registry codes, the registry's key. If a code appeared twice in the registry, the left join would duplicate that station's rows. `Join` models that case, but these set-content lemmas do not cover it.
- Fresh batches: a freshly built batch reports epochs 0.0 and an empty table; NaN is `None`. Apart from `get_observations`, the column-less DataFrame of a fresh batch is modelled as an empty table. So `filter` and `to_tudat` on a fresh batch, and `a + b` of two fresh batches, do not raise in the model, whereas the pandas calls on missing columns would.
- Python treats `True` and `False` as integers: a bool `observatories` argument fails the assertion like an integer, and a bool epoch bound compares TDB seconds. The model has no separate bool case.
- `create_empty_body(str(body))`: the objects are already text, so the `str` is the identity.
- `Observations.Radians`: float64 values are modelled as exact reals, and rounding is not modelled. In double precision `np.degrees(np.radians(x))` can differ from `x` in the last place (3.0 becomes 3.0000000000000004). The same holds for `Observations.Normalize`'s angle clause and for `Observations.SecondsSinceJ2000`.
- `Filtering.Filter`: only naive (UTC) `datetime` bounds are modelled. The `epochUTC` column is naive, so a timezone-aware bound makes pandas raise `TypeError` at the epoch query. That happens after the band and observatory queries have already replaced the table and before the metadata refresh, which leaves a partly filtered table with stale metadata. The model always compares.

## Findings

| source | as written | input that shows it | evidently intended | confidence | as-written member | corrected member |
|---|---|---|---|---|---|---|
| tudatpy/data/mpc.py:146-174 | The constructor's table is `pd.DataFrame()`, which has no columns. After the query loop, `_refresh_metadata` reads `self._table.observatory`. If no query succeeded, nothing was concatenated, so that attribute access raises `AttributeError`. | A fresh `BatchMPC()`, then `get_observations([c])` where the query for `c` raises; or `get_observations([])`. | The failing code is reported and skipped, as the `except` branch intends, leaving an empty batch with empty metadata. | not executed; high | `AsWritten.GetObservationsAsWritten` | `Ingestion.GetObservations` |
