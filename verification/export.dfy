/** `BatchMPC.to_tudat` and `create_default_angular_observation_settings`
    (tudatpy/data/mpc.py): turning a batch into tudat observation sets and
    link definitions, and registering the bodies and ground stations they
    need. */
module Export {
  import opened Results
  import opened Seqs
  import opened Dicts
  import opened Observations
  import opened Observatories
  import opened BatchState

  /** The parts of a tudat `SystemOfBodies` the export reads and extends: the
      body names, and the ground-station names of each body. */
  datatype Env = Env(bodies: seq<string>, stations: map<string, seq<string>>)

  /** `bodies.get(body).ground_station_list`. */
  function GroundStations(env: Env, body: string): seq<string> {
    if body in env.stations then env.stations[body] else []
  }

  datatype LinkEnd = BodyOrigin(body: string) | ReferencePoint(body: string, point: string)

  /** A link with the observed body as transmitter. */
  datatype LinkDefinition = LinkDefinition(transmitter: LinkEnd, receiver: LinkEnd)

  datatype Observable = AngularPosition
  datatype LinkEndRole = Transmitter | Receiver

  /** `single_observation_set`: right ascension / declination pairs and their
      epochs (seconds since J2000, TDB). */
  datatype ObservationSet = ObservationSet(
    observable: Observable,
    link: LinkDefinition,
    angles: seq<(real, real)>,
    times: seq<real>,
    reference: LinkEndRole)

  /** `observation.angular_position(link)`. */
  datatype ObservationSettings = AngularPositionSettings(link: LinkDefinition)

  /** The observation collection's sets and the links dictionary. */
  datatype Exported = Exported(sets: seq<ObservationSet>, links: Dict<LinkDefinition>)

  /** The environment after the call and what the call returned or raised. */
  datatype ExportOutcome = ExportOutcome(env: Env, result: Result<Exported>)

  /** A (number, observatory) pair: one link. */
  type Combo = (string, string)

  /** The choices the export works with: the body carrying ground stations,
      the included space telescopes (code to body name), and the space
      telescopes whose observations are dropped. */
  datatype Plan = Plan(stationBody: string, satellites: Dict<string>, excluded: seq<string>)

  /** A row of the merged table: the observation and the registry code it was
      joined to, `None` (NaN) when no station matched. */
  datatype Joined = Joined(row: Row, code: Option<string>)

  // ---------------------------------------------------------------- validation

  /** The position of the first name that is not a body, checked in order. */
  function FirstMissing(names: seq<string>, bodies: seq<string>): (k: Option<nat>)
    ensures k.None? <==> forall i :: 0 <= i < |names| ==> names[i] in bodies
    ensures k.Some? ==> k.value < |names| && names[k.value] !in bodies
    ensures k.Some? ==> forall i :: 0 <= i < k.value ==> names[i] in bodies
  {
    if |names| == 0 then None
    else if names[0] !in bodies then Some(0)
    else
      assert forall i :: 1 <= i < |names| ==> names[i] == names[1..][i - 1];
      match FirstMissing(names[1..], bodies)
      case None => None
      case Some(k) => Some(k + 1)
  }

  /** The input checks, in the order they are made: the station body, then
      each included satellite's body. */
  function Validate(env: Env, included: Option<Dict<string>>, stationBody: string): Option<Error> {
    if stationBody !in env.bodies then Some(BodyMissing(stationBody))
    else if included.None? then None
    else
      match FirstMissing(Values(included.value), env.bodies)
      case None => None
      case Some(k) => Some(BodyMissing(Values(included.value)[k]))
  }

  /** `(not) in @codes` as a mask. */
  function NotListedIn(codes: seq<string>): string -> bool {
    c => c !in codes
  }

  /** The included and excluded space telescopes: without a dictionary every
      space telescope of the batch is excluded; with one, those that are not
      its keys. */
  function PlanFor(b: Batch, included: Option<Dict<string>>, stationBody: string): (p: Plan)
    ensures p.stationBody == stationBody
    ensures forall c :: c in p.excluded <==>
      c in b.meta.spaceTelescopes && (included.Some? ==> c !in Keys(included.value))
    ensures included.None? ==> p.satellites == []
    ensures included.Some? ==> p.satellites == included.value
  {
    match included
    case None => Plan(stationBody, [], b.meta.spaceTelescopes)
    case Some(d) =>
      var excluded := Select(b.meta.spaceTelescopes, NotListedIn(Keys(d)));
      assert forall c :: c in excluded <==> c in b.meta.spaceTelescopes && c !in Keys(d) by {
        forall c ensures c in excluded <==> c in b.meta.spaceTelescopes && c !in Keys(d) {
          SelectMembership(b.meta.spaceTelescopes, NotListedIn(Keys(d)), c);
        }
      }
      Plan(stationBody, d, excluded)
  }

  // -------------------------------------------------------- bodies and stations

  /** `create_empty_body` for every name that is not yet a body, in order. */
  function AddBodies(env: Env, names: seq<string>): (r: Env)
    ensures r.stations == env.stations
    ensures |env.bodies| <= |r.bodies| && r.bodies[..|env.bodies|] == env.bodies
    ensures forall n :: n in r.bodies <==> n in env.bodies || n in names
    ensures NoDup(env.bodies) ==> NoDup(r.bodies)
    decreases |names|
  {
    if |names| == 0 then env
    else
      var next := if names[0] in env.bodies then env else env.(bodies := env.bodies + [names[0]]);
      assert next.bodies[..|env.bodies|] == env.bodies;
      assert names == [names[0]] + names[1..];
      var r := AddBodies(next, names[1..]);
      assert r.bodies[..|env.bodies|] == r.bodies[..|next.bodies|][..|env.bodies|];
      r
  }

  function Codes(stations: seq<Observatory>): seq<string> {
    seq(|stations|, i requires 0 <= i < |stations| => stations[i].code)
  }

  /** Add each ground station of `stations` (space telescopes skipped) to
      `body`, unless the body already has a station of that name. */
  function AddStations(env: Env, body: string, stations: seq<Observatory>, spaceTelescopes: seq<string>): (r: Env)
    ensures r.bodies == env.bodies
    ensures forall other :: other != body ==> GroundStations(r, other) == GroundStations(env, other)
    ensures |GroundStations(env, body)| <= |GroundStations(r, body)|
    ensures GroundStations(r, body)[..|GroundStations(env, body)|] == GroundStations(env, body)
    ensures forall n :: n in GroundStations(r, body) <==>
      n in GroundStations(env, body) || (n in Codes(stations) && n !in spaceTelescopes)
    ensures NoDup(GroundStations(env, body)) ==> NoDup(GroundStations(r, body))
    decreases |stations|
  {
    if |stations| == 0 then env
    else
      var name := stations[0].code;
      var present := GroundStations(env, body);
      var next := AddStation(env, body, name, spaceTelescopes);
      assert Codes(stations) == [name] + Codes(stations[1..]);
      var r := AddStations(next, body, stations[1..], spaceTelescopes);
      assert GroundStations(r, body)[..|present|]
        == GroundStations(r, body)[..|GroundStations(next, body)|][..|present|];
      r
  }

  /** One step of the station loop: `name` is added to `body` unless it is a
      space telescope or the body already has a station of that name. */
  function AddStation(env: Env, body: string, name: string, spaceTelescopes: seq<string>): (r: Env)
    ensures r.bodies == env.bodies
    ensures forall other :: other != body ==> GroundStations(r, other) == GroundStations(env, other)
    ensures GroundStations(r, body) ==
      if name in spaceTelescopes || name in GroundStations(env, body) then GroundStations(env, body)
      else GroundStations(env, body) + [name]
  {
    var present := GroundStations(env, body);
    if name in spaceTelescopes || name in present then env
    else env.(stations := env.stations[body := present + [name]])
  }

  /** A call that adds only names already present changes nothing. */
  lemma {:induction false} AddBodiesPresent(env: Env, names: seq<string>)
    requires forall i :: 0 <= i < |names| ==> names[i] in env.bodies
    ensures AddBodies(env, names) == env
    decreases |names|
  {
    if |names| > 0 {
      AddBodiesPresent(env, names[1..]);
    }
  }

  /** A call whose ground stations are all present already changes nothing. */
  lemma {:induction false} AddStationsPresent(env: Env, body: string, stations: seq<Observatory>, spaceTelescopes: seq<string>)
    requires forall i :: 0 <= i < |stations| ==>
      stations[i].code in spaceTelescopes || stations[i].code in GroundStations(env, body)
    ensures AddStations(env, body, stations, spaceTelescopes) == env
    decreases |stations|
  {
    if |stations| > 0 {
      AddStationsPresent(env, body, stations[1..], spaceTelescopes);
    }
  }

  // ------------------------------------------------------------- the join

  /** `Code == @self.observatories`, as a mask on registry entries. */
  function InBatch(observatories: seq<string>): Observatory -> bool {
    (o: Observatory) => o.code in observatories
  }

  /** `tempStations`: the registry entries of the batch's observatories, in
      registry order. */
  function StationsOf(b: Batch): (r: seq<Observatory>)
    ensures forall o :: o in r <==> o in b.registry && o.code in b.meta.observatories
  {
    var r := Select(b.registry, InBatch(b.meta.observatories));
    assert forall o :: o in r <==> o in b.registry && o.code in b.meta.observatories by {
      forall o ensures o in r <==> o in b.registry && o.code in b.meta.observatories {
        SelectMembership(b.registry, InBatch(b.meta.observatories), o);
      }
    }
    r
  }

  /** The entries of `tempStations` a row with observatory `code` joins. */
  function StationFor(observatories: seq<string>, code: string): Observatory -> bool {
    (o: Observatory) => o.code == code && o.code in observatories
  }

  /** No registry entry of the batch's observatories has this code. */
  ghost predicate Unmatched(registry: seq<Observatory>, observatories: seq<string>, code: string) {
    forall k :: 0 <= k < |registry| ==> !(registry[k].code == code && code in observatories)
  }

  /** The left join of one row: one copy per matching station entry, or a
      single copy with no code. */
  function JoinRow(row: Row, registry: seq<Observatory>, observatories: seq<string>): (r: seq<Joined>)
    ensures |r| >= 1
    ensures forall i :: 0 <= i < |r| ==> r[i].row == row && JoinedWell(registry, observatories, r[i])
  {
    var m := Select(registry, StationFor(observatories, row.observatory));
    if |m| == 0 then
      SelectEmpty(registry, StationFor(observatories, row.observatory));
      [Joined(row, None)]
    else
      seq(|m|, i requires 0 <= i < |m| => Joined(row, Some(m[i].code)))
  }

  /** `pd.merge(left=table, right=tempStations, how="left")`, in table order. */
  function Join(rows: seq<Row>, registry: seq<Observatory>, observatories: seq<string>): (t: seq<Joined>)
    ensures |t| >= |rows|
    ensures forall i :: 0 <= i < |t| ==> t[i].row in rows
    ensures forall k :: 0 <= k < |rows| ==> exists i :: 0 <= i < |t| && t[i].row == rows[k]
    ensures forall i :: 0 <= i < |t| ==> JoinedWell(registry, observatories, t[i])
  {
    if |rows| == 0 then []
    else
      var head := JoinRow(rows[0], registry, observatories);
      var tail := Join(rows[1..], registry, observatories);
      JoinedWellConcat(registry, observatories, head, tail);
      JoinCoversRows(rows, head, tail);
      head + tail
  }

  /** A row's copies followed by the join of the remaining rows hold copies
      of every row and of nothing else. */
  lemma JoinCoversRows(rows: seq<Row>, head: seq<Joined>, tail: seq<Joined>)
    requires |rows| > 0 && |head| >= 1
    requires forall i :: 0 <= i < |head| ==> head[i].row == rows[0]
    requires forall i :: 0 <= i < |tail| ==> tail[i].row in rows[1..]
    requires forall k :: 0 <= k < |rows[1..]| ==> exists i :: 0 <= i < |tail| && tail[i].row == rows[1..][k]
    ensures forall i :: 0 <= i < |head + tail| ==> (head + tail)[i].row in rows
    ensures forall k :: 0 <= k < |rows| ==> exists i :: 0 <= i < |head + tail| && (head + tail)[i].row == rows[k]
  {
    var t := head + tail;
    forall i | 0 <= i < |t|
      ensures t[i].row in rows
    {
      if i < |head| {
        assert t[i] == head[i];
      } else {
        assert t[i] == tail[i - |head|];
      }
    }
    forall k | 0 <= k < |rows|
      ensures exists i :: 0 <= i < |t| && t[i].row == rows[k]
    {
      if k == 0 {
        assert t[0] == head[0];
      } else {
        assert rows[k] == rows[1..][k - 1];
        var i :| 0 <= i < |tail| && tail[i].row == rows[1..][k - 1];
        assert t[|head| + i] == tail[i];
      }
    }
  }

  lemma JoinedWellConcat(registry: seq<Observatory>, observatories: seq<string>, head: seq<Joined>, tail: seq<Joined>)
    requires forall i :: 0 <= i < |head| ==> JoinedWell(registry, observatories, head[i])
    requires forall i :: 0 <= i < |tail| ==> JoinedWell(registry, observatories, tail[i])
    ensures forall i :: 0 <= i < |head + tail| ==> JoinedWell(registry, observatories, (head + tail)[i])
  {
    var t := head + tail;
    forall i | 0 <= i < |t|
      ensures JoinedWell(registry, observatories, t[i])
    {
      if i < |head| {
        assert t[i] == head[i];
      } else {
        assert t[i] == tail[i - |head|];
      }
    }
  }

  /** A merged row carries its own observatory's code, or no code when no
      station of the batch has that code. */
  ghost predicate JoinedWell(registry: seq<Observatory>, observatories: seq<string>, j: Joined) {
    && (j.code.Some? ==> j.code.value == j.row.observatory)
    && (j.code.None? ==> Unmatched(registry, observatories, j.row.observatory))
  }

  /** `Code != @sat_obs_codes_excluded`: a row with no code is kept. */
  function KeepMask(excluded: seq<string>): Joined -> bool {
    (j: Joined) => j.code.None? || j.code.value !in excluded
  }

  /** The merged table with the excluded telescopes' rows removed. */
  function Table(b: Batch, excluded: seq<string>): seq<Joined> {
    Select(Join(b.rows, b.registry, b.meta.observatories), KeepMask(excluded))
  }

  function RowsOf(t: seq<Joined>): seq<Row> {
    seq(|t|, i requires 0 <= i < |t| => t[i].row)
  }

  function PairColumn(rows: seq<Row>): seq<Combo> {
    seq(|rows|, i requires 0 <= i < |rows| => (rows[i].number, rows[i].observatory))
  }

  /** `loc[:, ["number", "observatory"]].drop_duplicates()`. */
  function Combos(t: seq<Joined>): seq<Combo> {
    Distinct(PairColumn(RowsOf(t)))
  }

  // ------------------------------------------------------------------ links

  /** The receiver: the included satellite's body, or the station on the
      station body. */
  function ReceiverFor(plan: Plan, station: string): LinkEnd {
    match Lookup(plan.satellites, station)
    case Some(sat) => BodyOrigin(sat)
    case None => ReferencePoint(plan.stationBody, station)
  }

  function LinkFor(plan: Plan, c: Combo): LinkDefinition {
    LinkDefinition(BodyOrigin(c.0), ReceiverFor(plan, c.1))
  }

  /** `f"{MPC_number}_{sat_name}"` or `f"{MPC_number}_{station_name}"`. */
  function KeyFor(plan: Plan, c: Combo): string {
    c.0 + "_" + (match Lookup(plan.satellites, c.1) case Some(sat) => sat case None => c.1)
  }

  /** `query("number == @MPC_number").query("observatory == @station_name")`. */
  function RowComboIs(c: Combo): Row -> bool {
    (row: Row) => row.number == c.0 && row.observatory == c.1
  }

  function ComboIs(c: Combo): Joined -> bool {
    (j: Joined) => j.row.number == c.0 && j.row.observatory == c.1
  }

  /** The observation set of one link, from the rows it covers. */
  function SetOf(link: LinkDefinition, rows: seq<Row>): (s: ObservationSet)
    ensures |s.angles| == |s.times| == |rows|
    ensures forall i :: 0 <= i < |rows| ==>
      s.angles[i] == (rows[i].ra, rows[i].dec) && s.times[i] == rows[i].tdbSeconds
  {
    ObservationSet(
      AngularPosition, link,
      seq(|rows|, i requires 0 <= i < |rows| => (rows[i].ra, rows[i].dec)),
      seq(|rows|, i requires 0 <= i < |rows| => rows[i].tdbSeconds),
      Receiver)
  }

  function SetFor(plan: Plan, t: seq<Joined>, c: Combo): ObservationSet {
    SetOf(LinkFor(plan, c), RowsOf(Select(t, ComboIs(c))))
  }

  /** What the loop over the link combinations yields when nothing raised:
      the i-th observation set is the one of the i-th combination, the
      dictionary's keys are the combinations' keys, and a key maps to the
      link of the last combination that has it. */
  ghost predicate Built(plan: Plan, t: seq<Joined>, combos: seq<Combo>, e: Exported) {
    && |e.sets| == |combos|
    && (forall i :: 0 <= i < |combos| ==> e.sets[i] == SetFor(plan, t, combos[i]))
    && (forall k :: k in Keys(e.links) <==> exists i :: 0 <= i < |combos| && KeyFor(plan, combos[i]) == k)
    && (forall i :: 0 <= i < |combos| ==>
          LastWithKey(plan, combos, i) ==> Lookup(e.links, KeyFor(plan, combos[i])) == Some(LinkFor(plan, combos[i])))
  }

  /** The loop over the link combinations: a combination whose observatory
      is excluded raises; otherwise each adds its link to the dictionary
      (a repeated key takes the later link) and its observation set to the
      list. */
  function BuildLinks(plan: Plan, t: seq<Joined>, combos: seq<Combo>): (r: Result<Exported>)
    ensures r.Err? <==> exists i :: 0 <= i < |combos| && combos[i].1 in plan.excluded
    ensures r.Err? ==> r.error == ExcludedLinkTarget
    ensures r.Ok? ==> Built(plan, t, combos, r.value)
  {
    if |combos| == 0 then Ok(Exported([], []))
    else
      var init := combos[..|combos| - 1];
      var c := combos[|combos| - 1];
      assert combos == init + [c];
      var prev := BuildLinks(plan, t, init);
      StepExcluded(plan.excluded, init, c);
      if prev.Err? then Err(prev.error)
      else if c.1 in plan.excluded then Err(ExcludedLinkTarget)
      else
        var e := Exported(prev.value.sets + [SetFor(plan, t, c)],
                          Put(prev.value.links, KeyFor(plan, c), LinkFor(plan, c)));
        StepBuilt(plan, t, init, c, prev.value);
        Ok(e)
  }

  lemma StepExcluded(excluded: seq<string>, init: seq<Combo>, c: Combo)
    ensures (exists i :: 0 <= i < |init + [c]| && (init + [c])[i].1 in excluded) <==>
      (exists i :: 0 <= i < |init| && init[i].1 in excluded) || c.1 in excluded
  {
    var combos := init + [c];
    if i :| 0 <= i < |combos| && combos[i].1 in excluded {
      if i < |init| {
        assert init[i] == combos[i];
      }
    }
    if i :| 0 <= i < |init| && init[i].1 in excluded {
      assert combos[i] == init[i];
    }
    if c.1 in excluded {
      assert combos[|init|] == c;
    }
  }

  lemma StepBuilt(plan: Plan, t: seq<Joined>, init: seq<Combo>, c: Combo, prev: Exported)
    requires Built(plan, t, init, prev)
    ensures Built(plan, t, init + [c],
      Exported(prev.sets + [SetFor(plan, t, c)], Put(prev.links, KeyFor(plan, c), LinkFor(plan, c))))
  {
    StepSets(plan, t, init, c, prev.sets);
    StepKeys(plan, init, c, prev.links);
    StepLast(plan, init, c, prev.links);
  }

  lemma StepSets(plan: Plan, t: seq<Joined>, init: seq<Combo>, c: Combo, sets: seq<ObservationSet>)
    requires |sets| == |init|
    requires forall i :: 0 <= i < |init| ==> sets[i] == SetFor(plan, t, init[i])
    ensures forall i :: 0 <= i < |init + [c]| ==> (sets + [SetFor(plan, t, c)])[i] == SetFor(plan, t, (init + [c])[i])
  {
    forall i | 0 <= i < |init + [c]|
      ensures (sets + [SetFor(plan, t, c)])[i] == SetFor(plan, t, (init + [c])[i])
    {
      if i < |init| {
        assert (init + [c])[i] == init[i];
        assert (sets + [SetFor(plan, t, c)])[i] == sets[i];
      }
    }
  }

  lemma StepKeys(plan: Plan, init: seq<Combo>, c: Combo, before: Dict<LinkDefinition>)
    requires forall k :: k in Keys(before) <==> exists i :: 0 <= i < |init| && KeyFor(plan, init[i]) == k
    ensures forall k :: k in Keys(Put(before, KeyFor(plan, c), LinkFor(plan, c))) <==>
      exists i :: 0 <= i < |init + [c]| && KeyFor(plan, (init + [c])[i]) == k
  {
    var combos := init + [c];
    var after := Put(before, KeyFor(plan, c), LinkFor(plan, c));
    forall k
      ensures k in Keys(after) <==> exists i :: 0 <= i < |combos| && KeyFor(plan, combos[i]) == k
    {
      if k in Keys(before) {
        var i :| 0 <= i < |init| && KeyFor(plan, init[i]) == k;
        assert combos[i] == init[i];
      }
      if k == KeyFor(plan, c) {
        assert combos[|init|] == c;
      }
      if i :| 0 <= i < |combos| && KeyFor(plan, combos[i]) == k {
        if i < |init| {
          assert combos[i] == init[i];
        }
      }
    }
  }

  lemma StepLast(plan: Plan, init: seq<Combo>, c: Combo, before: Dict<LinkDefinition>)
    requires forall i :: 0 <= i < |init| ==>
      LastWithKey(plan, init, i) ==> Lookup(before, KeyFor(plan, init[i])) == Some(LinkFor(plan, init[i]))
    ensures forall i :: 0 <= i < |init + [c]| ==>
      LastWithKey(plan, init + [c], i) ==>
        Lookup(Put(before, KeyFor(plan, c), LinkFor(plan, c)), KeyFor(plan, (init + [c])[i]))
        == Some(LinkFor(plan, (init + [c])[i]))
  {
    var combos := init + [c];
    var after := Put(before, KeyFor(plan, c), LinkFor(plan, c));
    forall i | 0 <= i < |combos| && LastWithKey(plan, combos, i)
      ensures Lookup(after, KeyFor(plan, combos[i])) == Some(LinkFor(plan, combos[i]))
    {
      if i < |init| {
        assert combos[i] == init[i];
        assert KeyFor(plan, combos[i]) != KeyFor(plan, c) by {
          assert combos[|init|] == c;
        }
        assert LastWithKey(plan, init, i) by {
          forall j | i < j < |init| ensures KeyFor(plan, init[j]) != KeyFor(plan, init[i]) {
            assert combos[j] == init[j];
          }
        }
      }
    }
  }

  /** No later combination has the same dictionary key. */
  predicate LastWithKey(plan: Plan, combos: seq<Combo>, i: nat)
    requires i < |combos|
  {
    forall j :: i < j < |combos| ==> KeyFor(plan, combos[j]) != KeyFor(plan, combos[i])
  }

  // -------------------------------------------------------------- to_tudat

  /** `to_tudat`. A missing station body or satellite body raises before
      anything changes; otherwise the batch's objects become bodies, its
      ground stations are added to the station body, and one link and one
      observation set is made per distinct (number, observatory) pair of the
      kept rows. */
  function ToTudat(b: Batch, env: Env, included: Option<Dict<string>>, stationBody: string): (r: ExportOutcome)
    ensures r.result == Err(BodyMissing(stationBody)) <==> stationBody !in env.bodies
    ensures MissingBody(r) <==> !BodiesPresent(env, included, stationBody)
    ensures MissingBody(r) ==> r.env == env
    ensures r.result.Err? ==> MissingBody(r) || r.result.error == ExcludedLinkTarget
    ensures !MissingBody(r) ==>
      && |env.bodies| <= |r.env.bodies| && r.env.bodies[..|env.bodies|] == env.bodies
      && (forall n :: n in r.env.bodies <==> n in env.bodies || n in b.meta.objects)
      && (forall other :: other != stationBody ==> GroundStations(r.env, other) == GroundStations(env, other))
      && (forall s :: s in GroundStations(r.env, stationBody) <==>
            s in GroundStations(env, stationBody) || GroundStationOf(b, s))
  {
    ValidateMeaning(env, included, stationBody);
    match Validate(env, included, stationBody)
    case Some(e) => ExportOutcome(env, Err(e))
    case None =>
      ExtendMeaning(env, b, stationBody);
      ExportOutcome(Extend(env, b, stationBody), Links(b, included, stationBody))
  }

  /** The input checks raise exactly for a missing station body or a missing
      satellite body. */
  lemma ValidateMeaning(env: Env, included: Option<Dict<string>>, stationBody: string)
    ensures Validate(env, included, stationBody) == Some(BodyMissing(stationBody)) <==> stationBody !in env.bodies
    ensures Validate(env, included, stationBody).Some? ==> Validate(env, included, stationBody).value.BodyMissing?
    ensures Validate(env, included, stationBody).Some? <==>
      stationBody !in env.bodies
      || (included.Some? && exists i :: 0 <= i < |included.value| && included.value[i].1 !in env.bodies)
  {
    if stationBody in env.bodies && included.Some? {
      var d := included.value;
      forall i | 0 <= i < |d|
        ensures d[i].1 == Values(d)[i]
      {
      }
    }
  }

  /** What the added bodies and stations are. */
  lemma ExtendMeaning(env: Env, b: Batch, stationBody: string)
    ensures var r := Extend(env, b, stationBody);
      && |env.bodies| <= |r.bodies| && r.bodies[..|env.bodies|] == env.bodies
      && (forall n :: n in r.bodies <==> n in env.bodies || n in b.meta.objects)
      && (forall other :: other != stationBody ==> GroundStations(r, other) == GroundStations(env, other))
      && (forall s :: s in GroundStations(r, stationBody) <==>
            s in GroundStations(env, stationBody) || GroundStationOf(b, s))
  {
    GroundStationCodes(b);
  }

  /** The bodies and ground stations `to_tudat` adds: the objects first, then
      the stations. */
  function Extend(env: Env, b: Batch, stationBody: string): Env {
    AddStations(AddBodies(env, b.meta.objects), stationBody, StationsOf(b), b.meta.spaceTelescopes)
  }

  /** The links and observation sets `to_tudat` builds once its inputs are
      validated. */
  function Links(b: Batch, included: Option<Dict<string>>, stationBody: string): Result<Exported> {
    var plan := PlanFor(b, included, stationBody);
    var t := Table(b, plan.excluded);
    BuildLinks(plan, t, Combos(t))
  }

  predicate MissingBody(r: ExportOutcome) {
    r.result.Err? && r.result.error.BodyMissing?
  }

  /** The station body and every included satellite's body are bodies of the
      environment. */
  predicate BodiesPresent(env: Env, included: Option<Dict<string>>, stationBody: string) {
    && stationBody in env.bodies
    && (included.Some? ==> forall i :: 0 <= i < |included.value| ==> included.value[i].1 in env.bodies)
  }

  /** A ground station of the batch: an observatory of the batch listed in
      the registry that is not one of its space telescopes. */
  ghost predicate GroundStationOf(b: Batch, s: string) {
    && s in b.meta.observatories
    && s !in b.meta.spaceTelescopes
    && exists k :: 0 <= k < |b.registry| && b.registry[k].code == s
  }

  lemma GroundStationCodes(b: Batch)
    ensures forall s :: s in Codes(StationsOf(b)) && s !in b.meta.spaceTelescopes <==> GroundStationOf(b, s)
  {
    var st := StationsOf(b);
    forall s
      ensures s in Codes(st) && s !in b.meta.spaceTelescopes <==> GroundStationOf(b, s)
    {
      if s in Codes(st) {
        var i :| 0 <= i < |st| && Codes(st)[i] == s;
        assert st[i] in st;
        var k :| 0 <= k < |b.registry| && b.registry[k] == st[i];
      }
      if GroundStationOf(b, s) {
        var k :| 0 <= k < |b.registry| && b.registry[k].code == s;
        assert b.registry[k] in st;
        var i :| 0 <= i < |st| && st[i] == b.registry[k];
        assert Codes(st)[i] == s;
      }
    }
  }

  /** `create_default_angular_observation_settings`: one angular-position
      setting per link, in the dictionary's order. */
  function DefaultAngularSettings(links: Dict<LinkDefinition>): (r: seq<ObservationSettings>)
    ensures |r| == |links|
    ensures forall k :: Lookup(links, k).Some? ==> AngularPositionSettings(Lookup(links, k).value) in r
    ensures forall i :: 0 <= i < |r| ==> Lookup(links, Keys(links)[i]) == Some(r[i].link)
  {
    var r := seq(|links|, i requires 0 <= i < |links| => AngularPositionSettings(links[i].1));
    assert forall k :: Lookup(links, k).Some? ==> AngularPositionSettings(Lookup(links, k).value) in r by {
      forall k | Lookup(links, k).Some?
        ensures AngularPositionSettings(Lookup(links, k).value) in r
      {
        var i :| 0 <= i < |links| && Keys(links)[i] == k;
        assert r[i] == AngularPositionSettings(Lookup(links, k).value);
      }
    }
    r
  }

  // ------------------------------------------------------ export properties

  /** `observatory != @codes` as a mask on rows. */
  function ObservedOutside(excluded: seq<string>): Row -> bool {
    (row: Row) => row.observatory !in excluded
  }

  /** Every excluded code is an observatory of the batch with a registry entry. */
  ghost predicate Covers(b: Batch, excluded: seq<string>) {
    forall c :: c in excluded ==>
      c in b.meta.observatories && exists k :: 0 <= k < |b.registry| && b.registry[k].code == c
  }

  /** The excluded telescopes of a well-formed batch all join a station. */
  lemma WellFormedCovers(b: Batch, included: Option<Dict<string>>, stationBody: string)
    requires WellFormed(b)
    ensures Covers(b, PlanFor(b, included, stationBody).excluded)
  {
    var excluded := PlanFor(b, included, stationBody).excluded;
    forall c | c in excluded
      ensures c in b.meta.observatories && exists k :: 0 <= k < |b.registry| && b.registry[k].code == c
    {
      var i :| 0 <= i < |b.meta.spaceTelescopes| && b.meta.spaceTelescopes[i] == c;
      assert c in SpaceTelescopeCodes(b.registry);
    }
  }

  /** No kept row was observed from an excluded telescope. */
  lemma KeptRowsOutside(b: Batch, excluded: seq<string>)
    requires Covers(b, excluded)
    ensures forall i :: 0 <= i < |Table(b, excluded)| ==> Table(b, excluded)[i].row.observatory !in excluded
  {
    var joined := Join(b.rows, b.registry, b.meta.observatories);
    var t := Table(b, excluded);
    forall i | 0 <= i < |t|
      ensures t[i].row.observatory !in excluded
    {
      assert KeepMask(excluded)(t[i]);
      assert t[i] in multiset(joined);
      var k :| 0 <= k < |joined| && joined[k] == t[i];
      assert JoinedWell(b.registry, b.meta.observatories, joined[k]);
    }
  }

  /** With a well-formed batch the export's exception for an excluded link
      target is never raised: a call raises only for a missing body. */
  lemma ExportRaisesOnlyForMissingBodies(b: Batch, env: Env, included: Option<Dict<string>>, stationBody: string)
    requires WellFormed(b)
    ensures ToTudat(b, env, included, stationBody).result.Err? ==> MissingBody(ToTudat(b, env, included, stationBody))
  {
    if Validate(env, included, stationBody).None? {
      var plan := PlanFor(b, included, stationBody);
      WellFormedCovers(b, included, stationBody);
      CombosNotExcluded(b, plan.excluded);
      assert Links(b, included, stationBody).Ok?;
    }
  }

  /** No link combination of the kept rows has an excluded observatory. */
  lemma CombosNotExcluded(b: Batch, excluded: seq<string>)
    requires Covers(b, excluded)
    ensures forall i :: 0 <= i < |Combos(Table(b, excluded))| ==> Combos(Table(b, excluded))[i].1 !in excluded
  {
    var t := Table(b, excluded);
    KeptRowsOutside(b, excluded);
    var combos := Combos(t);
    forall i | 0 <= i < |combos|
      ensures combos[i].1 !in excluded
    {
      var pairs := PairColumn(RowsOf(t));
      assert combos[i] in pairs;
      var k :| 0 <= k < |pairs| && pairs[k] == combos[i];
      assert combos[i].1 == t[k].row.observatory;
    }
  }

  /** With unique codes at most one registry entry has a given code. */
  lemma {:induction false} AtMostOneMatch(registry: seq<Observatory>, p: Observatory -> bool, c: string)
    requires CodesUnique(registry)
    requires forall o :: p(o) ==> o.code == c
    ensures |Select(registry, p)| <= 1
  {
    if |registry| > 0 {
      var tail := registry[1..];
      if p(registry[0]) {
        forall j | 0 <= j < |tail|
          ensures !p(tail[j])
        {
          assert tail[j] == registry[j + 1];
        }
        NoneSelected(tail, p);
      } else {
        AtMostOneMatch(tail, p, c);
      }
    }
  }

  /** Under unique codes a row joins as exactly one merged row, kept exactly
      when its observatory is not excluded. */
  lemma JoinRowOnce(row: Row, registry: seq<Observatory>, observatories: seq<string>, excluded: seq<string>)
    requires CodesUnique(registry)
    requires forall c :: c in excluded ==>
      c in observatories && exists k :: 0 <= k < |registry| && registry[k].code == c
    ensures RowsOf(Select(JoinRow(row, registry, observatories), KeepMask(excluded)))
      == if row.observatory in excluded then [] else [row]
  {
    var head := JoinRow(row, registry, observatories);
    AtMostOneMatch(registry, StationFor(observatories, row.observatory), row.observatory);
    assert |head| == 1;
    assert head == [head[0]];
    assert JoinedWell(registry, observatories, head[0]);
    assert Select(head, KeepMask(excluded))
      == if row.observatory in excluded then [] else [head[0]];
  }

  lemma RowsOfAppend(a: seq<Joined>, c: seq<Joined>)
    ensures RowsOf(a + c) == RowsOf(a) + RowsOf(c)
  {
    assert forall i :: |a| <= i < |a| + |c| ==> (a + c)[i] == c[i - |a|];
  }

  /** The merged table, with the excluded rows removed, holds each remaining
      observation exactly once and in table order, when codes are unique. */
  lemma {:induction false} KeptRowsOnce(rows: seq<Row>, registry: seq<Observatory>, observatories: seq<string>, excluded: seq<string>)
    requires CodesUnique(registry)
    requires forall c :: c in excluded ==>
      c in observatories && exists k :: 0 <= k < |registry| && registry[k].code == c
    ensures RowsOf(Select(Join(rows, registry, observatories), KeepMask(excluded)))
      == Select(rows, ObservedOutside(excluded))
  {
    if |rows| > 0 {
      var head := JoinRow(rows[0], registry, observatories);
      var tail := Join(rows[1..], registry, observatories);
      assert Join(rows, registry, observatories) == head + tail;
      SelectAppend(head, tail, KeepMask(excluded));
      RowsOfAppend(Select(head, KeepMask(excluded)), Select(tail, KeepMask(excluded)));
      JoinRowOnce(rows[0], registry, observatories, excluded);
      KeptRowsOnce(rows[1..], registry, observatories, excluded);
    }
  }

  /** Selecting one link's merged rows commutes with dropping the join. */
  lemma {:induction false} RowsOfSelect(t: seq<Joined>, c: Combo)
    ensures RowsOf(Select(t, ComboIs(c))) == Select(RowsOf(t), RowComboIs(c))
  {
    if |t| > 0 {
      RowsOfSelect(t[1..], c);
      assert RowsOf(t) == [t[0].row] + RowsOf(t[1..]);
      var rest := Select(t[1..], ComboIs(c));
      RowsOfAppend([t[0]], rest);
    }
  }

  /** The links the export makes, computed straight from the batch: the
      distinct (number, observatory) pairs of the rows not observed from an
      excluded telescope. */
  function DirectCombos(b: Batch, excluded: seq<string>): seq<Combo> {
    Distinct(PairColumn(Select(b.rows, ObservedOutside(excluded))))
  }

  /** For a well-formed batch with unique registry codes, a successful export
      makes one observation set per distinct (number, observatory) pair of
      the non-excluded rows, holding exactly that pair's rows in table order. */
  lemma ExportMatchesDirectDefinition(b: Batch, env: Env, included: Option<Dict<string>>, stationBody: string)
    requires WellFormed(b) && CodesUnique(b.registry)
    requires BodiesPresent(env, included, stationBody)
    ensures ToTudat(b, env, included, stationBody).result.Ok?
    ensures var plan := PlanFor(b, included, stationBody);
      var combos := DirectCombos(b, plan.excluded);
      var sets := ToTudat(b, env, included, stationBody).result.value.sets;
      && NoDup(combos)
      && |sets| == |combos|
      && forall i :: 0 <= i < |combos| ==>
           combos[i].1 !in plan.excluded
           && sets[i] == SetOf(LinkFor(plan, combos[i]), Select(b.rows, RowComboIs(combos[i])))
  {
    ExportRaisesOnlyForMissingBodies(b, env, included, stationBody);
    assert ToTudat(b, env, included, stationBody).result == Links(b, included, stationBody);
    var plan := PlanFor(b, included, stationBody);
    WellFormedCovers(b, included, stationBody);
    DirectSets(b, plan);
    var t := Table(b, plan.excluded);
    assert Built(plan, t, Combos(t), Links(b, included, stationBody).value);
    assert NoDup(DirectCombos(b, plan.excluded));
  }

  /** The links dictionary of a successful export, from the batch alone: its
      keys are the keys `"{number}_{receiver}"` of the distinct pairs of the
      non-excluded rows, and a key maps to the link of the last pair that has
      it. */
  lemma ExportLinksMatchDirectDefinition(b: Batch, env: Env, included: Option<Dict<string>>, stationBody: string)
    requires WellFormed(b) && CodesUnique(b.registry)
    requires BodiesPresent(env, included, stationBody)
    ensures ToTudat(b, env, included, stationBody).result.Ok?
    ensures var plan := PlanFor(b, included, stationBody);
      var combos := DirectCombos(b, plan.excluded);
      var links := ToTudat(b, env, included, stationBody).result.value.links;
      && (forall k :: k in Keys(links) <==> exists i :: 0 <= i < |combos| && KeyFor(plan, combos[i]) == k)
      && (forall i :: 0 <= i < |combos| && LastWithKey(plan, combos, i) ==>
            Lookup(links, KeyFor(plan, combos[i])) == Some(LinkFor(plan, combos[i])))
  {
    ExportRaisesOnlyForMissingBodies(b, env, included, stationBody);
    assert ToTudat(b, env, included, stationBody).result == Links(b, included, stationBody);
    var plan := PlanFor(b, included, stationBody);
    WellFormedCovers(b, included, stationBody);
    DirectSets(b, plan);
    var t := Table(b, plan.excluded);
    assert Built(plan, t, Combos(t), Links(b, included, stationBody).value);
  }

  lemma DirectSets(b: Batch, plan: Plan)
    requires Covers(b, plan.excluded) && CodesUnique(b.registry)
    ensures DirectCombos(b, plan.excluded) == Combos(Table(b, plan.excluded))
    ensures var combos := DirectCombos(b, plan.excluded);
      forall i :: 0 <= i < |combos| ==>
        combos[i].1 !in plan.excluded
        && SetFor(plan, Table(b, plan.excluded), combos[i])
           == SetOf(LinkFor(plan, combos[i]), Select(b.rows, RowComboIs(combos[i])))
  {
    var t := Table(b, plan.excluded);
    var kept := Select(b.rows, ObservedOutside(plan.excluded));
    var combos := DirectCombos(b, plan.excluded);
    assert combos == Combos(t) by {
      KeptRowsOnce(b.rows, b.registry, b.meta.observatories, plan.excluded);
    }
    forall i | 0 <= i < |combos|
      ensures combos[i].1 !in plan.excluded
      ensures SetFor(plan, t, combos[i]) == SetOf(LinkFor(plan, combos[i]), Select(b.rows, RowComboIs(combos[i])))
    {
      var c := combos[i];
      assert c.1 !in plan.excluded by {
        var pairs := PairColumn(kept);
        assert c in pairs;
        var k :| 0 <= k < |pairs| && pairs[k] == c;
        assert ObservedOutside(plan.excluded)(kept[k]);
      }
      SetIsDirect(b, plan, c);
    }
  }

  /** One link's observation set holds exactly that pair's rows of the batch. */
  lemma SetIsDirect(b: Batch, plan: Plan, c: Combo)
    requires Covers(b, plan.excluded) && CodesUnique(b.registry)
    requires c.1 !in plan.excluded
    ensures SetFor(plan, Table(b, plan.excluded), c) == SetOf(LinkFor(plan, c), Select(b.rows, RowComboIs(c)))
  {
    var t := Table(b, plan.excluded);
    KeptRowsOnce(b.rows, b.registry, b.meta.observatories, plan.excluded);
    RowsOfSelect(t, c);
    SelectSelect(b.rows, ObservedOutside(plan.excluded), RowComboIs(c), RowComboIs(c));
  }

  /** Exporting the same batch a second time into the environment the first
      export left behind adds no body or station and returns the same
      result. */
  lemma ExportTwiceAddsNothing(b: Batch, env: Env, included: Option<Dict<string>>, stationBody: string)
    requires BodiesPresent(env, included, stationBody)
    ensures var first := ToTudat(b, env, included, stationBody);
      ToTudat(b, first.env, included, stationBody) == first
  {
    ValidateMeaning(env, included, stationBody);
    var env2 := Extend(env, b, stationBody);
    assert ToTudat(b, env, included, stationBody) == ExportOutcome(env2, Links(b, included, stationBody));
    ExtendMeaning(env, b, stationBody);
    ValidateKeeps(env, env2, included, stationBody);
    ExtendIdempotent(env, b, stationBody);
  }

  /** Checks that pass keep passing once bodies are added. */
  lemma ValidateKeeps(env: Env, env2: Env, included: Option<Dict<string>>, stationBody: string)
    requires Validate(env, included, stationBody).None?
    requires forall n :: n in env.bodies ==> n in env2.bodies
    ensures Validate(env2, included, stationBody).None?
  {
    if included.Some? {
      var names := Values(included.value);
      assert forall i :: 0 <= i < |names| ==> names[i] in env.bodies;
    }
  }

  /** Adding the batch's bodies and stations a second time changes nothing. */
  lemma ExtendIdempotent(env: Env, b: Batch, stationBody: string)
    ensures Extend(Extend(env, b, stationBody), b, stationBody) == Extend(env, b, stationBody)
  {
    var env2 := Extend(env, b, stationBody);
    ExtendMeaning(env, b, stationBody);
    forall i | 0 <= i < |b.meta.objects|
      ensures b.meta.objects[i] in env2.bodies
    {
    }
    AddBodiesPresent(env2, b.meta.objects);
    var stations := StationsOf(b);
    forall i | 0 <= i < |stations|
      ensures stations[i].code in b.meta.spaceTelescopes || stations[i].code in GroundStations(env2, stationBody)
    {
      assert Codes(stations)[i] == stations[i].code;
      assert stations[i].code in Codes(StationsOf(b));
      GroundStationCodes(b);
    }
    AddStationsPresent(env2, stationBody, stations, b.meta.spaceTelescopes);
  }
}
