/** The Minor Planet Center observatory registry as `_get_station_info` keeps
    it (tudatpy/data/mpc.py). */
module Observatories {
  import opened Results

  /** One observatory code entry. `longitude` is `None` where the registry
      gives NaN, which is its mark for a non-terrestrial observatory. */
  datatype Observatory = Observatory(
    code: string,
    longitude: Option<real>,
    cosPhi: real,
    sinPhi: real,
    name: string)

  /** The registry's test `Longitude != Longitude`: true only for NaN. */
  predicate IsSpaceTelescope(o: Observatory) {
    o.longitude.None?
  }

  /** The codes of the registry's space telescopes, in registry order. */
  function SpaceTelescopeCodes(registry: seq<Observatory>): (codes: seq<string>)
    ensures |codes| <= |registry|
    ensures forall c :: c in codes <==>
      exists i :: 0 <= i < |registry| && registry[i].code == c && IsSpaceTelescope(registry[i])
  {
    if |registry| == 0 then []
    else
      var rest := SpaceTelescopeCodes(registry[1..]);
      assert forall i :: 1 <= i < |registry| ==> registry[i] == registry[1..][i - 1];
      if IsSpaceTelescope(registry[0]) then [registry[0].code] + rest else rest
  }

  /** Codes act as the registry's primary key. */
  ghost predicate CodesUnique(registry: seq<Observatory>) {
    forall i, j :: 0 <= i < j < |registry| ==> registry[i].code != registry[j].code
  }
}
