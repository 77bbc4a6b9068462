/** One observation row of the batch table and its normalisation from the raw
    columns a table or the Minor Planet Center supplies
    (tudatpy/data/mpc.py, `get_observations` and `_add_table`). */
module Observations {

  /** A UTC calendar instant (`epochUTC`), kept abstract: only its order matters. */
  type Timestamp = int

  /** Julian Date of the J2000 reference epoch. */
  const J2000_JD: real := 2451545.0
  /** Seconds in one Julian day. */
  const SECONDS_PER_DAY: real := 86400.0
  /** The value of pi `np.radians` multiplies by, as a real. */
  const PI: real := 3.141592653589793

  /** The `number` column as supplied: an integer designation or text. */
  datatype Designation = Numbered(n: nat) | Named(text: string)

  /** A normalised row: `number`, `epoch` (JD, UTC), `epochJ2000secondsTDB`,
      `epochUTC`, `RA`, `DEC` (radians), `band` and `observatory`. */
  datatype Row = Row(
    number: string,
    epoch: real,
    tdbSeconds: real,
    utc: Timestamp,
    ra: real,
    dec: real,
    band: string,
    observatory: string)

  /** A row as supplied, before normalisation. */
  datatype RawRow = RawRow(
    number: Designation,
    epoch: real,
    ra: real,
    dec: real,
    band: string,
    observatory: string)

  /** The astropy time-scale conversions, left uninterpreted: a UTC Julian Date to
      the TDB Julian Date (`Time(jd, scale="utc").tdb.value`) and a Julian Date to
      a UTC calendar instant (`Time(jd).to_datetime()`). */
  datatype TimeModel = TimeModel(utcToTdbJd: real -> real, jdToUtc: real -> Timestamp)

  predicate IsDigit(c: char) {
    '0' <= c <= '9'
  }

  function DigitChar(d: nat): (c: char)
    requires d < 10
    ensures IsDigit(c) && (c as int) - ('0' as int) == d
  {
    ('0' as int + d) as char
  }

  /** Python's `str` of a non-negative integer. */
  function NatToDecimal(n: nat): (s: string)
    ensures |s| >= 1
    ensures forall i :: 0 <= i < |s| ==> IsDigit(s[i])
    ensures n > 0 ==> s[0] != '0'
  {
    if n < 10 then [DigitChar(n)] else NatToDecimal(n / 10) + [DigitChar(n % 10)]
  }

  /** The value of a string of decimal digits. */
  function DecimalValue(s: string): nat
    requires forall i :: 0 <= i < |s| ==> IsDigit(s[i])
  {
    if |s| == 0 then 0
    else
      assert IsDigit(s[|s| - 1]);
      DecimalValue(s[..|s| - 1]) * 10 + ((s[|s| - 1] as int) - ('0' as int))
  }

  /** Reading the decimal text back gives the number: `str` loses nothing. */
  lemma {:induction false} DecimalRoundTrip(n: nat)
    ensures DecimalValue(NatToDecimal(n)) == n
  {
    if n >= 10 {
      var s := NatToDecimal(n);
      assert s[..|s| - 1] == NatToDecimal(n / 10);
      DecimalRoundTrip(n / 10);
    }
  }

  /** `number.astype(str)`. */
  function DesignationText(d: Designation): string {
    match d
    case Numbered(n) => NatToDecimal(n)
    case Named(t) => t
  }

  /** Seconds since J2000 from a TDB Julian Date: `(jd - 2451545.0) * 86400`. */
  function SecondsSinceJ2000(tdbJd: real): (t: real)
    ensures t / SECONDS_PER_DAY + J2000_JD == tdbJd
  {
    (tdbJd - J2000_JD) * SECONDS_PER_DAY
  }

  /** `np.radians`. */
  function Radians(deg: real): (rad: real)
    ensures Degrees(rad) == deg
  {
    deg * PI / 180.0
  }

  /** `np.degrees`, the inverse of `Radians`. */
  function Degrees(rad: real): real {
    rad * 180.0 / PI
  }

  /** Normalise one row: derive both epochs from the Julian Date, turn the
      designation into text, and convert the angles only when they are given in
      degrees. */
  function Normalize(raw: RawRow, tm: TimeModel, inDegrees: bool): (r: Row)
    ensures r.number == DesignationText(raw.number)
    ensures r.epoch == raw.epoch && r.band == raw.band && r.observatory == raw.observatory
    ensures r.tdbSeconds / SECONDS_PER_DAY + J2000_JD == tm.utcToTdbJd(raw.epoch)
    ensures r.utc == tm.jdToUtc(raw.epoch)
    ensures inDegrees ==> Degrees(r.ra) == raw.ra && Degrees(r.dec) == raw.dec
    ensures !inDegrees ==> r.ra == raw.ra && r.dec == raw.dec
  {
    Row(
      DesignationText(raw.number),
      raw.epoch,
      SecondsSinceJ2000(tm.utcToTdbJd(raw.epoch)),
      tm.jdToUtc(raw.epoch),
      if inDegrees then Radians(raw.ra) else raw.ra,
      if inDegrees then Radians(raw.dec) else raw.dec,
      raw.band,
      raw.observatory)
  }

  /** Normalise every row of a table, keeping the order. */
  function NormalizeAll(raws: seq<RawRow>, tm: TimeModel, inDegrees: bool): (rows: seq<Row>)
    ensures |rows| == |raws|
    ensures forall i :: 0 <= i < |raws| ==> rows[i] == Normalize(raws[i], tm, inDegrees)
  {
    seq(|raws|, i requires 0 <= i < |raws| => Normalize(raws[i], tm, inDegrees))
  }

  /** The worked ingestion example: object 433 observed at JD 2451545.5 from
      station 704 is half a day after J2000 when the time-scale offset is
      ignored, and its designation becomes the text "433". */
  lemma Asteroid433Example(tm: TimeModel)
    requires tm.utcToTdbJd(2451545.5) == 2451545.5
    ensures var r := Normalize(RawRow(Numbered(433), 2451545.5, 10.0, 20.0, "V", "704"), tm, true);
      && r.number == "433"
      && r.tdbSeconds == 43200.0
      && r.ra == 10.0 * PI / 180.0
      && r.observatory == "704"
  {
    assert NatToDecimal(4) == "4";
    assert NatToDecimal(43) == "43";
  }
}
