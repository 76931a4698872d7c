/**
 * The record loop of `calc_escape_velocity`: one (name, escape velocity)
 * pair per archive record, in record order. The mass and radius are read
 * from the Earth-unit fields (`pl_bmasse`, `pl_rade`) or the Jupiter-unit
 * fields (`pl_bmassj`, `pl_radj`) according to `earthUnits`, scaled to
 * kilograms and metres by the matching constants, and handed to the
 * escape-velocity formula. The formula itself (floating point, a square
 * root, the gravitational constant, the division by 1000) is a parameter
 * `vesc` of the model and is not computed.
 */
module EscapeVelocity {

  /** One archive row: `pl_name`, `pl_bmasse`, `pl_rade`, `pl_bmassj`, `pl_radj`. */
  datatype PlanetRecord = PlanetRecord(
    name: string,
    massEarth: real,
    radiusEarth: real,
    massJupiter: real,
    radiusJupiter: real)

  /** The four unit constants, as exact reals: 5.97219e24 kg, 6.371e6 m,
      1.89813e27 kg and 6.9911e7 m. */
  const EarthMass: real := 5972190000000000000000000.0
  const EarthRadius: real := 6371000.0
  const JupiterMass: real := 1898130000000000000000000000.0
  const JupiterRadius: real := 69911000.0

  /** The planet's mass in kilograms under the chosen units. */
  function MassKg(planet: PlanetRecord, earthUnits: bool): real
  {
    if earthUnits then planet.massEarth * EarthMass else planet.massJupiter * JupiterMass
  }

  /** The planet's radius in metres under the chosen units. */
  function RadiusM(planet: PlanetRecord, earthUnits: bool): real
  {
    if earthUnits then planet.radiusEarth * EarthRadius else planet.radiusJupiter * JupiterRadius
  }

  /** The entry the loop appends for one record. */
  function Entry(planet: PlanetRecord, earthUnits: bool, vesc: (real, real) -> real): (string, real)
  {
    (planet.name, vesc(MassKg(planet, earthUnits), RadiusM(planet, earthUnits)))
  }

  /** The whole list `planet_data`, record by record. */
  function EscapeVelocities(results: seq<PlanetRecord>, earthUnits: bool, vesc: (real, real) -> real)
    : (planetData: seq<(string, real)>)
    ensures |planetData| == |results|
    ensures forall i :: 0 <= i < |results| ==> planetData[i] == Entry(results[i], earthUnits, vesc)
  {
    if |results| == 0 then []
    else [Entry(results[0], earthUnits, vesc)] + EscapeVelocities(results[1..], earthUnits, vesc)
  }

  /** The loop of `calc_escape_velocity`: exactly one entry per record, in
      record order, each carrying the record's name and the velocity of its
      scaled mass and radius. The list is returned rather than printed. */
  method CalcEscapeVelocity(results: seq<PlanetRecord>, earthUnits: bool, vesc: (real, real) -> real)
    returns (planetData: seq<(string, real)>)
    ensures |planetData| == |results|
    ensures forall i :: 0 <= i < |results| ==>
      planetData[i].0 == results[i].name
      && planetData[i].1 == vesc(MassKg(results[i], earthUnits), RadiusM(results[i], earthUnits))
    ensures planetData == EscapeVelocities(results, earthUnits, vesc)
  {
    planetData := [];
    for i := 0 to |results|
      invariant |planetData| == i
      invariant forall j :: 0 <= j < i ==> planetData[j] == Entry(results[j], earthUnits, vesc)
    {
      var planet := results[i];
      var mass, radius;
      if earthUnits {
        mass := planet.massEarth * EarthMass;
        radius := planet.radiusEarth * EarthRadius;
      } else {
        mass := planet.massJupiter * JupiterMass;
        radius := planet.radiusJupiter * JupiterRadius;
      }
      var escapeVelocity := vesc(mass, radius);
      planetData := planetData + [(planet.name, escapeVelocity)];
    }
  }

  // ---------------------------------------------------------------------
  // Which fields are read
  // ---------------------------------------------------------------------

  /** Two batches that agree on the names and on the Earth-unit fields. */
  predicate SameEarthFields(a: seq<PlanetRecord>, b: seq<PlanetRecord>)
  {
    |a| == |b| && forall i :: 0 <= i < |a| ==>
      a[i].name == b[i].name && a[i].massEarth == b[i].massEarth && a[i].radiusEarth == b[i].radiusEarth
  }

  /** Two batches that agree on the names and on the Jupiter-unit fields. */
  predicate SameJupiterFields(a: seq<PlanetRecord>, b: seq<PlanetRecord>)
  {
    |a| == |b| && forall i :: 0 <= i < |a| ==>
      a[i].name == b[i].name && a[i].massJupiter == b[i].massJupiter && a[i].radiusJupiter == b[i].radiusJupiter
  }

  /** In Earth units only `pl_name`, `pl_bmasse` and `pl_rade` are read:
      the Jupiter-unit fields can be anything. */
  lemma EarthUnitsReadOnlyEarthFields(a: seq<PlanetRecord>, b: seq<PlanetRecord>, vesc: (real, real) -> real)
    requires SameEarthFields(a, b)
    ensures EscapeVelocities(a, true, vesc) == EscapeVelocities(b, true, vesc)
  {
    // Follows from the entry-by-entry contract of EscapeVelocities.
  }

  /** In Jupiter units only `pl_name`, `pl_bmassj` and `pl_radj` are read:
      the Earth-unit fields can be anything. */
  lemma JupiterUnitsReadOnlyJupiterFields(a: seq<PlanetRecord>, b: seq<PlanetRecord>, vesc: (real, real) -> real)
    requires SameJupiterFields(a, b)
    ensures EscapeVelocities(a, false, vesc) == EscapeVelocities(b, false, vesc)
  {
    // Follows from the entry-by-entry contract of EscapeVelocities.
  }

  /** Each record is handled on its own: the list for two batches one after
      the other is the two lists one after the other, so no record affects
      its neighbours' entries and order is kept. */
  lemma EscapeVelocitiesOfConcat(a: seq<PlanetRecord>, b: seq<PlanetRecord>, earthUnits: bool, vesc: (real, real) -> real)
    ensures EscapeVelocities(a + b, earthUnits, vesc)
         == EscapeVelocities(a, earthUnits, vesc) + EscapeVelocities(b, earthUnits, vesc)
  {
    // Follows from the entry-by-entry contract of EscapeVelocities.
  }
}
