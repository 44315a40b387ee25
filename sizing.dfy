/** The sizing engine that both the calculator panel and the flow diagram
    run on every input change: from a daily LN2 production target, an
    oxygen-purity tier and a feed pressure, it sizes the MNH-1522A membrane
    bank, the feed air flow, the electrical power and the cooling load.

    A performance table maps a feed pressure (bar gauge) to a row, and a row
    maps a purity key (percent O2 left in the product gas) to the nitrogen
    output and the air consumption of one module, both in litres per
    minute. Values here are exact; what the components finally store is
    `Publish` of them. */
module Sizing {
  import opened Numbers
  import opened Nearest

  datatype Point = Point(n2: real, air: real)

  /** One `purity: { n2, air }` property of a row. */
  datatype Entry = Entry(purity: real, point: Point)

  type Row = seq<Entry>

  /** `Record<number, Record<number, { n2, air }>>`, keyed by pressure. */
  type Table = map<real, Row>

  /** The row used when the requested pressure has none. */
  const FallbackPressure: real := 9.0

  const LiquidToGas: real := 696.0
  const MinutesPerDay: real := 1440.0
  const SecondsPerDay: real := 86400.0
  const LitresPerScfm: real := 28.3
  const KwPerScfm: real := 0.35
  const TheoreticalKwhPerLitre: real := 0.5
  const EfficiencyPercent: real := 15.0
  const Ln2Density: real := 0.808
  const LatentHeat: real := 199.0
  const SpecificHeatGas: real := 1.04
  const AmbientK: real := 300.0
  const BoilingK: real := 77.0

  /** `Object.keys(perfData).map(Number)`: every purity key of the row,
      once each when the keys are distinct. The model lists them in the
      order written, whereas JavaScript lists integer-like names ("1", "2",
      ...) before "0.5"; the keys are sorted before use, and
      KeyOrderIrrelevant shows that any listing of the same keys selects the
      same tier. */
  function Keys(row: Row): (r: seq<real>)
    ensures |r| == |row|
    ensures forall i | 0 <= i < |row| :: r[i] == row[i].purity
  {
    seq(|row|, i requires 0 <= i < |row| => row[i].purity)
  }

  /** `perfData[key]`: the point stored under a key the row has. */
  function Lookup(row: Row, key: real): (p: Point)
    requires key in Keys(row)
    ensures Entry(key, p) in row
  {
    if row[0].purity == key then row[0].point
    else
      assert Keys(row) == [row[0].purity] + Keys(row[1..]);
      Lookup(row[1..], key)
  }

  /** Object keys are unique, so a key names exactly one entry. */
  lemma LookupUnique(row: Row, key: real, p: Point)
    requires Distinct(Keys(row)) && Entry(key, p) in row
    ensures key in Keys(row) && Lookup(row, key) == p
  {
    var q := Lookup(row, key);
    var i :| 0 <= i < |row| && row[i] == Entry(key, p);
    var j :| 0 <= j < |row| && row[j] == Entry(key, q);
    assert Keys(row)[i] == Keys(row)[j];
    assert i == j;
  }

  predicate WellFormedRow(row: Row)
  {
    && |row| > 0
    && Distinct(Keys(row))
    && forall e | e in row :: e.point.n2 > 0.0 && e.point.air > 0.0
  }

  /** The fallback row exists, and every row has keys and positive flows. */
  predicate ValidTable(t: Table)
  {
    && FallbackPressure in t
    && forall p | p in t :: WellFormedRow(t[p])
  }

  /** Within a row, a looser purity key gives more nitrogen and uses more
      air per module. */
  predicate RowIncreasing(row: Row)
  {
    forall e1, e2 | e1 in row && e2 in row && e1.purity < e2.purity ::
      e1.point.n2 < e2.point.n2 && e1.point.air < e2.point.air
  }

  /** Written in order, each entry has a looser purity key, more nitrogen
      and more air than the one before it. */
  predicate StepIncreasing(row: Row)
  {
    forall i | 0 <= i < |row| - 1 ::
      && row[i].purity < row[i + 1].purity
      && row[i].point.n2 < row[i + 1].point.n2
      && row[i].point.air < row[i + 1].point.air
  }

  lemma {:induction false} StepsCompose(row: Row, i: int, j: int)
    requires StepIncreasing(row) && 0 <= i < j < |row|
    ensures row[i].purity < row[j].purity
    ensures row[i].point.n2 < row[j].point.n2 && row[i].point.air < row[j].point.air
    decreases j - i
  {
    if i + 1 < j {
      StepsCompose(row, i, j - 1);
    }
  }

  lemma StepsOrderIndices(row: Row, i: int, j: int)
    requires StepIncreasing(row) && 0 <= i < |row| && 0 <= j < |row|
    ensures row[i].purity < row[j].purity <==> i < j
  {
    if i < j {
      StepsCompose(row, i, j);
    } else if j < i {
      StepsCompose(row, j, i);
    }
  }

  /** A row written in increasing order has distinct keys and is increasing
      in the sense of RowIncreasing. */
  lemma StepsGiveIncreasing(row: Row)
    requires StepIncreasing(row)
    ensures Distinct(Keys(row)) && RowIncreasing(row)
  {
    forall i, j | 0 <= i < j < |row| ensures Keys(row)[i] != Keys(row)[j] {
      StepsCompose(row, i, j);
    }
    forall e1, e2 | e1 in row && e2 in row && e1.purity < e2.purity
      ensures e1.point.n2 < e2.point.n2 && e1.point.air < e2.point.air
    {
      var i :| 0 <= i < |row| && row[i] == e1;
      var j :| 0 <= j < |row| && row[j] == e2;
      StepsOrderIndices(row, i, j);
      StepsCompose(row, i, j);
    }
  }

  /** A row written in increasing order whose first entry has positive
      flows is well formed and increasing. */
  lemma StepsGiveValidRow(row: Row)
    requires StepIncreasing(row) && |row| > 0
    requires row[0].point.n2 > 0.0 && row[0].point.air > 0.0
    ensures WellFormedRow(row) && RowIncreasing(row)
  {
    StepsGiveIncreasing(row);
    forall e | e in row ensures e.point.n2 > 0.0 && e.point.air > 0.0 {
      var i :| 0 <= i < |row| && row[i] == e;
      if i > 0 {
        StepsCompose(row, 0, i);
      }
    }
  }

  /** `MEMBRANE_DATA[pressure] || MEMBRANE_DATA[9]`: a row object, even an
      empty one, is truthy, so only a missing row falls back. */
  function SelectRow(t: Table, pressure: real): (row: Row)
    requires FallbackPressure in t
    ensures pressure in t ==> row == t[pressure]
    ensures pressure !in t ==> row == t[FallbackPressure]
  {
    if pressure in t then t[pressure] else t[FallbackPressure]
  }

  /** The purity tier used: the key of the selected row nearest to the
      requested purity, the lower on a tie. */
  function SelectedKey(t: Table, purity: real, pressure: real): (k: real)
    requires ValidTable(t)
    ensures IsClosest(Keys(SelectRow(t, pressure)), purity, k)
  {
    NearestKey(Keys(SelectRow(t, pressure)), purity)
  }

  /** The one-module performance of the selected tier. */
  function SelectedPoint(t: Table, purity: real, pressure: real): (p: Point)
    requires ValidTable(t)
    ensures Entry(SelectedKey(t, purity, pressure), p) in SelectRow(t, pressure)
    ensures p.n2 > 0.0 && p.air > 0.0
  {
    Lookup(SelectRow(t, pressure), SelectedKey(t, purity, pressure))
  }

  /** Nitrogen gas flow (L/min) that a liquid production (L/day) needs. */
  function RequiredN2Lpm(production: real): (r: real)
    ensures r * MinutesPerDay == production * LiquidToGas
  {
    production * LiquidToGas / MinutesPerDay
  }

  /** m modules of output n2 cover the requirement, and m - 1 would not. */
  predicate FewestCovering(m: int, n2: real, required: real)
  {
    (m - 1) as real * n2 < required <= m as real * n2
  }

  /** `Math.ceil(required / n2)`: the fewest modules whose combined output
      covers the requirement. */
  function ModulesNeeded(required: real, n2: real): (m: int)
    requires n2 > 0.0
    ensures FewestCovering(m, n2, required)
  {
    CoverBounds(required, Ceil(required / n2), n2);
    Ceil(required / n2)
  }

  lemma CoverBounds(required: real, c: int, n2: real)
    requires n2 > 0.0 && c as real - 1.0 < required / n2 <= c as real
    ensures (c - 1) as real * n2 < required
    ensures required <= c as real * n2
  {
    var q := required / n2;
    assert q * n2 == required;
    assert (c - 1) as real == c as real - 1.0;
    assert (c - 1) as real * n2 < q * n2;
  }

  lemma MulMonotone(x: real, y: real, z: real)
    requires x <= y && z >= 0.0
    ensures x * z <= y * z
  {
  }

  lemma MulMonotoneStrict(x: real, y: real, z: real)
    requires x < y && z > 0.0
    ensures x * z < y * z
  {
  }

  /** Compressor power (kW): 0.35 kW per scfm of feed air, 28.3 L/min each. */
  function CompressorPowerKW(airLpm: real): (r: real)
    ensures r * LitresPerScfm == airLpm * KwPerScfm
  {
    (airLpm / LitresPerScfm) * KwPerScfm
  }

  /** Cryocooler power (kW): 0.5 kWh per litre at 15 % of Carnot, spread
      over 24 hours. */
  function CryoPowerKW(production: real): (r: real)
    ensures r * 36.0 == production * 5.0
  {
    ((TheoreticalKwhPerLitre / (EfficiencyPercent / 100.0)) * production) / 24.0
  }

  /** Heat removed (W) to condense the daily production: latent heat plus
      warming the gas from 77 K to 300 K, times the mass flow. */
  function CoolingLoadW(production: real): (r: real)
    ensures r == 4.0299 * production
  {
    var massFlowKgPerSec := (production * Ln2Density) / SecondsPerDay;
    var coolingLoadKW := massFlowKgPerSec * (LatentHeat + SpecificHeatGas * (AmbientK - BoilingK));
    coolingLoadKW * 1000.0
  }

  datatype Specs = Specs(powerKW: real, airLpm: real, modules: int, coolingW: real)

  /** `modulesNeeded * singleModuleStats.air`: the feed air that m modules
      of performance p draw together; for positive per-module air it is
      positive exactly when there are modules, and grows with m
      (BankAirGrows). */
  function BankAir(m: int, p: Point): (a: real)
    ensures p.air > 0.0 ==> (a > 0.0 <==> m > 0)
  {
    ProductSign(m, p.air);
    m as real * p.air
  }

  lemma ProductSign(m: int, x: real)
    ensures x > 0.0 ==> (m as real * x > 0.0 <==> m > 0)
  {
    if x > 0.0 {
      if m > 0 {
        MulMonotoneStrict(0.0, m as real, x);
      } else {
        MulMonotone(m as real, 0.0, x);
      }
    }
  }

  /** The arithmetic of `calculateSpecs` once the module's performance p
      is known: the fewest modules that cover the requirement, the air they
      draw, the power as 7/566 kW per L/min of air plus 5/36 kW per L/day,
      and a cooling load of 4.0299 W per L/day. */
  function Size(p: Point, production: real): (s: Specs)
    requires p.n2 > 0.0
    ensures FewestCovering(s.modules, p.n2, RequiredN2Lpm(production))
    ensures s.airLpm == BankAir(s.modules, p)
    ensures s.powerKW * 566.0 == s.airLpm * 7.0 + production * 566.0 * 5.0 / 36.0
    ensures s.coolingW == 4.0299 * production
  {
    var modules := ModulesNeeded(RequiredN2Lpm(production), p.n2);
    var air := BankAir(modules, p);
    Specs(CompressorPowerKW(air) + CryoPowerKW(production), air, modules, CoolingLoadW(production))
  }

  /** One run of `calculateSpecs` on exact numbers: the fewest modules of
      the selected tier that cover the requirement, and the air, power and
      cooling load that follow. */
  function Compute(t: Table, production: real, purity: real, pressure: real): (s: Specs)
    requires ValidTable(t)
    ensures var p := SelectedPoint(t, purity, pressure);
      && FewestCovering(s.modules, p.n2, RequiredN2Lpm(production))
      && s.airLpm == BankAir(s.modules, p)
    ensures s.powerKW * 566.0 == s.airLpm * 7.0 + production * 566.0 * 5.0 / 36.0
    ensures s.coolingW == 4.0299 * production
  {
    Size(SelectedPoint(t, purity, pressure), production)
  }

  /** What the setters store: power to 2 decimals, air flow and cooling to
      1 decimal, the module count as computed. */
  function Publish(s: Specs): (r: Specs)
    ensures r.modules == s.modules
    ensures Abs(r.powerKW - s.powerKW) <= 0.005
    ensures Abs(r.airLpm - s.airLpm) <= 0.05
    ensures Abs(r.coolingW - s.coolingW) <= 0.05
  {
    HalfUnit();
    Specs(ToFixed(s.powerKW, 2), ToFixed(s.airLpm, 1), s.modules, ToFixed(s.coolingW, 1))
  }

  /** What a component's `calculateSpecs` stores for a table: the published
      sizing, whose module count is the fewest modules of the selected tier
      that cover the demand. */
  function Published(t: Table, production: real, purity: real, pressure: real): (r: Specs)
    requires ValidTable(t)
    ensures FewestCovering(r.modules, SelectedPoint(t, purity, pressure).n2, RequiredN2Lpm(production))
    ensures var s := Compute(t, production, purity, pressure);
      && Abs(r.powerKW - s.powerKW) <= 0.005
      && Abs(r.airLpm - s.airLpm) <= 0.05
      && Abs(r.coolingW - s.coolingW) <= 0.05
  {
    Publish(Compute(t, production, purity, pressure))
  }

  lemma HalfUnit()
    ensures Unshift(0.5, 1) == 0.05
    ensures Unshift(0.5, 2) == 0.005
  {
  }

  /** A pressure without a row sizes exactly as the 9-bar row does. */
  lemma UnknownPressureFallsBack(t: Table, production: real, purity: real, pressure: real)
    requires ValidTable(t) && pressure !in t
    ensures Compute(t, production, purity, pressure) == Compute(t, production, purity, FallbackPressure)
    ensures Published(t, production, purity, pressure) == Published(t, production, purity, FallbackPressure)
  {
  }

  lemma ScaleMonotone(x: real, y: real, z: real)
    requires x >= 0.0 && y <= z
    ensures x * y <= x * z
  {
  }

  lemma MulCancel(x: real, y: real, z: real)
    requires z > 0.0 && x * z <= y * z
    ensures x <= y
  {
  }

  lemma MulCancelStrict(x: real, y: real, z: real)
    requires z > 0.0 && x * z < y * z
    ensures x < y
  {
  }

  /** For a requirement of at least zero, the fewest covering count is at
      least zero, and it is positive exactly when something is required. */
  lemma FewestCoveringSign(m: int, n2: real, required: real)
    requires n2 > 0.0 && required >= 0.0 && FewestCovering(m, n2, required)
    ensures m >= 0
    ensures m >= 1 <==> required > 0.0
  {
    assert 0.0 * n2 <= m as real * n2;
    MulCancel(0.0, m as real, n2);
    if required > 0.0 {
      MulCancelStrict(0.0, m as real, n2);
    }
    if m >= 1 {
      MulMonotone(0.0, (m - 1) as real, n2);
    }
  }

  /** A larger requirement never needs fewer modules of the same kind. */
  lemma FewestCoveringGrows(m1: int, m2: int, n2: real, r1: real, r2: real)
    requires n2 > 0.0 && r1 <= r2
    requires FewestCovering(m1, n2, r1) && FewestCovering(m2, n2, r2)
    ensures m1 <= m2
  {
    assert (m1 - 1) as real * n2 < r1;
    assert r2 <= m2 as real * n2;
    MulCancelStrict((m1 - 1) as real, m2 as real, n2);
  }

  /** Modules with more output never need to be more numerous. */
  lemma FewestCoveringShrinks(m1: int, m2: int, n1: real, n2: real, required: real)
    requires 0.0 < n1 <= n2 && required >= 0.0
    requires FewestCovering(m1, n1, required) && FewestCovering(m2, n2, required)
    ensures m2 <= m1
  {
    FewestCoveringSign(m1, n1, required);
    CountsShrink(m1 as real, (m2 - 1) as real, n1, n2, required);
  }

  lemma CountsShrink(k1: real, k2: real, n1: real, n2: real, required: real)
    requires k1 >= 0.0 && 0.0 < n1 <= n2
    requires k2 * n2 < required <= k1 * n1
    ensures k2 < k1
  {
    ScaleMonotone(k1, n1, n2);
    MulCancelStrict(k2, k1, n2);
  }

  lemma BankAirGrows(m1: int, m2: int, p: Point)
    requires m1 <= m2 && p.air > 0.0
    ensures BankAir(m1, p) <= BankAir(m2, p)
  {
    MulMonotone(m1 as real, m2 as real, p.air);
  }

  /** A positive production needs at least one module; none is needed only
      when nothing is produced. */
  lemma ModulesPositiveIff(t: Table, production: real, purity: real, pressure: real)
    requires ValidTable(t) && production >= 0.0
    ensures Compute(t, production, purity, pressure).modules >= 0
    ensures Compute(t, production, purity, pressure).modules >= 1 <==> production > 0.0
  {
    var p := SelectedPoint(t, purity, pressure);
    FewestCoveringSign(Compute(t, production, purity, pressure).modules, p.n2, RequiredN2Lpm(production));
  }

  /** Producing more never needs fewer modules, less air, less power or a
      smaller cooling load. */
  lemma MonotoneInProduction(t: Table, a: real, b: real, purity: real, pressure: real)
    requires ValidTable(t) && a <= b
    ensures Compute(t, a, purity, pressure).modules <= Compute(t, b, purity, pressure).modules
    ensures Compute(t, a, purity, pressure).airLpm <= Compute(t, b, purity, pressure).airLpm
    ensures Compute(t, a, purity, pressure).powerKW <= Compute(t, b, purity, pressure).powerKW
    ensures Compute(t, a, purity, pressure).coolingW <= Compute(t, b, purity, pressure).coolingW
  {
    var p := SelectedPoint(t, purity, pressure);
    var sa := Compute(t, a, purity, pressure);
    var sb := Compute(t, b, purity, pressure);
    FewestCoveringGrows(sa.modules, sb.modules, p.n2, RequiredN2Lpm(a), RequiredN2Lpm(b));
    BankAirGrows(sa.modules, sb.modules, p);
  }

  /** At a fixed pressure and production, asking for a looser purity (more
      oxygen left) never needs more modules, provided the row's output grows
      with its key. */
  lemma LooserPurityNeedsNoMoreModules(t: Table, production: real, u: real, v: real, pressure: real)
    requires ValidTable(t) && RowIncreasing(SelectRow(t, pressure))
    requires production >= 0.0 && u <= v
    ensures Compute(t, production, v, pressure).modules <= Compute(t, production, u, pressure).modules
  {
    var row := SelectRow(t, pressure);
    NearestKeyMonotone(Keys(row), u, v);
    var pu := SelectedPoint(t, u, pressure);
    var pv := SelectedPoint(t, v, pressure);
    assert pu.n2 <= pv.n2 by {
      if SelectedKey(t, u, pressure) != SelectedKey(t, v, pressure) {
        assert Entry(SelectedKey(t, u, pressure), pu) in row;
        assert Entry(SelectedKey(t, v, pressure), pv) in row;
      }
    }
    FewestCoveringShrinks(Compute(t, production, u, pressure).modules, Compute(t, production, v, pressure).modules,
      pu.n2, pv.n2, RequiredN2Lpm(production));
  }

  /** The cooling load depends on the production alone. */
  lemma CoolingIgnoresPurityAndPressure(t: Table, production: real, u: real, v: real, p1: real, p2: real)
    requires ValidTable(t)
    ensures Compute(t, production, u, p1).coolingW == Compute(t, production, v, p2).coolingW
  {
  }

  lemma CoolingAdditive(a: real, b: real)
    ensures CoolingLoadW(a + b) == CoolingLoadW(a) + CoolingLoadW(b)
  {
  }

  /** Publishing keeps the order of its inputs: a larger exact figure is
      never shown as a smaller one. */
  lemma PublishMonotone(s1: Specs, s2: Specs)
    requires s1.powerKW <= s2.powerKW && s1.airLpm <= s2.airLpm && s1.coolingW <= s2.coolingW
    ensures Publish(s1).powerKW <= Publish(s2).powerKW
    ensures Publish(s1).airLpm <= Publish(s2).airLpm
    ensures Publish(s1).coolingW <= Publish(s2).coolingW
  {
    ToFixedMonotone(s1.powerKW, s2.powerKW, 2);
    ToFixedMonotone(s1.airLpm, s2.airLpm, 1);
    ToFixedMonotone(s1.coolingW, s2.coolingW, 1);
  }
}
