/** The calculator panel: the MNH-1522A performance table it ships with, and
    its `calculateSpecs`, which stores the published sizing for the chosen
    production (1 to 50 L/day on the slider), purity tier and pressure. */
module Calculator {
  import opened Numbers
  import opened Nearest
  import opened Sizing

  const Row5: Row := [
    Entry(0.5, Point(1.55, 8.91)),
    Entry(1.0, Point(2.15, 9.80)),
    Entry(2.0, Point(3.15, 10.99)),
    Entry(3.0, Point(4.15, 12.18)),
    Entry(4.0, Point(5.22, 13.59)),
    Entry(5.0, Point(6.30, 15.00))
  ]

  /** The 7-bar row keeps a single tier; its other cells were never filled. */
  const Row7: Row := [
    Entry(0.5, Point(2.68, 19.60))
  ]

  const Row9: Row := [
    Entry(0.5, Point(3.72, 17.37)),
    Entry(1.0, Point(5.29, 19.60)),
    Entry(2.0, Point(7.73, 23.76)),
    Entry(3.0, Point(10.16, 25.99)),
    Entry(4.0, Point(12.66, 28.81)),
    Entry(5.0, Point(15.17, 31.63))
  ]

  const Row11: Row := [
    Entry(0.5, Point(4.94, 22.87)),
    Entry(1.0, Point(6.87, 24.95)),
    Entry(2.0, Point(10.02, 29.70)),
    Entry(3.0, Point(13.17, 33.12)),
    Entry(4.0, Point(16.38, 36.53)),
    Entry(5.0, Point(19.60, 40.54))
  ]

  /** The purity tiers of the full rows. */
  const FullKeys: seq<real> := [0.5, 1.0, 2.0, 3.0, 4.0, 5.0]

  /** The choices the panel offers. */
  const PurityButtons: seq<real> := [0.5, 1.0, 2.0, 3.0]
  const PressureButtons: seq<real> := [5.0, 9.0, 11.0, 13.0]
  const MinProduction: real := 1.0
  const MaxProduction: real := 50.0

  lemma FullKeysDistinct()
    ensures Distinct(FullKeys)
  {
    assert StrictlySorted(FullKeys);
  }

  lemma Row5Valid()
    ensures Keys(Row5) == FullKeys
    ensures WellFormedRow(Row5) && RowIncreasing(Row5)
  {
    assert Keys(Row5) == FullKeys;
    assert StepIncreasing(Row5);
    StepsGiveValidRow(Row5);
  }

  lemma Row7Valid()
    ensures WellFormedRow(Row7) && RowIncreasing(Row7)
  {
    assert Keys(Row7) == [0.5];
  }

  lemma Row9Valid()
    ensures Keys(Row9) == FullKeys
    ensures WellFormedRow(Row9) && RowIncreasing(Row9)
  {
    assert Keys(Row9) == FullKeys;
    assert StepIncreasing(Row9);
    StepsGiveValidRow(Row9);
  }

  lemma Row11Valid()
    ensures Keys(Row11) == FullKeys
    ensures WellFormedRow(Row11) && RowIncreasing(Row11)
  {
    assert Keys(Row11) == FullKeys;
    assert StepIncreasing(Row11);
    StepsGiveValidRow(Row11);
  }

  /** The row at one pressure of the table is well formed and increasing. */
  lemma TableRowFacts(t: Table, p: real)
    requires t == map[5.0 := Row5, 7.0 := Row7, 9.0 := Row9, 11.0 := Row11]
    requires p in t
    ensures WellFormedRow(t[p]) && RowIncreasing(t[p])
  {
    if p == 5.0 {
      assert t[p] == Row5;
      Row5Valid();
    } else if p == 7.0 {
      assert t[p] == Row7;
      Row7Valid();
    } else if p == 9.0 {
      assert t[p] == Row9;
      Row9Valid();
    } else {
      assert t[p] == Row11;
      Row11Valid();
    }
  }

  lemma TableFacts(t: Table)
    requires t == map[5.0 := Row5, 7.0 := Row7, 9.0 := Row9, 11.0 := Row11]
    ensures ValidTable(t)
    ensures forall p | p in t :: RowIncreasing(t[p])
  {
    forall p | p in t
      ensures WellFormedRow(t[p]) && RowIncreasing(t[p])
    {
      TableRowFacts(t, p);
    }
  }

  /** `MEMBRANE_DATA`, keyed by feed pressure (bar gauge). It has its 9-bar
      fallback, and distinct keys and positive flows in every row. */
  function MembraneData(): (t: Table)
    ensures ValidTable(t)
  {
    TableFacts(map[5.0 := Row5, 7.0 := Row7, 9.0 := Row9, 11.0 := Row11]);
    map[5.0 := Row5, 7.0 := Row7, 9.0 := Row9, 11.0 := Row11]
  }

  /** In every row, nitrogen output and air use grow with the purity key. */
  lemma RowsIncrease()
    ensures forall p | p in MembraneData() :: RowIncreasing(MembraneData()[p])
  {
    TableFacts(MembraneData());
  }

  /** What `calculateSpecs` stores: the published sizing, whose module count
      is the fewest modules of the selected tier that cover the demand. */
  function CalculateSpecs(production: real, purity: real, pressure: real): (r: Specs)
    ensures FewestCovering(r.modules,
      SelectedPoint(MembraneData(), purity, pressure).n2, RequiredN2Lpm(production))
    ensures var s := Compute(MembraneData(), production, purity, pressure);
      && Abs(r.powerKW - s.powerKW) <= 0.005
      && Abs(r.airLpm - s.airLpm) <= 0.05
      && Abs(r.coolingW - s.coolingW) <= 0.05
  {
    Published(MembraneData(), production, purity, pressure)
  }

  lemma NoRowAt(pressure: real)
    requires pressure != 5.0 && pressure != 7.0 && pressure != 9.0 && pressure != 11.0
    ensures pressure !in MembraneData()
  {
  }

  /** A pressure without a row, such as the 13-bar button, is sized exactly
      as 9 bar. */
  lemma UnknownPressureUsesNineBar(production: real, purity: real, pressure: real)
    requires pressure != 5.0 && pressure != 7.0 && pressure != 9.0 && pressure != 11.0
    ensures CalculateSpecs(production, purity, pressure) == CalculateSpecs(production, purity, 9.0)
  {
    NoRowAt(pressure);
    UnknownPressureFallsBack(MembraneData(), production, purity, pressure);
  }

  /** Every pressure button but 13 bar has a row of its own; 13 bar falls
      back to 9 bar. */
  lemma PressureButtonsResolve(production: real, purity: real)
    ensures forall b | b in PressureButtons :: b in MembraneData() || b == 13.0
    ensures CalculateSpecs(production, purity, 13.0) == CalculateSpecs(production, purity, 9.0)
  {
    UnknownPressureUsesNineBar(production, purity, 13.0);
  }

  lemma RowAt(pressure: real)
    requires pressure in MembraneData()
    ensures SelectRow(MembraneData(), pressure) == MembraneData()[pressure]
  {
  }

  lemma Row5Keys()
    ensures Keys(SelectRow(MembraneData(), 5.0)) == FullKeys
  {
    assert SelectRow(MembraneData(), 5.0) == Row5;
    Row5Valid();
  }

  lemma Row9Keys()
    ensures Keys(SelectRow(MembraneData(), 9.0)) == FullKeys
  {
    assert SelectRow(MembraneData(), 9.0) == Row9;
    Row9Valid();
  }

  lemma Row11Keys()
    ensures Keys(SelectRow(MembraneData(), 11.0)) == FullKeys
  {
    assert SelectRow(MembraneData(), 11.0) == Row11;
    Row11Valid();
  }

  /** The rows at 5, 9 and 11 bar have all six tiers. */
  lemma FullRowKeys(pressure: real)
    requires pressure == 5.0 || pressure == 9.0 || pressure == 11.0
    ensures Keys(SelectRow(MembraneData(), pressure)) == FullKeys
  {
    if pressure == 5.0 {
      Row5Keys();
    } else if pressure == 9.0 {
      Row9Keys();
    } else {
      Row11Keys();
    }
  }

  /** In the full rows, a requested purity that is a tier selects that tier;
      the purity buttons are all tiers. */
  lemma TierRequestSelectsItself(purity: real, pressure: real)
    requires purity in FullKeys
    requires pressure == 5.0 || pressure == 9.0 || pressure == 11.0
    ensures SelectedKey(MembraneData(), purity, pressure) == purity
  {
    FullRowKeys(pressure);
    FullKeysDistinct();
    NearestOfKeyIsKey(FullKeys, purity);
  }

  /** The keys of a full row as `Object.keys` lists them: the integer-like
      names first, then "0.5". */
  const ObjectKeyOrder: seq<real> := [1.0, 2.0, 3.0, 4.0, 5.0, 0.5]

  lemma ObjectKeyOrderHasFullKeys()
    ensures Distinct(ObjectKeyOrder)
    ensures forall k :: k in ObjectKeyOrder <==> k in FullKeys
  {
    assert StrictlySorted(ObjectKeyOrder[..5]);
  }

  /** Listing the keys in that order selects the same tier as the model. */
  lemma ObjectKeyOrderSelectsSameTier(purity: real, pressure: real)
    requires pressure == 5.0 || pressure == 9.0 || pressure == 11.0
    ensures NearestKey(ObjectKeyOrder, purity) == SelectedKey(MembraneData(), purity, pressure)
  {
    FullKeysDistinct();
    ObjectKeyOrderHasFullKeys();
    KeyOrderIrrelevant(ObjectKeyOrder, FullKeys, purity);
    FullRowKeys(pressure);
  }

  lemma PurityButtonsAreTiers()
    ensures forall b | b in PurityButtons :: b in FullKeys
  {
  }

  lemma OneIsNearestToOneAndAHalf()
    ensures IsClosest(FullKeys, 1.5, 1.0)
  {
  }

  /** Halfway between two tiers, the lower (purer) tier is used: 1.5 % O2
      is sized as 1 %. */
  lemma TieGoesToLowerTier(pressure: real)
    requires pressure == 5.0 || pressure == 9.0 || pressure == 11.0
    ensures SelectedKey(MembraneData(), 1.5, pressure) == 1.0
  {
    FullRowKeys(pressure);
    OneIsNearestToOneAndAHalf();
    ClosestIsUnique(FullKeys, 1.5, 1.0, SelectedKey(MembraneData(), 1.5, pressure));
  }

  /** The 7-bar row has one tier, so at 7 bar every purity request is sized
      with the 0.5 % module figures. */
  lemma SevenBarIgnoresPurity(purity: real)
    ensures SelectedPoint(MembraneData(), purity, 7.0) == Point(2.68, 19.60)
  {
    assert Keys(SelectRow(MembraneData(), 7.0)) == [0.5];
  }

  /** Anything the slider offers needs at least one module. */
  lemma AtLeastOneModule(production: real, purity: real, pressure: real)
    requires production >= MinProduction
    ensures CalculateSpecs(production, purity, pressure).modules >= 1
  {
    ModulesPositiveIff(MembraneData(), production, purity, pressure);
  }

  /** A larger production never shows fewer modules or less air, power or
      cooling. */
  lemma MonotoneInProductionAsShown(a: real, b: real, purity: real, pressure: real)
    requires a <= b
    ensures CalculateSpecs(a, purity, pressure).modules <= CalculateSpecs(b, purity, pressure).modules
    ensures CalculateSpecs(a, purity, pressure).airLpm <= CalculateSpecs(b, purity, pressure).airLpm
    ensures CalculateSpecs(a, purity, pressure).powerKW <= CalculateSpecs(b, purity, pressure).powerKW
    ensures CalculateSpecs(a, purity, pressure).coolingW <= CalculateSpecs(b, purity, pressure).coolingW
  {
    MonotoneInProduction(MembraneData(), a, b, purity, pressure);
    PublishMonotone(Compute(MembraneData(), a, purity, pressure), Compute(MembraneData(), b, purity, pressure));
  }

  /** At any pressure, a looser purity request never needs more modules. */
  lemma LooserPurityNoMoreModules(production: real, u: real, v: real, pressure: real)
    requires production >= 0.0 && u <= v
    ensures CalculateSpecs(production, v, pressure).modules <= CalculateSpecs(production, u, pressure).modules
  {
    RowsIncrease();
    LooserPurityNeedsNoMoreModules(MembraneData(), production, u, v, pressure);
  }

  lemma TwoModulesOfThreePointSevenTwo(m: int)
    requires FewestCovering(m, 3.72, 29.0 / 6.0)
    ensures m == 2
  {
  }

  lemma PowerShownAsOnePointEightTwo(x: real)
    requires x * 566.0 == 34.74 * 7.0 + 10.0 * 566.0 * 5.0 / 36.0
    ensures ToFixed(x, 2) == 1.82
  {
    assert Shift(x, 1) == 10.0 * x;
    assert Shift(x, 2) == 100.0 * x;
    assert RoundHalfUp(Shift(x, 2)) == 182;
    assert Unshift(182.0, 1) == 18.2;
    assert Unshift(182.0, 2) == 1.82;
  }

  lemma AirShownAsThirtyFourPointSeven()
    ensures ToFixed(34.74, 1) == 34.7
  {
    assert Shift(34.74, 1) == 347.4;
    assert RoundHalfUp(347.4) == 347;
    assert Unshift(347.0, 1) == 34.7;
  }

  lemma CoolingShownAsFortyPointThree()
    ensures ToFixed(40.299, 1) == 40.3
  {
    assert Shift(40.299, 1) == 402.99;
    assert RoundHalfUp(402.99) == 403;
    assert Unshift(403.0, 1) == 40.3;
  }

  lemma HalfPercentAtNineBar()
    ensures SelectedPoint(MembraneData(), 0.5, 9.0) == Point(3.72, 17.37)
  {
    TierRequestSelectsItself(0.5, 9.0);
    RowAt(9.0);
  }

  /** 10 L/day at 0.5 % O2 and 9 bar: 4.833 L/min of nitrogen, two modules
      drawing 34.74 L/min of air, 40.299 W of cooling. */
  lemma TenLitresAtNineBarExact()
    ensures RequiredN2Lpm(10.0) == 29.0 / 6.0
    ensures SelectedPoint(MembraneData(), 0.5, 9.0) == Point(3.72, 17.37)
    ensures var s := Compute(MembraneData(), 10.0, 0.5, 9.0);
      && s.modules == 2
      && s.airLpm == 34.74
      && s.powerKW * 566.0 == 34.74 * 7.0 + 10.0 * 566.0 * 5.0 / 36.0
      && s.coolingW == 40.299
  {
    HalfPercentAtNineBar();
    var s := Compute(MembraneData(), 10.0, 0.5, 9.0);
    TwoModulesOfThreePointSevenTwo(s.modules);
  }

  /** The same case as the panel shows it: 1.82 kW, two modules, 34.7 L/min
      of air and 40.3 W of cooling. */
  lemma TenLitresAtNineBarShown()
    ensures CalculateSpecs(10.0, 0.5, 9.0) == Specs(1.82, 34.7, 2, 40.3)
  {
    TenLitresAtNineBarExact();
    var s := Compute(MembraneData(), 10.0, 0.5, 9.0);
    PowerShownAsOnePointEightTwo(s.powerKW);
    AirShownAsThirtyFourPointSeven();
    CoolingShownAsFortyPointThree();
    assert Publish(s) == Specs(ToFixed(s.powerKW, 2), ToFixed(s.airLpm, 1), s.modules, ToFixed(s.coolingW, 1));
  }
}
