/** The interactive flow diagram: its own copy of the performance table and
    of `calculateSpecs`, and the refresh that rewrites the diagram's nodes
    from the current inputs and results. */
module FlowDiagram {
  import opened Numbers
  import opened Nearest
  import opened Sizing
  import Calculator

  const Row5: Row := [
    Entry(0.5, Point(1.55, 8.91)),
    Entry(1.0, Point(2.15, 9.80)),
    Entry(2.0, Point(3.15, 10.99)),
    Entry(3.0, Point(4.15, 12.18))
  ]

  const Row9: Row := [
    Entry(0.5, Point(3.72, 17.37)),
    Entry(1.0, Point(5.29, 19.60)),
    Entry(2.0, Point(7.73, 23.76)),
    Entry(3.0, Point(10.16, 25.99))
  ]

  const Row11: Row := [
    Entry(0.5, Point(4.94, 22.87)),
    Entry(1.0, Point(6.87, 24.95)),
    Entry(2.0, Point(10.02, 29.70)),
    Entry(3.0, Point(13.17, 33.12))
  ]

  /** The purity tiers of every row, which are also the purity buttons. */
  const PurityButtons: seq<real> := [0.5, 1.0, 2.0, 3.0]
  const PressureButtons: seq<real> := [5.0, 9.0, 11.0]

  lemma Row5Valid()
    ensures Keys(Row5) == PurityButtons
    ensures WellFormedRow(Row5) && RowIncreasing(Row5)
  {
    assert Keys(Row5) == PurityButtons;
    assert StepIncreasing(Row5);
    StepsGiveValidRow(Row5);
  }

  lemma Row9Valid()
    ensures Keys(Row9) == PurityButtons
    ensures WellFormedRow(Row9) && RowIncreasing(Row9)
  {
    assert Keys(Row9) == PurityButtons;
    assert StepIncreasing(Row9);
    StepsGiveValidRow(Row9);
  }

  lemma Row11Valid()
    ensures Keys(Row11) == PurityButtons
    ensures WellFormedRow(Row11) && RowIncreasing(Row11)
  {
    assert Keys(Row11) == PurityButtons;
    assert StepIncreasing(Row11);
    StepsGiveValidRow(Row11);
  }

  lemma TableFacts(t: Table)
    requires t == map[5.0 := Row5, 9.0 := Row9, 11.0 := Row11]
    ensures ValidTable(t)
    ensures forall p | p in t :: RowIncreasing(t[p])
  {
    forall p | p in t
      ensures WellFormedRow(t[p]) && RowIncreasing(t[p])
    {
      if p == 5.0 {
        Row5Valid();
      } else if p == 9.0 {
        Row9Valid();
      } else {
        assert p == 11.0;
        Row11Valid();
      }
    }
  }

  /** This component's `MEMBRANE_DATA`: rows at 5, 9 and 11 bar, each with
      the four tiers the buttons offer. */
  function MembraneData(): (t: Table)
    ensures ValidTable(t)
  {
    TableFacts(map[5.0 := Row5, 9.0 := Row9, 11.0 := Row11]);
    map[5.0 := Row5, 9.0 := Row9, 11.0 := Row11]
  }

  /** In every row, nitrogen output and air use grow with the purity key. */
  lemma RowsIncrease()
    ensures forall p | p in MembraneData() :: RowIncreasing(MembraneData()[p])
  {
    TableFacts(MembraneData());
  }

  /** What this component's `calculateSpecs` stores: the published sizing,
      whose module count is the fewest modules of the selected tier that
      cover the demand. */
  function CalculateSpecs(production: real, purity: real, pressure: real): (r: Specs)
    ensures FewestCovering(r.modules,
      SelectedPoint(MembraneData(), purity, pressure).n2, RequiredN2Lpm(production))
    ensures var s := Compute(MembraneData(), production, purity, pressure);
      && Abs(r.powerKW - s.powerKW) <= 0.005
      && Abs(r.airLpm - s.airLpm) <= 0.05
      && Abs(r.coolingW - s.coolingW) <= 0.05
  {
    Published(MembraneData(), production, purity, pressure)
  }

  /** Every pressure button has a row; any other pressure, 7 bar included,
      is sized as 9 bar. */
  lemma PressureButtonsHaveRows()
    ensures forall b | b in PressureButtons :: b in MembraneData()
  {
  }

  lemma UnknownPressureUsesNineBar(production: real, purity: real, pressure: real)
    requires pressure !in PressureButtons
    ensures CalculateSpecs(production, purity, pressure) == CalculateSpecs(production, purity, 9.0)
  {
    UnknownPressureFallsBack(MembraneData(), production, purity, pressure);
  }

  lemma SelectedRow(pressure: real)
    ensures SelectRow(MembraneData(), pressure)
      == if pressure == 5.0 then Row5 else if pressure == 11.0 then Row11 else Row9
  {
  }

  /** Every row, and so the row any pressure selects, has the four tiers. */
  lemma SelectedRowKeys(pressure: real)
    ensures Keys(SelectRow(MembraneData(), pressure)) == PurityButtons
  {
    SelectedRow(pressure);
    if pressure == 5.0 {
      Row5Valid();
    } else if pressure == 11.0 {
      Row11Valid();
    } else {
      Row9Valid();
    }
  }

  /** Whatever the pressure, a purity button selects its own tier. */
  lemma PurityButtonSelectsItself(purity: real, pressure: real)
    requires purity in PurityButtons
    ensures SelectedKey(MembraneData(), purity, pressure) == purity
  {
    SelectedRowKeys(pressure);
    assert Distinct(PurityButtons);
    NearestOfKeyIsKey(PurityButtons, purity);
  }

  lemma CalculatorRow(pressure: real)
    requires pressure != 7.0
    ensures SelectRow(Calculator.MembraneData(), pressure)
      == if pressure == 5.0 then Calculator.Row5
         else if pressure == 11.0 then Calculator.Row11
         else Calculator.Row9
  {
  }

  lemma ExtendedKeys()
    ensures Calculator.FullKeys == PurityButtons + [4.0, 5.0]
  {
  }

  lemma Row5Corresponds()
    ensures Keys(Calculator.Row5) == PurityButtons + [4.0, 5.0]
    ensures Row5 == Calculator.Row5[..4]
  {
    Calculator.Row5Valid();
    ExtendedKeys();
  }

  lemma Row9Corresponds()
    ensures Keys(Calculator.Row9) == PurityButtons + [4.0, 5.0]
    ensures Row9 == Calculator.Row9[..4]
  {
    Calculator.Row9Valid();
    ExtendedKeys();
  }

  lemma Row11Corresponds()
    ensures Keys(Calculator.Row11) == PurityButtons + [4.0, 5.0]
    ensures Row11 == Calculator.Row11[..4]
  {
    Calculator.Row11Valid();
    ExtendedKeys();
  }

  /** At any pressure but 7 bar the calculator's row holds this copy's four
      tiers followed by the 4 % and 5 % tiers. */
  lemma RowsCorrespond(pressure: real)
    requires pressure != 7.0
    ensures var c := SelectRow(Calculator.MembraneData(), pressure);
      && Keys(c) == PurityButtons + [4.0, 5.0]
      && SelectRow(MembraneData(), pressure) == c[..4]
  {
    SelectedRow(pressure);
    CalculatorRow(pressure);
    if pressure == 5.0 {
      Row5Corresponds();
    } else if pressure == 11.0 {
      Row11Corresponds();
    } else {
      Row9Corresponds();
    }
  }

  lemma ExtraTiersNoNearer(k: real, purity: real)
    requires k in PurityButtons && purity <= 3.5 && Dist(k, purity) <= Dist(3.0, purity)
    ensures forall j | j in [4.0, 5.0] :: k < j && Dist(k, purity) <= Dist(j, purity)
  {
    assert Dist(3.0, purity) <= Dist(4.0, purity) <= Dist(5.0, purity);
  }

  /** Below 3.5 % O2 the extra tiers of the calculator's rows are never
      nearer than the tier this copy selects, so both pick the same tier. */
  lemma SameTierAsCalculator(purity: real, pressure: real)
    requires purity <= 3.5 && pressure != 7.0
    ensures SelectedKey(Calculator.MembraneData(), purity, pressure) == SelectedKey(MembraneData(), purity, pressure)
    ensures SelectedPoint(Calculator.MembraneData(), purity, pressure) == SelectedPoint(MembraneData(), purity, pressure)
  {
    var k := SelectedKey(MembraneData(), purity, pressure);
    var c := SelectRow(Calculator.MembraneData(), pressure);
    RowsCorrespond(pressure);
    SelectedRowKeys(pressure);
    assert 3.0 in PurityButtons;
    ExtraTiersNoNearer(k, purity);
    ClosestAmongMoreKeys(PurityButtons, [4.0, 5.0], purity, k);
    ClosestIsUnique(Keys(c), purity, k, SelectedKey(Calculator.MembraneData(), purity, pressure));
    var p := SelectedPoint(MembraneData(), purity, pressure);
    assert Entry(k, p) in c;
    LookupUnique(c, k, p);
  }

  /** For purities up to 3.5 % O2, which include every purity button, and
      any pressure but 7 bar, the diagram shows what the calculator shows. */
  lemma AgreesWithCalculator(production: real, purity: real, pressure: real)
    requires purity <= 3.5 && pressure != 7.0
    ensures CalculateSpecs(production, purity, pressure) == Calculator.CalculateSpecs(production, purity, pressure)
  {
    SameTierAsCalculator(purity, pressure);
  }

  /** At any pressure, a looser purity request never needs more modules. */
  lemma LooserPurityNoMoreModules(production: real, u: real, v: real, pressure: real)
    requires production >= 0.0 && u <= v
    ensures CalculateSpecs(production, v, pressure).modules <= CalculateSpecs(production, u, pressure).modules
  {
    RowsIncrease();
    LooserPurityNeedsNoMoreModules(MembraneData(), production, u, v, pressure);
  }

  /** With a production of at least 1 L/day (the slider's minimum) the
      total power shown is positive. */
  lemma PowerShownPositive(production: real, purity: real, pressure: real)
    requires production >= 1.0
    ensures CalculateSpecs(production, purity, pressure).powerKW > 0.0
  {
    var s := Compute(MembraneData(), production, purity, pressure);
    var p := SelectedPoint(MembraneData(), purity, pressure);
    ModulesPositiveIff(MembraneData(), production, purity, pressure);
    BankAirGrows(0, s.modules, p);
  }

  // ----- The diagram's nodes -----

  datatype Option<T> = None | Some(value: T)

  /** A metric value as a node renders it: a number, the string that
      `x.toFixed(digits)` produces, or text. */
  datatype MetricValue =
    | Num(x: real)
    | Fixed(x: real, digits: nat)
    | Text(s: string)

  /** A metric row; its `label` is `name` here. */
  datatype Metric = Metric(name: string, value: MetricValue, unit: string)

  datatype SpecLine = SpecLine(param: string, value: string, note: string)

  /** The data a stage node carries (its `label` is `title` here); the icon
      and the input callbacks are not modelled. */
  datatype NodeData = NodeData(
    title: string,
    color: string,
    hasControls: bool,
    items: Option<seq<string>>,
    metrics: Option<seq<Metric>>,
    specs: Option<seq<SpecLine>>,
    production: Option<real>,
    purity: Option<real>,
    pressure: Option<real>)

  datatype Position = Position(x: real, y: real)

  datatype Node = Node(id: string, kind: string, position: Position, data: NodeData)

  /** The component state the refresh reads: the three inputs and the four
      results the last `calculateSpecs` stored. */
  datatype DiagramState = DiagramState(
    production: real,
    purity: real,
    pressure: real,
    airFlow: real,
    moduleCount: int,
    power: real,
    cooling: real)

  /** The state before the first calculation. */
  const InitialState: DiagramState := DiagramState(10.0, 0.5, 9.0, 0.0, 1, 0.0, 0.0)

  /** The state once `calculateSpecs` has stored its results for the
      current inputs. */
  function Recompute(s: DiagramState): (r: DiagramState)
    ensures r.production == s.production && r.purity == s.purity && r.pressure == s.pressure
    ensures var c := CalculateSpecs(s.production, s.purity, s.pressure);
      r.airFlow == c.airLpm && r.moduleCount == c.modules && r.power == c.powerKW && r.cooling == c.coolingW
  {
    var c := CalculateSpecs(s.production, s.purity, s.pressure);
    s.(airFlow := c.airLpm, moduleCount := c.modules, power := c.powerKW, cooling := c.coolingW)
  }

  /** `power > 0 ? (power * fraction).toFixed(1) : 0`: a positive power's
      share as a one-decimal string, which reads within 0.05 of the exact
      share; otherwise the number 0. */
  function PowerShare(power: real, fraction: real): (v: MetricValue)
    ensures !v.Text?
    ensures power > 0.0 ==>
      && v.Fixed? && v.digits == 1 && v.x == power * fraction
      && Abs(Shown(v) - power * fraction) <= 0.05
    ensures power <= 0.0 ==> Shown(v) == 0.0
  {
    HalfUnit();
    if power > 0.0 then Fixed(power * fraction, 1) else Num(0.0)
  }

  /** The number a metric shows. */
  function Shown(v: MetricValue): real
    requires !v.Text?
  {
    match v
    case Num(x) => x
    case Fixed(x, digits) => ToFixed(x, digits)
  }

  /** Metric m is labelled name, shows the number x and has the given unit. */
  predicate Shows(m: Metric, name: string, x: real, unit: string)
  {
    m.name == name && !m.value.Text? && Shown(m.value) == x && m.unit == unit
  }

  /** Metric m is labelled name, shows the share `fraction` of power (0 when
      there is no power yet) to within rounding, and is in kW. */
  predicate ShowsShare(m: Metric, name: string, power: real, fraction: real)
  {
    && m.name == name && !m.value.Text? && m.unit == "kW"
    && (power > 0.0 ==> Abs(Shown(m.value) - power * fraction) <= 0.05)
    && (power <= 0.0 ==> Shown(m.value) == 0.0)
  }

  /** The compressor and cryocooler shares split a positive total power
      60/40 and add up to it before rounding, and to within 0.1 kW as shown;
      otherwise both read 0. */
  lemma SharesSplitPower(power: real)
    ensures var c := PowerShare(power, 0.6); var k := PowerShare(power, 0.4);
      if power > 0.0 then
        && c.Fixed? && k.Fixed? && c.digits == 1 && k.digits == 1
        && 0.0 < k.x < c.x && c.x + k.x == power
        && Abs(Shown(c) + Shown(k) - power) <= 0.1
      else
        c == Num(0.0) && k == Num(0.0)
  {
    if power > 0.0 {
      var c := PowerShare(power, 0.6);
      var k := PowerShare(power, 0.4);
      HalfUnit();
      assert Abs(Shown(c) - c.x) <= 0.05;
      assert Abs(Shown(k) - k.x) <= 0.05;
    }
  }

  /** Node 2 (air handling): the feed air flow, the compressor's 60 % share
      of the power, and the feed pressure. */
  function AirHandlingMetrics(s: DiagramState): (m: seq<Metric>)
    ensures |m| == 3
    ensures Shows(m[0], "Feed Air Flow", s.airFlow, "LPM")
    ensures ShowsShare(m[1], "Compressor Power", s.power, 0.6)
    ensures Shows(m[2], "Operating Pressure", s.pressure, "bar")
  {
    [ Metric("Feed Air Flow", Num(s.airFlow), "LPM"),
      Metric("Compressor Power", PowerShare(s.power, 0.6), "kW"),
      Metric("Operating Pressure", Num(s.pressure), "bar") ]
  }

  /** Node 3 (membrane bank): the module count, the module model, and the
      nitrogen purity as 100 minus the oxygen percentage. */
  function MembraneMetrics(s: DiagramState): (m: seq<Metric>)
    ensures |m| == 3
    ensures Shows(m[0], "Modules Required", s.moduleCount as real, "units")
    ensures m[1] == Metric("Model", Text("MNH-1522A"), "")
    ensures Shows(m[2], "N₂ Purity", 100.0 - s.purity, "%")
  {
    [ Metric("Modules Required", Num(s.moduleCount as real), "units"),
      Metric("Model", Text("MNH-1522A"), ""),
      Metric("N₂ Purity", Num(100.0 - s.purity), "%") ]
  }

  /** Node 6 (cold stage): the cooling load, the cryocooler's 40 % share of
      the power, and the 15 % of Carnot efficiency. */
  function ColdStageMetrics(s: DiagramState): (m: seq<Metric>)
    ensures |m| == 3
    ensures Shows(m[0], "Cooling Power", s.cooling, "W")
    ensures ShowsShare(m[1], "Cryo Power", s.power, 0.4)
    ensures Shows(m[2], "Efficiency", EfficiencyPercent, "% Carnot")
  {
    [ Metric("Cooling Power", Num(s.cooling), "W"),
      Metric("Cryo Power", PowerShare(s.power, 0.4), "kW"),
      Metric("Efficiency", Num(EfficiencyPercent), "% Carnot") ]
  }

  /** Node 7 (output): the production, the total power, and the fixed
      77 K operating temperature as text. */
  function OutputMetrics(s: DiagramState): (m: seq<Metric>)
    ensures |m| == 3
    ensures Shows(m[0], "LN₂ Production", s.production, "L/day")
    ensures Shows(m[1], "Total Power", s.power, "kW")
    ensures m[2] == Metric("Operating Temp", Text("77"), "K")
  {
    [ Metric("LN₂ Production", Num(s.production), "L/day"),
      Metric("Total Power", Num(s.power), "kW"),
      Metric("Operating Temp", Text("77"), "K") ]
  }

  /** The ids of the nodes whose data the refresh rewrites. */
  const RefreshedIds: set<string> := {"1", "2", "3", "6", "7"}

  /** One step of the refresh's `nds.map`: the controls node gets the
      current inputs, the metric nodes get fresh metrics, and every other
      node, the two magnetic stages included, keeps its content. */
  function RefreshNode(s: DiagramState, n: Node): (r: Node)
    ensures r.id == n.id && r.kind == n.kind && r.position == n.position
    ensures n.id == "1" ==> r.data == n.data.(production := Some(s.production), purity := Some(s.purity), pressure := Some(s.pressure))
    ensures n.id == "2" ==> r.data == n.data.(metrics := Some(AirHandlingMetrics(s)))
    ensures n.id == "3" ==> r.data == n.data.(metrics := Some(MembraneMetrics(s)))
    ensures n.id == "6" ==> r.data == n.data.(metrics := Some(ColdStageMetrics(s)))
    ensures n.id == "7" ==> r.data == n.data.(metrics := Some(OutputMetrics(s)))
    ensures n.id !in RefreshedIds ==> r == n
  {
    if n.id == "1" then
      n.(data := n.data.(production := Some(s.production), purity := Some(s.purity), pressure := Some(s.pressure)))
    else if n.id == "2" then
      n.(data := n.data.(metrics := Some(AirHandlingMetrics(s))))
    else if n.id == "3" then
      n.(data := n.data.(metrics := Some(MembraneMetrics(s))))
    else if n.id == "4" then
      n.(data := n.data)
    else if n.id == "5" then
      n.(data := n.data)
    else if n.id == "6" then
      n.(data := n.data.(metrics := Some(ColdStageMetrics(s))))
    else if n.id == "7" then
      n.(data := n.data.(metrics := Some(OutputMetrics(s))))
    else
      n
  }

  /** The refresh: every node mapped, in order. */
  function RefreshNodes(s: DiagramState, nodes: seq<Node>): (r: seq<Node>)
    ensures |r| == |nodes|
    ensures forall i | 0 <= i < |nodes| :: r[i] == RefreshNode(s, nodes[i])
  {
    seq(|nodes|, i requires 0 <= i < |nodes| => RefreshNode(s, nodes[i]))
  }

  /** The refresh keeps the list's length and order, every id, type and
      position, and every title, colour, item list and spec table. */
  lemma RefreshKeepsLayout(s: DiagramState, nodes: seq<Node>)
    ensures var r := RefreshNodes(s, nodes);
      && |r| == |nodes|
      && forall i | 0 <= i < |nodes| ::
           && r[i].id == nodes[i].id
           && r[i].kind == nodes[i].kind
           && r[i].position == nodes[i].position
           && r[i].data.title == nodes[i].data.title
           && r[i].data.color == nodes[i].data.color
           && r[i].data.hasControls == nodes[i].data.hasControls
           && r[i].data.items == nodes[i].data.items
           && r[i].data.specs == nodes[i].data.specs
  {
  }

  /** Only the controls node's inputs and the metric nodes' metrics change:
      a node keeps its metrics unless it is node 2, 3, 6 or 7, and keeps its
      inputs unless it is node 1. */
  lemma RefreshTouchesOnlyItsFields(s: DiagramState, n: Node)
    ensures var r := RefreshNode(s, n);
      && (n.id !in {"2", "3", "6", "7"} ==> r.data.metrics == n.data.metrics)
      && (n.id != "1" ==>
            r.data.production == n.data.production
            && r.data.purity == n.data.purity
            && r.data.pressure == n.data.pressure)
  {
  }

  /** The refreshed content depends on the current state alone: refreshing
      twice is refreshing once with the later state. */
  lemma LastRefreshWins(s1: DiagramState, s2: DiagramState, nodes: seq<Node>)
    ensures RefreshNodes(s2, RefreshNodes(s1, nodes)) == RefreshNodes(s2, nodes)
  {
    var a := RefreshNodes(s2, RefreshNodes(s1, nodes));
    var b := RefreshNodes(s2, nodes);
    forall i | 0 <= i < |nodes| ensures a[i] == b[i] {
      RefreshTwice(s1, s2, nodes[i]);
    }
  }

  lemma RefreshTwice(s1: DiagramState, s2: DiagramState, n: Node)
    ensures RefreshNode(s2, RefreshNode(s1, n)) == RefreshNode(s2, n)
  {
  }

  lemma RefreshIdempotent(s: DiagramState, nodes: seq<Node>)
    ensures RefreshNodes(s, RefreshNodes(s, nodes)) == RefreshNodes(s, nodes)
  {
    LastRefreshWins(s, s, nodes);
  }

  /** JavaScript's `x || d` on an optional number: undefined and 0 are
      falsy, so both give d. */
  function OrDefault(x: Option<real>, d: real): (r: real)
    ensures x.Some? && x.value != 0.0 ==> r == x.value
    ensures x.None? || x.value == 0.0 ==> r == d
  {
    if x.Some? && x.value != 0.0 then x.value else d
  }

  /** `100 - (data.purity || 0.5)`: the nitrogen purity the controls node
      prints; with no purity, or a purity of 0, it prints 99.5. */
  function NitrogenPurityShown(data: NodeData): (r: real)
    ensures data.purity.Some? && data.purity.value != 0.0 ==> r + data.purity.value == 100.0
    ensures data.purity.None? || data.purity == Some(0.0) ==> r == 99.5
  {
    100.0 - OrDefault(data.purity, 0.5)
  }

  /** After a refresh the controls node and the membrane node both show the
      nitrogen purity as 100 minus the requested oxygen percentage. */
  lemma NitrogenPurityIsComplement(s: DiagramState, n: Node)
    requires n.id == "1" && s.purity != 0.0
    ensures NitrogenPurityShown(RefreshNode(s, n).data) == 100.0 - s.purity
    ensures MembraneMetrics(s)[2].value == Num(NitrogenPurityShown(RefreshNode(s, n).data))
  {
  }

  /** Once the results are stored, the membrane node shows the module count
      the sizing needs and the output node shows the total power, and for a
      production on the slider both power shares are positive decimals. */
  lemma DiagramShowsSizing(s: DiagramState, n: Node)
    requires s.production >= 1.0
    ensures var c := CalculateSpecs(s.production, s.purity, s.pressure);
      var t := Recompute(s);
      && (n.id == "3" ==>
            RefreshNode(t, n).data.metrics == Some(MembraneMetrics(t))
            && MembraneMetrics(t)[0].value == Num(c.modules as real))
      && (n.id == "7" ==>
            RefreshNode(t, n).data.metrics == Some(OutputMetrics(t))
            && OutputMetrics(t)[1].value == Num(c.powerKW))
      && PowerShare(t.power, 0.6).Fixed? && PowerShare(t.power, 0.6).x > 0.0
      && PowerShare(t.power, 0.4).Fixed? && PowerShare(t.power, 0.4).x > 0.0
  {
    PowerShownPositive(s.production, s.purity, s.pressure);
  }

  /** `useState` starts the diagram at 10 L/day, 0.5 % O2 and 9 bar with
      one module and zero air, power and cooling; the first `calculateSpecs`
      then stores 34.7 L/min, two modules, 1.82 kW and 40.3 W. */
  lemma FirstCalculation()
    ensures InitialState.production == 10.0 && InitialState.purity == 0.5 && InitialState.pressure == 9.0
    ensures InitialState.moduleCount == 1
    ensures Recompute(InitialState)
      == InitialState.(airFlow := 34.7, moduleCount := 2, power := 1.82, cooling := 40.3)
  {
    AgreesWithCalculator(10.0, 0.5, 9.0);
    Calculator.TenLitresAtNineBarShown();
  }

  /** Before the first calculation the stored power is 0, so both shares
      read 0. */
  lemma InitialSharesAreZero()
    ensures PowerShare(InitialState.power, 0.6) == Num(0.0)
    ensures PowerShare(InitialState.power, 0.4) == Num(0.0)
  {
  }
}
