# LN₂ plant sizing engine

This project models the sizing engine of a small liquid-nitrogen plant
configurator. The engine appears twice in the program: once in the
calculator panel and once in the interactive flow diagram. Each copy takes
three inputs:

- a daily LN₂ production target, 1 to 50 L/day on the slider;
- an oxygen-purity tier, in percent O₂ left in the product gas;
- a feed pressure, in bar gauge.

Each copy keeps its own performance table for the MNH-1522A membrane
module. From the inputs and the table, `calculateSpecs`:

- converts the production to a nitrogen gas flow (696 L of gas per litre
  of liquid, spread over 1440 minutes);
- picks the row for the pressure. A pressure without a row falls back to
  the 9-bar row;
- picks the purity key of that row nearest to the request. The keys are
  sorted ascending and reduced from the left, so a tie keeps the lower key;
- sizes the bank as `Math.ceil(required / n2)` modules drawing
  `modules * air` L/min of feed air;
- computes the power: 0.35 kW per scfm of air, plus a cryocooler at 15 % of
  Carnot on 0.5 kWh per litre;
- computes the cooling load from the latent heat plus warming the gas from
  77 K to 300 K;
- stores power to two decimals and air and cooling to one decimal, via
  `toFixed`.

The flow diagram then rewrites its nodes from the stored results.

The modules:

- `Numbers`: `Math.abs`, `Math.ceil` and `Number(x.toFixed(d))`, over exact
  reals.
- `Nearest`: the sort and the nearest-key `reduce`, with their
  characterisation.
- `Sizing`: the engine over any well-formed table. Both components use it.
- `Calculator`: the calculator's table (rows at 5, 7, 9 and 11 bar, with
  tiers 0.5 to 5 % O₂), its `calculateSpecs`, and concrete cases.
- `FlowDiagram`: the diagram's table (5, 9 and 11 bar, with tiers 0.5 to
  3 %) and its `calculateSpecs`. It also holds the agreement with the
  calculator, the 60/40 power split shown on two nodes, and the node
  refresh.

The whole model is pure, as the two `calculateSpecs` callbacks and the
`nds.map` refresh are. Each callback becomes a function from its inputs to
the record it stores (`Specs`). The refresh becomes a function from the
component state to the new node list.

Three facts about the code shape the model:

- In `Calculator.tsx` the 7-bar row holds one entry, 0.5 % → 2.68 / 19.60
  (`src/components/Calculator.tsx:16`). The row exists, so
  `|| MEMBRANE_DATA[9]` never falls back at 7 bar. Every purity request at
  7 bar is sized with that single entry (`SevenBarIgnoresPurity`). No
  request reaches a `reduce` on an empty list. A pressure with no row falls
  back to 9 bar: 13 bar in the calculator, and 7 bar in the flow diagram,
  which has no 7-bar row.
- The calculator offers a 13-bar button (`src/components/Calculator.tsx:197`).
  It has no row and sizes as 9 bar.
- Both tables are strictly increasing in the purity key: a looser purity
  always gives more nitrogen and more air per module (proved).

## Model

| member | source | states |
|---|---|---|
| Numbers.Abs | src/components/Calculator.tsx:76-77 | `Math.abs` is non-negative and is x or −x |
| Numbers.Ceil | src/components/Calculator.tsx:83 | `Math.ceil` returns an integer n with n − 1 < x ≤ n |
| Numbers.CeilUnique | src/components/Calculator.tsx:83 | exactly one integer satisfies that bound, so the ceiling is unique |
| Numbers.CeilMonotone | src/components/Calculator.tsx:83 | the ceiling is monotone |
| Numbers.RoundHalfUp | src/components/Calculator.tsx:110-112 | the rounding inside `toFixed` lands within half a unit, upwards on a tie |
| Numbers.FixedMagnitudeWithinHalf | src/components/Calculator.tsx:110-112 | rounding a magnitude to d decimals moves it by at most half a unit in the last decimal |
| Numbers.ToFixed | src/components/Calculator.tsx:110-112 | `Number(x.toFixed(d))` is within 0.5·10⁻ᵈ of x |
| Numbers.ToFixedMonotone | src/components/Calculator.tsx:110-112 | `toFixed` never reverses the order of two values, negative ones included |
| Nearest.Closer | src/components/Calculator.tsx:76-77 | the `reduce` callback returns one of its two arguments, the nearer one, and keeps the earlier one on a tie |
| Nearest.ClosestKey | src/components/Calculator.tsx:76-78 | `reduce` without a seed returns a key of the list that no other key is nearer than |
| Nearest.FoldCloser | src/components/Calculator.tsx:76-78 | the `reduce` returns its seed or a later key, and no key in the list is nearer to the target than the result |
| Nearest.FoldPrefersLower | src/components/Calculator.tsx:76-78 | over ascending keys, the strict `<` keeps the lowest of the equally near keys |
| Nearest.ClosestKeyIsClosest | src/components/Calculator.tsx:75-78 | reducing sorted keys yields the nearest key, the lower on a tie |
| Nearest.Insert | src/components/Calculator.tsx:75 | inserting a new key into an ascending list keeps it strictly ascending, with exactly one more element |
| Nearest.SortAscending | src/components/Calculator.tsx:75 | `.sort((a, b) => a - b)` on distinct keys gives a strictly ascending list of the same length with the same keys |
| Nearest.NearestKey | src/components/Calculator.tsx:75-78 | the selected key is in the row, no key is nearer, and no equally near key is lower |
| Nearest.ClosestIsUnique | src/components/Calculator.tsx:76-78 | at most one key satisfies that characterisation |
| Nearest.NearestKeyCharacterized | src/components/Calculator.tsx:75-78 | a key is the one selected if and only if it satisfies the characterisation |
| Nearest.NearestOfKeyIsKey | src/components/Calculator.tsx:75-78 | requesting a purity that is itself a key selects that key |
| Nearest.NearestKeyMonotone | src/components/Calculator.tsx:75-78 | a higher purity request never selects a lower key |
| Nearest.KeyOrderIrrelevant | src/components/Calculator.tsx:75-78 | any two listings of the same distinct keys select the same key, so the order `Object.keys` uses does not matter |
| Nearest.ClosestAmongMoreKeys | src/components/Calculator.tsx:75-78 | adding keys that lie higher and are no nearer leaves the selection unchanged |
| Sizing.Keys | src/components/Calculator.tsx:75 | `Object.keys(perfData).map(Number)` lists every key of the row, one per entry; the model lists them in the order written, and `KeyOrderIrrelevant` shows the order does not change the tier chosen |
| Sizing.Lookup | src/components/Calculator.tsx:80 | `perfData[closestPurity]` is a point stored under that key |
| Sizing.LookupUnique | src/components/Calculator.tsx:80 | with distinct keys, the point stored under a key is the one looked up |
| Sizing.StepsCompose | src/components/Calculator.tsx:6-47 | in a row written in increasing steps, every later entry has a larger key, more nitrogen and more air |
| Sizing.StepsOrderIndices | src/components/Calculator.tsx:6-47 | in such a row, one key is below another exactly when it comes earlier |
| Sizing.StepsGiveIncreasing | src/components/Calculator.tsx:6-47 | such a row has distinct keys, and a looser key always gives more nitrogen and more air |
| Sizing.StepsGiveValidRow | src/components/Calculator.tsx:6-47 | such a row with a positive first entry is well formed, with positive flows throughout |
| Sizing.SelectRow | src/components/Calculator.tsx:73 | the row of the requested pressure if there is one, else the 9-bar row; an existing row is never replaced, even a short one |
| Sizing.SelectedKey | src/components/Calculator.tsx:73-78 | the tier used is the nearest key of the selected row, the lower on a tie |
| Sizing.SelectedPoint | src/components/Calculator.tsx:73-80 | the module figures used are stored under that tier in that row and are positive |
| Sizing.RequiredN2Lpm | src/components/Calculator.tsx:63-69 | the required flow times 1440 min equals the production times 696 |
| Sizing.ModulesNeeded | src/components/Calculator.tsx:83 | `Math.ceil(required / n2)` modules cover the requirement, and one module fewer would not |
| Sizing.CoverBounds | src/components/Calculator.tsx:83 | the ceiling of required/n2 brackets the requirement between m − 1 and m modules |
| Sizing.CompressorPowerKW | src/components/Calculator.tsx:94 | compressor power times 28.3 equals air flow times 0.35 |
| Sizing.CryoPowerKW | src/components/Calculator.tsx:97-100 | cryocooler power is 5/36 kW per L/day at 15 % of Carnot |
| Sizing.CoolingLoadW | src/components/Calculator.tsx:105-108 | the cooling load is 4.0299 W per L/day |
| Sizing.BankAir | src/components/Calculator.tsx:84 | for positive per-module air, the bank's air is positive exactly when there are modules |
| Sizing.ProductSign | src/components/Calculator.tsx:84 | the sign step behind `BankAir`: m·x > 0 exactly when m > 0, for x > 0 |
| Sizing.Size | src/components/Calculator.tsx:83-108 | given the module figures: fewest covering modules, air = modules × air, power·566 = air·7 + production·566·5/36, cooling = 4.0299 × production |
| Sizing.Compute | src/components/Calculator.tsx:61-108 | the exact sizing for a table and inputs satisfies those facts for the selected figures |
| Sizing.Publish | src/components/Calculator.tsx:110-113 | the stored record keeps the module count and is within 0.005 kW and 0.05 L/min or W of the exact values |
| Sizing.Published | src/components/Calculator.tsx:61-114 | the stored module count is the fewest covering modules, and the stored values are within the `toFixed` bounds |
| Sizing.UnknownPressureFallsBack | src/components/Calculator.tsx:73 | a pressure without a row sizes and publishes exactly as 9 bar |
| Sizing.FewestCoveringSign | src/components/Calculator.tsx:83 | for a requirement of at least zero, the count is at least zero, and positive exactly when something is required |
| Sizing.FewestCoveringGrows | src/components/Calculator.tsx:83 | a larger requirement never needs fewer modules |
| Sizing.FewestCoveringShrinks | src/components/Calculator.tsx:83 | modules with more output never need to be more numerous |
| Sizing.CountsShrink | src/components/Calculator.tsx:83 | the real-number step behind the previous row |
| Sizing.BankAirGrows | src/components/Calculator.tsx:84 | more modules draw at least as much air |
| Sizing.ModulesPositiveIff | src/components/Calculator.tsx:68-83 | a non-negative production needs at least zero modules, and at least one exactly when it is positive |
| Sizing.MonotoneInProduction | src/components/Calculator.tsx:61-108 | more production never needs fewer modules, less air, less power or less cooling |
| Sizing.LooserPurityNeedsNoMoreModules | src/components/Calculator.tsx:73-83 | in an increasing row, a looser purity request never needs more modules |
| Sizing.CoolingIgnoresPurityAndPressure | src/components/Calculator.tsx:105-108 | the cooling load does not depend on purity or pressure |
| Sizing.CoolingAdditive | src/components/Calculator.tsx:105-108 | the cooling load is additive in production |
| Sizing.PublishMonotone | src/components/Calculator.tsx:110-113 | publishing keeps the order of two exact sizings field by field |
| Calculator.FullKeysDistinct | src/components/Calculator.tsx:7-14 | the six purity tiers are distinct |
| Calculator.Row5Valid | src/components/Calculator.tsx:7-14 | the 5-bar row has tiers 0.5–5 %, positive flows, and flows increasing with the tier |
| Calculator.Row7Valid | src/components/Calculator.tsx:15-30 | the 7-bar row, with its single entry, is well formed |
| Calculator.Row9Valid | src/components/Calculator.tsx:31-38 | the 9-bar row has the six tiers and increases |
| Calculator.Row11Valid | src/components/Calculator.tsx:39-46 | the 11-bar row has the six tiers and increases |
| Calculator.TableRowFacts | src/components/Calculator.tsx:6-47 | every row of the table is well formed and increasing |
| Calculator.TableFacts | src/components/Calculator.tsx:6-47 | the table has its 9-bar fallback, and every row is well formed and increasing |
| Calculator.MembraneData | src/components/Calculator.tsx:6-47 | `MEMBRANE_DATA` is a valid table |
| Calculator.RowsIncrease | src/components/Calculator.tsx:6-47 | in every row, nitrogen output and air use grow with the purity key |
| Calculator.CalculateSpecs | src/components/Calculator.tsx:61-114 | the stored module count is the fewest covering modules of the selected tier, and the stored power, air and cooling are within rounding of the exact sizing |
| Calculator.NoRowAt | src/components/Calculator.tsx:6-47 | the table has rows at 5, 7, 9 and 11 bar only |
| Calculator.UnknownPressureUsesNineBar | src/components/Calculator.tsx:73 | any pressure other than 5, 7, 9 and 11 bar shows the 9-bar sizing |
| Calculator.PressureButtonsResolve | src/components/Calculator.tsx:197-200 | the buttons 5, 9 and 11 have rows, and 13 bar shows the 9-bar sizing |
| Calculator.RowAt | src/components/Calculator.tsx:73 | a pressure with a row uses that row |
| Calculator.Row5Keys | src/components/Calculator.tsx:73-75 | at 5 bar the keys are the six tiers |
| Calculator.Row9Keys | src/components/Calculator.tsx:73-75 | at 9 bar the keys are the six tiers |
| Calculator.Row11Keys | src/components/Calculator.tsx:73-75 | at 11 bar the keys are the six tiers |
| Calculator.FullRowKeys | src/components/Calculator.tsx:73-75 | at 5, 9 and 11 bar the keys are the six tiers |
| Calculator.TierRequestSelectsItself | src/components/Calculator.tsx:73-78 | at 5, 9 or 11 bar, requesting a tier selects that tier |
| Calculator.ObjectKeyOrderHasFullKeys | src/components/Calculator.tsx:75 | the JavaScript key order 1, 2, 3, 4, 5, 0.5 lists the six tiers, each once |
| Calculator.ObjectKeyOrderSelectsSameTier | src/components/Calculator.tsx:75-78 | at 5, 9 and 11 bar, the nearest key in that order is the tier the model selects |
| Calculator.PurityButtonsAreTiers | src/components/Calculator.tsx:172-175 | every purity button is a tier of the full rows |
| Calculator.OneIsNearestToOneAndAHalf | src/components/Calculator.tsx:76-78 | among the six tiers, 1 % is the characterised choice for 1.5 % |
| Calculator.TieGoesToLowerTier | src/components/Calculator.tsx:76-78 | 1.5 %, halfway between two tiers, is sized with the purer 1 % tier |
| Calculator.SevenBarIgnoresPurity | src/components/Calculator.tsx:15-30 | at 7 bar every purity request uses the single 0.5 % entry (2.68, 19.60) |
| Calculator.AtLeastOneModule | src/components/Calculator.tsx:152-155 | any production on the slider (≥ 1 L/day) shows at least one module |
| Calculator.MonotoneInProductionAsShown | src/components/Calculator.tsx:61-114 | a larger production never shows fewer modules, or less air, power or cooling |
| Calculator.LooserPurityNoMoreModules | src/components/Calculator.tsx:61-114 | a looser purity request never shows more modules |
| Calculator.TwoModulesOfThreePointSevenTwo | src/components/Calculator.tsx:83 | 29/6 L/min on 3.72 L/min modules needs exactly two |
| Calculator.PowerShownAsOnePointEightTwo | src/components/Calculator.tsx:110 | the exact power for 34.74 L/min of air and 10 L/day is stored as 1.82 |
| Calculator.AirShownAsThirtyFourPointSeven | src/components/Calculator.tsx:111 | 34.74 L/min is stored as 34.7 |
| Calculator.CoolingShownAsFortyPointThree | src/components/Calculator.tsx:112 | 40.299 W is stored as 40.3 |
| Calculator.HalfPercentAtNineBar | src/components/Calculator.tsx:32 | 0.5 % at 9 bar uses (3.72, 17.37) |
| Calculator.TenLitresAtNineBarExact | src/components/Calculator.tsx:61-108 | 10 L/day at 0.5 % and 9 bar: 29/6 L/min required, 2 modules, 34.74 L/min of air, 40.299 W |
| Calculator.TenLitresAtNineBarShown | src/components/Calculator.tsx:61-114 | the panel stores 1.82 kW, 34.7 L/min, 2 modules and 40.3 W for that case |
| FlowDiagram.Row5Valid | src/components/FlowDiagram.tsx:20-25 | the 5-bar row has the four button tiers and increases |
| FlowDiagram.Row9Valid | src/components/FlowDiagram.tsx:26-31 | the 9-bar row has the four button tiers and increases |
| FlowDiagram.Row11Valid | src/components/FlowDiagram.tsx:32-37 | the 11-bar row has the four button tiers and increases |
| FlowDiagram.TableFacts | src/components/FlowDiagram.tsx:19-38 | the table has its 9-bar fallback, and every row is well formed and increasing |
| FlowDiagram.MembraneData | src/components/FlowDiagram.tsx:19-38 | this component's `MEMBRANE_DATA` is a valid table |
| FlowDiagram.RowsIncrease | src/components/FlowDiagram.tsx:19-38 | in every row, flows grow with the purity key |
| FlowDiagram.CalculateSpecs | src/components/FlowDiagram.tsx:209-241 | the stored module count is the fewest covering modules, and the stored values are within rounding of the exact sizing |
| FlowDiagram.PressureButtonsHaveRows | src/components/FlowDiagram.tsx:128 | every pressure button has a row |
| FlowDiagram.UnknownPressureUsesNineBar | src/components/FlowDiagram.tsx:215 | any other pressure, 7 bar included, shows the 9-bar sizing |
| FlowDiagram.SelectedRow | src/components/FlowDiagram.tsx:215 | the row used is the 5- or 11-bar row for those pressures, and the 9-bar row otherwise |
| FlowDiagram.SelectedRowKeys | src/components/FlowDiagram.tsx:215-216 | whatever the pressure, the keys are the four button tiers |
| FlowDiagram.PurityButtonSelectsItself | src/components/FlowDiagram.tsx:106 | each purity button selects its own tier at every pressure |
| FlowDiagram.CalculatorRow | src/components/Calculator.tsx:73 | outside 7 bar, the calculator uses its 5-, 11- or 9-bar row |
| FlowDiagram.ExtendedKeys | src/components/Calculator.tsx:7-14 | the calculator's tiers are the diagram's four tiers, then 4 and 5 % |
| FlowDiagram.Row5Corresponds | src/components/FlowDiagram.tsx:20-25 | the diagram's 5-bar row is the first four entries of the calculator's |
| FlowDiagram.Row9Corresponds | src/components/FlowDiagram.tsx:26-31 | the diagram's 9-bar row is the first four entries of the calculator's |
| FlowDiagram.Row11Corresponds | src/components/FlowDiagram.tsx:32-37 | the diagram's 11-bar row is the first four entries of the calculator's |
| FlowDiagram.RowsCorrespond | src/components/FlowDiagram.tsx:19-38 | outside 7 bar, the diagram's row is the calculator's row without its 4 % and 5 % tiers |
| FlowDiagram.ExtraTiersNoNearer | src/components/FlowDiagram.tsx:216-219 | up to 3.5 %, the 4 % and 5 % tiers are never nearer than the tier already chosen |
| FlowDiagram.SameTierAsCalculator | src/components/FlowDiagram.tsx:215-221 | up to 3.5 % and outside 7 bar, both components choose the same tier and the same module figures |
| FlowDiagram.AgreesWithCalculator | src/components/FlowDiagram.tsx:209-241 | under the same conditions, both components store the same record |
| FlowDiagram.LooserPurityNoMoreModules | src/components/FlowDiagram.tsx:209-241 | a looser purity request never shows more modules |
| FlowDiagram.PowerShownPositive | src/components/FlowDiagram.tsx:92-93 | any production on the slider stores a positive total power |
| FlowDiagram.Recompute | src/components/FlowDiagram.tsx:237-240 | after `calculateSpecs`, the state keeps its inputs and holds the stored air, modules, power and cooling |
| FlowDiagram.PowerShare | src/components/FlowDiagram.tsx:276 | a positive power's share is a one-decimal value within 0.05 of power × fraction; otherwise the share shows 0 |
| FlowDiagram.SharesSplitPower | src/components/FlowDiagram.tsx:276 | a positive power is shown as a 0.6 and a 0.4 share to one decimal; the shares sum to the power, and to within 0.1 kW as shown; otherwise both show 0 |
| FlowDiagram.AirHandlingMetrics | src/components/FlowDiagram.tsx:482-486 | node 2 shows the feed air flow in LPM, the compressor's 60 % share in kW (within rounding, or 0), and the pressure in bar |
| FlowDiagram.MembraneMetrics | src/components/FlowDiagram.tsx:495-499 | node 3 shows the module count, the model MNH-1522A, and N₂ purity 100 − O₂ in % |
| FlowDiagram.ColdStageMetrics | src/components/FlowDiagram.tsx:524-528 | node 6 shows the cooling load in W, the cryocooler's 40 % share in kW (within rounding, or 0), and 15 % Carnot efficiency |
| FlowDiagram.OutputMetrics | src/components/FlowDiagram.tsx:537-541 | node 7 shows the production in L/day, the total power in kW, and the text 77 K |
| FlowDiagram.RefreshNode | src/components/FlowDiagram.tsx:465-546 | node 1 gets the inputs, nodes 2, 3, 6 and 7 get fresh metrics, and every other node is unchanged; no id, type or position changes |
| FlowDiagram.RefreshNodes | src/components/FlowDiagram.tsx:464-547 | the refresh maps every node in place, keeping length and order |
| FlowDiagram.RefreshKeepsLayout | src/components/FlowDiagram.tsx:464-547 | ids, types, positions, titles, colours, items and spec tables all survive the refresh |
| FlowDiagram.RefreshTouchesOnlyItsFields | src/components/FlowDiagram.tsx:465-546 | metrics change only on nodes 2, 3, 6 and 7, and inputs only on node 1 |
| FlowDiagram.RefreshTwice | src/components/FlowDiagram.tsx:465-546 | refreshing a node twice equals refreshing it once with the later state |
| FlowDiagram.LastRefreshWins | src/components/FlowDiagram.tsx:464-547 | refreshing the list twice equals one refresh with the later state |
| FlowDiagram.RefreshIdempotent | src/components/FlowDiagram.tsx:464-547 | refreshing twice with the same state changes nothing more |
| FlowDiagram.OrDefault | src/components/FlowDiagram.tsx:103 | `x || d` gives x when it is defined and nonzero, and d when it is undefined or 0 |
| FlowDiagram.NitrogenPurityShown | src/components/FlowDiagram.tsx:103 | node 1 prints 100 − purity for a nonzero purity, and 99.5 when the purity is missing or 0 |
| FlowDiagram.NitrogenPurityIsComplement | src/components/FlowDiagram.tsx:103 | after a refresh, node 1 shows N₂ purity 100 − O₂, and the membrane node's N₂ Purity metric shows the same value |
| FlowDiagram.DiagramShowsSizing | src/components/FlowDiagram.tsx:490-546 | after a recompute, the membrane node shows the module count and the output node the total power; for a production on the slider, both power shares are positive one-decimal values |
| FlowDiagram.FirstCalculation | src/components/FlowDiagram.tsx:199-207 | the diagram starts at 10 L/day, 0.5 % and 9 bar with one module, and its first calculation stores 34.7 L/min, 2 modules, 1.82 kW and 40.3 W |
| FlowDiagram.InitialSharesAreZero | src/components/FlowDiagram.tsx:199-207 | before the first calculation, both power shares show 0 |

## Left out

- Numbers.ToFixed: it works on exact reals. It does not model IEEE-754
  doubles or the decimal string `toFixed` builds from a double, including
  the exponent form for |x| ≥ 10²¹. Its contract is therefore the
  half-unit bound rather than bit-exact agreement with a browser.
- Nearest.SortAscending: it states the result as strictly ascending, of the
  same length and with the same members. With distinct keys that makes it a
  permutation, but no multiset equality is stated.
- The React machinery is not modelled: `useState`, `useEffect`,
  `useCallback`, re-rendering, and the event handlers of the slider and
  buttons. The inputs of `calculateSpecs` and of the refresh become
  function parameters.
- The calculator's own initial state is not modelled. Its purity starts at
  3.0 %, its power, air flow and cooling at 0, and its module count at 1.
- The static `initialNodes` and `initialEdges` markup is not modelled. The
  refresh works on whatever node list it is given.
- Node icons and the `onChange` callbacks are not modelled.
- JSX rendering, styling and the other components of the repository are
  not modelled. They are not part of this model.
- Metric values are kept as numbers, `toFixed` results or text, rather than
  as rendered strings.
