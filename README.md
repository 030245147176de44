# Raster drainage engine of the SEXTANTE hydrology algorithms, in Dafny

This project models the hydrology algorithms that the `clj-span` repository
ships as Java: each one treats a digital elevation model (DEM) as an implicit
directed graph. A cell drains into one neighbour (D8), or it splits its flow
among several neighbours (Rho8, D-infinity, MFD). The algorithms walk that
graph with in-place raster updates:

- memoised upslope recursions: flow accumulation, Strahler order, mean and
  maximum value uphill, upslope areas, basin labelling;
- a wavefront: the distance to the channel network;
- marking rules: channel heads, watershed outlets, exclusion areas;
- an iterative relaxation: sink filling.

Two small series classes, `Hydrograph` and `Hyetograph`, hold one value per
time interval.

Conventions of the model:

- **Input rasters are values.** `Grid.Layer<T>` is an `nx` by `ny` window, a
  cell function and a no-data value. As in the host wrapper, a read outside
  the window gives no-data.
- **Rasters written in place are arrays.** They are `array2` (an `array3` for
  the eight flow layers). Each algorithm is a method over those arrays. Where
  the Java is a recursive memoised walk, the method recurses too. It is proved
  against a ghost function that defines the value the walk computes.
- **Direction to the next downslope cell.** This host primitive is
  `Grid.Dir`: -1, or the direction of a valid, strictly lower neighbour. The
  direction is `(i + 4) % 8` from a neighbour back to the cell. Recursions
  over draining neighbours terminate on `Grid.Height`, the number of valid
  cells strictly higher than the cell. The Java has no such measure, and
  `writeCell` and `writeTimeOut` have no memo check; the elevation drop is
  what ends them.
- **Numbers.** Doubles are exact `real`s. Java's `(int)` cast of a double
  truncates toward zero (`Grid.Trunc`). Java's `%` on doubles keeps the sign
  of the dividend (`Grid.FMod`). The integer division of the series classes
  is `Series.TruncDiv`.
- **Sorting.** `Arrays.sort` of grid cells is a stable sort by value
  (`Cells.Sort`, an insertion sort).
- **Host inputs become parameters.** Aspect, slope, the MFD slope weights
  (`Math.pow`), `Math.random`, the neighbour distances and the cancellation
  flag are all parameters of the model.

Every file is one module, and most follow one Java class:

| module | Java class |
|---|---|
| `Grid`, `Drainage`, `Cells`, `Series` | shared host primitives, drainage sets, grid-cell sort, series arithmetic |
| `AccFlow` | `AccFlowAlgorithm` |
| `FillSinks` | `FillSinksAlgorithm` |
| `ChannelNetwork`, `ChannelLines` | `ChannelNetworkAlgorithm` (raster part; polyline part) |
| `StrahlerOrder` | `StrahlerOrderAlgorithm` |
| `WatershedDirections`, `WatershedOutlets`, `WatershedBasins`, `Watersheds` | `WatershedsAlgorithm` |
| `WatershedsBySize` | `WatershedsBySizeAlgorithm` |
| `DistToChannelNetwork` | `DistToChannelNetworkAlgorithm` |
| `Isocrones` | `IsocronesAlgorithm` |
| `UpslopeAreaFromArea` | `UpslopeAreaFromAreaAlgorithm` |
| `UpslopeAreaFromPoint` | `UpslopeAreaFromPointAlgorithm` |
| `MeanValueUphill` | `MeanValueUphillAlgorithm` |
| `MaxValueUphill` | `MaxValueUphillAlgorithm` |
| `CellBalance` | `CellBalanceAlgorithm` |
| `SlopeLength` | `SlopeLengthAlgorithm` |
| `ExclusionAreas` | `CreateExclusionAreasAlgorithm` |
| `Hydrographs` | `Hydrograph` |
| `Hyetographs` | `Hyetograph` |

## Model

| member | source | states |
|---|---|---|
| Grid.OppositeNeighbour | resources/debug_files/hydrology/strahlerOrder/StrahlerOrderAlgorithm.java:90-94 | stepping to neighbour `i` and then in direction `(i + 4) % 8` returns to the cell, and no neighbour is the cell itself |
| Grid.Dist | resources/debug_files/hydrology/accFlow/AccFlowAlgorithm.java:266 | the host's distance to a neighbour is positive |
| Grid.Dir | resources/debug_files/hydrology/accFlow/AccFlowAlgorithm.java:198 | the direction to the next downslope cell (default overload) is -1 or a direction in 0..7, and a direction leads from a valid cell to a valid, strictly lower neighbour |
| Grid.Inner | resources/hydrology/watersheds/WatershedsAlgorithm.java:120 | the same elevation model seen through the overload called with `false`: its direction is the host's answer for that overload, under the same contract, so it may be -1 at any cell |
| Grid.DirDescends | resources/debug_files/hydrology/strahlerOrder/StrahlerOrderAlgorithm.java:93-95 | following the downslope direction reaches a cell with fewer valid cells above it, which is what ends every upslope recursion |
| Drainage.DrainsUphill | resources/debug_files/hydrology/strahlerOrder/StrahlerOrderAlgorithm.java:93-95 | a neighbour whose direction points back at `c` is valid, strictly higher than `c`, and `c` is valid |
| Drainage.ReachesTrans | resources/debug_files/hydrology/upslopeAreaFromPoint/UpslopeAreaFromPointAlgorithm.java:97-104 | flow paths compose: a path from `a` to `b` and one from `b` to `c` make one from `a` to `c` |
| Drainage.ReachesDescends | resources/debug_files/hydrology/upslopeAreaFromPoint/UpslopeAreaFromPointAlgorithm.java:97-104 | every cell further down a flow path is valid and strictly lower |
| Drainage.ReachesLinear | resources/debug_files/hydrology/upslopeAreaFromPoint/UpslopeAreaFromPointAlgorithm.java:97-104 | two cells on the D8 path of one cell lie one after the other on that path |
| Drainage.DrainersDisjoint | resources/debug_files/hydrology/strahlerOrder/StrahlerOrderAlgorithm.java:90-104 | the upslope areas of two different neighbours draining into `c` share no cell |
| Drainage.InUpslope | resources/debug_files/hydrology/upslopeAreaFromPoint/UpslopeAreaFromPointAlgorithm.java:97-104 | the upslope area of `c` holds exactly the window cells whose flow path passes through `c` |
| Drainage.UpslopeSplit | resources/debug_files/hydrology/strahlerOrder/StrahlerOrderAlgorithm.java:90-104 | the upslope area of `c` is `c` plus the upslope areas of its draining neighbours, and `c` is in none of those |
| Drainage.UpCountIsUpslopeCount | resources/debug_files/hydrology/accFlow/AccFlowAlgorithm.java:170-186 | the recursive count over draining neighbours is the number of upslope cells satisfying the predicate (flow conservation on D8) |
| Cells.Insert | resources/debug_files/hydrology/slopeLength/SlopeLengthAlgorithm.java:167 | inserting a cell into a list sorted by value keeps it sorted, adds exactly that cell and brings in nothing else |
| Cells.Sort | resources/debug_files/hydrology/slopeLength/SlopeLengthAlgorithm.java:167 | sorting by value returns a list sorted by value that is a permutation of its input and is stable: the entries of every value keep their order |
| Cells.InsertStable | resources/debug_files/hydrology/slopeLength/SlopeLengthAlgorithm.java:167 | insertion puts the new cell in front of every entry with the same value and keeps their order |
| Cells.IndexOf | resources/debug_files/hydrology/channelNetwork/ChannelNetworkAlgorithm.java:324 | the search gives the first index holding the cell, or -1 exactly when no entry holds it |
| Series.TruncDiv | resources/debug_files/hydrology/modelling/Hydrograph.java:30 | the double quotient cast to `int` is the integer quotient truncated toward zero, with its two bounds for either sign of the dividend |
| Series.TruncDivMultiple | resources/debug_files/hydrology/modelling/Hydrograph.java:143 | a time that is a whole number of intervals maps back to that number of intervals |
| Series.SumAppend | resources/debug_files/hydrology/modelling/Hydrograph.java:44-71 | the sum of two joined series is the sum of their sums |
| Series.ShiftedAt | resources/debug_files/hydrology/modelling/Hydrograph.java:27-41 | a series delayed by `k` intervals starts with `k` zeros and holds entry `j` at `j + k` |
| Series.ShiftedSum | resources/debug_files/hydrology/modelling/Hydrograph.java:27-41 | delaying a series keeps its total |
| Series.ScaledSum | resources/debug_files/hydrology/modelling/Hydrograph.java:228-234 | multiplying every entry by `f` multiplies the total by `f` |
| AccFlow.DoD8 | resources/debug_files/hydrology/accFlow/AccFlowAlgorithm.java:193-204 | layer `dir` of the cell becomes 1, nothing changes when there is no direction, and every other entry is kept |
| AccFlow.DoRho8 | resources/debug_files/hydrology/accFlow/AccFlowAlgorithm.java:207-227 | for an aspect >= 0, the layer of the sector (moved to the next sector when the remainder fraction beats the random draw, modulo 8) becomes 1; nothing else changes |
| AccFlow.DoDInf | resources/debug_files/hydrology/accFlow/AccFlowAlgorithm.java:230-246 | for an aspect >= 0, the sector's layer gets `1 - f` and the next sector's layer gets the remainder fraction `f` of the aspect within its 45-degree sector; nothing else changes |
| AccFlow.CollectMfd | resources/debug_files/hydrology/accFlow/AccFlowAlgorithm.java:256-271 | each valid, strictly lower neighbour's layer gets its slope weight, and the returned total is the sum of those weights |
| AccFlow.DivideCell | resources/debug_files/hydrology/accFlow/AccFlowAlgorithm.java:273-280 | every positive entry of the cell is divided by the total; every other entry is kept |
| AccFlow.DoMfd | resources/debug_files/hydrology/accFlow/AccFlowAlgorithm.java:249-282 | the cell's eight layers become the weights over their total when the total is positive, or the bare weights when it is not; other cells are kept |
| AccFlow.FlowsAt | resources/debug_files/hydrology/accFlow/AccFlowAlgorithm.java:117-130 | the switch on the method writes exactly the chosen method's shares for that cell |
| AccFlow.CalculateFlows | resources/debug_files/hydrology/accFlow/AccFlowAlgorithm.java:111-134 | starting from zero layers, every cell's eight layers hold the shares the chosen method defines |
| AccFlow.D8SharesSum | resources/debug_files/hydrology/accFlow/AccFlowAlgorithm.java:193-204 | the D8 shares of a cell add up to 1 when it has a direction, and to 0 otherwise |
| AccFlow.DInfSharesSum | resources/debug_files/hydrology/accFlow/AccFlowAlgorithm.java:230-246 | the D-infinity shares of a cell with an aspect add up to 1 |
| AccFlow.MfdSharesSum | resources/debug_files/hydrology/accFlow/AccFlowAlgorithm.java:249-282 | a cell with a lower valid neighbour has a positive weight total and its MFD shares add up to 1 |
| AccFlow.D8Downhill | resources/debug_files/hydrology/accFlow/AccFlowAlgorithm.java:193-204 | D8 layers send flow only to a valid, strictly lower neighbour |
| AccFlow.MfdDownhill | resources/debug_files/hydrology/accFlow/AccFlowAlgorithm.java:259-271 | MFD layers send flow only to a valid, strictly lower neighbour |
| AccFlow.InflowUphill | resources/debug_files/hydrology/accFlow/AccFlowAlgorithm.java:173-180 | with downhill layers, a neighbour that sends `c` flow is strictly higher, so `getFlow`'s recursion ends |
| AccFlow.GetFlow | resources/debug_files/hydrology/accFlow/AccFlowAlgorithm.java:151-190 | afterwards the cell holds its accumulated flow (its weight plus each sending neighbour's accumulated flow times its share), cells already done keep their values, and other cells are either untouched or done |
| AccFlow.AddInflow | resources/debug_files/hydrology/accFlow/AccFlowAlgorithm.java:173-185 | one pass of the neighbour loop adds exactly neighbour `i`'s contribution to the cell and leaves every other cell untouched or done |
| AccFlow.AccStep | resources/debug_files/hydrology/accFlow/AccFlowAlgorithm.java:142-144 | one call of `getFlow` in the scan keeps every written cell correct and extends the done prefix by one cell |
| AccFlow.CalculateAccFlows | resources/debug_files/hydrology/accFlow/AccFlowAlgorithm.java:137-148 | starting from -1 everywhere, every cell ends with its accumulated flow |
| AccFlow.Multiply | resources/debug_files/hydrology/accFlow/AccFlowAlgorithm.java:78 | every cell is scaled by the factor, the no-data cells included |
| AccFlow.FlowAccumulation | resources/debug_files/hydrology/accFlow/AccFlowAlgorithm.java:43-82 | the output raster is fresh and every cell holds its accumulated flow over the chosen method's layers, times the cell area |
| AccFlow.D8CountsUpslope | resources/debug_files/hydrology/accFlow/AccFlowAlgorithm.java:151-204 | with D8 layers and no weights, the accumulated flow of a valid cell is the number of cells in its upslope area |
| CellBalance.DirTo | resources/hydrology/cellBalance/CellBalanceAlgorithm.java:138-140 | the direction from `s` to a neighbour `a`, which is the only direction leading there, or -1 when `a` is not a neighbour |
| CellBalance.AddTo | resources/hydrology/cellBalance/CellBalanceAlgorithm.java:140 | the host's `addToCellValue` adds to the one cell in the window and changes nothing else; a write off the window is ignored |
| CellBalance.DoD8 | resources/hydrology/cellBalance/CellBalanceAlgorithm.java:127-144 | a cell with a weight and a direction adds its weight to its D8 neighbour; nothing else changes |
| CellBalance.DoDInf | resources/hydrology/cellBalance/CellBalanceAlgorithm.java:147-175 | a cell with a weight and an aspect adds `weight * (1 - f)` to the sector's neighbour and `weight * f` to the next one; nothing else changes |
| CellBalance.DInfGivenIsShare | resources/hydrology/cellBalance/CellBalanceAlgorithm.java:160-171 | what `doDInf` adds to a neighbour is the weight times that neighbour's D-infinity share |
| CellBalance.SlopeWeights | resources/hydrology/cellBalance/CellBalanceAlgorithm.java:189-201 | a fresh array holding the slope weight towards every lower valid neighbour (zero elsewhere), and their total |
| CellBalance.DoMfd | resources/hydrology/cellBalance/CellBalanceAlgorithm.java:178-213 | a cell with a weight adds to each neighbour the weight times that neighbour's MFD share; nothing else changes |
| CellBalance.InflowsAt | resources/hydrology/cellBalance/CellBalanceAlgorithm.java:90-100 | the switch on the method adds exactly the chosen method's gifts of one cell; an unknown method adds nothing |
| CellBalance.ScanCell | resources/hydrology/cellBalance/CellBalanceAlgorithm.java:88-102 | processing one more cell of the row-order scan adds its gifts to every cell |
| CellBalance.InflowsRow | resources/hydrology/cellBalance/CellBalanceAlgorithm.java:89-101 | one row of the scan adds the gifts of every cell of that row |
| CellBalance.CalculateInFlows | resources/hydrology/cellBalance/CellBalanceAlgorithm.java:84-104 | starting from zero, every cell ends with the sum of the gifts it receives from its neighbours |
| CellBalance.SubtractOutFlows | resources/hydrology/cellBalance/CellBalanceAlgorithm.java:107-124 | each cell with a weight loses that weight; a cell without one becomes no-data |
| CellBalance.NetBalance | resources/hydrology/cellBalance/CellBalanceAlgorithm.java:38-56 | the fresh output holds, per cell, the inflow minus the cell's own weight, or no-data where the weight is no-data |
| CellBalance.D8ReceivesFromDrainers | resources/hydrology/cellBalance/CellBalanceAlgorithm.java:127-144 | with D8 a cell receives from neighbour `j` exactly that neighbour's weight when it drains into the cell, and nothing otherwise |
| CellBalance.OutflowConserved | resources/hydrology/cellBalance/CellBalanceAlgorithm.java:127-213 | a cell with a weight and somewhere to send flow (a D8 direction, an aspect, a lower neighbour for MFD) gives out exactly its weight, so its own outflow balances it |
| ChannelNetwork.HeaderAt | resources/debug_files/hydrology/channelNetwork/ChannelNetworkAlgorithm.java:139-160 | the per-cell test of `getHeaders` (leaving the neighbour loop at the first blocking neighbour) answers exactly whether the cell is a head: it meets the criterion, has an elevation, and no neighbour that meets the criterion is as high or higher |
| ChannelNetwork.GetHeaders | resources/debug_files/hydrology/channelNetwork/ChannelNetworkAlgorithm.java:127-172 | the list is the heads of the window in row order |
| ChannelNetwork.HeadersExact | resources/debug_files/hydrology/channelNetwork/ChannelNetworkAlgorithm.java:137-163 | an entry is in the list exactly when it is a head of the window carrying its own elevation |
| ChannelNetwork.HeadersInWindow | resources/debug_files/hydrology/channelNetwork/ChannelNetworkAlgorithm.java:137-163 | every listed head lies in the window |
| ChannelNetwork.HeadersDistinct | resources/debug_files/hydrology/channelNetwork/ChannelNetworkAlgorithm.java:137-163 | no cell is listed twice |
| ChannelNetwork.TraceChannel | resources/debug_files/hydrology/channelNetwork/ChannelNetworkAlgorithm.java:189-211 | the cells on the D8 path from the head, down to the first cell without a direction, become -1; every other cell is kept |
| ChannelNetwork.TraceStep | resources/debug_files/hydrology/channelNetwork/ChannelNetworkAlgorithm.java:198-208 | one step down the path stays on it, strictly descends, and leaves exactly the current cell behind |
| ChannelNetwork.TraceAll | resources/debug_files/hydrology/channelNetwork/ChannelNetworkAlgorithm.java:112-116 | after tracing every head, exactly the cells on some head's path are -1 and every other cell is kept |
| ChannelNetwork.ChannelClosed | resources/debug_files/hydrology/channelNetwork/ChannelNetworkAlgorithm.java:189-211 | the network is closed downstream: the path out of a network cell stays on the network |
| ChannelNetwork.FeedsOn | resources/debug_files/hydrology/channelNetwork/ChannelNetworkAlgorithm.java:245-246 | a feeding neighbour is one that drains into the cell and lies on the network |
| ChannelNetwork.ChOrderPositive | resources/debug_files/hydrology/channelNetwork/ChannelNetworkAlgorithm.java:229-276 | every network cell has order at least 1, every other cell order 0 |
| ChannelNetwork.ChOrderMonotone | resources/debug_files/hydrology/channelNetwork/ChannelNetworkAlgorithm.java:246-264 | the order never decreases downstream along the network |
| ChannelNetwork.ChSource | resources/debug_files/hydrology/channelNetwork/ChannelNetworkAlgorithm.java:235-270 | a network cell fed by no network cell has order 1 and is not a junction |
| ChannelNetwork.ChMaxBound | resources/debug_files/hydrology/channelNetwork/ChannelNetworkAlgorithm.java:252-258 | the running maximum of `getStrahlerOrder` is at least the order of every feeding neighbour seen so far |
| ChannelNetwork.ChCountAbove | resources/debug_files/hydrology/channelNetwork/ChannelNetworkAlgorithm.java:252-255 | an order above the running maximum has not been counted yet, so a new maximum starts its count at 1 |
| ChannelNetwork.TopOfBound | resources/debug_files/hydrology/channelNetwork/ChannelNetworkAlgorithm.java:252-258 | every entry counted is at most the maximum |
| ChannelNetwork.GetChOrder | resources/debug_files/hydrology/channelNetwork/ChannelNetworkAlgorithm.java:229-276 | a pending network cell ends with its order, which is returned; cells already settled keep their values and the junction list only grows, each junction once |
| ChannelNetwork.Visit | resources/debug_files/hydrology/channelNetwork/ChannelNetworkAlgorithm.java:243-259 | one neighbour of the loop advances the maximum, the count of cells at the maximum and the count of feeding cells by exactly that neighbour's contribution |
| ChannelNetwork.Gather | resources/debug_files/hydrology/channelNetwork/ChannelNetworkAlgorithm.java:242-264 | after the neighbour loop and the confluence rule, the order is the cell's Strahler order and the feeder count is the number of feeding network cells |
| ChannelNetwork.Settle | resources/debug_files/hydrology/channelNetwork/ChannelNetworkAlgorithm.java:266-270 | a junction is appended with its elevation, then the order is stored at the cell and nowhere else |
| ChannelNetwork.ScanCell | resources/debug_files/hydrology/channelNetwork/ChannelNetworkAlgorithm.java:221-223 | after the scan passes a cell, every network cell before it is settled |
| ChannelNetwork.ScanRow | resources/debug_files/hydrology/channelNetwork/ChannelNetworkAlgorithm.java:220-224 | after a row, every network cell of the rows so far is settled |
| ChannelNetwork.ScanOrders | resources/debug_files/hydrology/channelNetwork/ChannelNetworkAlgorithm.java:214-226 | from the traced network (-1 on it, 0 off it), every cell ends with its Strahler order within the network and the list gains every junction exactly once, with its elevation |
| ChannelLines.WalkFrom | resources/debug_files/hydrology/channelNetwork/ChannelNetworkAlgorithm.java:315-336 | the walk takes no step exactly when the start has no direction, and then names no downslope index |
| ChannelLines.WalkFollowsFlow | resources/debug_files/hydrology/channelNetwork/ChannelNetworkAlgorithm.java:316-329 | every step of a feature follows the downslope direction of the cell it leaves |
| ChannelLines.WalkOnFlowPath | resources/debug_files/hydrology/channelNetwork/ChannelNetworkAlgorithm.java:315-336 | every vertex of a feature lies on the D8 flow path of its start |
| ChannelLines.WalkStops | resources/debug_files/hydrology/channelNetwork/ChannelNetworkAlgorithm.java:324-333 | the walk stops at the first listed cell, naming its index, or at a cell without a direction, naming -1 |
| ChannelLines.WalkLength | resources/debug_files/hydrology/channelNetwork/ChannelNetworkAlgorithm.java:323 | the length is between the shorter and the longer neighbour distance times the number of steps |
| ChannelLines.WalkLine | resources/debug_files/hydrology/channelNetwork/ChannelNetworkAlgorithm.java:309-336 | the `do … while` walk computes the vertices, length and downslope index that define the feature |
| ChannelLines.CreateLines | resources/debug_files/hydrology/channelNetwork/ChannelNetworkAlgorithm.java:279-350 | the features are those the walk defines for the sorted list read backwards |
| ChannelLines.LinesShape | resources/debug_files/hydrology/channelNetwork/ChannelNetworkAlgorithm.java:301-349 | one feature per list entry: feature `j` starts at sorted entry `n-1-j`, has that index as its ID and the network value there as its order, is well formed, and a feature without a step repeats the previous downslope index |
| ChannelLines.LinesStartListed | resources/debug_files/hydrology/channelNetwork/ChannelNetworkAlgorithm.java:305-311 | every feature starts at a listed cell |
| ChannelLines.ListedStartLines | resources/debug_files/hydrology/channelNetwork/ChannelNetworkAlgorithm.java:305-311 | every listed cell starts a feature |
| ChannelLines.LinesDescend | resources/debug_files/hydrology/channelNetwork/ChannelNetworkAlgorithm.java:302-306 | features come highest listed elevation first |
| ChannelLines.OnChannelSorted | resources/debug_files/hydrology/channelNetwork/ChannelNetworkAlgorithm.java:108-115 | sorting the heads before tracing changes nothing: the network is the union of the heads' flow paths |
| ChannelLines.CalculateChannelNetwork | resources/debug_files/hydrology/channelNetwork/ChannelNetworkAlgorithm.java:101-124 | the fresh raster holds each cell's Strahler order within the network traced from the heads, the list is the heads followed by every junction once, and the features are those `createVectorLayer` draws, each with the order of its start cell |
| StrahlerOrder.MaxUpBound | resources/debug_files/hydrology/strahlerOrder/StrahlerOrderAlgorithm.java:94-100 | the running maximum is at least the order of every draining neighbour seen so far |
| StrahlerOrder.CountAbove | resources/debug_files/hydrology/strahlerOrder/StrahlerOrderAlgorithm.java:97-100 | an order above the running maximum has not been counted, so a new maximum restarts the count at 1 |
| StrahlerOrder.OrderPositive | resources/debug_files/hydrology/strahlerOrder/StrahlerOrderAlgorithm.java:83-111 | a valid cell has order at least 1, a no-data cell keeps 0 |
| StrahlerOrder.OrderMonotone | resources/debug_files/hydrology/strahlerOrder/StrahlerOrderAlgorithm.java:93-111 | the order never decreases downstream |
| StrahlerOrder.OrderSource | resources/debug_files/hydrology/strahlerOrder/StrahlerOrderAlgorithm.java:79-111 | a valid cell no neighbour drains into has order 1 |
| StrahlerOrder.OrderConfluence | resources/debug_files/hydrology/strahlerOrder/StrahlerOrderAlgorithm.java:97-109 | when two draining neighbours share the highest order `v`, the cell has order `v + 1` |
| StrahlerOrder.OrderContinues | resources/debug_files/hydrology/strahlerOrder/StrahlerOrderAlgorithm.java:97-109 | a single draining neighbour of the highest order passes that order on unchanged |
| StrahlerOrder.UpstreamStep | resources/debug_files/hydrology/strahlerOrder/StrahlerOrderAlgorithm.java:91-104 | one neighbour of the loop advances the maximum and the count at the maximum by exactly that neighbour's contribution; other cells stay or get their final order |
| StrahlerOrder.UpstreamMax | resources/debug_files/hydrology/strahlerOrder/StrahlerOrderAlgorithm.java:90-105 | after the loop the maximum and its count are those of all draining neighbours |
| StrahlerOrder.GetOrder | resources/debug_files/hydrology/strahlerOrder/StrahlerOrderAlgorithm.java:73-117 | a valid cell ends with its Strahler order; every other entry is unchanged or gets its final order, and only cells not above the cell change |
| StrahlerOrder.ScanStep | resources/debug_files/hydrology/strahlerOrder/StrahlerOrderAlgorithm.java:44-48 | one cell of the row-order scan keeps every written entry final and extends the done prefix by one |
| StrahlerOrder.StrahlerOrders | resources/debug_files/hydrology/strahlerOrder/StrahlerOrderAlgorithm.java:27-52 | from a zero raster every cell ends with its Strahler order (0 for no-data) |
| FillSinks.NextPos | resources/hydrology/fillSinks/FillSinksAlgorithm.java:204-219 | a move that reports more cells stays inside the grid |
| FillSinks.FrameNext | resources/hydrology/fillSinks/FillSinksAlgorithm.java:204-219 | in the frame of scan `s`, `nextCell` steps one place along the line and past its end goes to position 1 of the next line; it reports more exactly while the new position is in the frame |
| FillSinks.ScanAdvances | resources/hydrology/fillSinks/FillSinksAlgorithm.java:164-188 | one move of a scan stays on its path, strictly advances in the frame, adds the cell just left to the cells done, and when the scan leaves the grid every cell of its path is done |
| FillSinks.SkippedOnEdge | resources/hydrology/fillSinks/FillSinksAlgorithm.java:89-136 | the cells a scan skips lie on the edge of the grid |
| FillSinks.EdgeIsBorder | resources/hydrology/fillSinks/FillSinksAlgorithm.java:265-273 | a valid cell on the edge of the grid has an off-grid neighbour and is a border cell |
| FillSinks.DriedLowers | resources/hydrology/fillSinks/FillSinksAlgorithm.java:237-240 | with every elevation below the initial level, drying never raises a level |
| FillSinks.DriedStaysDry | resources/hydrology/fillSinks/FillSinksAlgorithm.java:237-240 | with every elevation below the initial level, a dried cell never becomes a drying target again |
| FillSinks.Drops | resources/hydrology/fillSinks/FillSinksAlgorithm.java:85-87 | the minimum drop towards each neighbour is the minimum slope times the distance to it |
| FillSinks.PathCovers | resources/hydrology/fillSinks/FillSinksAlgorithm.java:155-197 | a scan that settles every cell of its path settles the whole window when the border cells are at their elevation |
| FillSinks.FilledBounds | resources/hydrology/fillSinks/FillSinksAlgorithm.java:251-285 | a level reached from the initial level by drying and relaxation is no-data for a no-data cell, the elevation for a border cell, and between the elevation and the initial level for any other valid cell |
| FillSinks.SinkFiller.HasNoDataNeighbour | resources/hydrology/fillSinks/FillSinksAlgorithm.java:265-273 | true exactly when some neighbour, off the grid included, is no-data |
| FillSinks.SinkFiller.InitCell | resources/hydrology/fillSinks/FillSinksAlgorithm.java:262-281 | a valid cell gets its initial level and, when it is a border cell, border flag 1; no other cell changes |
| FillSinks.SinkFiller.InitAltitude | resources/hydrology/fillSinks/FillSinksAlgorithm.java:251-285 | every cell holds its initial level (no-data, its elevation on the border, the initial elevation inside) and the border flag is 1 exactly on border cells |
| FillSinks.SinkFiller.DryNeighbour | resources/hydrology/fillSinks/FillSinksAlgorithm.java:235-241 | a neighbour still at the initial level whose elevation reaches the cell's level plus the drop gets its elevation, and nothing else changes; from a valid cell, with every elevation below the initial level, a surface on which every cell drains still does: the dried cell drains back to the drying cell, the drops being symmetric |
| FillSinks.SinkFiller.DryStep | resources/hydrology/fillSinks/FillSinksAlgorithm.java:232-243 | one neighbour of `dryUpwardCell`'s loop: levels only dry, and a cell at its own elevation leaves that neighbour and every neighbour already dry not wet; from a valid cell it keeps every cell draining when every elevation lies below the initial level |
| FillSinks.SinkFiller.DryUpwardCell | resources/hydrology/fillSinks/FillSinksAlgorithm.java:222-248 | levels only go from the initial level to the cell's elevation; at the depth cap nothing changes; below it, from a cell at its own elevation no neighbour is left to dry; from a valid cell it keeps every cell draining when every elevation lies below the initial level |
| FillSinks.SinkFiller.BorderStep | resources/hydrology/fillSinks/FillSinksAlgorithm.java:143-146 | drying from a flagged border cell only dries levels and leaves none of its neighbours to dry; when a flag 1 marks a valid cell it keeps every cell draining |
| FillSinks.SinkFiller.DryBorders | resources/hydrology/fillSinks/FillSinksAlgorithm.java:140-149 | the first phase only dries levels, so the border cells stay at their elevation; when flags 1 mark valid cells only it keeps every cell draining |
| FillSinks.SinkFiller.NextCell | resources/hydrology/fillSinks/FillSinksAlgorithm.java:204-219 | `nextCell` moves the scan position as the scan's tables define |
| FillSinks.SinkFiller.SetLevel | resources/hydrology/fillSinks/FillSinksAlgorithm.java:175 | the level of one cell is set and nothing else changes |
| FillSinks.SinkFiller.LookAt | resources/hydrology/fillSinks/FillSinksAlgorithm.java:169-183 | one neighbour of `processCell`: when it lowers the cell, the new level lies between the elevation and the old level; when it does not, the cell's elevation and old level are both below that neighbour's level plus the drop; a lowering that does not end the turn leaves the cell draining to that neighbour, one that ends it keeps every cell draining |
| FillSinks.SinkFiller.LookAround | resources/hydrology/fillSinks/FillSinksAlgorithm.java:168-185 | the neighbour loop stops at the first neighbour that lowers the cell to its elevation; a loop that writes nothing leaves every neighbour's level plus drop above the cell's level; with every elevation below the initial level and every cell draining on entry, every cell still drains |
| FillSinks.SinkFiller.ProcessCell | resources/hydrology/fillSinks/FillSinksAlgorithm.java:165-186 | levels only relax downward toward the elevation, and a cell left unchanged is settled; with every elevation below the initial level and every cell draining on entry, every cell still drains |
| FillSinks.SinkFiller.Visit | resources/hydrology/fillSinks/FillSinksAlgorithm.java:164-188 | processes the cell and moves on; the position advances along the path, and an untouched cell joins the settled ones; with every elevation below the initial level and every cell draining on entry, every cell still drains |
| FillSinks.SinkFiller.Scan | resources/hydrology/fillSinks/FillSinksAlgorithm.java:157-188 | a scan only relaxes levels, keeps the border at its elevation, and when it changes nothing every cell of its path is settled; with every elevation below the initial level and every cell draining on entry, every cell still drains |
| FillSinks.SinkFiller.Iteration | resources/hydrology/fillSinks/FillSinksAlgorithm.java:157-193 | the eight scans stop after the first that changes nothing, and then every cell is settled; with every elevation below the initial level and every cell draining on entry, every cell still drains |
| FillSinks.SinkFiller.Relax | resources/hydrology/fillSinks/FillSinksAlgorithm.java:155-197 | at most 1000 iterations; stopping early means every cell is settled; with every elevation below the initial level and every cell draining on entry, every cell still drains |
| FillSinks.SinkFiller.constructor | resources/hydrology/fillSinks/FillSinksAlgorithm.java:70-87 | the minimum drops are the minimum slope times the neighbour distances, and the depth starts at 0 |
| FillSinks.Fill | resources/hydrology/fillSinks/FillSinksAlgorithm.java:57-201 | the result keeps no-data cells at no-data and border cells at their elevation, puts every valid cell between its elevation and the initial level when all elevations lie below it, and when the iterations converge every cell is settled; with all elevations below the initial level (and a border no-data value other than 1) every valid inner cell below the initial level drains to a valid neighbour at least the minimum drop lower; and after convergence on elevations with room for one side drop per column no valid cell is left at the initial level |
| FillSinks.DropsSymmetric | resources/hydrology/fillSinks/FillSinksAlgorithm.java:85-87 | the drop towards a neighbour equals the drop back, the distance depending only on whether the direction is diagonal |
| FillSinks.DropBack | resources/hydrology/fillSinks/FillSinksAlgorithm.java:85-87 | with symmetric drops, the drop back from neighbour `i` (direction `(i + 4) % 8`) equals the drop to it |
| FillSinks.SinkFiller.Lowered | resources/hydrology/fillSinks/FillSinksAlgorithm.java:175-180 | lowering levels keeps every cell draining when each cell that changed drains afterwards |
| FillSinks.SettledCell | resources/hydrology/fillSinks/FillSinksAlgorithm.java:167-184 | a valid cell of a settled surface with the border at its elevation is at most its elevation or at most its left neighbour's level plus the side drop |
| FillSinks.SettledBelow | resources/hydrology/fillSinks/FillSinksAlgorithm.java:155-197 | on such a surface with headroom, a valid cell in column `x` lies below the initial level by one side drop per column from it to the right edge |
| FillSinks.SettledBelowInit | resources/hydrology/fillSinks/FillSinksAlgorithm.java:155-197 | on such a surface with headroom, no valid cell is at or above the initial level |
| FillSinks.Pos | resources/hydrology/fillSinks/FillSinksAlgorithm.java:85-87 | the positive part of a drop is non-negative and at least the drop |
| FillSinks.ColumnsRoom | resources/hydrology/fillSinks/FillSinksAlgorithm.java:155-197 | arithmetic helper for `FillSinks.SettledBelow`: the room left by `nx - x` columns is between 0 and that of `nx` columns, and one more column adds one drop |
| WatershedDirections.StoredDir | resources/hydrology/watersheds/WatershedsAlgorithm.java:120-126 | the stored value is -1 exactly when the cell has no downslope direction, and otherwise the direction in which the next cell sees this one; the labeller passes `Grid.Inner(dem)`, the `false` overload |
| WatershedDirections.PrepareRow | resources/hydrology/watersheds/WatershedsAlgorithm.java:119-127 | row `y` gets the stored direction of every cell; the other rows keep their values |
| WatershedDirections.PrepareDirections | resources/hydrology/watersheds/WatershedsAlgorithm.java:113-130 | the fresh raster holds the stored direction of every window cell |
| WatershedDirections.StoredDrains | resources/hydrology/watersheds/WatershedsAlgorithm.java:183 | reading `i` in neighbour `i` of `c` means exactly that the neighbour drains into `c` |
| WatershedOutlets.InflowIsBranch | resources/hydrology/watersheds/WatershedsAlgorithm.java:183-185 | the neighbours `addOutlet` finds upslope are exactly the river cells draining into the cell |
| WatershedOutlets.JunctionShape | resources/hydrology/watersheds/WatershedsAlgorithm.java:180-200 | two or more upslope river cells give one outlet each, in direction order, the first at the junction's elevation and the others at their own; a single one gives none |
| WatershedOutlets.AddOutlet | resources/hydrology/watersheds/WatershedsAlgorithm.java:150-203 | the list is extended by exactly the outlets the rules give for that cell |
| WatershedOutlets.JunctionScan | resources/hydrology/watersheds/WatershedsAlgorithm.java:180-200 | the neighbour loop appends exactly the junction outlets of the upslope river cells |
| WatershedOutlets.RowOutlets | resources/hydrology/watersheds/WatershedsAlgorithm.java:139-141 | one row appends the outlets of its cells, in column order |
| WatershedOutlets.GetOutlets | resources/hydrology/watersheds/WatershedsAlgorithm.java:133-147 | the list is the outlets of every cell, row by row |
| WatershedOutlets.OutletsMembers | resources/hydrology/watersheds/WatershedsAlgorithm.java:133-147 | an entry is listed exactly when it is an outlet of some window cell |
| WatershedOutlets.Downstream | resources/hydrology/watersheds/WatershedsAlgorithm.java:162-163 | the cell compared with is the D8 successor, or neighbour 3 when there is no direction (the stored -1 plus 4) |
| WatershedOutlets.OutletRules | resources/hydrology/watersheds/WatershedsAlgorithm.java:166-178 | no outlet off the network; the cell itself when its downstream cell is off the network, when it is a user-defined outlet, or when it is valid without a direction |
| WatershedOutlets.JunctionSplit | resources/hydrology/watersheds/WatershedsAlgorithm.java:179-200 | at any other river cell the outlets are exactly its upslope river neighbours, one each, when there are two or more, and none otherwise |
| WatershedOutlets.JunctionElevations | resources/hydrology/watersheds/WatershedsAlgorithm.java:186-196 | at a junction the first branch is recorded with the junction's elevation and every later one with its own |
| WatershedOutlets.BranchSet | resources/hydrology/watersheds/WatershedsAlgorithm.java:180-199 | the branches `addOutlet` scans are one per upslope river neighbour |
| WatershedOutlets.AllOutletsInWindow | resources/hydrology/watersheds/WatershedsAlgorithm.java:133-203 | every listed outlet is a window river cell |
| WatershedBasins.GetBasin | resources/hydrology/watersheds/WatershedsAlgorithm.java:206-228 | exactly the cells of the upslope area that carry no basin yet get label `id`, and the count returned is their number |
| WatershedBasins.Expand | resources/hydrology/watersheds/WatershedsAlgorithm.java:215-224 | once past the test, labelling the cell and visiting the eight neighbours labels and counts the unlabelled upslope area |
| WatershedBasins.VisitNeighbour | resources/hydrology/watersheds/WatershedsAlgorithm.java:218-222 | neighbour `i` adds and counts its unlabelled upslope area when it drains into the cell, and nothing otherwise |
| WatershedBasins.StepCount | resources/hydrology/watersheds/WatershedsAlgorithm.java:217-223 | the cells neighbour `i` adds are counted apart from those of the later neighbours |
| WatershedBasins.BasinEnd | resources/hydrology/watersheds/WatershedsAlgorithm.java:217-224 | after the eight neighbours the whole unlabelled upslope area is labelled and counted |
| WatershedBasins.Labelled | resources/hydrology/watersheds/WatershedsAlgorithm.java:213 | a cell that already carries a basin leaves nothing to label upslope of it |
| Watersheds.Areas | resources/hydrology/watersheds/WatershedsAlgorithm.java:98-102 | one upslope area per sorted outlet |
| Watersheds.NewBasins | resources/hydrology/watersheds/WatershedsAlgorithm.java:47-48 | the basins raster starts with every window cell at `NO_BASIN` |
| Watersheds.LabelStep | resources/hydrology/watersheds/WatershedsAlgorithm.java:99-102 | the first `getBasin` of a turn labels the cells of the outlet's upslope area not yet labelled with the next id, and counts them |
| Watersheds.UndoStep | resources/hydrology/watersheds/WatershedsAlgorithm.java:103-106 | the second `getBasin` of a small basin changes nothing, because the outlet is already labelled |
| Watersheds.ProcessOutlet | resources/hydrology/watersheds/WatershedsAlgorithm.java:98-107 | one turn moves the raster and the id counter from their values after `j` turns to their values after `j + 1`, and leaves both rasters in shape |
| Watersheds.LabelOutlets | resources/hydrology/watersheds/WatershedsAlgorithm.java:97-108 | from an unlabelled raster and the highest outlet down, the raster ends with the labels of all turns |
| Watersheds.CalculateBasins | resources/hydrology/watersheds/WatershedsAlgorithm.java:87-110 | the fresh raster holds the labels of the outlets sorted by elevation, handled from the highest down, with the drainage of the `false` overload (`Grid.Inner`) |
| Watersheds.FreshMeaning | resources/hydrology/watersheds/WatershedsAlgorithm.java:98-107 | turn `j` labels exactly the window cells whose flow path passes through its outlet and through no outlet handled before |
| Watersheds.CoveringClosed | resources/hydrology/watersheds/WatershedsAlgorithm.java:206-228 | everything upslope of a labelled cell is labelled |
| Watersheds.FreshDisjoint | resources/hydrology/watersheds/WatershedsAlgorithm.java:206-228 | no cell is labelled by two turns |
| Watersheds.CounterStep | resources/hydrology/watersheds/WatershedsAlgorithm.java:99-106 | a turn takes a new id exactly when its basin has at least the minimum size |
| Watersheds.CounterBounds | resources/hydrology/watersheds/WatershedsAlgorithm.java:97-108 | the id counter never decreases and grows by at most one per turn |
| Watersheds.LabelsAgree | resources/hydrology/watersheds/WatershedsAlgorithm.java:97-108 | the raster keeps its cells, and a cell carries a basin exactly when some turn so far labelled it |
| Watersheds.LabelsMeaning | resources/hydrology/watersheds/WatershedsAlgorithm.java:99-102 | every cell a turn labels carries that turn's id from then on |
| Watersheds.BigIdsDistinct | resources/hydrology/watersheds/WatershedsAlgorithm.java:99-107 | a basin of at least the minimum size gets an id no later turn uses |
| Watersheds.SmallBasinSharesId | resources/hydrology/watersheds/WatershedsAlgorithm.java:102-107 | a basin below the minimum size keeps its labels, and the next basin is labelled with the same id |
| Watersheds.SharedIdExample | resources/hydrology/watersheds/WatershedsAlgorithm.java:102-107 | two one-cell basins with a minimum size of two both end up labelled 1 |
| Watersheds.KeptMeaning | resources/hydrology/watersheds/WatershedsAlgorithm.java:102-107 | when small basins are erased and their ids freed, a kept basin's cells carry its id from then on |
| Watersheds.KeptIdsDistinct | resources/hydrology/watersheds/WatershedsAlgorithm.java:102-107 | when small basins are erased and their ids freed, kept basins get pairwise different ids |
| Watersheds.KeptOrigin | resources/hydrology/watersheds/WatershedsAlgorithm.java:102-107 | when small basins are erased, every labelled cell belongs to a kept basin and carries its id |
| Watersheds.KeptSizes | resources/hydrology/watersheds/WatershedsAlgorithm.java:102-107 | when small basins are erased, every basin id on the raster labels at least the minimum number of cells |
| WatershedsBySize.JavaInt | resources/debug_files/hydrology/watershedsBySize/WatershedsBySizeAlgorithm.java:178 | the `(int)` cast of a double truncates toward zero inside the 32-bit range and saturates at its bounds |
| WatershedsBySize.SizeClassMeaning | resources/debug_files/hydrology/watershedsBySize/WatershedsBySizeAlgorithm.java:178 | a cell's size class is the number of whole multiples of the threshold size its accumulated area holds |
| WatershedsBySize.ZeroSize | resources/debug_files/hydrology/watershedsBySize/WatershedsBySizeAlgorithm.java:178 | with a size of 0 every positive accumulation falls into the one saturated class, so no outlet is forced between them |
| WatershedsBySize.MarkedStep | resources/debug_files/hydrology/watershedsBySize/WatershedsBySizeAlgorithm.java:180-195 | examining direction `i` marks exactly neighbour `i`, when it is valid, drains into the cell and has another size class |
| WatershedsBySize.SetOutlet | resources/debug_files/hydrology/watershedsBySize/WatershedsBySizeAlgorithm.java:168-197 | the cells set to -1 are exactly the valid upstream neighbours with a different size class; no other cell changes |
| WatershedsBySize.ForcedMarked | resources/debug_files/hydrology/watershedsBySize/WatershedsBySizeAlgorithm.java:185-191 | a cell is marked while its successor is visited if and only if it is a forced outlet (its class differs from its successor's) |
| WatershedsBySize.VisitCell | resources/debug_files/hydrology/watershedsBySize/WatershedsBySizeAlgorithm.java:158-161 | after visiting a cell the forced outlets whose successor has been visited, and only those, hold -1 |
| WatershedsBySize.ScanColumn | resources/debug_files/hydrology/watershedsBySize/WatershedsBySizeAlgorithm.java:157-162 | after one column of the scan the forced outlets draining into that column hold -1 as well |
| WatershedsBySize.CalculateOutlets | resources/debug_files/hydrology/watershedsBySize/WatershedsBySizeAlgorithm.java:151-165 | the outlets raster holds -1 exactly on the forced outlets and its no-data value everywhere else |
| WatershedsBySize.Network | resources/debug_files/hydrology/watershedsBySize/WatershedsBySizeAlgorithm.java:64-67 | the outlets raster has the DEM's extent and no-data value 0 |
| WatershedsBySize.ForcedOutlets | resources/debug_files/hydrology/watershedsBySize/WatershedsBySizeAlgorithm.java:96 | read as a channel network by the watershed labeller, the outlets raster makes each forced outlet an outlet and no other cell one |
| WatershedsBySize.NoneTooSmall | resources/debug_files/hydrology/watershedsBySize/WatershedsBySizeAlgorithm.java:93-96 | with the labeller's minimum size left at 0 no basin is rolled back, so basin `j` gets id `j + 1` |
| WatershedsBySize.BasinsBySize | resources/debug_files/hydrology/watershedsBySize/WatershedsBySizeAlgorithm.java:57-110 | the outlets raster it computes is handed to the labeller, and the result is the watershed labelling of the network of forced outlets, in the labeller's outlet order |
| Grid.AsLayer | resources/debug_files/hydrology/watershedsBySize/WatershedsBySizeAlgorithm.java:95 | an output raster handed on as an input layer reads, over the same window, exactly the array's values, and its no-data value outside |
| WatershedOutlets.SameNetworkOutlets | resources/hydrology/watersheds/WatershedsAlgorithm.java:87-95 | two networks that read alike at every cell give the same outlets |
| DistToChannelNetwork.MeetsNetwork | resources/debug_files/hydrology/distToChannelNetwork/DistToChannelNetworkAlgorithm.java:121-148 | a cell gets a distance if and only if its flow path meets a channel cell |
| DistToChannelNetwork.RouteShape | resources/debug_files/hydrology/distToChannelNetwork/DistToChannelNetworkAlgorithm.java:103-105 | distances are non-negative, zero exactly on channel cells, and strictly larger than that of the next cell downslope |
| DistToChannelNetwork.DistOpposite | resources/debug_files/hydrology/distToChannelNetwork/DistToChannelNetworkAlgorithm.java:101 | the reversed direction `(i + 4) % 8` has the same neighbour distance, so the step is measured the same from either end |
| DistToChannelNetwork.RouteStep | resources/debug_files/hydrology/distToChannelNetwork/DistToChannelNetworkAlgorithm.java:130-131 | a cell draining into `p` is on the network or exactly one step, of the neighbour distance, further from it than `p` |
| DistToChannelNetwork.RingBelow | resources/debug_files/hydrology/distToChannelNetwork/DistToChannelNetworkAlgorithm.java:121 | if some cell is `k` or more steps from the network, some cell is exactly `k` steps away, so the wavefront has no gaps |
| DistToChannelNetwork.Settled | resources/debug_files/hydrology/distToChannelNetwork/DistToChannelNetworkAlgorithm.java:133 | a distance the wavefront has written is non-negative and never changes in a later round |
| DistToChannelNetwork.PrepareInitData | resources/debug_files/hydrology/distToChannelNetwork/DistToChannelNetworkAlgorithm.java:84-110 | the stored directions are the reversed downslope directions, channel cells hold 0 and others no-data, and the frontier is the channel cells in scan order |
| DistToChannelNetwork.PrepareRows | resources/debug_files/hydrology/distToChannelNetwork/DistToChannelNetworkAlgorithm.java:93-108 | after all rows every cell is initialised and the frontier lists the channel cells row by row |
| DistToChannelNetwork.StartLevel | resources/debug_files/hydrology/distToChannelNetwork/DistToChannelNetworkAlgorithm.java:43-44 | no-data everywhere except 0 on the channel cells is the raster after no rounds |
| DistToChannelNetwork.StartRing | resources/debug_files/hydrology/distToChannelNetwork/DistToChannelNetworkAlgorithm.java:103-106 | the listed channel cells are exactly the cells 0 steps from the network |
| DistToChannelNetwork.PrepareRow | resources/debug_files/hydrology/distToChannelNetwork/DistToChannelNetworkAlgorithm.java:94-107 | after row `y` that row is initialised and its channel cells are appended to the frontier in column order |
| DistToChannelNetwork.InitNext | resources/debug_files/hydrology/distToChannelNetwork/DistToChannelNetworkAlgorithm.java:95-106 | visiting column `x` extends the initialised part by one cell and reports whether it is a channel cell |
| DistToChannelNetwork.InitCell | resources/debug_files/hydrology/distToChannelNetwork/DistToChannelNetworkAlgorithm.java:95-106 | only the visited cell changes: its reversed direction (-1 when it has none) and distance 0 exactly when it is a channel cell; the caller passes `Grid.Inner(dem)`, the `false` overload |
| DistToChannelNetwork.FedStep | resources/debug_files/hydrology/distToChannelNetwork/DistToChannelNetworkAlgorithm.java:127-130 | looking at direction `i` of a frontier cell feeds exactly the neighbour in that direction, when it drains into the cell |
| DistToChannelNetwork.FedNext | resources/debug_files/hydrology/distToChannelNetwork/DistToChannelNetworkAlgorithm.java:122-127 | having looked at all eight directions of frontier cell `t` is having expanded the first `t + 1` cells |
| DistToChannelNetwork.RelaxCell | resources/debug_files/hydrology/distToChannelNetwork/DistToChannelNetworkAlgorithm.java:130-136 | the neighbour is written exactly when it is one step further out than the frontier cell and not yet fed, and then gets its own distance |
| DistToChannelNetwork.Relax | resources/debug_files/hydrology/distToChannelNetwork/DistToChannelNetworkAlgorithm.java:128-137 | one direction of the inner loop keeps the raster and the next frontier exact for the part of the round done so far |
| DistToChannelNetwork.GrownStep | resources/debug_files/hydrology/distToChannelNetwork/DistToChannelNetworkAlgorithm.java:133-136 | a neighbour joins the next frontier exactly when it was written, so the next frontier lists the cells one step further out |
| DistToChannelNetwork.Expand | resources/debug_files/hydrology/distToChannelNetwork/DistToChannelNetworkAlgorithm.java:123-138 | expanding frontier cell `t` over its eight neighbours advances the partial round to cell `t + 1` |
| DistToChannelNetwork.NextCell | resources/debug_files/hydrology/distToChannelNetwork/DistToChannelNetworkAlgorithm.java:127-138 | done with the eight neighbours of cell `t` is done with cell `t` |
| DistToChannelNetwork.Round | resources/debug_files/hydrology/distToChannelNetwork/DistToChannelNetworkAlgorithm.java:122-142 | one pass over the frontier takes the raster from round `k` to round `k + 1` and returns the cells exactly `k + 1` steps out |
| DistToChannelNetwork.RoundStart | resources/debug_files/hydrology/distToChannelNetwork/DistToChannelNetworkAlgorithm.java:122 | before any frontier cell is expanded every cell holds its value of the previous round and the next frontier is empty |
| DistToChannelNetwork.RoundEnd | resources/debug_files/hydrology/distToChannelNetwork/DistToChannelNetworkAlgorithm.java:139-142 | having expanded the whole frontier of round `k` is being at round `k + 1` |
| DistToChannelNetwork.RoundProgress | resources/debug_files/hydrology/distToChannelNetwork/DistToChannelNetworkAlgorithm.java:121 | a round that produces a non-empty frontier reaches a new cell, so the outer loop ends |
| DistToChannelNetwork.Finished | resources/debug_files/hydrology/distToChannelNetwork/DistToChannelNetworkAlgorithm.java:121 | once the frontier is empty every cell holds its distance along the flow path to the network, or no-data when it never meets it |
| DistToChannelNetwork.CalculateDistance | resources/debug_files/hydrology/distToChannelNetwork/DistToChannelNetworkAlgorithm.java:113-150 | after `rounds` rounds exactly the cells at most that many steps out hold their distance; an uncancelled run leaves every cell with its distance |
| DistToChannelNetwork.DistToChannel | resources/debug_files/hydrology/distToChannelNetwork/DistToChannelNetworkAlgorithm.java:36-61 | an uncancelled run produces, for every cell, the distance to the channel network along the flow path of the `false` overload (`Grid.Inner`) |
| Isocrones.StepLengthIsDist | resources/hydrology/isocrones/IsocronesAlgorithm.java:153-161 | the offset test picks the host's neighbour distance of the step's direction for every pair of neighbours |
| Isocrones.OffsetParity | resources/hydrology/isocrones/IsocronesAlgorithm.java:156 | the offsets of a side neighbour sum to plus or minus one and those of a corner neighbour never do, so the test separates the two |
| Isocrones.PathTimeSplit | resources/hydrology/isocrones/IsocronesAlgorithm.java:171-182 | the time from a cell to `a` through a cell draining into `a` is the time to that cell plus the last step's time |
| Isocrones.PathTimeGrows | resources/hydrology/isocrones/IsocronesAlgorithm.java:162-171 | with a non-negative ratio travel times are non-negative and never smaller upslope than at the next cell downslope |
| Isocrones.StepTimeNonNegative | resources/hydrology/isocrones/IsocronesAlgorithm.java:162-168 | a step's time, the distance over the speed scaled by the ratio off the network, is non-negative |
| Isocrones.WriteTimeOut | resources/hydrology/isocrones/IsocronesAlgorithm.java:133-190 | a valid cell gets the step time plus the downstream value, and every cell upslope of it gets that plus its own travel time; all other cells keep their values |
| Isocrones.Visit | resources/hydrology/isocrones/IsocronesAlgorithm.java:175-185 | direction `i` writes exactly the cells upslope of neighbour `i`, when that neighbour drains into the cell |
| Isocrones.Expand | resources/hydrology/isocrones/IsocronesAlgorithm.java:182 | the recursive call on a draining neighbour writes exactly the cells upslope of it, each with its time through the neighbour |
| Isocrones.SplitAll | resources/hydrology/isocrones/IsocronesAlgorithm.java:174-186 | every cell upslope of a draining neighbour is upslope of the cell, with its time split at that neighbour |
| Isocrones.TravelTimeShape | resources/hydrology/isocrones/IsocronesAlgorithm.java:153-154 | the outlet takes no time, no time is negative, and a cell upslope never takes less than the cell it drains to |
| Isocrones.CalculateTimeOut | resources/hydrology/isocrones/IsocronesAlgorithm.java:124-130 | every cell ends with its travel time to the outlet, and 0 when it does not drain there |
| Isocrones.Assign | resources/hydrology/isocrones/IsocronesAlgorithm.java:47 | every cell of the raster takes the given value |
| Isocrones.FromOutlet | resources/hydrology/isocrones/IsocronesAlgorithm.java:101 | writing the outlet as its own downstream cell into a zero-filled raster leaves every cell with its travel time |
| Isocrones.HighestCell | resources/hydrology/isocrones/IsocronesAlgorithm.java:103-114 | the result is the first cell in scan order with the greatest value other than no-data, or (0, 0) when every cell is no-data |
| Isocrones.TimeOfConcentrationCell | resources/hydrology/isocrones/IsocronesAlgorithm.java:95-114 | with unit speed and ratio the raster holds the travel times and the highest cell has the greatest of them |
| Isocrones.TimeToOutlet | resources/hydrology/isocrones/IsocronesAlgorithm.java:36-69 | the result holds every cell's travel time to the outlet at the speed derived from the highest cell and the given ratio |
| UpslopeAreaFromArea.FromPoint | resources/debug_files/hydrology/upslopeAreaFromArea/UpslopeAreaFromAreaAlgorithm.java:99-130 | only unvisited cells upslope of the start become VISITED, and afterwards every cell upslope of a valid or already visited start is marked |
| UpslopeAreaFromArea.DrainsToZoneWitness | resources/debug_files/hydrology/upslopeAreaFromArea/UpslopeAreaFromAreaAlgorithm.java:86-94 | a cell counted as draining to the scanned part of the zone has a scanned zone seed on its flow path |
| UpslopeAreaFromArea.DrainsToZoneFromSeed | resources/debug_files/hydrology/upslopeAreaFromArea/UpslopeAreaFromAreaAlgorithm.java:86-94 | conversely, a cell whose flow path meets a scanned zone seed is counted |
| UpslopeAreaFromArea.DrainsToZoneStep | resources/debug_files/hydrology/upslopeAreaFromArea/UpslopeAreaFromAreaAlgorithm.java:87-91 | scanning one more cell adds exactly the cells whose flow path reaches it, when it is a zone seed |
| UpslopeAreaFromArea.DrainsToZoneSame | resources/debug_files/hydrology/upslopeAreaFromArea/UpslopeAreaFromAreaAlgorithm.java:86-87 | two scan positions with the same window cells before them count the same cells |
| UpslopeAreaFromArea.DrainsToZoneRow | resources/debug_files/hydrology/upslopeAreaFromArea/UpslopeAreaFromAreaAlgorithm.java:86-87 | the end of a row and the start of the next count the same cells |
| UpslopeAreaFromArea.DrainsToZoneUpslope | resources/debug_files/hydrology/upslopeAreaFromArea/UpslopeAreaFromAreaAlgorithm.java:116-125 | the counted set is closed upslope |
| UpslopeAreaFromArea.UpslopeArea | resources/debug_files/hydrology/upslopeAreaFromArea/UpslopeAreaFromAreaAlgorithm.java:32-96 | the result is VISITED exactly on the cells whose flow path passes through a valid zone cell, NOT_VISITED elsewhere |
| UpslopeAreaFromArea.NothingBefore | resources/debug_files/hydrology/upslopeAreaFromArea/UpslopeAreaFromAreaAlgorithm.java:44 | before the scan no cell is counted, matching the NOT_VISITED fill |
| UpslopeAreaFromArea.RowScanned | resources/debug_files/hydrology/upslopeAreaFromArea/UpslopeAreaFromAreaAlgorithm.java:86-94 | a finished row leaves the marks expected at the start of the next row |
| UpslopeAreaFromArea.ScanCell | resources/debug_files/hydrology/upslopeAreaFromArea/UpslopeAreaFromAreaAlgorithm.java:88-91 | one cell of the scan extends the marks to the cells draining to the zone seeds scanned so far |
| UpslopeAreaFromArea.UpslopeAreaMeaning | resources/debug_files/hydrology/upslopeAreaFromArea/UpslopeAreaFromAreaAlgorithm.java:81-96 | after the whole scan a cell is counted if and only if its flow path meets a zone seed |
| UpslopeAreaFromPoint.WriteCell | resources/debug_files/hydrology/upslopeAreaFromPoint/UpslopeAreaFromPointAlgorithm.java:82-112 | a valid start and exactly the cells whose flow path passes through it are set to 1; all other cells keep their values; the caller passes `Grid.Inner(dem)`, the `false` overload |
| UpslopeAreaFromPoint.UpslopeArea | resources/debug_files/hydrology/upslopeAreaFromPoint/UpslopeAreaFromPointAlgorithm.java:33-79 | the result is 1 exactly on the cells whose flow path under the `false` overload (`Grid.Inner`) passes through a valid outlet, and 0 elsewhere |
| MeanValueUphill.WithinDrainer | resources/debug_files/hydrology/meanValueUphill/MeanValueUphillAlgorithm.java:131-139 | bounds that hold for every parameter value upslope of a cell hold upslope of each of its drainers |
| MeanValueUphill.ScaleAdd | resources/debug_files/hydrology/meanValueUphill/MeanValueUphillAlgorithm.java:142-143 | arithmetic helper for `MeanValueUphill.AtLeastAdd` and `MeanValueUphill.AtMostAdd`: bounds scaled by counts add as the counts add |
| MeanValueUphill.AtLeastAdd | resources/debug_files/hydrology/meanValueUphill/MeanValueUphillAlgorithm.java:142-143 | arithmetic helper for `MeanValueUphill.SumLower` and `MeanValueUphill.SumFromLower`: lower bounds on two totals add up |
| MeanValueUphill.AtMostAdd | resources/debug_files/hydrology/meanValueUphill/MeanValueUphillAlgorithm.java:142-143 | arithmetic helper for `MeanValueUphill.SumUpper` and `MeanValueUphill.SumFromUpper`: upper bounds on two totals add up |
| MeanValueUphill.SumLower | resources/debug_files/hydrology/meanValueUphill/MeanValueUphillAlgorithm.java:108-152 | the accumulated sum is at least the accumulated count times any lower bound of the parameter values upslope |
| MeanValueUphill.SumFromLower | resources/debug_files/hydrology/meanValueUphill/MeanValueUphillAlgorithm.java:131-148 | the same lower bound holds for what the drainers from direction `k` on add |
| MeanValueUphill.SumUpper | resources/debug_files/hydrology/meanValueUphill/MeanValueUphillAlgorithm.java:108-152 | the accumulated sum is at most the accumulated count times any upper bound of the parameter values upslope |
| MeanValueUphill.SumFromUpper | resources/debug_files/hydrology/meanValueUphill/MeanValueUphillAlgorithm.java:131-148 | the same upper bound holds for what the drainers from direction `k` on add |
| MeanValueUphill.DivBounds | resources/debug_files/hydrology/meanValueUphill/MeanValueUphillAlgorithm.java:62 | dividing a total bounded by a positive count times two bounds gives a value between the bounds |
| MeanValueUphill.DivLower | resources/debug_files/hydrology/meanValueUphill/MeanValueUphillAlgorithm.java:62 | arithmetic helper for `MeanValueUphill.DivBounds`: division by a positive count keeps a lower bound |
| MeanValueUphill.DivUpper | resources/debug_files/hydrology/meanValueUphill/MeanValueUphillAlgorithm.java:62 | arithmetic helper for `MeanValueUphill.DivBounds`: division by a positive count keeps an upper bound |
| MeanValueUphill.MeanBetween | resources/debug_files/hydrology/meanValueUphill/MeanValueUphillAlgorithm.java:57-68 | the mean uphill lies between any bounds of the parameter values upslope, and the count is the number of upslope cells with a parameter value |
| MeanValueUphill.GetFlow | resources/debug_files/hydrology/meanValueUphill/MeanValueUphillAlgorithm.java:108-152 | a valid cell ends with the number of upslope cells with a parameter value and the sum of their values; no finished cell changes |
| MeanValueUphill.AddDrainers | resources/debug_files/hydrology/meanValueUphill/MeanValueUphillAlgorithm.java:131-148 | the neighbour loop adds to the cell's own totals exactly those of every drainer |
| MeanValueUphill.AddDrainer | resources/debug_files/hydrology/meanValueUphill/MeanValueUphillAlgorithm.java:136-145 | one direction adds the totals of that neighbour when it drains into the cell, and finishes the neighbour first |
| MeanValueUphill.MeanOf | resources/debug_files/hydrology/meanValueUphill/MeanValueUphillAlgorithm.java:59-66 | the mean times the count is the sum, and no-data results when the count is 0 or the sum is the no-data value |
| MeanValueUphill.Divide | resources/debug_files/hydrology/meanValueUphill/MeanValueUphillAlgorithm.java:57-68 | every cell of the result is its sum divided by its count, or no-data |
| MeanValueUphill.AccStep | resources/debug_files/hydrology/meanValueUphill/MeanValueUphillAlgorithm.java:98-102 | one step of the row scan finishes the cell and keeps every earlier one finished |
| MeanValueUphill.MeanValue | resources/debug_files/hydrology/meanValueUphill/MeanValueUphillAlgorithm.java:30-72 | a valid cell ends with the mean of the parameter values upslope, or the no-data value -1 when none of them has one or their sum is exactly -1; a no-data cell ends at -1 |
| MaxValueUphill.Max | resources/hydrology/maxValueUphill/MaxValueUphillAlgorithm.java:129-130 | the larger of two values, which is one of them |
| MaxValueUphill.Combine | resources/hydrology/maxValueUphill/MaxValueUphillAlgorithm.java:124-131 | merging a drainer's value keeps the running value or takes the drainer's, never lowers a running value other than no-data and never drops below the drainer's value |
| MaxValueUphill.MaxFromPicks | resources/hydrology/maxValueUphill/MaxValueUphillAlgorithm.java:115-135 | the merged value is the running value or the value of one of the drainers still to come |
| MaxValueUphill.MaxUpWitness | resources/hydrology/maxValueUphill/MaxValueUphillAlgorithm.java:90-142 | the value of a valid cell is the contribution of some cell upslope of it, -1 standing for a cell without a parameter value |
| MaxValueUphill.MaxUpNotNoData | resources/hydrology/maxValueUphill/MaxValueUphillAlgorithm.java:105-131 | when -1 is not the parameter's no-data value a valid cell never ends at no-data |
| MaxValueUphill.MaxFromCovers | resources/hydrology/maxValueUphill/MaxValueUphillAlgorithm.java:115-135 | merging never lowers the running value and covers the value of every later drainer |
| MaxValueUphill.MaxFromKeeps | resources/hydrology/maxValueUphill/MaxValueUphillAlgorithm.java:115-135 | merging never lowers a running value other than no-data |
| MaxValueUphill.MaxUpUpper | resources/hydrology/maxValueUphill/MaxValueUphillAlgorithm.java:90-142 | the value of a valid cell is at least the contribution of every cell upslope |
| MaxValueUphill.MaxUpIsMaximum | resources/hydrology/maxValueUphill/MaxValueUphillAlgorithm.java:90-142 | the value as written is the maximum of the contributions upslope, with -1 for each cell lacking a parameter value |
| MaxValueUphill.Join | resources/hydrology/maxValueUphill/MaxValueUphillAlgorithm.java:124-131 | the intended merge: no-data on either side contributes nothing, and two values give the larger |
| MaxValueUphill.IntendedPicks | resources/hydrology/maxValueUphill/MaxValueUphillAlgorithm.java:115-135 | the intended merged value is the running value or the intended value of a later drainer |
| MaxValueUphill.IntendedWitness | resources/hydrology/maxValueUphill/MaxValueUphillAlgorithm.java:90-142 | an intended value other than no-data is the parameter value of some cell upslope |
| MaxValueUphill.IntendedKeeps | resources/hydrology/maxValueUphill/MaxValueUphillAlgorithm.java:115-135 | the intended merge never lowers a value and never returns to no-data |
| MaxValueUphill.IntendedCovers | resources/hydrology/maxValueUphill/MaxValueUphillAlgorithm.java:115-135 | the intended merge covers every later drainer's intended value |
| MaxValueUphill.IntendedUpper | resources/hydrology/maxValueUphill/MaxValueUphillAlgorithm.java:90-142 | every parameter value upslope is at most the intended value, which is then not no-data |
| MaxValueUphill.IntendedIsMaximum | resources/hydrology/maxValueUphill/MaxValueUphillAlgorithm.java:90-142 | the intended value is the greatest parameter value upslope, and no-data exactly when no cell upslope has one |
| MaxValueUphill.AgreesWhenAllHaveValues | resources/hydrology/maxValueUphill/MaxValueUphillAlgorithm.java:90-142 | where every cell upslope has a parameter value the code as written computes the intended maximum |
| MaxValueUphill.MinusOneWins | resources/hydrology/maxValueUphill/MaxValueUphillAlgorithm.java:105-113 | as written, a cell without a value whose upslope values are all below -1 reports -1, which the intended maximum never is |
| MaxValueUphill.OneCellWindow | resources/hydrology/maxValueUphill/MaxValueUphillAlgorithm.java:105-113 | a one-cell window without a parameter value reports -1 as written and no-data as intended |
| MaxValueUphill.GetMaxValue | resources/hydrology/maxValueUphill/MaxValueUphillAlgorithm.java:90-142 | the cell ends with its value as written after those of its drainers; finished cells stay as they are |
| MaxValueUphill.MergeDrainer | resources/hydrology/maxValueUphill/MaxValueUphillAlgorithm.java:116-133 | one direction merges that neighbour's finished value into the cell's when it drains there |
| MaxValueUphill.MaxStep | resources/hydrology/maxValueUphill/MaxValueUphillAlgorithm.java:81-83 | one step of the row scan finishes the cell and keeps every earlier one finished |
| MaxValueUphill.MaxValues | resources/hydrology/maxValueUphill/MaxValueUphillAlgorithm.java:30-87 | every cell of the result holds its value as written: the merge of its own value and its drainers' |
| SlopeLength.Abs | resources/debug_files/hydrology/slopeLength/SlopeLengthAlgorithm.java:124 | arithmetic helper for the steepness test of `SlopeLength.SlopeLengths`: `Math.abs`, non-negative and equal to the value or its negation |
| SlopeLength.PartialMax | resources/debug_files/hydrology/slopeLength/SlopeLengthAlgorithm.java:130-137 | offering a length before or after the drainers gives the same running maximum |
| SlopeLength.MaxSwap | resources/debug_files/hydrology/slopeLength/SlopeLengthAlgorithm.java:130-137 | the order in which two lengths are offered does not change the maximum |
| SlopeLength.PartialSame | resources/debug_files/hydrology/slopeLength/SlopeLengthAlgorithm.java:64-66 | only which drainers of a cell have been visited decides its running value |
| SlopeLength.PartialEmpty | resources/debug_files/hydrology/slopeLength/SlopeLengthAlgorithm.java:46 | with no drainer visited a cell holds the 0 it was filled with |
| SlopeLength.PartialAdd | resources/debug_files/hydrology/slopeLength/SlopeLengthAlgorithm.java:130-137 | visiting one more drainer takes the maximum of the running value and that drainer's offer |
| SlopeLength.PartialAddHere | resources/debug_files/hydrology/slopeLength/SlopeLengthAlgorithm.java:130-137 | the same, for the first drainer still to be looked at |
| SlopeLength.PartialAtLeast | resources/debug_files/hydrology/slopeLength/SlopeLengthAlgorithm.java:130-137 | a cell's running value only grows |
| SlopeLength.PartialPicks | resources/debug_files/hydrology/slopeLength/SlopeLengthAlgorithm.java:130-137 | a cell's running value is its start value or the offer of a visited drainer |
| SlopeLength.LengthHere | resources/debug_files/hydrology/slopeLength/SlopeLengthAlgorithm.java:64-66 | once every drainer is visited the running value from 0 is the cell's slope length |
| SlopeLength.LengthCovers | resources/debug_files/hydrology/slopeLength/SlopeLengthAlgorithm.java:130-137 | a cell's slope length is at least the offer of every cell draining into it |
| SlopeLength.PathLengthSplit | resources/debug_files/hydrology/slopeLength/SlopeLengthAlgorithm.java:125-135 | a flow path through a drainer is that drainer's path plus one step of the neighbour distance |
| SlopeLength.LengthUpper | resources/debug_files/hydrology/slopeLength/SlopeLengthAlgorithm.java:134-139 | without the threshold no flow path into a cell is longer than its slope length |
| SlopeLength.LengthWitness | resources/debug_files/hydrology/slopeLength/SlopeLengthAlgorithm.java:134-139 | without the threshold the slope length is the length of some flow path into the cell |
| SlopeLength.LengthIsLongestPath | resources/debug_files/hydrology/slopeLength/SlopeLengthAlgorithm.java:134-139 | without the threshold the slope length of a cell is the length of the longest flow path ending in it |
| SlopeLength.ThresholdShortens | resources/debug_files/hydrology/slopeLength/SlopeLengthAlgorithm.java:121-133 | the slope change threshold only restarts lengths, so it never gives a longer or a negative length |
| SlopeLength.CellNumber | resources/debug_files/hydrology/slopeLength/SlopeLengthAlgorithm.java:160-163 | numbering cells row by row, cell `y * nx + x` sits in column `x` of row `y` |
| SlopeLength.MulLe | resources/debug_files/hydrology/slopeLength/SlopeLengthAlgorithm.java:154 | arithmetic helper for `SlopeLength.CellNumber` and `SlopeLength.DivModUnique`: multiplying by a non-negative count keeps order |
| SlopeLength.DivModUnique | resources/debug_files/hydrology/slopeLength/SlopeLengthAlgorithm.java:161-162 | arithmetic helper for `SlopeLength.CellNumber`: a quotient and remainder in range are the only ones |
| SlopeLength.NumberedCell | resources/debug_files/hydrology/slopeLength/SlopeLengthAlgorithm.java:160-162 | every cell number below `nx * ny` names a cell of the window |
| SlopeLength.SortedArrayOfCells | resources/debug_files/hydrology/slopeLength/SlopeLengthAlgorithm.java:149-171 | the list holds every window cell once with its elevation, sorted by elevation |
| SlopeLength.SortKeeps | resources/debug_files/hydrology/slopeLength/SlopeLengthAlgorithm.java:167 | sorting keeps the list a listing of every window cell with its elevation |
| SlopeLength.PassedOn | resources/debug_files/hydrology/slopeLength/SlopeLengthAlgorithm.java:115-145 | visiting a cell changes no value but its own and its successor's |
| SlopeLength.OfferFrom | resources/debug_files/hydrology/slopeLength/SlopeLengthAlgorithm.java:121-138 | a cell offers its successor the length computed from its own slope length |
| SlopeLength.OwnOffer | resources/debug_files/hydrology/slopeLength/SlopeLengthAlgorithm.java:121-129 | the length offered is the own length plus the step, or the step alone when the slope changes past the threshold |
| SlopeLength.KeepLarger | resources/debug_files/hydrology/slopeLength/SlopeLengthAlgorithm.java:130-132 | the successor keeps the larger of its value and the offered length; nothing else changes |
| SlopeLength.SuccessorDrained | resources/debug_files/hydrology/slopeLength/SlopeLengthAlgorithm.java:116-118 | a cell with a direction is seen from its successor as a drainer in the opposite direction |
| SlopeLength.StaysPut | resources/debug_files/hydrology/slopeLength/SlopeLengthAlgorithm.java:115-141 | a visited cell that does not drop keeps its value |
| SlopeLength.SetLength | resources/debug_files/hydrology/slopeLength/SlopeLengthAlgorithm.java:107-146 | visiting a cell whose drainers are done finishes it: no-data when it has no elevation or no valid successor, otherwise its length offered to its successor |
| SlopeLength.PassLength | resources/debug_files/hydrology/slopeLength/SlopeLengthAlgorithm.java:116-140 | the branch for a cell with a valid successor keeps every visited cell's value right |
| SlopeLength.Ordered | resources/debug_files/hydrology/slopeLength/SlopeLengthAlgorithm.java:64 | visiting from the highest entry down, a cell's drainers come before it and its successor after it |
| SlopeLength.LaterIfHigher | resources/debug_files/hydrology/slopeLength/SlopeLengthAlgorithm.java:167 | in the sorted list a strictly higher cell comes later |
| SlopeLength.NoneVisited | resources/debug_files/hydrology/slopeLength/SlopeLengthAlgorithm.java:46 | before any visit every cell holds the 0 the raster was filled with |
| SlopeLength.AllVisited | resources/debug_files/hydrology/slopeLength/SlopeLengthAlgorithm.java:64-66 | once every cell is visited each holds no-data or its slope length |
| SlopeLength.CompleteVisited | resources/debug_files/hydrology/slopeLength/SlopeLengthAlgorithm.java:61-64 | a complete list visits every window cell |
| SlopeLength.VisitStep | resources/debug_files/hydrology/slopeLength/SlopeLengthAlgorithm.java:65 | one turn of the loop finishes the entry at `i` |
| SlopeLength.VisitedStep | resources/debug_files/hydrology/slopeLength/SlopeLengthAlgorithm.java:64 | the cells visited from `i` are those visited from `i + 1` and the entry at `i` |
| SlopeLength.VisitAll | resources/debug_files/hydrology/slopeLength/SlopeLengthAlgorithm.java:64-66 | visiting the sorted cells from last to first leaves every cell with no-data or its slope length |
| SlopeLength.SlopeLengths | resources/debug_files/hydrology/slopeLength/SlopeLengthAlgorithm.java:36-70 | every cell ends as no-data when it has no elevation or no valid downslope cell, and otherwise with its slope length under the threshold's absolute value |
| ExclusionAreas.SpreadUnion | resources/debug_files/hydrology/createExclusionAreas/CreateExclusionAreasAlgorithm.java:103-126 | spreading around a union of frontier cells adds what spreading around each part adds |
| ExclusionAreas.SpreadMono | resources/debug_files/hydrology/createExclusionAreas/CreateExclusionAreasAlgorithm.java:103-126 | spreading around more cells never adds fewer |
| ExclusionAreas.SpreadAdd | resources/debug_files/hydrology/createExclusionAreas/CreateExclusionAreasAlgorithm.java:103-126 | spreading around one more frontier cell adds what its eight directions add |
| ExclusionAreas.SpreadFromStep | resources/debug_files/hydrology/createExclusionAreas/CreateExclusionAreasAlgorithm.java:110-124 | direction `n` adds neighbour `n` exactly when the frontier cell has data and the neighbour has data of the outlet's class |
| ExclusionAreas.LevelGrows | resources/debug_files/hydrology/createExclusionAreas/CreateExclusionAreasAlgorithm.java:102-131 | the flooded set only grows from round to round |
| ExclusionAreas.LevelLeast | resources/debug_files/hydrology/createExclusionAreas/CreateExclusionAreasAlgorithm.java:102-131 | the flood never leaves any set that holds the outlet and that no round can enlarge |
| ExclusionAreas.LevelJoins | resources/debug_files/hydrology/createExclusionAreas/CreateExclusionAreasAlgorithm.java:113-121 | every flooded cell other than the outlet has data of the outlet's class |
| ExclusionAreas.NoDataOutlet | resources/debug_files/hydrology/createExclusionAreas/CreateExclusionAreasAlgorithm.java:108-109 | an outlet without data floods nothing but itself |
| ExclusionAreas.Settled | resources/debug_files/hydrology/createExclusionAreas/CreateExclusionAreasAlgorithm.java:102 | when a round adds no cell the flooded set is closed: no further round enlarges it |
| ExclusionAreas.NextLevel | resources/debug_files/hydrology/createExclusionAreas/CreateExclusionAreasAlgorithm.java:103-128 | spreading around only the newest cells gives the same next round as spreading around the whole flooded set |
| ExclusionAreas.Enqueue | resources/debug_files/hydrology/createExclusionAreas/CreateExclusionAreasAlgorithm.java:118-120 | the cell is marked visited and written as no-data; nothing else changes |
| ExclusionAreas.VisitNeighbour | resources/debug_files/hydrology/createExclusionAreas/CreateExclusionAreasAlgorithm.java:111-123 | the neighbour is marked, written as no-data and added to the next frontier exactly when it has data of the outlet's class and was not yet visited |
| ExclusionAreas.VisitPoint | resources/debug_files/hydrology/createExclusionAreas/CreateExclusionAreasAlgorithm.java:109-125 | looking at the eight neighbours of a frontier cell marks exactly the cells it spreads to |
| ExclusionAreas.Round | resources/debug_files/hydrology/createExclusionAreas/CreateExclusionAreasAlgorithm.java:103-126 | one round marks exactly the cells the frontier spreads to, and those new cells are the next frontier |
| ExclusionAreas.Exclude | resources/debug_files/hydrology/createExclusionAreas/CreateExclusionAreasAlgorithm.java:84-136 | the flood stops at a closed flooded set unless cancelled, and every flooded cell but the outlet is written as no-data; the outlet only when it was the last frontier cell |
| ExclusionAreas.Advance | resources/debug_files/hydrology/createExclusionAreas/CreateExclusionAreasAlgorithm.java:102-131 | each round reaches the next flood level and a non-empty frontier means at least one new window cell, so the loop ends |
| ExclusionAreas.NothingAdded | resources/debug_files/hydrology/createExclusionAreas/CreateExclusionAreasAlgorithm.java:102 | a set that gains nothing stays as it was |
| ExclusionAreas.MarkOutlet | resources/debug_files/hydrology/createExclusionAreas/CreateExclusionAreasAlgorithm.java:97-100 | only the outlet is marked as visited and the result is unchanged |
| ExclusionAreas.WriteLast | resources/debug_files/hydrology/createExclusionAreas/CreateExclusionAreasAlgorithm.java:134 | the last frontier cell looked at becomes no-data, so the result is no-data on the flooded cells and the classes elsewhere |
| ExclusionAreas.CreateExclusionAreas | resources/debug_files/hydrology/createExclusionAreas/CreateExclusionAreasAlgorithm.java:54-81 | the result is no-data exactly on the smallest closed set of cells connected to the outlet through data of its class, the outlet included, and the input's classes elsewhere |
| Hydrographs.Added | resources/debug_files/hydrology/modelling/Hydrograph.java:49-67 | the sum of two hydrographs is as long as the longer one |
| Hydrographs.AddedCommutes | resources/debug_files/hydrology/modelling/Hydrograph.java:49-67 | adding two hydrographs does not depend on their order |
| Hydrographs.PairwiseSum | resources/debug_files/hydrology/modelling/Hydrograph.java:53-67 | adding two series of one length entry by entry adds their totals |
| Hydrographs.AddedSum | resources/debug_files/hydrology/modelling/Hydrograph.java:44-71 | adding two hydrographs adds their volumes: the entries of the sum total the entries of both |
| Hydrographs.OffsetSum | resources/debug_files/hydrology/modelling/Hydrograph.java:74-80 | raising every flow by `c` raises the total by `c` per entry |
| Hydrographs.RunoffClosedForm | resources/debug_files/hydrology/modelling/Hydrograph.java:164-174 | the trapezoid sum is the interval times the sum of the flows less half of the first and last flow |
| Hydrographs.RunoffNonNegative | resources/debug_files/hydrology/modelling/Hydrograph.java:164-174 | non-negative flows over a non-negative interval give a non-negative runoff |
| Hydrographs.RunoffScaled | resources/debug_files/hydrology/modelling/Hydrograph.java:164-174 | scaling every flow by `f` scales the runoff by `f` |
| Hydrographs.RunoffOffset | resources/debug_files/hydrology/modelling/Hydrograph.java:164-174 | raising every flow by `c` adds `c` times the interval for every interval but the last |
| Hydrographs.RunoffDelayed | resources/debug_files/hydrology/modelling/Hydrograph.java:27-41 | a delay of at least one interval adds to the runoff only the trapezoid rising from 0 to the first flow |
| Hydrographs.Hydrograph.constructor | resources/debug_files/hydrology/modelling/Hydrograph.java:10-15 | a new hydrograph holds one interval of zero flow and the given interval |
| Hydrographs.Hydrograph.FromArray | resources/debug_files/hydrology/modelling/Hydrograph.java:18-24 | the hydrograph takes the caller's array itself, without a copy, and the given interval |
| Hydrographs.Hydrograph.Delay | resources/debug_files/hydrology/modelling/Hydrograph.java:27-41 | the flows move `time / interval` whole intervals later, truncated toward zero, with zero flow before them, in a new array |
| Hydrographs.Hydrograph.Flow | resources/debug_files/hydrology/modelling/Hydrograph.java:141-147 | the flow read at a time is the flow of the interval holding it, and a time less than one interval before 0 reads the first interval |
| Hydrographs.Hydrograph.Add | resources/debug_files/hydrology/modelling/Hydrograph.java:44-71 | with an equal interval the flows become the entry-by-entry sum with the other hydrograph's, in a new array; otherwise nothing changes |
| Hydrographs.Hydrograph.AddConstant | resources/debug_files/hydrology/modelling/Hydrograph.java:74-80 | every flow is raised by the constant |
| Hydrographs.Hydrograph.Multiply | resources/debug_files/hydrology/modelling/Hydrograph.java:228-234 | every flow is multiplied by the factor |
| Hydrographs.Hydrograph.Peak | resources/debug_files/hydrology/modelling/Hydrograph.java:177-189 | the peak is a flow at least as large as every flow, or negative infinity for an empty series |
| Hydrographs.Hydrograph.PeakTime | resources/debug_files/hydrology/modelling/Hydrograph.java:192-206 | the start of the first interval holding the largest flow, or 0 for an empty series |
| Hydrographs.Hydrograph.TotalRunoff | resources/debug_files/hydrology/modelling/Hydrograph.java:164-174 | the runoff is the trapezoid sum over consecutive intervals, whose closed form and properties the lemmas above give |
| Hydrographs.ClockSplit | resources/debug_files/hydrology/modelling/Hydrograph.java:252-259 | the hours and minutes leave less than a minute of the span, the minutes stay under an hour, both toward zero for a negative span |
| Hydrographs.Digits | resources/debug_files/hydrology/modelling/Hydrograph.java:257 | the decimal text of a number is non-empty and made of digits |
| Hydrographs.DigitsRoundTrip | resources/debug_files/hydrology/modelling/Hydrograph.java:257 | reading the decimal text back gives the number |
| Hydrographs.HourMinReadsBack | resources/debug_files/hydrology/modelling/Hydrograph.java:252-259 | the text is the hours, `h`, the minutes and `min`; the first `h` ends the hours and both numbers read back to within a minute of the span |
| Hyetographs.IncrementsTotal | resources/hydrology/modelling/Hyetograph.java:27-32 | the interval depths taken as differences of the depth-duration curve add up to the curve's depth at the last interval |
| Hyetographs.PlacementBijective | resources/hydrology/modelling/Hyetograph.java:42-54 | the placement around the peak puts every increment at exactly one interval and fills every interval once |
| Hyetographs.SourceThenTarget | resources/hydrology/modelling/Hyetograph.java:42-54 | the increment placed at an interval is sent back to that interval |
| Hyetographs.TargetThenSource | resources/hydrology/modelling/Hyetograph.java:42-54 | the interval an increment is placed at receives that increment |
| Hyetographs.PeakCentred | resources/hydrology/modelling/Hyetograph.java:38-54 | rearranging the increments around the peak keeps the number of intervals |
| Hyetographs.PeakCentredPlaces | resources/hydrology/modelling/Hyetograph.java:42-54 | the first increment sits at the peak interval and every other increment at its place in the alternation above and below |
| Hyetographs.DesignStormTotal | resources/hydrology/modelling/Hyetograph.java:76-98 | the design storm has twelve intervals, its most intense hour in intervals 6 and 7, and a total equal to the six-hour depth |
| Hyetographs.SumThree | resources/hydrology/modelling/Hyetograph.java:76-98 | arithmetic helper for `Hyetographs.DesignStormTotal`: the sum of a three-entry series |
| Hyetographs.SumRangeStep | resources/hydrology/modelling/Hyetograph.java:176-178 | adding one more whole interval to the window's running sum |
| Hyetographs.DivMonotone | resources/hydrology/modelling/Hyetograph.java:171-172 | arithmetic helper for `Hyetographs.FloorsInside`: division by a positive interval keeps the order of non-negative times |
| Hyetographs.DivStrict | resources/hydrology/modelling/Hyetograph.java:171-172 | arithmetic helper for `Hyetographs.FloorsInside`: division by a positive interval keeps strict order |
| Hyetographs.SliceSum | resources/hydrology/modelling/Hyetograph.java:176-180 | the sum of a run of intervals is the difference of two prefix sums |
| Hyetographs.WindowIsDifference | resources/hydrology/modelling/Hyetograph.java:165-184 | inside the series the rainfall of a window is the depth fallen by its end less the depth fallen by its start |
| Hyetographs.WindowAtIsDifference | resources/hydrology/modelling/Hyetograph.java:171-180 | the same in interval positions |
| Hyetographs.WindowEndsInside | resources/hydrology/modelling/Hyetograph.java:176-180 | a window ending part-way through an interval counts only the fallen part of that interval |
| Hyetographs.PartialEnd | resources/hydrology/modelling/Hyetograph.java:179-180 | arithmetic helper for `Hyetographs.WindowEndsInside`: the algebra of the two corrections of `getRainfall` |
| Hyetographs.WindowEndsAtLast | resources/hydrology/modelling/Hyetograph.java:174-180 | a window ending at the end of the series counts its last interval whole |
| Hyetographs.FloorsInside | resources/hydrology/modelling/Hyetograph.java:171-174 | a window inside the series starts and ends at interval positions inside it |
| Hyetographs.CumulativeAligned | resources/hydrology/modelling/Hyetograph.java:165-184 | at the end of a whole interval the depth fallen is the sum of the intervals before it |
| Hyetographs.WindowAligned | resources/hydrology/modelling/Hyetograph.java:165-184 | a window aligned with the intervals receives exactly the rainfall of the whole intervals it covers |
| Hyetographs.MulNonNegative | resources/hydrology/modelling/Hyetograph.java:101-105 | arithmetic helper for `Hyetographs.WholeIntervals` and `Hyetographs.WindowAligned`: a product of non-negative numbers is non-negative |
| Hyetographs.ColumnLosesFirst | resources/hydrology/modelling/Hyetograph.java:263-272 | as written, the table column reads 0 at interval 0, so its total falls short of the storm's by the first depth |
| Hyetographs.FirstZeroedTotal | resources/hydrology/modelling/Hyetograph.java:263-272 | replacing the first depth by 0 takes it off the total |
| Hyetographs.FirstZeroed | resources/hydrology/modelling/Hyetograph.java:263-272 | the same for a series given as its first entry and the rest |
| Hyetographs.SingletonSum | resources/hydrology/modelling/Hyetograph.java:187-197 | the total of a one-interval series is its depth |
| Hyetographs.FirstIntervalExample | resources/hydrology/createHyetogram/CreateHyetogramAlgorithm.java:87-90 | a storm raining in its first interval shows no rain in the table row for time 0 |
| Hyetographs.ColumnIntended | resources/hydrology/createHyetogram/CreateHyetogramAlgorithm.java:87-90 | with every index read, the table column is the storm itself |
| Hyetographs.NormalizedTotal | resources/hydrology/modelling/Hyetograph.java:200-208 | a series divided by its own non-zero total sums to one |
| Hyetographs.IncrementsOf | resources/hydrology/modelling/Hyetograph.java:27-32 | the loop computes the increments of the depth-duration curve, which telescope to its last depth |
| Hyetographs.SourceStep | resources/hydrology/modelling/Hyetograph.java:43-54 | step `i` of the placement hands out the next increment above the peak and then the next one below it |
| Hyetographs.PlaceStep | resources/hydrology/modelling/Hyetograph.java:44-53 | after step `i` every interval within `i` of the peak holds the increment the placement assigns it |
| Hyetographs.PlaceAroundPeak | resources/hydrology/modelling/Hyetograph.java:36-54 | the placed series is the increments rearranged around the peak interval |
| Hyetographs.SumBetween | resources/hydrology/modelling/Hyetograph.java:176-178 | the loop adds exactly the whole intervals of the window |
| Hyetographs.Hyetograph.PeakCentredStorm | resources/hydrology/modelling/Hyetograph.java:13-57 | the storm has `time / interval` intervals holding the curve's increments placed around the peak interval `peakTime / interval - 1` |
| Hyetographs.Hyetograph.FromArray | resources/hydrology/modelling/Hyetograph.java:60-73 | the hyetograph holds a fresh copy of the given depths and the given interval |
| Hyetographs.Hyetograph.DesignStormOf | resources/hydrology/modelling/Hyetograph.java:76-98 | the half-hourly design storm of twelve intervals built from the half-hour, one-hour and six-hour depths |
| Hyetographs.Hyetograph.Delay | resources/hydrology/modelling/Hyetograph.java:115-125 | the depths move `time / interval` intervals later with no rain before them, and the interval count and the duration grow by that delay |
| Hyetographs.Hyetograph.Rainfall | resources/hydrology/modelling/Hyetograph.java:165-184 | the depth fallen over the window, which the lemmas above relate to the depth fallen by its end less that by its start |
| Hyetographs.Hyetograph.Intensity | resources/hydrology/modelling/Hyetograph.java:156-162 | the window's rainfall per second of the window |
| Hyetographs.Hyetograph.TotalRainfall | resources/hydrology/modelling/Hyetograph.java:187-197 | the total is the sum of all depths |
| Hyetographs.Hyetograph.AverageIntensity | resources/hydrology/modelling/Hyetograph.java:142-153 | the total depth per second of the storm |
| Hyetographs.Hyetograph.Normalize | resources/hydrology/modelling/Hyetograph.java:200-208 | every depth is divided by the total taken before the first division, so the new total is one |
| Hyetographs.Hyetograph.Normalized | resources/hydrology/modelling/Hyetograph.java:211-219 | a fresh normalised copy, leaving this hyetograph as it was |
| Grid.NeighboursDistinct | resources/debug_files/hydrology/strahlerOrder/StrahlerOrderAlgorithm.java:90-94 | the eight neighbour offsets lead to eight different cells |
| Grid.OppositeTwice | resources/debug_files/hydrology/strahlerOrder/StrahlerOrderAlgorithm.java:90-94 | turning a direction round twice (`(i + 4) % 8`) gives the direction back |
| Grid.HigherCell | resources/debug_files/hydrology/upslopeAreaFromPoint/UpslopeAreaFromPointAlgorithm.java:97-104 | a strictly higher valid cell has fewer cells above it and more below it, the measure on which the upslope recursions end |
| Grid.Paint | resources/hydrology/watersheds/WatershedsAlgorithm.java:213-215 | writing one label into a set of cells keeps the raster's cells |
| Grid.PaintAt | resources/hydrology/watersheds/WatershedsAlgorithm.java:213-215 | after painting, a painted cell holds the label and every other cell its old value |
| Grid.PaintTwice | resources/hydrology/watersheds/WatershedsAlgorithm.java:213-222 | painting two sets with the same label in turn paints their union |
| Grid.PaintOne | resources/hydrology/watersheds/WatershedsAlgorithm.java:215 | painting one cell is one `setCellValue` |
| Grid.ReadSnapshot | resources/hydrology/watersheds/WatershedsAlgorithm.java:211 | `getCellValueAsInt` reads the raster's value inside the window and the no-data value outside it |
| Grid.Store | resources/hydrology/watersheds/WatershedsAlgorithm.java:215 | `setCellValue` changes that one cell of the raster and no other |
| Grid.ScanCatMembers | resources/hydrology/watersheds/WatershedsAlgorithm.java:133-147 | a row-by-row scan that appends a list per cell holds exactly the entries of the scanned cells' lists |
| Grid.SelectMembers | resources/hydrology/watersheds/WatershedsAlgorithm.java:180-185 | the neighbours kept by a filtered neighbour loop are exactly those passing the filter |
| Grid.SelectCount | resources/hydrology/watersheds/WatershedsAlgorithm.java:180-185 | a filtered neighbour loop keeps one entry per passing direction |
| Drainage.DrainsReaches | resources/debug_files/hydrology/upslopeAreaFromPoint/UpslopeAreaFromPointAlgorithm.java:97-104 | a neighbour draining into `c` lies upslope of `c` |
| Drainage.ReachesLastStep | resources/debug_files/hydrology/upslopeAreaFromPoint/UpslopeAreaFromPointAlgorithm.java:97-104 | a flow path into `c` from another cell enters `c` through a neighbour that drains into it |
| Drainage.ReachesThrough | resources/debug_files/hydrology/upslopeAreaFromPoint/UpslopeAreaFromPointAlgorithm.java:97-104 | a cell upslope of a draining neighbour is upslope of `c` |
| Drainage.NotAboveDrainer | resources/debug_files/hydrology/strahlerOrder/StrahlerOrderAlgorithm.java:90-104 | a cell is never upslope of a neighbour that drains into it, so the upslope recursions do not loop |
| Drainage.BranchIff | resources/debug_files/hydrology/strahlerOrder/StrahlerOrderAlgorithm.java:90-104 | the cells upslope of draining neighbour `i` are exactly those whose flow path into `c` enters through `i` |
| Drainage.CoveredEnds | resources/debug_files/hydrology/upslopeAreaFromPoint/UpslopeAreaFromPointAlgorithm.java:97-104 | before the neighbour loop only `c` is covered, after it exactly the cells upslope of `c` |
| Drainage.BranchDisjoint | resources/debug_files/hydrology/strahlerOrder/StrahlerOrderAlgorithm.java:90-104 | the upslope area of one draining neighbour shares no cell with those of the later neighbours |
| Drainage.BranchesCount | resources/debug_files/hydrology/accFlow/AccFlowAlgorithm.java:170-186 | the recursive count over neighbours `k..7` is the number of cells in their upslope areas |
| AccFlow.D8At | resources/debug_files/hydrology/accFlow/AccFlowAlgorithm.java:193-204 | with the D8 method chosen, the cell's eight layers become its D8 shares and no other cell changes |
| AccFlow.Rho8At | resources/debug_files/hydrology/accFlow/AccFlowAlgorithm.java:207-227 | with the Rho8 method chosen, the cell's eight layers become its Rho8 shares and no other cell changes |
| AccFlow.DInfAt | resources/debug_files/hydrology/accFlow/AccFlowAlgorithm.java:230-246 | with the D-infinity method chosen, the cell's eight layers become its D-infinity shares and no other cell changes |
| AccFlow.MfdAt | resources/debug_files/hydrology/accFlow/AccFlowAlgorithm.java:249-282 | with the MFD method chosen, the cell's eight layers become its MFD shares and no other cell changes |
| AccFlow.DInfShareIs | resources/debug_files/hydrology/accFlow/AccFlowAlgorithm.java:230-246 | for a cell with an aspect, the D-infinity layer of each direction is that direction's part of the sector split |
| AccFlow.DInfWhole | resources/debug_files/hydrology/accFlow/AccFlowAlgorithm.java:230-246 | the two sector parts `1 - f` and `f` add up to the whole flow |
| AccFlow.MfdShareIs | resources/debug_files/hydrology/accFlow/AccFlowAlgorithm.java:273-280 | when the weights have a positive total, each MFD layer is its direction's weight over the total |
| AccFlow.MfdWhole | resources/debug_files/hydrology/accFlow/AccFlowAlgorithm.java:273-280 | weights divided by their total add up to the whole flow |
| AccFlow.MfdTotalPositive | resources/debug_files/hydrology/accFlow/AccFlowAlgorithm.java:259-271 | one valid, strictly lower neighbour makes the MFD total positive |
| AccFlow.D8LayersAreD8 | resources/debug_files/hydrology/accFlow/AccFlowAlgorithm.java:193-204 | the D8 method sends each cell's flow whole to at most one neighbour |
| AccFlow.D8AccIsCount | resources/debug_files/hydrology/accFlow/AccFlowAlgorithm.java:151-204 | with D8 layers and no weights, the accumulated flow of a valid cell is the number of cells upslope of it |
| AccFlow.D8Inflow | resources/debug_files/hydrology/accFlow/AccFlowAlgorithm.java:173-185 | a D8 drainer sends `c` its whole accumulated flow, which is its own upslope count |
| AccFlow.AccUnfold | resources/debug_files/hydrology/accFlow/AccFlowAlgorithm.java:151-190 | the accumulated flow of a valid cell is its weight plus the inflow of its eight neighbours |
| CellBalance.DirFrom | resources/hydrology/cellBalance/CellBalanceAlgorithm.java:138-140 | the first direction from `k` on that leads from `s` to `a`, and -1 when none does |
| CellBalance.D8At | resources/hydrology/cellBalance/CellBalanceAlgorithm.java:127-144 | with the D8 method chosen, every cell gains what `s` gives it by D8 |
| CellBalance.DInfAt | resources/hydrology/cellBalance/CellBalanceAlgorithm.java:147-175 | with the D-infinity method chosen, every cell gains what `s` gives it by D-infinity |
| CellBalance.MfdAt | resources/hydrology/cellBalance/CellBalanceAlgorithm.java:178-213 | with the MFD method chosen, every cell gains what `s` gives it by MFD |
| CellBalance.NoMethodNoGift | resources/hydrology/cellBalance/CellBalanceAlgorithm.java:90-100 | a method code outside the three cases of the switch gives nothing |
| CellBalance.D8Gift | resources/hydrology/cellBalance/CellBalanceAlgorithm.java:127-144 | D8 gives the whole weight of `s` to its downslope neighbour and nothing to any other cell |
| CellBalance.DInfGift | resources/hydrology/cellBalance/CellBalanceAlgorithm.java:147-175 | D-infinity gives the two sector neighbours their portions of the weight of `s` |
| CellBalance.DInfGivenNone | resources/hydrology/cellBalance/CellBalanceAlgorithm.java:153-158 | a source without data or without an aspect gives nothing by D-infinity |
| CellBalance.MfdGift | resources/hydrology/cellBalance/CellBalanceAlgorithm.java:178-213 | MFD gives each neighbour the weight of `s` times its share of the slope weights |
| CellBalance.D8Share | resources/hydrology/cellBalance/CellBalanceAlgorithm.java:127-144 | the D8 share of a direction is 1 for the downslope direction and 0 otherwise |
| CellBalance.DInfShare | resources/hydrology/cellBalance/CellBalanceAlgorithm.java:147-175 | the cell balance splits flow by D-infinity exactly as the flow accumulation does |
| CellBalance.MfdShare | resources/hydrology/cellBalance/CellBalanceAlgorithm.java:178-213 | the cell balance splits flow by MFD exactly as the flow accumulation does |
| CellBalance.InflowEnds | resources/hydrology/cellBalance/CellBalanceAlgorithm.java:84-104 | before the scan a cell has received nothing, after it the gifts of every source |
| CellBalance.InflowStep | resources/hydrology/cellBalance/CellBalanceAlgorithm.java:88-102 | processing one more cell of the scan adds its gift to every receiver |
| CellBalance.OutTotalIsPortion | resources/hydrology/cellBalance/CellBalanceAlgorithm.java:127-213 | what a source gives its eight neighbours is the weight taken by the sum of its shares |
| Cells.LeastFirst | resources/debug_files/hydrology/slopeLength/SlopeLengthAlgorithm.java:167 | what is inserted behind the head of a sorted list is never below the head |
| ChannelNetwork.RowHeadersExact | resources/debug_files/hydrology/channelNetwork/ChannelNetworkAlgorithm.java:137-163 | a row's part of the list holds exactly the heads of that row left of the scan position |
| ChannelNetwork.TraceEnd | resources/debug_files/hydrology/channelNetwork/ChannelNetworkAlgorithm.java:198-208 | the trace from a cell without a downslope direction marks that cell alone |
| ChannelNetwork.OnChannelStep | resources/debug_files/hydrology/channelNetwork/ChannelNetworkAlgorithm.java:112-116 | tracing one more head adds exactly the cells on its flow path |
| ChannelNetwork.ListedAboveIff | resources/debug_files/hydrology/channelNetwork/ChannelNetworkAlgorithm.java:112-116 | a cell lies below some listed head exactly when it is on the network |
| ChannelNetwork.AnyBelowIff | resources/debug_files/hydrology/channelNetwork/ChannelNetworkAlgorithm.java:112-116 | the bounded search finds a match among the first `k` indices exactly when one exists |
| ChannelNetwork.FeedOrderAt | resources/debug_files/hydrology/channelNetwork/ChannelNetworkAlgorithm.java:245-250 | the entry of a feeding neighbour is that neighbour's order |
| ChannelNetwork.FeedOrderOff | resources/debug_files/hydrology/channelNetwork/ChannelNetworkAlgorithm.java:245-250 | the entry of a neighbour that does not feed the cell is 0 |
| ChannelNetwork.ChMaxAtMostOrder | resources/debug_files/hydrology/channelNetwork/ChannelNetworkAlgorithm.java:252-264 | the highest feeding order never exceeds the cell's own order |
| ChannelNetwork.NoFeeders | resources/debug_files/hydrology/channelNetwork/ChannelNetworkAlgorithm.java:242-264 | with no feeding neighbour in the first `k` directions the maximum is 1 and nothing is counted |
| ChannelNetwork.CountAboveTop | resources/debug_files/hydrology/channelNetwork/ChannelNetworkAlgorithm.java:252-255 | no entry equals a value above the running maximum |
| ChannelNetwork.TopOfNonPositive | resources/debug_files/hydrology/channelNetwork/ChannelNetworkAlgorithm.java:252-258 | with no positive entry the maximum stays 1 and no entry equals it |
| ChannelNetwork.SettleList | resources/debug_files/hydrology/channelNetwork/ChannelNetworkAlgorithm.java:266-270 | settling a cell keeps the junction list in step with the settled cells |
| ChannelNetwork.NoRepeatsDistinct | resources/debug_files/hydrology/channelNetwork/ChannelNetworkAlgorithm.java:266-270 | a list that records no position twice has its entries at pairwise different cells |
| ChannelNetwork.ScanDone | resources/debug_files/hydrology/channelNetwork/ChannelNetworkAlgorithm.java:214-226 | when the scan ends every network cell holds its order and the list holds the junctions |
| ChannelLines.LinesDown | resources/debug_files/hydrology/channelNetwork/ChannelNetworkAlgorithm.java:301-349 | one feature per sorted entry; the downslope index is carried over between features and not reset |
| ChannelLines.LinesStep | resources/debug_files/hydrology/channelNetwork/ChannelNetworkAlgorithm.java:301-349 | one turn of the feature loop, appended to the features drawn so far, draws the walk from the entry and carries its downslope index on |
| ChannelLines.WalkMakesLine | resources/debug_files/hydrology/channelNetwork/ChannelNetworkAlgorithm.java:309-336 | a feature drawn by the walk starts at its cell and follows the flow path |
| ChannelLines.LinesDownDrawn | resources/debug_files/hydrology/channelNetwork/ChannelNetworkAlgorithm.java:301-349 | every feature is the walk from its sorted entry |
| ChannelLines.LinesDownChained | resources/debug_files/hydrology/channelNetwork/ChannelNetworkAlgorithm.java:301-349 | a feature whose walk takes no step repeats the downslope index of the feature before it |
| ChannelLines.LinesStart | resources/debug_files/hydrology/channelNetwork/ChannelNetworkAlgorithm.java:302-306 | feature `j` starts at the `j`-th entry counted from the top of the sorted list |
| ChannelLines.LineOrder | resources/debug_files/hydrology/channelNetwork/ChannelNetworkAlgorithm.java:312 | a feature's order attribute is the network value at its start |
| ChannelLines.JoinedEnd | resources/debug_files/hydrology/channelNetwork/ChannelNetworkAlgorithm.java:315-336 | at a cell without a direction the walk takes no step |
| StrahlerOrder.MaxUp | resources/debug_files/hydrology/strahlerOrder/StrahlerOrderAlgorithm.java:94-100 | the running maximum over the draining neighbours is at least 1 |
| StrahlerOrder.MaxUpReached | resources/debug_files/hydrology/strahlerOrder/StrahlerOrderAlgorithm.java:94-100 | when a drainer has order `v` and none has more, the running maximum is `v` |
| StrahlerOrder.MaxUpAtMost | resources/debug_files/hydrology/strahlerOrder/StrahlerOrderAlgorithm.java:94-100 | when no drainer has an order above `v`, neither has the running maximum |
| StrahlerOrder.NoDrainers | resources/debug_files/hydrology/strahlerOrder/StrahlerOrderAlgorithm.java:90-105 | with no draining neighbour the maximum is 1 and the count of 1 is 0 |
| StrahlerOrder.CountTwo | resources/debug_files/hydrology/strahlerOrder/StrahlerOrderAlgorithm.java:97-100 | two drainers counted at the maximum make the count at least 2 |
| StrahlerOrder.CountUnique | resources/debug_files/hydrology/strahlerOrder/StrahlerOrderAlgorithm.java:97-100 | when at most one drainer has order `v`, the count of `v` is at most 1 |
| FillSinks.StartCorner | resources/hydrology/fillSinks/FillSinksAlgorithm.java:89-136 | every scan starts at the corner of its own frame |
| FillSinks.FrameInside | resources/hydrology/fillSinks/FillSinksAlgorithm.java:204-219 | a position is inside the grid exactly when it is inside the scan's frame |
| FillSinks.FrameInjective | resources/hydrology/fillSinks/FillSinksAlgorithm.java:204-219 | two positions with the same frame coordinates are the same position |
| FillSinks.DoneAtEnd | resources/hydrology/fillSinks/FillSinksAlgorithm.java:204-219 | when `nextCell` leaves the grid, every cell on the scan's path has been done |
| FillSinks.DoneStep | resources/hydrology/fillSinks/FillSinksAlgorithm.java:204-219 | after `nextCell` the cells done are those done before plus the cell just left |
| WatershedDirections.DirsAreStored | resources/hydrology/watersheds/WatershedsAlgorithm.java:113-130 | a prepared directions raster holds exactly the stored direction of every window cell |
| WatershedDirections.MapDrains | resources/hydrology/watersheds/WatershedsAlgorithm.java:222 | reading `i` in neighbour `i` of the prepared raster means that neighbour drains into `c` |
| WatershedDirections.SameMaps | resources/hydrology/watersheds/WatershedsAlgorithm.java:113-130 | two rasters that both hold the stored directions are equal |
| WatershedOutlets.UpRiversStep | resources/hydrology/watersheds/WatershedsAlgorithm.java:180-185 | direction `i` extends the list of upslope river cells by its neighbour exactly when that neighbour is one |
| WatershedOutlets.BranchMembers | resources/hydrology/watersheds/WatershedsAlgorithm.java:180-185 | a cell is on the list `addOutlet` scans exactly when it is a river neighbour draining into `c` |
| WatershedOutlets.JunctionCase | resources/hydrology/watersheds/WatershedsAlgorithm.java:179-200 | at a river cell not handled by the earlier cases the outlets are the junction rule over its upslope river cells |
| WatershedOutlets.OwnOutlet | resources/hydrology/watersheds/WatershedsAlgorithm.java:166-178 | off the network there are no outlets, and the cell itself is the outlet in the cases the first tests name |
| WatershedOutlets.OutletsAreRiverCells | resources/hydrology/watersheds/WatershedsAlgorithm.java:150-203 | every outlet `addOutlet` records lies in the window on a river cell |
| WatershedOutlets.OutletSources | resources/hydrology/watersheds/WatershedsAlgorithm.java:150-203 | every outlet is the cell itself or one of its upslope river cells |
| WatershedOutlets.BranchIsRiverCell | resources/hydrology/watersheds/WatershedsAlgorithm.java:180-185 | an upslope river cell `addOutlet` finds is a window river cell |
| WatershedBasins.ExpandStep | resources/hydrology/watersheds/WatershedsAlgorithm.java:217-223 | one turn of the neighbour loop labels the unlabelled upslope area of neighbour `i` and counts it |
| WatershedBasins.DoneStep | resources/hydrology/watersheds/WatershedsAlgorithm.java:217-223 | visiting neighbour `i` adds its upslope area when it drains into `c`, disjoint from what was visited, and nothing otherwise |
| WatershedBasins.BasinStart | resources/hydrology/watersheds/WatershedsAlgorithm.java:215 | labelling `c` itself starts the loop with a count of 1 |
| WatershedBasins.NothingFree | resources/hydrology/watersheds/WatershedsAlgorithm.java:213 | a cell that is labelled or off the window has nothing left to label upslope |
| WatershedBasins.BranchCount | resources/hydrology/watersheds/WatershedsAlgorithm.java:217-223 | neighbour `i`'s unlabelled area and those of the later neighbours are counted apart |
| WatershedBasins.BranchFree | resources/hydrology/watersheds/WatershedsAlgorithm.java:217-223 | when everything above labelled cells is labelled, that holds at a draining neighbour too |
| Watersheds.Rollback | resources/hydrology/watersheds/WatershedsAlgorithm.java:102-107 | the second `getBasin` of a basin below the minimum size starts at an outlet whose area is already labelled, so the raster does not change |
| Watersheds.AlreadyCovered | resources/hydrology/watersheds/WatershedsAlgorithm.java:102-107 | after a turn, nothing upslope of its outlet is left unlabelled |
| Watersheds.UndoReady | resources/hydrology/watersheds/WatershedsAlgorithm.java:102-107 | after a turn the raster is ready for a second `getBasin` from its outlet, which finds nothing to label |
| Watersheds.FreshIsUnlabelled | resources/hydrology/watersheds/WatershedsAlgorithm.java:99-102 | the cells a turn labels are the cells upslope of its outlet not labelled before |
| Watersheds.AreaAt | resources/hydrology/watersheds/WatershedsAlgorithm.java:99-102 | the area of a turn is the window cells whose flow path passes through its outlet |
| Watersheds.CoveringMeaning | resources/hydrology/watersheds/WatershedsAlgorithm.java:97-108 | a labelled cell is a window cell whose flow path passes through an earlier outlet |
| Watersheds.CoveringGrows | resources/hydrology/watersheds/WatershedsAlgorithm.java:97-108 | once labelled, a cell stays labelled |
| Watersheds.CounterNonNegative | resources/hydrology/watersheds/WatershedsAlgorithm.java:97-108 | the id counter never goes below 0 |
| Watersheds.LabelsKeys | resources/hydrology/watersheds/WatershedsAlgorithm.java:97-108 | labelling keeps the raster's cells |
| Watersheds.UnlabelledKeys | resources/hydrology/watersheds/WatershedsAlgorithm.java:47-48 | the blank raster covers the window and carries no basin |
| Watersheds.KeptGrows | resources/hydrology/watersheds/WatershedsAlgorithm.java:102-107 | when small basins are erased, what the kept basins cover only grows |
| Watersheds.KeptCounterNonNegative | resources/hydrology/watersheds/WatershedsAlgorithm.java:102-107 | when small basins free their ids, the counter never goes below 0 |
| Series.SumZeros | resources/debug_files/hydrology/modelling/Hydrograph.java:27-41 | the zeros a delay puts in front add nothing to the total |
| Grid.Trunc | resources/debug_files/hydrology/accFlow/AccFlowAlgorithm.java:216 | the `(int)` cast of a double truncates toward zero: the result has the sign of its argument and lies within one below it in size |
| Grid.FMod | resources/debug_files/hydrology/accFlow/AccFlowAlgorithm.java:218 | Java's `%` on doubles takes the sign of the dividend and is smaller in size than the divisor |
| AccFlow.Sector | resources/debug_files/hydrology/accFlow/AccFlowAlgorithm.java:216 | a non-negative aspect lies in its sector's 45-degree band, and an aspect below 360 gives a sector in 0..7 |
| AccFlow.Rho8Dir | resources/debug_files/hydrology/accFlow/AccFlowAlgorithm.java:216-221 | the Rho8 direction is in 0..7, either the aspect's sector or the next one, and the next one whenever the fraction past the sector exceeds the draw |
| WatershedsBySize.SizeClass | resources/debug_files/hydrology/watershedsBySize/WatershedsBySizeAlgorithm.java:178 | the class is a 32-bit value, non-negative for a non-negative accumulation and a positive size; with a zero size it is 0 exactly for a zero accumulation |
| Isocrones.StepLength | resources/hydrology/isocrones/IsocronesAlgorithm.java:153-161 | a step is 0 long exactly when it stays on the cell, and otherwise a side or a corner length |
| Hydrographs.HourMin | resources/debug_files/hydrology/modelling/Hydrograph.java:252-259 | the text holds the `h` separator and ends in `min`; the digits on each side and their meaning are stated, for a non-negative span, by `Hydrographs.HourMinReadsBack` |
| Hyetographs.Hyetograph.Intervals | resources/hydrology/modelling/Hyetograph.java:108-112 | the number of intervals is the number of entries, and no interval from there on reads any rain |
| Hyetographs.Hyetograph.Duration | resources/hydrology/modelling/Hyetograph.java:101-105 | for a positive interval the duration is a whole number of intervals, exactly as many as the series holds |
| Hyetographs.Hyetograph.RainfallAtInterval | resources/hydrology/modelling/Hyetograph.java:263-272 | an index strictly between 0 and the length reads its entry; every other index, interval 0 included, reads 0 |

## Left out

- Progress reporting (`setProgress`, `setProgressText`) and the parameter, output-layer and framework plumbing of every algorithm are not modelled; loops run to completion. Cancellation is modelled only where it changes the result, as the `cancelled` parameter of `DistToChannelNetwork` and `ExclusionAreas`.
- The host raster primitives are parameters or contracts, not code: the downslope direction (`Grid.Dir`), the neighbour distance (`Grid.Dist`), the aspect, the slope and the `Math.pow` MFD weights. Their internals belong to the host library, which is not part of this model.
- Grid.Dir: states the part of the host's contract the model relies on: -1, or a direction to a valid, strictly lower neighbour. Which lower neighbour the host picks (steepest descent) is not stated. The host's default overload can also point a valid border cell at a no-data neighbour or off the grid; the model does not capture this, so its default direction never leads onto no-data.
- Grid.Inner: the overload called with `false` is a second direction under the same contract, which may be -1 at any cell. The host's rule for when it answers -1 (at cells on the border of the data) is not stated.
- For the algorithms that only gather from the valid neighbours draining into a valid cell (the D8 recursion of `AccFlow`, `MaxValueUphill`, `MeanValueUphill`, `StrahlerOrder`, `UpslopeAreaFromArea`, `Isocrones`), a direction onto no-data never leads into a valid cell and so acts like -1; for them the gap in `Grid.Dir` is the same as a -1 at that cell.
- SlopeLength.SetLength: the guard of `SlopeLengthAlgorithm.java:119-120`, which leaves the cell unchanged when its direction leads onto no-data, never fires in the model, because `Grid.Dir` never leads onto no-data.
- CellBalance.DoD8: a weight the host adds to a no-data neighbour or to a cell off the grid (`CellBalanceAlgorithm.java:136-141`) is not modelled; in the model every D8 weight lands on a valid cell.
- ChannelNetwork.TraceChannel: a trace whose next step leads onto no-data or off the grid is not modelled; in the model every step lands on a valid cell.
- ChannelNetwork.ScanOrders: the list of heads and junctions is stated as a set (every junction once, nothing else added), not as a sequence. The Java appends a junction after the recursion into its upslope cells (`ChannelNetworkAlgorithm.java:250`, `266-268`), inside the row scan of line 222, so the list is in post-order. That order is not stated. It decides the index `indexOf` returns at line 324 and the order of ties after the stable sort at line 302, and therefore the feature IDs.
- ChannelLines.CalculateChannelNetwork: states the junction list only as a set, as `ChannelNetwork.ScanOrders` does; the order of features with equal elevation, and so their IDs, is not determined by the model.
- ChannelLines.CreateLines: a head or junction whose downslope direction is -1 yields a feature of one vertex, because the `do … while` of `ChannelNetworkAlgorithm.java:315-333` adds no second point. The Java hands that single coordinate to `createLineString` at line 347, and the geometry library rejects a line of one point with an exception. That exception is not modelled; the model keeps the one-vertex feature.
- ChannelLines.Lines: yields the one-vertex feature described for `ChannelLines.CreateLines` and does not model the exception.
- ChannelLines.WalkLine: a walk whose next step leads onto no-data or off the grid is not modelled; in the model every step lands on a valid cell.
- WatershedsBySize.CalculateOutlets: a cell whose direction leads onto no-data or off the grid is not modelled; in the model the accumulation is always read at a valid successor.
- The unseeded `Math.random` of Rho8 (`AccFlowAlgorithm.java:207-227`) is the parameter `random`, one draw per cell supplied by the caller.
- Floating-point rounding is not modelled; values are exact reals. This covers the `0.15f`-style constants of the three-value hyetograph constructor and the `(float)` division of the peak interval in `Hyetograph.java:36`. Integer-to-double divisions are modelled exactly, since they are exact in double for 32-bit operands.
- 32-bit `int` overflow of cell counts and interval arithmetic is not modelled; the `(int)` casts of doubles are written out as truncation toward zero, and as saturation where a quotient can leave the range (`WatershedsBySize.JavaInt`).
- The depth-duration curve of `getIntensity(dTime, dP24, iRatioI1)` (`Hyetograph.java:222-232`, `Math.pow`) is the parameter `depthAt` of `Hyetographs.Hyetograph.PeakCentredStorm`.
- The time-of-concentration speed formula (`IsocronesAlgorithm.java:116-119`) is the parameter `speedOf`, required positive.
- Hyetographs.Hyetograph.Normalize: requires a non-zero total, because the code's division by a zero total yields IEEE infinities or NaN, which reals cannot represent.
- Hyetographs.Hyetograph.Normalized: requires a non-zero total, for the same reason as `Normalize`.
- Hyetographs.Hyetograph.Intensity: requires a non-zero duration, because division by zero gives an IEEE infinity or NaN.
- Hyetographs.Hyetograph.AverageIntensity: requires a series whose length times its interval is non-zero, because the code divides by that duration.
- Hyetographs.Hyetograph.PeakCentredStorm: requires a positive interval and a peak interval index (`Hyetograph.java:36`) inside the series. For any other peak the store at `Hyetograph.java:42` is outside the array and throws `ArrayIndexOutOfBoundsException`; that exception is not modelled.
- Hyetographs.Hyetograph.Rainfall: requires a window whose clamped interval indices lie in the series; any other window makes the code index outside its array, and that exception is not modelled.
- Hydrographs.Hydrograph.Delay: requires at least one interval of flow and a positive interval. The zero-filling loop writes one entry past the delay, which is out of bounds on an empty hydrograph, and a zero interval divides by zero. It also requires a non-negative delay in whole intervals: a negative one either makes the new array's length negative (`NegativeArraySizeException` at `Hydrograph.java:31`) or makes the copy at line 37 store at a negative index (`ArrayIndexOutOfBoundsException`). Neither exception is modelled.
- Hyetographs.Hyetograph.Delay: requires a positive interval and a non-negative delay in whole intervals. A negative delay either makes the new array's length negative (`NegativeArraySizeException` at `Hyetograph.java:118`) or makes the copy at line 121 store at a negative index (`ArrayIndexOutOfBoundsException`). Neither exception is modelled.
- Hydrographs.Hydrograph.Flow: requires the time to fall inside the series; the code throws outside it, and that exception is not modelled.
- The time interval of both series is required to be positive wherever it divides; the code's behaviour for a zero or negative interval (IEEE division) is not modelled.
- The accessors `getName`/`setName`, `getCoords`/`setCoords`, `getFlowArray`, `getRainfallArray`, `getTimeInterval` and `getLengthInIntervals` are not modelled. Neither is `toString`, apart from its time format (`Hydrographs.HourMin`). The class fields are read directly instead.
- The commented-out Muskingum routing and `getPtArray` of `Hydrograph.java` (lines 83-139 and 216-226) are not code and are not modelled.
- `HydroModelAlgorithm` and `CreateHyetogramAlgorithm` are not part of this model. The hyetogram table loop of `CreateHyetogramAlgorithm.java:87-90` appears only as `Hyetographs.Column`, to state a finding.
- World coordinates of the channel network features are not modelled; a feature's vertices are grid cells and its attributes are the id, length, order and downslope index.
- FillSinks.Fill: the drainage promise is proved in two weaker parts. (1) Every valid cell that is not a border cell and lies below the initial level 50000 has a valid neighbour lower than it by at least that neighbour's minimum drop. This holds after every pass, converged or not, but only when every elevation is below 50000 and the no-data value of the border raster is not 1; it is a local, one-step property, and no path to the border is stated. (2) After convergence no valid cell is left at the initial level, proved only under `FillSinks.Headroom`: every elevation plus `nx` times the drop towards direction 6 stays below 50000. The Java checks neither condition. A cell at or above 50000 is never lowered by the `wz > z` test at line 167, and a border near 50000 can leave inner cells at 50000.
- AccFlow.GetFlow: requires "downhill" flow layers, in which every positive share goes to a valid, strictly lower neighbour. This holds for D8 and MFD layers (`AccFlow.D8Downhill`, `AccFlow.MfdDownhill`). D-infinity and Rho8 sectors come from the host's aspect, which nothing here ties to the elevations, so for them the recursion's termination is not established.
- AccFlow.FlowAccumulation: requires downhill flow layers, as `AccFlow.GetFlow` does. For D-infinity or Rho8 layers with a share towards a cell that is not lower, the Java still terminates: `getFlow` writes the cell's own weight before it recurses (`AccFlowAlgorithm.java:171`), so a cycle reads a partial value and the result depends on the order of the visits. The model does not capture that result.
- AccFlow.CalculateAccFlows: requires downhill flow layers, for the same reason as `AccFlow.FlowAccumulation`; the order-dependent result on layers with uphill shares is not modelled.
- AccFlow.AccStep: requires downhill flow layers, for the same reason as `AccFlow.FlowAccumulation`; the order-dependent result on layers with uphill shares is not modelled.
- Isocrones.TimeToOutlet: requires `speedOf` to be positive. When the outlet is the only valid cell draining to itself, the time-of-concentration speed of `IsocronesAlgorithm.java:116-119` is `pow(0/0)`, which is NaN, so the outlet's time `dTime` computed at line 162 is NaN, and line 172 writes it; the model writes 0.0 there and does not represent NaN.
- WatershedsBySize.BasinsBySize: takes the accumulated-flow raster as an input. The nested flow-accumulation run of the Java is not linked to `AccFlow.FlowAccumulation`. The cancellation check between the outlets and the labelling is not modelled.
- Watersheds.CalculateBasins: models the small-basin rollback as written; the intended erase-and-free labelling is stated separately as `Watersheds.KeptLabels` (see Findings).
- MaxValueUphill.MaxValues: models the `NOT_VISITED` result of cells without a parameter value as written; the intended maximum is stated separately as `MaxValueUphill.MaxUpIntended` (see Findings).
- ExclusionAreas.CreateExclusionAreas: requires the outlet to lie in the grid window. The Java takes the outlet from `getGridCoordsFromWorldCoords` (`CreateExclusionAreasAlgorithm.java:73`) without a range check; for a point outside the grid, `getCellValueAsInt` at line 97 reads no-data and the store into `m_IsCellAlreadyVisited` at line 100 throws `ArrayIndexOutOfBoundsException`. That exception is not modelled.
- ExclusionAreas.Exclude: requires the outlet to lie in the grid window, for the same reason as `ExclusionAreas.CreateExclusionAreas`.
- ExclusionAreas.MarkOutlet: requires the outlet to lie in the grid window; the out-of-bounds store at `CreateExclusionAreasAlgorithm.java:100` is not modelled.
- CellBalance.CalculateInFlows: requires the inflow raster to start at zero. The Java creates `m_CellBalance` (`CellBalanceAlgorithm.java:43`) and only adds to it, without an `assign(0.0)`; the model assumes the host's new raster is zero-filled.
- CellBalance.NetBalance: creates the inflow raster filled with zeros, the same assumption about the host's new raster as `CellBalance.CalculateInFlows`.
- The flow-accumulation, Strahler and upslope recursions run on the JVM stack; stack overflow on large catchments is not modelled.

## Findings

| source | as written | input that shows it | evidently intended | confidence | as-written member | corrected member |
|---|---|---|---|---|---|---|
| resources/hydrology/modelling/Hyetograph.java:263-272 | `getRainfallAtInterval` returns an entry only for `0 < i < length`, so interval 0 reads 0; the hyetogram table of `CreateHyetogramAlgorithm.java:87-90` asks for intervals from 0 and so loses the first depth | the storm `[2.0, 1.0]`, interval 0: read 0.0 instead of 2.0 | every interval `0 <= i < length` returns its entry, so the table is the storm itself | not executed | Hyetographs.ColumnLosesFirst, Hyetographs.FirstIntervalExample | Hyetographs.ColumnIntended |
| resources/hydrology/watersheds/WatershedsAlgorithm.java:102-107 | a basin below the minimum size is meant to be erased: the code sets the counter to `NO_BASIN` and calls `getBasin` again, but that call starts at an outlet that is already labelled and changes nothing; only the counter rolls back, so the next basin reuses the small basin's id | two one-cell basins with a minimum size of 2: both cells end up labelled 1 | a small basin is erased and frees its id, so every id left on the raster labels at least the minimum number of cells and no two basins share one | not executed | Watersheds.SmallBasinSharesId, Watersheds.SharedIdExample | Watersheds.KeptSizes, Watersheds.KeptIdsDistinct |
| resources/hydrology/maxValueUphill/MaxValueUphillAlgorithm.java:105-131 | the result starts at `NOT_VISITED` (-1) and a cell without a parameter value keeps -1 as its running maximum, so -1 competes with the upslope values | a one-cell window whose cell has an elevation but no parameter value: reports -1 instead of no-data; upslope values all below -1 also give -1 | the maximum over the upslope cells that have a value, and no-data when none has | not executed | MaxValueUphill.MinusOneWins, MaxValueUphill.OneCellWindow | MaxValueUphill.IntendedIsMaximum |
