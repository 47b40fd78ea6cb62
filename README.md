# Transport problem: North-West Corner and Minimum Element

This project models in Dafny the two construction heuristics of the
`TransportProblem` class in `Program.cs`. The classical transportation problem
has N sources with supplies, M sinks with demands and an N×M matrix of unit
costs. Each heuristic fills an N×M allocation matrix by repeatedly shipping, at
one cell, as much as both its source and its sink allow. It returns the matrix
together with the total cost, the sum of allocation times unit cost.

- **North-West Corner** (`NorthWestCornerMethod`) starts a cursor in the
  top-left cell. After each shipment the cursor moves down when the source is
  used up and right when the sink is satisfied; it moves both ways at once in a
  degenerate step. Costs are read only to total the bill.
- **Minimum Element** (`MinElementMethod`) scans the whole matrix in row-major
  order each round. It picks the first cheapest cell whose source still has
  supply and whose sink still has demand, and ships there. It stops when the
  scan finds no cell. The scan starts from `int.MaxValue` and accepts a cell
  only when its cost is strictly below the best so far. So a cell is never
  chosen when it costs `int.MaxValue`, and ties go to the earliest cell.

Both methods use up the caller's `supply` and `demand` arrays in place. The
model keeps that form: the methods work on `array<int>` and `array2<int>` and
name the two arrays in `modifies`.

The model has four modules:

- `Ledger` (`ledger.dfy`) holds the shared bookkeeping:
  - sums, grids and the `Tableau` value (remaining supply, remaining demand,
    allocation);
  - `Ship`, the one step both heuristics take;
  - `Conserved`: every row of the allocation plus what its source still holds
    equals the original supply, and every column plus what its sink still
    needs equals the original demand;
  - `Satisfies`: row sums equal the supplies and column sums equal the demands.
- `NorthWestCorner` (`north_west.dfy`) defines the cursor walk as a pure
  function, `WalkFrom`/`NorthWest`, and proves what it guarantees.
- `MinimumElement` (`min_element.dfy`) defines the scan (`Scan`/`Choice`) and
  the greedy run (`GreedyFrom`/`MinElement`) as pure functions, and proves what
  they guarantee.
- `TransportProblem` (`transport_problem.dfy`) holds the two methods as they
  run over arrays. The scan of one Minimum Element round is `FindMinCell`, and
  the shipment step the two methods share is `Allocate`. Each method's loop
  invariant says that the reference function, applied to the current arrays,
  still ends in the same final tableau. So the final arrays are the tableau
  of the reference function, and the lemmas about that function carry over.

Neither heuristic checks the shape of the cost matrix, or whether supply and
demand balance. When the Minimum Element scan finds no cell, the loop ends
without an error. The model follows this: every property that needs a
balanced, non-negative problem is stated as an implication with those
conditions as hypotheses, not as a precondition. For Minimum Element the
hypotheses also include that every cost is below `int.MaxValue`, because of
the scan's starting value.

## Model

| member | source | states |
|---|---|---|
| TransportProblem.NorthWestCornerMethod | Program.cs:49-75 | allocation is a new N×M matrix; the final arrays are exactly the North-West walk's tableau (`NorthWest`, the walk from the top-left corner) and the ghost `path` is the walk's list of cursor cells; rows and columns are conserved against the original arrays; all supply or all demand is used up; non-negative input stays non-negative; on a balanced non-negative problem everything is used up and the allocation meets every supply and demand; totalCost is the sum of allocation times cost |
| TransportProblem.MinElementMethod | Program.cs:5-46 | allocation is a new N×M matrix; the final arrays are exactly the greedy run's tableau and the ghost `rounds` is its number of shipping rounds; rows and columns are conserved; no allocation is negative; no open cell costs below int.MaxValue at the end; non-negative input stays non-negative; on a balanced non-negative problem with costs below int.MaxValue everything is used up and the allocation meets every supply and demand; totalCost is the sum of allocation times cost |
| TransportProblem.FindMinCell | Program.cs:14-29 | the scan result equals `Choice`; the row is -1 exactly when the column is -1, and exactly when every open cell costs int.MaxValue or more, with the cost then int.MaxValue; otherwise the cell is open, costs no more than any open cell, strictly less than every earlier open cell, and its cost is returned |
| TransportProblem.Allocate | Program.cs:36-42 | ships min(supply, demand) at the cell: the arrays become `Ship` of the old tableau, and the cost total grows by amount times the cell's cost |
| Ledger.Min | Program.cs:36 | `Math.Min`: a lower bound of both arguments and equal to one of them |
| Ledger.Ship | Program.cs:60-66 | after a shipment the source or the sink at the cell is at zero; the amount shipped equals what both the source and the sink lost; no other entry changes; shipping between non-negative ends ships a non-negative amount and leaves both non-negative; shipping between positive ends ships a positive amount |
| Ledger.StartConserved | Program.cs:9-10 | the zero allocation with the untouched arrays is conserved |
| Ledger.ShipConserves | Program.cs:36-42 | a shipment at an empty cell keeps rows and columns conserved |
| Ledger.ShipBalance | Program.cs:41-42 | a shipment lowers total supply and total demand by the same amount |
| Ledger.ShipProgress | Program.cs:36-42 | a shipment between a positive source and a positive sink strictly lowers the number of positive supply and demand entries (why Minimum Element terminates) |
| Ledger.Zeros | Program.cs:9 | `new int[suppliers, consumers]`: an N×M grid whose every entry is zero |
| Ledger.Start | Program.cs:53 | the state both loops start from: the caller's supply and demand untouched and an N×M allocation |
| Ledger.TotalZeros | Program.cs:10 | the total cost of the all-zero allocation is 0, the starting value of `totalCost` |
| Ledger.TotalNonNegative | Program.cs:62 | `Total`, the sum of allocation times cost over all cells that `totalCost` accumulates, is non-negative when the allocation and the costs are |
| NorthWestCorner.WalkFrom | Program.cs:56-72 | the cursor loop from cursor (i, j) as a function: ship at the cursor, move down if the source is used up, right if the sink is satisfied; it keeps the tableau's shape, and `NorthWest` is this walk from (0, 0) with nothing shipped |
| MinimumElement.Pick | Program.cs:22-27 | the test at one cell: the held best changes only to this cell, and only when it is open and strictly cheaper; it then always changes; the cost never rises |
| MinimumElement.Scan | Program.cs:18-29 | the nested scan from cell (r, c): the result never costs more than the best it started with, and when it differs it is an open cell, strictly cheaper, with its own cost |
| MinimumElement.Choice | Program.cs:14-29 | the scan of one round: either nothing found (int.MaxValue, -1, -1) or an open cell costing less than int.MaxValue, with its cost |
| MinimumElement.GreedyFrom | Program.cs:12-43 | the round loop as a function: scan, stop when nothing was found, otherwise ship at the chosen cell and count the round; it keeps the tableau's shape and terminates by the number of positive entries |
| MinimumElement.MinElement | Program.cs:5-46 | the greedy run from nothing shipped, an N×M tableau |
| Ledger.TotalPut | Program.cs:38 | writing v into an empty cell adds v times that cell's cost to the total |
| NorthWestCorner.WalkStep | Program.cs:57-71 | the cursor cell is still empty when the cursor reaches it, the cells below and right of the next cursor stay empty, and the rest of the walk ends where the whole walk does |
| NorthWestCorner.StepInv | Program.cs:59-71 | one turn of the loop keeps conservation, the zeroed rows and columns behind the cursor, the empty quadrant ahead, the balance, the signs and the shape of the path |
| NorthWestCorner.WalkFromFinishes | Program.cs:57-72 | from any state meeting the loop invariant the walk ends conserved, with all supply or all demand used up, and with the path invariant intact |
| NorthWestCorner.NorthWestConserves | Program.cs:57-72 | for every input: rows and columns conserved, and the walk stops only once all supply or all demand is used up |
| NorthWestCorner.NorthWestNonNegative | Program.cs:59-66 | non-negative supply and demand give a non-negative allocation and non-negative leftovers |
| NorthWestCorner.NorthWestExhausts | Program.cs:57-72 | a balanced non-negative problem is used up completely and the allocation meets every supply and every demand |
| NorthWestCorner.NorthWestOutcome | Program.cs:49-75 | the walk's final tableau meets everything `NorthWestCornerMethod` promises (`Outcome`) |
| NorthWestCorner.NorthWestPath | Program.cs:56-71 | the cursor starts at (0, 0), moves down, right or diagonally at each step, never revisits a cell, takes at most N+M-1 steps, and every cell off its path holds nothing |
| NorthWestCorner.NorthWestPathNonEmpty | Program.cs:56-57 | the cursor visits a cell exactly when there is at least one source and one sink |
| NorthWestCorner.WalkFromKeepsPrefix | Program.cs:57-72 | the walk only appends to the path it is given |
| NorthWestCorner.NorthWestUniformCost | Program.cs:62 | when every unit costs k, a balanced non-negative problem costs k times the total supply |
| MinimumElement.ScanKeeps | Program.cs:18-29 | the invariant of the nested scan: after every prefix in row-major order, the held best is the first cheapest open cell so far, or nothing |
| MinimumElement.ChoiceRule | Program.cs:14-33 | the scan finds no cell exactly when every open cell costs int.MaxValue or more, and the row and column are then both -1 with cost int.MaxValue; otherwise it returns the first cheapest open cell in row-major order and its cost |
| MinimumElement.FirstMinimumUnique | Program.cs:18-29 | at most one cell is the first cheapest open cell |
| MinimumElement.ChosenCellEmpty | Program.cs:32-42 | the cell a round chooses is still empty, so no cell is chosen twice and no write overwrites an earlier one; shipping there keeps every cell settled and lowers the termination measure |
| MinimumElement.ShipSettles | Program.cs:36-42 | after a shipment at an open cell, every non-empty cell has its source or its sink used up |
| MinimumElement.GreedyConserves | Program.cs:12-43 | conservation and settledness hold to the end of the run |
| MinimumElement.GreedyBalance | Program.cs:12-43 | total supply minus total demand is the same at the end as at the start |
| MinimumElement.GreedyRounds | Program.cs:12-43 | every round removes a positive supply or demand entry |
| MinimumElement.GreedySigns | Program.cs:12-43 | non-negative supply and demand stay non-negative |
| MinimumElement.GreedyStops | Program.cs:31-33 | the run stops only when no open cell costs below int.MaxValue |
| MinimumElement.MinElementFacts | Program.cs:5-46 | everything the loop keeps, from the start to where it stops |
| MinimumElement.MinElementConserves | Program.cs:12-43 | for every input: rows and columns conserved, nothing negative allocated, no open cell below int.MaxValue left, and at most N+M rounds |
| MinimumElement.MinElementExhausts | Program.cs:12-43 | a balanced non-negative problem whose costs are below int.MaxValue is used up completely and the allocation meets every supply and every demand |
| MinimumElement.MinElementOutcome | Program.cs:5-46 | the run's final tableau meets everything `MinElementMethod` promises (`Outcome`) |
| MinimumElement.MinElementUniformCost | Program.cs:38 | when every unit costs the same k below int.MaxValue, a balanced non-negative problem costs k times the total supply |

## Left out

- `Main` (Program.cs:77-136) is not modelled: console prompts, parsing, cloning the arrays for each heuristic, and printing the tables.
- The C# return tuple `(int[,], int)` is modelled as two out-parameters.
- TransportProblem.NorthWestCornerMethod: totals and differences are mathematical integers. The 32-bit `int` overflow of `totalCost += allocated * cost[i, j]` and of `supply[i] -= allocated` is not modelled.
- TransportProblem.MinElementMethod: 32-bit overflow is not modelled, as for NorthWestCornerMethod. The `int.MaxValue` sentinel of the scan is modelled exactly.
- TransportProblem.NorthWestCornerMethod and TransportProblem.MinElementMethod require `supply != demand`. If the same array were passed twice, the C# would update it twice per shipment. `Main` always passes two separate clones.
- TransportProblem.NorthWestCornerMethod and TransportProblem.MinElementMethod require a cost matrix of exactly N×M. The C# accepts a larger matrix and ignores the extra cells, and North-West Corner reads only the cells on its path. `Main` always builds an N×M matrix.
- MinimumElement.MinElementConserves: bounds the number of rounds by N+M (one per positive entry at the start), not by N+M-1.
- The model has no I/O and no concurrency: the methods are sequential and the only state they change is the two input arrays and the new allocation matrix.
