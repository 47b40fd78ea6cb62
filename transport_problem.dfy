/** The two construction heuristics of TransportProblem as they run: each takes
    the caller's supply and demand arrays, which it uses up in place, and a cost
    matrix, and returns a new allocation matrix and its total cost. */
module TransportProblem {
  import opened Ledger
  import NorthWestCorner
  import MinimumElement

  /** The contents of a 2-D array, row by row. */
  ghost function Grid(a: array2<int>): (g: seq<seq<int>>)
    reads a
    ensures IsGrid(g, a.Length0, a.Length1)
  {
    seq(a.Length0, r requires 0 <= r < a.Length0 reads a =>
      seq(a.Length1, c requires 0 <= c < a.Length1 reads a => a[r, c]))
  }

  /** The tableau held by the arrays. */
  ghost function Held(supply: array<int>, demand: array<int>, allocation: array2<int>): Tableau
    reads supply, demand, allocation
  {
    Tableau(supply[..], demand[..], Grid(allocation))
  }

  lemma GridOfZeros(a: array2<int>)
    requires forall r, c :: 0 <= r < a.Length0 && 0 <= c < a.Length1 ==> a[r, c] == 0
    ensures Grid(a) == Zeros(a.Length0, a.Length1)
  {
    assert forall r | 0 <= r < a.Length0 :: Grid(a)[r] == Zeros(a.Length0, a.Length1)[r];
  }

  /** Writing one entry of an array changes its contents as Put does. */
  lemma GridPut(a: array2<int>, g: seq<seq<int>>, i: nat, j: nat, v: int)
    requires IsGrid(g, a.Length0, a.Length1) && i < a.Length0 && j < a.Length1
    requires forall r, c :: 0 <= r < a.Length0 && 0 <= c < a.Length1 ==>
               a[r, c] == if r == i && c == j then v else g[r][c]
    ensures Grid(a) == Put(g, i, j, v)
  {
    assert forall r | 0 <= r < a.Length0 :: Grid(a)[r] == Put(g, i, j, v)[r];
  }

  /** The shipment both heuristics make at a chosen cell: as much as both the
      source and the sink allow, written into the allocation matrix and taken off
      the supply and the demand. */
  method Allocate(supply: array<int>, demand: array<int>, allocation: array2<int>, cost: array2<int>, r: nat, c: nat)
    returns (amount: int)
    requires supply != demand
    requires allocation.Length0 == supply.Length && allocation.Length1 == demand.Length
    requires cost.Length0 == supply.Length && cost.Length1 == demand.Length
    requires r < supply.Length && c < demand.Length && Grid(allocation)[r][c] == 0
    modifies supply, demand, allocation
    ensures amount == Min(old(supply[r]), old(demand[c]))
    ensures Held(supply, demand, allocation) == Ship(old(Held(supply, demand, allocation)), r, c)
    ensures allocation != cost ==>
              Total(Grid(allocation), Grid(cost)) == old(Total(Grid(allocation), Grid(cost))) + amount * cost[r, c]
  {
    ghost var t, C := Held(supply, demand, allocation), Grid(cost);
    amount := Min(supply[r], demand[c]);
    allocation[r, c] := amount;
    GridPut(allocation, t.alloc, r, c, amount);
    TotalPut(t.alloc, C, r, c, amount);
    supply[r] := supply[r] - amount;
    demand[c] := demand[c] - amount;
    assert supply[..] == t.supply[r := t.supply[r] - amount];
    assert demand[..] == t.demand[c := t.demand[c] - amount];
  }

  /** North-West Corner: walk a cursor from the top-left cell, ship as much as
      possible at the cursor, step down when the source is used up and right when
      the sink is satisfied. The result depends on supply and demand alone; the
      cost matrix is only read to total the cost. */
  method NorthWestCornerMethod(supply: array<int>, demand: array<int>, cost: array2<int>)
    returns (allocation: array2<int>, totalCost: int, ghost path: seq<Cell>)
    requires supply != demand
    requires cost.Length0 == supply.Length && cost.Length1 == demand.Length
    modifies supply, demand
    ensures fresh(allocation)
    ensures allocation.Length0 == supply.Length && allocation.Length1 == demand.Length
    ensures Held(supply, demand, allocation) == NorthWestCorner.NorthWest(old(supply[..]), old(demand[..])).tab
    ensures NorthWestCorner.Outcome(old(supply[..]), old(demand[..]), Held(supply, demand, allocation))
    ensures path == NorthWestCorner.NorthWest(old(supply[..]), old(demand[..])).path
    ensures totalCost == Total(Grid(allocation), Grid(cost))
  {
    var suppliers, consumers := supply.Length, demand.Length;
    allocation := new int[suppliers, consumers]((_, _) => 0);
    totalCost := 0;
    ghost var supply0, demand0 := supply[..], demand[..];
    path := [];
    GridOfZeros(allocation);
    TotalZeros(Grid(allocation), Grid(cost));

    var i, j := 0, 0;
    while i < suppliers && j < consumers
      invariant 0 <= i <= suppliers && 0 <= j <= consumers
      invariant allocation.Length0 == suppliers && allocation.Length1 == consumers
      invariant NorthWestCorner.WalkFrom(Held(supply, demand, allocation), i, j, path) ==
                NorthWestCorner.NorthWest(supply0, demand0)
      invariant NorthWestCorner.Untouched(Held(supply, demand, allocation), i, j)
      invariant totalCost == Total(Grid(allocation), Grid(cost))
      decreases suppliers - i + consumers - j
    {
      ghost var t := Held(supply, demand, allocation);
      NorthWestCorner.WalkStep(t, i, j, path, NorthWestCorner.NorthWest(supply0, demand0));
      var amount := Allocate(supply, demand, allocation, cost, i, j);
      totalCost := totalCost + amount * cost[i, j];
      path := path + [Cell(i, j)];
      if supply[i] == 0 { i := i + 1; }
      if demand[j] == 0 { j := j + 1; }
    }
    NorthWestCorner.NorthWestOutcome(supply0, demand0);

  }

  /** One scan of the Minimum Element method: visit every cell in row-major
      order and keep the cell whose cost is strictly below the best so far,
      among cells whose source still has supply and whose sink still has demand.
      The best starts at int.MaxValue with no cell. */
  method FindMinCell(supply: array<int>, demand: array<int>, cost: array2<int>)
    returns (minCost: int, minRow: int, minCol: int)
    requires cost.Length0 == supply.Length && cost.Length1 == demand.Length
    ensures MinimumElement.Best(minCost, minRow, minCol) == MinimumElement.Choice(supply[..], demand[..], Grid(cost))
    ensures minRow == -1 <==> minCol == -1
    ensures minRow == -1 <==>
              forall r, c :: MinimumElement.Open(supply[..], demand[..], r, c) ==> cost[r, c] >= IntMax
    ensures minRow == -1 ==> minCost == IntMax
    ensures minRow != -1 ==>
              MinimumElement.FirstMinimum(supply[..], demand[..], Grid(cost), minRow, minCol) &&
              minCost == cost[minRow, minCol]
  {
    ghost var s, d, C := supply[..], demand[..], Grid(cost);
    minCost, minRow, minCol := IntMax, -1, -1;
    for i := 0 to supply.Length
      invariant MinimumElement.Scan(s, d, C, i, 0, MinimumElement.Best(minCost, minRow, minCol)) ==
                MinimumElement.Choice(s, d, C)
    {
      for j := 0 to demand.Length
        invariant MinimumElement.Scan(s, d, C, i, j, MinimumElement.Best(minCost, minRow, minCol)) ==
                  MinimumElement.Choice(s, d, C)
      {
        if cost[i, j] < minCost && supply[i] > 0 && demand[j] > 0 {
          minCost := cost[i, j];
          minRow := i;
          minCol := j;
        }
      }
    }
    MinimumElement.ChoiceRule(s, d, C);
  }

  /** Minimum Element: repeatedly ship as much as possible at the first cheapest
      cell whose source and sink are both still open, until the scan finds none. */
  method MinElementMethod(supply: array<int>, demand: array<int>, cost: array2<int>)
    returns (allocation: array2<int>, totalCost: int, ghost rounds: nat)
    requires supply != demand
    requires cost.Length0 == supply.Length && cost.Length1 == demand.Length
    modifies supply, demand
    ensures fresh(allocation)
    ensures allocation.Length0 == supply.Length && allocation.Length1 == demand.Length
    ensures Held(supply, demand, allocation) == MinimumElement.MinElement(old(supply[..]), old(demand[..]), Grid(cost)).tab
    ensures MinimumElement.Outcome(old(supply[..]), old(demand[..]), Grid(cost), Held(supply, demand, allocation))
    ensures rounds == MinimumElement.MinElement(old(supply[..]), old(demand[..]), Grid(cost)).rounds
    ensures totalCost == Total(Grid(allocation), Grid(cost))
  {
    var suppliers, consumers := supply.Length, demand.Length;
    allocation := new int[suppliers, consumers]((_, _) => 0);
    totalCost := 0;
    ghost var supply0, demand0, C := supply[..], demand[..], Grid(cost);
    rounds := 0;
    GridOfZeros(allocation);
    TotalZeros(Grid(allocation), C);

    while true
      invariant allocation.Length0 == suppliers && allocation.Length1 == consumers
      invariant MinimumElement.GreedyFrom(Held(supply, demand, allocation), C, rounds) ==
                MinimumElement.MinElement(supply0, demand0, C)
      invariant MinimumElement.Settled(Held(supply, demand, allocation))
      invariant C == Grid(cost)
      invariant totalCost == Total(Grid(allocation), Grid(cost))
      decreases Positives(supply[..]) + Positives(demand[..])
    {
      var minCost, minRow, minCol := FindMinCell(supply, demand, cost);
      if minRow == -1 || minCol == -1 {
        break;
      }
      ghost var t := Held(supply, demand, allocation);
      MinimumElement.ChosenCellEmpty(t, C);
      var amount := Allocate(supply, demand, allocation, cost, minRow, minCol);
      totalCost := totalCost + amount * cost[minRow, minCol];
      rounds := rounds + 1;
    }

    MinimumElement.MinElementOutcome(supply0, demand0, C);
  }
}
