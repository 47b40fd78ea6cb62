/** The Minimum Element heuristic as pure functions: the row-major scan for the
    cheapest open cell, and the greedy run that ships at that cell until the
    scan finds none. */
module MinimumElement {
  import opened Ledger

  /** The scan's running minimum: (minCost, minRow, minCol). */
  datatype Best = Best(cost: int, row: int, col: int)

  /** The scan's starting value: int.MaxValue and no cell. */
  const NotFound: Best := Best(IntMax, -1, -1)

  /** Source r still has supply and sink c still has demand. */
  ghost predicate Open(supply: seq<int>, demand: seq<int>, r: int, c: int)
  {
    0 <= r < |supply| && 0 <= c < |demand| && supply[r] > 0 && demand[c] > 0
  }

  /** (r, c) comes before (r', c') in row-major order. */
  ghost predicate Precedes(r: int, c: int, r': int, c': int)
  {
    r < r' || (r == r' && c < c')
  }

  /** (r, c) is open, costs less than int.MaxValue, costs no more than any open
      cell, and costs strictly less than every open cell before it in row-major order. */
  ghost predicate FirstMinimum(supply: seq<int>, demand: seq<int>, cost: seq<seq<int>>, r: int, c: int)
    requires IsGrid(cost, |supply|, |demand|)
  {
    && Open(supply, demand, r, c)
    && cost[r][c] < IntMax
    && (forall r', c' :: Open(supply, demand, r', c') ==> cost[r][c] <= cost[r'][c'])
    && (forall r', c' :: Open(supply, demand, r', c') && Precedes(r', c', r, c) ==> cost[r][c] < cost[r'][c'])
  }

  /** The test and update at one cell of the scan. */
  function Pick(supply: seq<int>, demand: seq<int>, cost: seq<seq<int>>, r: nat, c: nat, b: Best): (b': Best)
    requires IsGrid(cost, |supply|, |demand|) && r < |supply| && c < |demand|
    ensures b'.cost <= b.cost
    ensures b' != b ==> Open(supply, demand, r, c) && b' == Best(cost[r][c], r, c) && cost[r][c] < b.cost
    ensures Open(supply, demand, r, c) && cost[r][c] < b.cost ==> b' == Best(cost[r][c], r, c)
  {
    if cost[r][c] < b.cost && supply[r] > 0 && demand[c] > 0 then Best(cost[r][c], r, c) else b
  }

  /** The nested scan from cell (r, c) on, in row-major order; c == |demand| ends row r. */
  function Scan(supply: seq<int>, demand: seq<int>, cost: seq<seq<int>>, r: nat, c: nat, b: Best): (s: Best)
    requires IsGrid(cost, |supply|, |demand|) && r <= |supply| && c <= |demand|
    ensures s.cost <= b.cost
    ensures s != b ==> Open(supply, demand, s.row, s.col) && s.cost == cost[s.row][s.col] < b.cost
    decreases |supply| - r, |demand| - c
  {
    if r == |supply| then b
    else if c == |demand| then Scan(supply, demand, cost, r + 1, 0, b)
    else Scan(supply, demand, cost, r, c + 1, Pick(supply, demand, cost, r, c, b))
  }

  /** The whole scan of one round. */
  function Choice(supply: seq<int>, demand: seq<int>, cost: seq<seq<int>>): (b: Best)
    requires IsGrid(cost, |supply|, |demand|)
    ensures b == NotFound || (Open(supply, demand, b.row, b.col) && b.cost == cost[b.row][b.col] < IntMax)
  {
    Scan(supply, demand, cost, 0, 0, NotFound)
  }

  /** b names the first cheapest open cell among those before (r, c). */
  ghost predicate Holds(supply: seq<int>, demand: seq<int>, cost: seq<seq<int>>, r: int, c: int, b: Best)
    requires IsGrid(cost, |supply|, |demand|)
  {
    && Open(supply, demand, b.row, b.col)
    && Precedes(b.row, b.col, r, c)
    && b.cost == cost[b.row][b.col] < IntMax
    && (forall r', c' :: Open(supply, demand, r', c') && Precedes(r', c', b.row, b.col) ==>
          b.cost < cost[r'][c'])
  }

  /** b is what the scan holds after visiting every cell before (r, c). */
  ghost predicate Scanned(supply: seq<int>, demand: seq<int>, cost: seq<seq<int>>, r: int, c: int, b: Best)
    requires IsGrid(cost, |supply|, |demand|)
  {
    && (b == NotFound || Holds(supply, demand, cost, r, c, b))
    && (forall r', c' :: Open(supply, demand, r', c') && Precedes(r', c', r, c) ==> b.cost <= cost[r'][c'])
  }

  lemma {:induction false} ScanKeeps(supply: seq<int>, demand: seq<int>, cost: seq<seq<int>>, r: nat, c: nat, b: Best)
    requires IsGrid(cost, |supply|, |demand|) && r <= |supply| && c <= |demand|
    requires Scanned(supply, demand, cost, r, c, b)
    ensures Scanned(supply, demand, cost, |supply|, 0, Scan(supply, demand, cost, r, c, b))
    decreases |supply| - r, |demand| - c
  {
    if r == |supply| {
    } else if c == |demand| {
      ScanKeeps(supply, demand, cost, r + 1, 0, b);
    } else {
      var b' := Pick(supply, demand, cost, r, c, b);
      assert Scanned(supply, demand, cost, r, c + 1, b');
      ScanKeeps(supply, demand, cost, r, c + 1, b');
    }
  }

  /** The choice rule: the scan returns no cell exactly when every open cell costs
      int.MaxValue or more, and otherwise the first cheapest open cell in row-major
      order, with its cost. */
  lemma ChoiceRule(supply: seq<int>, demand: seq<int>, cost: seq<seq<int>>)
    requires IsGrid(cost, |supply|, |demand|)
    ensures var b := Choice(supply, demand, cost);
            && (b.row == -1 <==> b.col == -1)
            && (b.row == -1 <==> forall r, c :: Open(supply, demand, r, c) ==> cost[r][c] >= IntMax)
            && (b.row == -1 ==> b == NotFound)
            && (b.row != -1 ==> FirstMinimum(supply, demand, cost, b.row, b.col) && b.cost == cost[b.row][b.col])
  {
    ScanKeeps(supply, demand, cost, 0, 0, NotFound);
  }

  /** What a round of the loop needs from the scan: a found cell is open, and
      "not found" means no open cell costs less than int.MaxValue. */
  lemma ChoiceOpen(supply: seq<int>, demand: seq<int>, cost: seq<seq<int>>)
    requires IsGrid(cost, |supply|, |demand|)
    ensures var b := Choice(supply, demand, cost);
            && (b.row == -1 || b.col == -1 ==> forall r, c :: Open(supply, demand, r, c) ==> cost[r][c] >= IntMax)
            && (b.row != -1 && b.col != -1 ==> Open(supply, demand, b.row, b.col))
  {
    ChoiceRule(supply, demand, cost);
  }

  /** The first cheapest open cell is unique. */
  lemma FirstMinimumUnique(supply: seq<int>, demand: seq<int>, cost: seq<seq<int>>, r: int, c: int, r': int, c': int)
    requires IsGrid(cost, |supply|, |demand|)
    requires FirstMinimum(supply, demand, cost, r, c) && FirstMinimum(supply, demand, cost, r', c')
    ensures r == r' && c == c'
  {
  }

  /** Where the greedy run ends: the final tableau and the number of rounds that shipped. */
  datatype Run = Run(tab: Tableau, rounds: nat)

  /** The loop of MinElementMethod: scan, stop if no cell was found, else ship at it. */
  function GreedyFrom(t: Tableau, cost: seq<seq<int>>, rounds: nat): (run: Run)
    requires WellFormed(t) && IsGrid(cost, |t.supply|, |t.demand|)
    ensures WellFormed(run.tab) && |run.tab.supply| == |t.supply| && |run.tab.demand| == |t.demand|
    decreases Positives(t.supply) + Positives(t.demand)
  {
    var b := Choice(t.supply, t.demand, cost);
    if b.row == -1 || b.col == -1 then
      Run(t, rounds)
    else
      ChoiceRule(t.supply, t.demand, cost);
      ShipProgress(t, b.row, b.col);
      GreedyFrom(Ship(t, b.row, b.col), cost, rounds + 1)
  }

  /** The greedy run from nothing shipped. */
  function MinElement(supply: seq<int>, demand: seq<int>, cost: seq<seq<int>>): (run: Run)
    requires IsGrid(cost, |supply|, |demand|)
    ensures WellFormed(run.tab) && |run.tab.supply| == |supply| && |run.tab.demand| == |demand|
  {
    GreedyFrom(Start(supply, demand), cost, 0)
  }

  /** Nobody can ship at (r, c) any more once something is there. */
  ghost predicate Settled(t: Tableau)
    requires WellFormed(t)
  {
    && NonNegativeGrid(t.alloc)
    && forall r, c :: 0 <= r < |t.supply| && 0 <= c < |t.demand| && t.alloc[r][c] != 0 ==>
         t.supply[r] == 0 || t.demand[c] == 0
  }

  /** The cell a round chooses is still empty, so no cell is chosen twice and no
      shipment overwrites an earlier one; shipping there keeps every cell settled
      and strictly lowers the number of open sources and sinks. */
  lemma ChosenCellEmpty(t: Tableau, cost: seq<seq<int>>)
    requires WellFormed(t) && Settled(t) && IsGrid(cost, |t.supply|, |t.demand|)
    ensures var b := Choice(t.supply, t.demand, cost);
            b.row != -1 ==>
              && 0 <= b.row < |t.supply| && 0 <= b.col < |t.demand| && t.alloc[b.row][b.col] == 0
              && Settled(Ship(t, b.row, b.col))
              && Positives(Ship(t, b.row, b.col).supply) + Positives(Ship(t, b.row, b.col).demand) <
                 Positives(t.supply) + Positives(t.demand)
  {
    var b := Choice(t.supply, t.demand, cost);
    ChoiceRule(t.supply, t.demand, cost);
    if b.row != -1 {
      ShipSettles(t, b.row, b.col);
      ShipProgress(t, b.row, b.col);
    }
  }

  /** Shipping at an open cell settles it and leaves every settled cell settled. */
  lemma ShipSettles(t: Tableau, r: nat, c: nat)
    requires WellFormed(t) && Settled(t) && Open(t.supply, t.demand, r, c)
    ensures Settled(Ship(t, r, c))
  {
  }

  /** Rows and columns stay balanced against the original supply and demand, and
      every cell stays settled, through the rest of the run. */
  lemma {:induction false} GreedyConserves(supply0: seq<int>, demand0: seq<int>, cost: seq<seq<int>>, t: Tableau, rounds: nat)
    requires Conserved(supply0, demand0, t) && Settled(t) && IsGrid(cost, |t.supply|, |t.demand|)
    ensures var run := GreedyFrom(t, cost, rounds);
            Conserved(supply0, demand0, run.tab) && Settled(run.tab)
    decreases Positives(t.supply) + Positives(t.demand)
  {
    var b := Choice(t.supply, t.demand, cost);
    ChoiceOpen(t.supply, t.demand, cost);
    if b.row != -1 && b.col != -1 {
      var u := Ship(t, b.row, b.col);
      ChosenCellEmpty(t, cost);
      ShipConserves(supply0, demand0, t, b.row, b.col);
      ShipSettles(t, b.row, b.col);
      ShipProgress(t, b.row, b.col);
      GreedyConserves(supply0, demand0, cost, u, rounds + 1);
      assert GreedyFrom(t, cost, rounds) == GreedyFrom(u, cost, rounds + 1);
    }
  }

  /** Every round takes the same amount off total supply and total demand. */
  lemma {:induction false} GreedyBalance(t: Tableau, cost: seq<seq<int>>, rounds: nat)
    requires WellFormed(t) && IsGrid(cost, |t.supply|, |t.demand|)
    ensures var run := GreedyFrom(t, cost, rounds);
            Sum(run.tab.supply) - Sum(run.tab.demand) == Sum(t.supply) - Sum(t.demand)
    decreases Positives(t.supply) + Positives(t.demand)
  {
    var b := Choice(t.supply, t.demand, cost);
    ChoiceOpen(t.supply, t.demand, cost);
    if b.row != -1 && b.col != -1 {
      var u := Ship(t, b.row, b.col);
      ShipBalance(t, b.row, b.col);
      ShipProgress(t, b.row, b.col);
      GreedyBalance(u, cost, rounds + 1);
      assert GreedyFrom(t, cost, rounds) == GreedyFrom(u, cost, rounds + 1);
    }
  }

  /** Every round removes at least one positive entry of supply or demand. */
  lemma {:induction false} GreedyRounds(t: Tableau, cost: seq<seq<int>>, rounds: nat)
    requires WellFormed(t) && IsGrid(cost, |t.supply|, |t.demand|)
    ensures var run := GreedyFrom(t, cost, rounds);
            run.rounds + Positives(run.tab.supply) + Positives(run.tab.demand) <=
            rounds + Positives(t.supply) + Positives(t.demand)
    decreases Positives(t.supply) + Positives(t.demand)
  {
    var b := Choice(t.supply, t.demand, cost);
    ChoiceOpen(t.supply, t.demand, cost);
    if b.row != -1 && b.col != -1 {
      var u := Ship(t, b.row, b.col);
      ShipProgress(t, b.row, b.col);
      GreedyRounds(u, cost, rounds + 1);
      assert GreedyFrom(t, cost, rounds) == GreedyFrom(u, cost, rounds + 1);
    }
  }

  /** A round never drives a non-negative supply or demand entry below zero. */
  lemma {:induction false} GreedySigns(t: Tableau, cost: seq<seq<int>>, rounds: nat)
    requires WellFormed(t) && IsGrid(cost, |t.supply|, |t.demand|)
    ensures var run := GreedyFrom(t, cost, rounds);
            && (NonNegative(t.supply) ==> NonNegative(run.tab.supply))
            && (NonNegative(t.demand) ==> NonNegative(run.tab.demand))
    decreases Positives(t.supply) + Positives(t.demand)
  {
    var b := Choice(t.supply, t.demand, cost);
    ChoiceOpen(t.supply, t.demand, cost);
    if b.row != -1 && b.col != -1 {
      var u := Ship(t, b.row, b.col);
      ShipProgress(t, b.row, b.col);
      GreedySigns(u, cost, rounds + 1);
      assert GreedyFrom(t, cost, rounds) == GreedyFrom(u, cost, rounds + 1);
    }
  }

  /** The run stops only where the scan finds nothing. */
  lemma {:induction false} GreedyStops(t: Tableau, cost: seq<seq<int>>, rounds: nat)
    requires WellFormed(t) && IsGrid(cost, |t.supply|, |t.demand|)
    ensures var run := GreedyFrom(t, cost, rounds);
            forall r, c :: Open(run.tab.supply, run.tab.demand, r, c) ==> cost[r][c] >= IntMax
    decreases Positives(t.supply) + Positives(t.demand)
  {
    var b := Choice(t.supply, t.demand, cost);
    ChoiceOpen(t.supply, t.demand, cost);
    if b.row != -1 && b.col != -1 {
      var u := Ship(t, b.row, b.col);
      ShipProgress(t, b.row, b.col);
      GreedyStops(u, cost, rounds + 1);
      assert GreedyFrom(t, cost, rounds) == GreedyFrom(u, cost, rounds + 1);
    }
  }

  /** Everything the loop keeps, from the start to where it stops. */
  lemma MinElementFacts(supply: seq<int>, demand: seq<int>, cost: seq<seq<int>>)
    requires IsGrid(cost, |supply|, |demand|)
    ensures var run := MinElement(supply, demand, cost);
            && Conserved(supply, demand, run.tab) && Settled(run.tab)
            && Sum(run.tab.supply) - Sum(run.tab.demand) == Sum(supply) - Sum(demand)
            && run.rounds + Positives(run.tab.supply) + Positives(run.tab.demand) <= Positives(supply) + Positives(demand)
            && (NonNegative(supply) ==> NonNegative(run.tab.supply))
            && (NonNegative(demand) ==> NonNegative(run.tab.demand))
            && (forall r, c :: Open(run.tab.supply, run.tab.demand, r, c) ==> cost[r][c] >= IntMax)
  {
    var t := Start(supply, demand);
    StartConserved(supply, demand);
    GreedyConserves(supply, demand, cost, t, 0);
    GreedyBalance(t, cost, 0);
    GreedyRounds(t, cost, 0);
    GreedySigns(t, cost, 0);
    GreedyStops(t, cost, 0);
  }

  /** For every input: rows and columns balance against the original supply and
      demand, nothing shipped is negative, the run stops only when no open cell
      costs less than int.MaxValue, and it takes at most N + M rounds (one per
      positive entry at the start). */
  lemma MinElementConserves(supply: seq<int>, demand: seq<int>, cost: seq<seq<int>>)
    requires IsGrid(cost, |supply|, |demand|)
    ensures var run := MinElement(supply, demand, cost);
            && Conserved(supply, demand, run.tab)
            && NonNegativeGrid(run.tab.alloc)
            && (forall r, c :: Open(run.tab.supply, run.tab.demand, r, c) ==> cost[r][c] >= IntMax)
            && run.rounds <= Positives(supply) + Positives(demand) <= |supply| + |demand|
  {
    MinElementFacts(supply, demand, cost);
  }

  /** On a balanced non-negative problem whose costs are all below int.MaxValue,
      every supply and every demand is used up, so each row sums to its supply and
      each column to its demand. */
  lemma MinElementExhausts(supply: seq<int>, demand: seq<int>, cost: seq<seq<int>>)
    requires IsGrid(cost, |supply|, |demand|)
    requires NonNegative(supply) && NonNegative(demand) && Sum(supply) == Sum(demand)
    requires forall r, c :: 0 <= r < |supply| && 0 <= c < |demand| ==> cost[r][c] < IntMax
    ensures var t := MinElement(supply, demand, cost).tab;
            AllZero(t.supply) && AllZero(t.demand) && Satisfies(supply, demand, t.alloc)
  {
    MinElementFacts(supply, demand, cost);
    var t := MinElement(supply, demand, cost).tab;
    SumNonNegative(t.supply);
    SumNonNegative(t.demand);
    if !AllZero(t.supply) {
      var r :| 0 <= r < |t.supply| && t.supply[r] != 0;
      forall c | 0 <= c < |t.demand| ensures t.demand[c] == 0 {
        assert !Open(t.supply, t.demand, r, c);
      }
      assert AllZero(t.demand);
    }
  }

  /** What MinElementMethod promises of the tableau it leaves behind. */
  ghost predicate Outcome(supply0: seq<int>, demand0: seq<int>, cost: seq<seq<int>>, t: Tableau)
  {
    && Conserved(supply0, demand0, t)
    && NonNegativeGrid(t.alloc)
    && IsGrid(cost, |supply0|, |demand0|)
    && (forall r, c :: Open(t.supply, t.demand, r, c) ==> cost[r][c] >= IntMax)
    && (NonNegative(supply0) && NonNegative(demand0) ==> NonNegative(t.supply) && NonNegative(t.demand))
    && (&& NonNegative(supply0) && NonNegative(demand0) && Sum(supply0) == Sum(demand0)
        && (forall r, c :: 0 <= r < |supply0| && 0 <= c < |demand0| ==> cost[r][c] < IntMax)
        ==> AllZero(t.supply) && AllZero(t.demand) && Satisfies(supply0, demand0, t.alloc))
  }

  lemma MinElementOutcome(supply: seq<int>, demand: seq<int>, cost: seq<seq<int>>)
    requires IsGrid(cost, |supply|, |demand|)
    ensures Outcome(supply, demand, cost, MinElement(supply, demand, cost).tab)
  {
    MinElementFacts(supply, demand, cost);
    if && NonNegative(supply) && NonNegative(demand) && Sum(supply) == Sum(demand)
       && (forall r, c :: 0 <= r < |supply| && 0 <= c < |demand| ==> cost[r][c] < IntMax)
    {
      MinElementExhausts(supply, demand, cost);
    }
  }

  /** When every unit costs the same k below int.MaxValue, the greedy run on a
      balanced non-negative problem costs k times the total supply. */
  lemma MinElementUniformCost(supply: seq<int>, demand: seq<int>, k: int)
    requires NonNegative(supply) && NonNegative(demand) && Sum(supply) == Sum(demand)
    requires k < IntMax
    ensures var alloc := MinElement(supply, demand, Uniform(|supply|, |demand|, k)).tab.alloc;
            SameShape(alloc, Uniform(|supply|, |demand|, k)) &&
            Total(alloc, Uniform(|supply|, |demand|, k)) == k * Sum(supply)
  {
    var u := Uniform(|supply|, |demand|, k);
    MinElementExhausts(supply, demand, u);
    UniformTotal(supply, MinElement(supply, demand, u).tab.alloc, |demand|, k);
  }
}
