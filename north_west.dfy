/** The North-West Corner heuristic as a pure walk over the tableau.
    It never looks at a cost: the walk is a function of supply and demand alone. */
module NorthWestCorner {
  import opened Ledger

  /** Where the walk ends: the final tableau and the cells the cursor visited, in order. */
  datatype Walk = Walk(tab: Tableau, path: seq<Cell>)

  /** The loop of NorthWestCornerMethod from cursor (i, j): ship at the cursor,
      then move down if the source is used up and right if the sink is
      satisfied (both in a degenerate step). */
  function WalkFrom(t: Tableau, i: nat, j: nat, path: seq<Cell>): (w: Walk)
    requires WellFormed(t) && i <= |t.supply| && j <= |t.demand|
    ensures WellFormed(w.tab) && |w.tab.supply| == |t.supply| && |w.tab.demand| == |t.demand|
    decreases |t.supply| - i + |t.demand| - j
  {
    if i < |t.supply| && j < |t.demand| then
      var u := Ship(t, i, j);
      WalkFrom(u, if u.supply[i] == 0 then i + 1 else i,
                  if u.demand[j] == 0 then j + 1 else j, path + [Cell(i, j)])
    else
      Walk(t, path)
  }

  /** The walk from the top-left corner with nothing shipped. */
  function NorthWest(supply: seq<int>, demand: seq<int>): Walk
  {
    WalkFrom(Start(supply, demand), 0, 0, [])
  }

  /** b is one step down, one step right, or one step diagonally from a. */
  ghost predicate Adjacent(a: Cell, b: Cell)
  {
    && (b.row == a.row || b.row == a.row + 1)
    && (b.col == a.col || b.col == a.col + 1)
    && a != b
  }

  /** Starts in the corner and moves by adjacent steps. */
  ghost predicate Staircase(path: seq<Cell>)
  {
    && (path != [] ==> path[0] == Cell(0, 0))
    && (forall k :: 0 < k < |path| ==> Adjacent(path[k - 1], path[k]))
  }

  /** Cells never visited hold nothing. */
  ghost predicate OffPathZero(t: Tableau, path: seq<Cell>)
    requires WellFormed(t)
  {
    forall r, c :: 0 <= r < |t.supply| && 0 <= c < |t.demand| && Cell(r, c) !in path ==>
      t.alloc[r][c] == 0
  }

  /** Every visited cell lies in the n-by-m grid, the k-th is at (anti-)diagonal k or
      beyond, and diagonals strictly increase along the path: no cell is visited twice. */
  ghost predicate Ascending(path: seq<Cell>, n: nat, m: nat)
  {
    && (forall k :: 0 <= k < |path| ==> path[k].row < n && path[k].col < m)
    && (forall k :: 0 <= k < |path| ==> k <= path[k].row + path[k].col)
    && (forall k, l :: 0 <= k < l < |path| ==> path[k].row + path[k].col < path[l].row + path[l].col)
  }

  /** Nothing has been shipped from a source at or below row i to a sink at or right of column j. */
  ghost predicate Untouched(t: Tableau, i: nat, j: nat)
    requires WellFormed(t)
  {
    forall r, c :: i <= r < |t.supply| && j <= c < |t.demand| ==> t.alloc[r][c] == 0
  }

  /** One turn of the loop: the cursor cell is still empty, and after shipping
      there and moving on, the rest of the walk still ends where the whole walk does. */
  lemma WalkStep(t: Tableau, i: nat, j: nat, path: seq<Cell>, w: Walk)
    requires WellFormed(t) && Untouched(t, i, j) && i < |t.supply| && j < |t.demand|
    requires WalkFrom(t, i, j, path) == w
    ensures t.alloc[i][j] == 0
    ensures var u := Ship(t, i, j);
            var i', j' := if u.supply[i] == 0 then i + 1 else i, if u.demand[j] == 0 then j + 1 else j;
            Untouched(u, i', j') && WalkFrom(u, i', j', path + [Cell(i, j)]) == w
  {
  }

  ghost predicate KeepsSigns(supply0: seq<int>, demand0: seq<int>, t: Tableau)
  {
    NonNegative(supply0) && NonNegative(demand0) ==>
      NonNegative(t.supply) && NonNegative(t.demand) && NonNegativeGrid(t.alloc)
  }

  /** What holds of the cursor path whenever the loop reaches its guard with cursor (i, j). */
  ghost predicate PathInv(path: seq<Cell>, i: nat, j: nat, n: nat, m: nat)
  {
    && Staircase(path)
    && Ascending(path, n, m)
    && (path == [] ==> i == 0 && j == 0)
    && (path != [] ==> Adjacent(path[|path| - 1], Cell(i, j)))
    && (forall k :: 0 <= k < |path| ==> path[k].row + path[k].col < i + j)
  }

  /** What holds of the tableau whenever the loop reaches its guard with cursor (i, j). */
  ghost predicate TableauInv(supply0: seq<int>, demand0: seq<int>, t: Tableau, i: nat, j: nat, path: seq<Cell>)
  {
    && Conserved(supply0, demand0, t)
    && i <= |supply0| && j <= |demand0|
    && (forall r :: 0 <= r < i ==> t.supply[r] == 0)
    && (forall c :: 0 <= c < j ==> t.demand[c] == 0)
    && Untouched(t, i, j)
    && OffPathZero(t, path)
    && Sum(t.supply) - Sum(t.demand) == Sum(supply0) - Sum(demand0)
    && KeepsSigns(supply0, demand0, t)
  }

  ghost predicate CursorInv(supply0: seq<int>, demand0: seq<int>, t: Tableau, i: nat, j: nat, path: seq<Cell>)
  {
    TableauInv(supply0, demand0, t, i, j, path) && PathInv(path, i, j, |supply0|, |demand0|)
  }

  /** What holds of the walk once the cursor has left the grid. */
  ghost predicate Finished(supply0: seq<int>, demand0: seq<int>, w: Walk)
  {
    && Conserved(supply0, demand0, w.tab)
    && (AllZero(w.tab.supply) || AllZero(w.tab.demand))
    && OffPathZero(w.tab, w.path)
    && Staircase(w.path)
    && Ascending(w.path, |supply0|, |demand0|)
    && Sum(w.tab.supply) - Sum(w.tab.demand) == Sum(supply0) - Sum(demand0)
    && KeepsSigns(supply0, demand0, w.tab)
  }

  lemma StartInv(supply0: seq<int>, demand0: seq<int>)
    ensures CursorInv(supply0, demand0, Start(supply0, demand0), 0, 0, [])
  {
    StartConserved(supply0, demand0);
  }

  /** Visiting the cursor cell and moving down, right or both keeps the path invariant. */
  lemma PathStep(path: seq<Cell>, i: nat, j: nat, i': nat, j': nat, n: nat, m: nat)
    requires PathInv(path, i, j, n, m) && i < n && j < m
    requires (i' == i || i' == i + 1) && (j' == j || j' == j + 1) && (i' != i || j' != j)
    ensures PathInv(path + [Cell(i, j)], i', j', n, m)
  {
  }

  /** Shipping at the cursor keeps the ledger balanced and the signs. */
  lemma LedgerStep(supply0: seq<int>, demand0: seq<int>, t: Tableau, i: nat, j: nat, path: seq<Cell>)
    requires TableauInv(supply0, demand0, t, i, j, path)
    requires i < |t.supply| && j < |t.demand|
    ensures var u := Ship(t, i, j);
            && Conserved(supply0, demand0, u)
            && Sum(u.supply) - Sum(u.demand) == Sum(supply0) - Sum(demand0)
            && KeepsSigns(supply0, demand0, u)
  {
    ShipConserves(supply0, demand0, t, i, j);
    ShipBalance(t, i, j);
    if NonNegative(supply0) && NonNegative(demand0) {
      assert t.supply[i] >= 0 && t.demand[j] >= 0;
    }
  }

  /** Shipping at the cursor and moving on keeps every used-up row and column at
      zero and every cell off the path empty. */
  lemma ZerosStep(supply0: seq<int>, demand0: seq<int>, t: Tableau, i: nat, j: nat, path: seq<Cell>)
    requires TableauInv(supply0, demand0, t, i, j, path)
    requires i < |t.supply| && j < |t.demand|
    ensures var u := Ship(t, i, j);
            var i', j' := if u.supply[i] == 0 then i + 1 else i, if u.demand[j] == 0 then j + 1 else j;
            && (forall r :: 0 <= r < i' ==> u.supply[r] == 0)
            && (forall c :: 0 <= c < j' ==> u.demand[c] == 0)
            && Untouched(u, i', j')
            && OffPathZero(u, path + [Cell(i, j)])
  {
  }

  /** Shipping at the cursor and moving on keeps the tableau invariant. */
  lemma TableauStep(supply0: seq<int>, demand0: seq<int>, t: Tableau, i: nat, j: nat, path: seq<Cell>)
    requires TableauInv(supply0, demand0, t, i, j, path)
    requires i < |t.supply| && j < |t.demand|
    ensures var u := Ship(t, i, j);
            TableauInv(supply0, demand0, u, if u.supply[i] == 0 then i + 1 else i,
                       if u.demand[j] == 0 then j + 1 else j, path + [Cell(i, j)])
  {
    LedgerStep(supply0, demand0, t, i, j, path);
    ZerosStep(supply0, demand0, t, i, j, path);
  }

  /** One iteration of the loop keeps the invariant. */
  lemma StepInv(supply0: seq<int>, demand0: seq<int>, t: Tableau, i: nat, j: nat, path: seq<Cell>)
    requires CursorInv(supply0, demand0, t, i, j, path)
    requires i < |t.supply| && j < |t.demand|
    ensures var u := Ship(t, i, j);
            CursorInv(supply0, demand0, u, if u.supply[i] == 0 then i + 1 else i,
                      if u.demand[j] == 0 then j + 1 else j, path + [Cell(i, j)])
  {
    var u := Ship(t, i, j);
    TableauStep(supply0, demand0, t, i, j, path);
    PathStep(path, i, j, if u.supply[i] == 0 then i + 1 else i,
             if u.demand[j] == 0 then j + 1 else j, |supply0|, |demand0|);
  }

  lemma {:induction false} WalkFromFinishes(supply0: seq<int>, demand0: seq<int>, t: Tableau, i: nat, j: nat, path: seq<Cell>)
    requires CursorInv(supply0, demand0, t, i, j, path)
    ensures Finished(supply0, demand0, WalkFrom(t, i, j, path))
    decreases |t.supply| - i + |t.demand| - j
  {
    if i < |t.supply| && j < |t.demand| {
      var u := Ship(t, i, j);
      StepInv(supply0, demand0, t, i, j, path);
      WalkFromFinishes(supply0, demand0, u, if u.supply[i] == 0 then i + 1 else i,
                       if u.demand[j] == 0 then j + 1 else j, path + [Cell(i, j)]);
    }
  }

  /** Every row of the allocation ships what its source had, less what it still has,
      and likewise for every column; and the walk stops only once every source or
      every sink is exhausted. Holds for every input. */
  lemma NorthWestConserves(supply: seq<int>, demand: seq<int>)
    ensures Conserved(supply, demand, NorthWest(supply, demand).tab)
    ensures AllZero(NorthWest(supply, demand).tab.supply) || AllZero(NorthWest(supply, demand).tab.demand)
  {
    StartInv(supply, demand);
    WalkFromFinishes(supply, demand, Start(supply, demand), 0, 0, []);
  }

  /** On non-negative input nothing goes negative. */
  lemma NorthWestNonNegative(supply: seq<int>, demand: seq<int>)
    requires NonNegative(supply) && NonNegative(demand)
    ensures var t := NorthWest(supply, demand).tab;
            NonNegative(t.supply) && NonNegative(t.demand) && NonNegativeGrid(t.alloc)
  {
    StartInv(supply, demand);
    WalkFromFinishes(supply, demand, Start(supply, demand), 0, 0, []);
  }

  /** On a balanced non-negative problem every supply and every demand is used up,
      so each row sums to its supply and each column to its demand. */
  lemma NorthWestExhausts(supply: seq<int>, demand: seq<int>)
    requires NonNegative(supply) && NonNegative(demand) && Sum(supply) == Sum(demand)
    ensures var t := NorthWest(supply, demand).tab;
            AllZero(t.supply) && AllZero(t.demand) && Satisfies(supply, demand, t.alloc)
  {
    StartInv(supply, demand);
    var w := NorthWest(supply, demand);
    WalkFromFinishes(supply, demand, Start(supply, demand), 0, 0, []);
    SumNonNegative(w.tab.supply);
    SumNonNegative(w.tab.demand);
  }

  /** What NorthWestCornerMethod promises of the tableau it leaves behind. */
  ghost predicate Outcome(supply0: seq<int>, demand0: seq<int>, t: Tableau)
  {
    && Conserved(supply0, demand0, t)
    && (AllZero(t.supply) || AllZero(t.demand))
    && (NonNegative(supply0) && NonNegative(demand0) ==>
          NonNegative(t.supply) && NonNegative(t.demand) && NonNegativeGrid(t.alloc))
    && (NonNegative(supply0) && NonNegative(demand0) && Sum(supply0) == Sum(demand0) ==>
          AllZero(t.supply) && AllZero(t.demand) && Satisfies(supply0, demand0, t.alloc))
  }

  lemma NorthWestOutcome(supply: seq<int>, demand: seq<int>)
    ensures Outcome(supply, demand, NorthWest(supply, demand).tab)
  {
    NorthWestConserves(supply, demand);
    if NonNegative(supply) && NonNegative(demand) {
      NorthWestNonNegative(supply, demand);
      if Sum(supply) == Sum(demand) {
        NorthWestExhausts(supply, demand);
      }
    }
  }

  /** The cursor path: it starts in the top-left corner, moves down, right or both at
      every step, never visits a cell twice, takes at most N + M - 1 steps, and the
      cells it never visited hold nothing. */
  lemma NorthWestPath(supply: seq<int>, demand: seq<int>)
    ensures var w := NorthWest(supply, demand);
            && Staircase(w.path)
            && Ascending(w.path, |supply|, |demand|)
            && (w.path != [] ==> |w.path| < |supply| + |demand|)
            && OffPathZero(w.tab, w.path)
  {
    StartInv(supply, demand);
    var w := NorthWest(supply, demand);
    WalkFromFinishes(supply, demand, Start(supply, demand), 0, 0, []);
    if w.path != [] {
      var k := |w.path| - 1;
      assert k <= w.path[k].row + w.path[k].col;
    }
  }

  /** The cursor visits at least one cell exactly when the problem has one. */
  lemma NorthWestPathNonEmpty(supply: seq<int>, demand: seq<int>)
    ensures NorthWest(supply, demand).path != [] <==> supply != [] && demand != []
  {
    if supply != [] && demand != [] {
      var t := Start(supply, demand);
      var u := Ship(t, 0, 0);
      var i' := if u.supply[0] == 0 then 1 else 0;
      var j' := if u.demand[0] == 0 then 1 else 0;
      assert [] + [Cell(0, 0)] == [Cell(0, 0)];
      assert NorthWest(supply, demand) == WalkFrom(t, 0, 0, []) == WalkFrom(u, i', j', [Cell(0, 0)]);
      WalkFromKeepsPrefix(u, i', j', [Cell(0, 0)]);
    }
  }

  /** The walk only extends the path it is given. */
  lemma {:induction false} WalkFromKeepsPrefix(t: Tableau, i: nat, j: nat, path: seq<Cell>)
    requires WellFormed(t) && i <= |t.supply| && j <= |t.demand|
    ensures |WalkFrom(t, i, j, path).path| >= |path|
    ensures WalkFrom(t, i, j, path).path[..|path|] == path
    decreases |t.supply| - i + |t.demand| - j
  {
    if i < |t.supply| && j < |t.demand| {
      var u := Ship(t, i, j);
      var p := path + [Cell(i, j)];
      WalkFromKeepsPrefix(u, if u.supply[i] == 0 then i + 1 else i,
                          if u.demand[j] == 0 then j + 1 else j, p);
      assert p[..|path|] == path;
    }
  }

  /** When every unit costs k, the walk on a balanced non-negative problem costs k times the total supply. */
  lemma NorthWestUniformCost(supply: seq<int>, demand: seq<int>, k: int)
    requires NonNegative(supply) && NonNegative(demand) && Sum(supply) == Sum(demand)
    ensures SameShape(NorthWest(supply, demand).tab.alloc, Uniform(|supply|, |demand|, k))
    ensures Total(NorthWest(supply, demand).tab.alloc, Uniform(|supply|, |demand|, k)) == k * Sum(supply)
  {
    NorthWestExhausts(supply, demand);
    UniformTotal(supply, NorthWest(supply, demand).tab.alloc, |demand|, k);
  }
}
