/** Quantities shared by both construction heuristics: sums over supply and
    demand vectors, allocation grids, their cost, and the single shipping step
    that both heuristics repeat. */
module Ledger {

  /** C#'s int.MaxValue, the sentinel the minimum-element scan starts from. */
  const IntMax: int := 0x7fff_ffff

  /** A cell (row, column) of the allocation matrix. */
  datatype Cell = Cell(row: nat, col: nat)

  /** Math.Min on two integers. */
  function Min(a: int, b: int): (m: int)
    ensures m <= a && m <= b
    ensures m == a || m == b
  {
    if a <= b then a else b
  }

  function Sum(s: seq<int>): int
  {
    if s == [] then 0 else s[0] + Sum(s[1..])
  }

  /** Number of strictly positive entries. */
  function Positives(s: seq<int>): (n: nat)
    ensures n <= |s|
    ensures n == 0 <==> forall k :: 0 <= k < |s| ==> s[k] <= 0
  {
    if s == [] then 0 else (if s[0] > 0 then 1 else 0) + Positives(s[1..])
  }

  ghost predicate NonNegative(s: seq<int>)
  {
    forall k :: 0 <= k < |s| ==> s[k] >= 0
  }

  ghost predicate AllZero(s: seq<int>)
  {
    forall k :: 0 <= k < |s| ==> s[k] == 0
  }

  /** g has n rows of m entries each. */
  ghost predicate IsGrid(g: seq<seq<int>>, n: int, m: int)
  {
    |g| == n && forall r :: 0 <= r < |g| ==> |g[r]| == m
  }

  ghost predicate SameShape(g: seq<seq<int>>, h: seq<seq<int>>)
  {
    |g| == |h| && forall r :: 0 <= r < |g| ==> |g[r]| == |h[r]|
  }

  ghost predicate NonNegativeGrid(g: seq<seq<int>>)
  {
    forall r, c :: 0 <= r < |g| && 0 <= c < |g[r]| ==> g[r][c] >= 0
  }

  /** A freshly allocated C# int[n, m]. */
  function Zeros(n: nat, m: nat): (g: seq<seq<int>>)
    ensures IsGrid(g, n, m)
    ensures forall r, c :: 0 <= r < n && 0 <= c < m ==> g[r][c] == 0
  {
    seq(n, _ => seq(m, _ => 0))
  }

  /** The n-by-m grid whose every entry is k. */
  function Uniform(n: nat, m: nat, k: int): (g: seq<seq<int>>)
    ensures IsGrid(g, n, m)
    ensures forall r, c :: 0 <= r < n && 0 <= c < m ==> g[r][c] == k
  {
    seq(n, _ => seq(m, _ => k))
  }

  function Column(g: seq<seq<int>>, c: nat): (col: seq<int>)
    requires forall r :: 0 <= r < |g| ==> c < |g[r]|
    ensures |col| == |g|
    ensures forall r :: 0 <= r < |g| ==> col[r] == g[r][c]
  {
    seq(|g|, r requires 0 <= r < |g| => g[r][c])
  }

  /** g with the entry at (r, c) replaced by v. */
  function Put(g: seq<seq<int>>, r: nat, c: nat, v: int): seq<seq<int>>
    requires r < |g| && c < |g[r]|
  {
    g[r := g[r][c := v]]
  }

  function Dot(a: seq<int>, b: seq<int>): int
    requires |a| == |b|
  {
    if a == [] then 0 else a[0] * b[0] + Dot(a[1..], b[1..])
  }

  /** Sum over all cells of allocation[r][c] * cost[r][c]. */
  function Total(alloc: seq<seq<int>>, cost: seq<seq<int>>): int
    requires SameShape(alloc, cost)
  {
    if alloc == [] then 0 else Dot(alloc[0], cost[0]) + Total(alloc[1..], cost[1..])
  }

  /** The working state of either heuristic: what is left to ship from each
      source, what is still required by each sink, and what has been shipped. */
  datatype Tableau = Tableau(supply: seq<int>, demand: seq<int>, alloc: seq<seq<int>>)

  ghost predicate WellFormed(t: Tableau)
  {
    IsGrid(t.alloc, |t.supply|, |t.demand|)
  }

  /** The state both heuristics start from: nothing shipped yet. */
  function Start(supply: seq<int>, demand: seq<int>): (t: Tableau)
    ensures WellFormed(t) && t.supply == supply && t.demand == demand
  {
    Tableau(supply, demand, Zeros(|supply|, |demand|))
  }

  /** One shipment at (r, c): the smaller of what is left at source r and
      what is required at sink c is written into the cell and taken off both. */
  function Ship(t: Tableau, r: nat, c: nat): (u: Tableau)
    requires WellFormed(t) && r < |t.supply| && c < |t.demand|
    ensures WellFormed(u) && |u.supply| == |t.supply| && |u.demand| == |t.demand|
    ensures u.supply[r] == 0 || u.demand[c] == 0
    ensures u.alloc[r][c] == t.supply[r] - u.supply[r] == t.demand[c] - u.demand[c]
    ensures forall k :: 0 <= k < |u.supply| && k != r ==> u.supply[k] == t.supply[k]
    ensures forall k :: 0 <= k < |u.demand| && k != c ==> u.demand[k] == t.demand[k]
    ensures forall i, j :: 0 <= i < |u.alloc| && 0 <= j < |u.alloc[i]| && (i != r || j != c) ==>
              u.alloc[i][j] == t.alloc[i][j]
    ensures t.supply[r] >= 0 && t.demand[c] >= 0 ==>
              u.alloc[r][c] >= 0 && u.supply[r] >= 0 && u.demand[c] >= 0
    ensures t.supply[r] > 0 && t.demand[c] > 0 ==> u.alloc[r][c] > 0
  {
    var x := Min(t.supply[r], t.demand[c]);
    Tableau(t.supply[r := t.supply[r] - x], t.demand[c := t.demand[c] - x], Put(t.alloc, r, c, x))
  }

  /** Every source has sent out exactly what it held, less what it still holds,
      and every sink has received what it required, less what it still requires. */
  ghost predicate Conserved(supply0: seq<int>, demand0: seq<int>, t: Tableau)
  {
    && WellFormed(t)
    && |t.supply| == |supply0| && |t.demand| == |demand0|
    && (forall r :: 0 <= r < |supply0| ==> supply0[r] == t.supply[r] + Sum(t.alloc[r]))
    && (forall c :: 0 <= c < |demand0| ==> demand0[c] == t.demand[c] + Sum(Column(t.alloc, c)))
  }

  /** Row r of alloc ships supply0[r] and column c receives demand0[c]. */
  ghost predicate Satisfies(supply0: seq<int>, demand0: seq<int>, alloc: seq<seq<int>>)
  {
    && IsGrid(alloc, |supply0|, |demand0|)
    && (forall r :: 0 <= r < |supply0| ==> Sum(alloc[r]) == supply0[r])
    && (forall c :: 0 <= c < |demand0| ==> Sum(Column(alloc, c)) == demand0[c])
  }

  // ---------------------------------------------------------------------
  // Lemmas about sums

  lemma {:induction false} SumPut(s: seq<int>, k: nat, v: int)
    requires k < |s|
    ensures Sum(s[k := v]) == Sum(s) - s[k] + v
  {
    if k > 0 {
      assert s[k := v][1..] == s[1..][k - 1 := v];
      SumPut(s[1..], k - 1, v);
    } else {
      assert s[k := v][1..] == s[1..];
    }
  }

  lemma {:induction false} SumOfZeros(s: seq<int>)
    requires AllZero(s)
    ensures Sum(s) == 0
  {
    if s != [] {
      SumOfZeros(s[1..]);
    }
  }

  /** A sum of non-negative entries is non-negative, and zero only when every entry is. */
  lemma {:induction false} SumNonNegative(s: seq<int>)
    requires NonNegative(s)
    ensures Sum(s) >= 0
    ensures Sum(s) == 0 <==> AllZero(s)
  {
    if s != [] {
      SumNonNegative(s[1..]);
      if AllZero(s) {
        SumOfZeros(s);
      }
    }
  }

  lemma {:induction false} PositivesPut(s: seq<int>, k: nat, v: int)
    requires k < |s|
    ensures Positives(s[k := v]) ==
              Positives(s) - (if s[k] > 0 then 1 else 0) + (if v > 0 then 1 else 0)
  {
    if k > 0 {
      assert s[k := v][1..] == s[1..][k - 1 := v];
      PositivesPut(s[1..], k - 1, v);
    } else {
      assert s[k := v][1..] == s[1..];
    }
  }

  lemma {:induction false} DotPut(a: seq<int>, b: seq<int>, k: nat, v: int)
    requires |a| == |b| && k < |a|
    ensures Dot(a[k := v], b) == Dot(a, b) + (v - a[k]) * b[k]
  {
    if k > 0 {
      assert a[k := v][1..] == a[1..][k - 1 := v];
      DotPut(a[1..], b[1..], k - 1, v);
    } else {
      assert a[k := v][1..] == a[1..];
      assert v * b[0] == a[0] * b[0] + (v - a[0]) * b[0];
    }
  }

  /** Changing one allocation entry changes the total cost by the change times that cell's cost. */
  lemma {:induction false} TotalPut(g: seq<seq<int>>, h: seq<seq<int>>, r: nat, c: nat, v: int)
    requires SameShape(g, h) && r < |g| && c < |g[r]|
    ensures SameShape(Put(g, r, c, v), h)
    ensures Total(Put(g, r, c, v), h) == Total(g, h) + (v - g[r][c]) * h[r][c]
  {
    if r > 0 {
      assert Put(g, r, c, v)[1..] == Put(g[1..], r - 1, c, v);
      TotalPut(g[1..], h[1..], r - 1, c, v);
    } else {
      assert Put(g, r, c, v)[1..] == g[1..];
      DotPut(g[0], h[0], c, v);
    }
  }

  lemma {:induction false} DotNonNegative(a: seq<int>, b: seq<int>)
    requires |a| == |b| && NonNegative(a) && NonNegative(b)
    ensures Dot(a, b) >= 0
  {
    if a != [] {
      assert a[0] * b[0] >= 0;
      DotNonNegative(a[1..], b[1..]);
    }
  }

  /** Non-negative shipments at non-negative costs never cost less than nothing. */
  lemma {:induction false} TotalNonNegative(alloc: seq<seq<int>>, cost: seq<seq<int>>)
    requires SameShape(alloc, cost) && NonNegativeGrid(alloc) && NonNegativeGrid(cost)
    ensures Total(alloc, cost) >= 0
  {
    if alloc != [] {
      DotNonNegative(alloc[0], cost[0]);
      TotalNonNegative(alloc[1..], cost[1..]);
    }
  }

  lemma {:induction false} DotZeros(a: seq<int>, b: seq<int>)
    requires |a| == |b| && AllZero(a)
    ensures Dot(a, b) == 0
  {
    if a != [] {
      DotZeros(a[1..], b[1..]);
    }
  }

  /** Nothing shipped costs nothing. */
  lemma {:induction false} TotalZeros(g: seq<seq<int>>, h: seq<seq<int>>)
    requires SameShape(g, h)
    requires forall r, c :: 0 <= r < |g| && 0 <= c < |g[r]| ==> g[r][c] == 0
    ensures Total(g, h) == 0
  {
    if g != [] {
      DotZeros(g[0], h[0]);
      TotalZeros(g[1..], h[1..]);
    }
  }

  lemma {:induction false} DotConstant(a: seq<int>, b: seq<int>, k: int)
    requires |a| == |b| && forall i :: 0 <= i < |b| ==> b[i] == k
    ensures Dot(a, b) == k * Sum(a)
  {
    if a != [] {
      DotConstant(a[1..], b[1..], k);
      assert a[0] * k + k * Sum(a[1..]) == k * (a[0] + Sum(a[1..]));
    }
  }

  /** When every unit costs k, an allocation whose rows ship supply0 costs k times the total supply. */
  lemma {:induction false} UniformTotal(supply0: seq<int>, alloc: seq<seq<int>>, m: nat, k: int)
    requires IsGrid(alloc, |supply0|, m)
    requires forall r :: 0 <= r < |supply0| ==> Sum(alloc[r]) == supply0[r]
    ensures SameShape(alloc, Uniform(|supply0|, m, k))
    ensures Total(alloc, Uniform(|supply0|, m, k)) == k * Sum(supply0)
  {
    if supply0 != [] {
      var n := |supply0|;
      assert Uniform(n, m, k)[1..] == Uniform(n - 1, m, k);
      DotConstant(alloc[0], Uniform(n, m, k)[0], k);
      UniformTotal(supply0[1..], alloc[1..], m, k);
      assert k * supply0[0] + k * Sum(supply0[1..]) == k * (supply0[0] + Sum(supply0[1..]));
    }
  }

  // ---------------------------------------------------------------------
  // Lemmas about the shipping step

  /** Before anything is shipped, conservation holds trivially. */
  lemma StartConserved(supply0: seq<int>, demand0: seq<int>)
    ensures Conserved(supply0, demand0, Start(supply0, demand0))
  {
    var t := Start(supply0, demand0);
    forall r | 0 <= r < |supply0| ensures Sum(t.alloc[r]) == 0 {
      SumOfZeros(t.alloc[r]);
    }
    forall c | 0 <= c < |demand0| ensures Sum(Column(t.alloc, c)) == 0 {
      SumOfZeros(Column(t.alloc, c));
    }
  }

  /** Shipping into an untouched cell keeps every row and column balance. */
  lemma ShipConserves(supply0: seq<int>, demand0: seq<int>, t: Tableau, r: nat, c: nat)
    requires Conserved(supply0, demand0, t) && r < |t.supply| && c < |t.demand|
    requires t.alloc[r][c] == 0
    ensures Conserved(supply0, demand0, Ship(t, r, c))
  {
    var u := Ship(t, r, c);
    var x := u.alloc[r][c];
    SumPut(t.alloc[r], c, x);
    assert u.alloc[r] == t.alloc[r][c := x];
    forall k | 0 <= k < |supply0| && k != r ensures u.alloc[k] == t.alloc[k] {}
    SumPut(Column(t.alloc, c), r, x);
    assert Column(u.alloc, c) == Column(t.alloc, c)[r := x];
    forall k | 0 <= k < |demand0| && k != c ensures Column(u.alloc, k) == Column(t.alloc, k) {}
  }

  /** A shipment takes the same amount off the total supply and the total demand. */
  lemma ShipBalance(t: Tableau, r: nat, c: nat)
    requires WellFormed(t) && r < |t.supply| && c < |t.demand|
    ensures Sum(Ship(t, r, c).supply) == Sum(t.supply) - Ship(t, r, c).alloc[r][c]
    ensures Sum(Ship(t, r, c).demand) == Sum(t.demand) - Ship(t, r, c).alloc[r][c]
  {
    var x := Min(t.supply[r], t.demand[c]);
    SumPut(t.supply, r, t.supply[r] - x);
    SumPut(t.demand, c, t.demand[c] - x);
  }

  /** Shipping at a cell whose source and sink are both positive removes at
      least one positive entry and creates none. */
  lemma ShipProgress(t: Tableau, r: nat, c: nat)
    requires WellFormed(t) && r < |t.supply| && c < |t.demand|
    requires t.supply[r] > 0 && t.demand[c] > 0
    ensures Positives(Ship(t, r, c).supply) + Positives(Ship(t, r, c).demand) <
            Positives(t.supply) + Positives(t.demand)
  {
    var x := Min(t.supply[r], t.demand[c]);
    PositivesPut(t.supply, r, t.supply[r] - x);
    PositivesPut(t.demand, c, t.demand[c] - x);
  }
}
