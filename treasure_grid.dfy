/**
 * The 5×5 treasure-hunt grid and the grid routines of the dashboard:
 * counting the bombs around a cell, moving a bomb away from the first dig,
 * the recursive flood fill that opens empty regions, and showing every bomb.
 */
module TreasureGrid {

  const Width: nat := 5
  const Size: nat := 25

  /** One square of the grid. `adjacentBombs` is a cached count, refreshed only for cells without a bomb. */
  datatype Cell = Cell(dug: bool, hasTreasure: bool, hasBomb: bool, adjacentBombs: nat, flagged: bool)

  /** The index of the cell at `row`, `col`: the grid is stored row by row. */
  function At(row: int, col: int): int
  {
    row * 5 + col
  }

  /** `Math.floor(i / 5)`. */
  function Row(i: nat): nat { i / 5 }

  /** `i % 5`. */
  function Col(i: nat): nat { i % 5 }

  /** `j` lies in the 3×3 block centred on `i` (`i` itself included). */
  predicate Around(i: nat, j: nat)
  {
    i < Size && j < Size && -1 <= Row(j) - Row(i) <= 1 && -1 <= Col(j) - Col(i) <= 1
  }

  /** `j` is one of the (up to eight) neighbours of `i`. */
  predicate Adjacent(i: nat, j: nat)
  {
    Around(i, j) && i != j
  }

  /** The step at which a row-by-row scan of the block around `i` visits `j`: 0 (top left) to 8. */
  function Step(i: nat, j: nat): int
  {
    (Row(j) - Row(i) + 1) * 3 + (Col(j) - Col(i) + 1)
  }

  /** The offset `(r, c)` from `i` names a neighbour: another cell of the 3×3 block on the grid. */
  predicate Scanned(i: nat, r: int, c: int)
  {
    0 <= Row(i) + r < Width && 0 <= Col(i) + c < Width && !(r == 0 && c == 0)
  }

  /** The cell at offset `(r, c)` from `i` is the neighbour visited at step `(r + 1) * 3 + (c + 1)`, and the only one. */
  lemma ScanStep(i: nat, r: int, c: int)
    requires i < Size && -1 <= r <= 1 && -1 <= c <= 1
    ensures Scanned(i, r, c) ==> Adjacent(i, At(Row(i) + r, Col(i) + c)) && Step(i, At(Row(i) + r, Col(i) + c)) == (r + 1) * 3 + (c + 1)
    ensures forall j :: Adjacent(i, j) && Step(i, j) == (r + 1) * 3 + (c + 1) ==> Scanned(i, r, c) && j == At(Row(i) + r, Col(i) + c)
  {
  }

  /** The neighbours of `i` that hold a bomb. */
  ghost function NeighbourBombs(g: seq<Cell>, i: nat): set<nat>
    requires |g| == Size
  {
    set j | 0 <= j < Size && Adjacent(i, j) && g[j].hasBomb
  }

  /** The same, restricted to the cells a row-by-row scan visits before step `k`. */
  ghost function BombsBefore(g: seq<Cell>, i: nat, k: int): set<nat>
    requires |g| == Size
  {
    set j | 0 <= j < Size && Adjacent(i, j) && g[j].hasBomb && Step(i, j) < k
  }

  /** A scan of the whole block sees every neighbour. */
  lemma ScanCoversBlock(g: seq<Cell>, i: nat)
    requires |g| == Size
    ensures BombsBefore(g, i, 9) == NeighbourBombs(g, i)
  {
    forall j | j in NeighbourBombs(g, i) ensures Step(i, j) < 9 {
    }
  }

  /** The number of bombs among the neighbours of `i`. */
  ghost function AdjacentCount(g: seq<Cell>, i: nat): nat
    requires |g| == Size
  {
    |NeighbourBombs(g, i)|
  }

  /** Scanning offset `(r, c)` sees one more bomb exactly when it names a neighbour holding a bomb. */
  lemma BombsBeforeStep(g: seq<Cell>, i: nat, r: int, c: int)
    requires |g| == Size && i < Size && -1 <= r <= 1 && -1 <= c <= 1
    ensures var k := (r + 1) * 3 + (c + 1);
      |BombsBefore(g, i, k + 1)| ==
        |BombsBefore(g, i, k)| + (if Scanned(i, r, c) && g[At(Row(i) + r, Col(i) + c)].hasBomb then 1 else 0)
  {
    var k := (r + 1) * 3 + (c + 1);
    var before, after := BombsBefore(g, i, k), BombsBefore(g, i, k + 1);
    ScanStep(i, r, c);
    if Scanned(i, r, c) && g[At(Row(i) + r, Col(i) + c)].hasBomb {
      assert after == before + {At(Row(i) + r, Col(i) + c)};
    } else {
      assert after == before;
    }
  }

  /**
   * `countAdjacentBombs`: the scan over the 3×3 block around `index` counts
   * exactly the neighbours that hold a bomb, at most eight.
   */
  method CountAdjacentBombs(grid: array<Cell>, index: nat) returns (count: nat)
    requires grid.Length == Size && index < Size
    ensures count == AdjacentCount(grid[..], index) && count <= 8
  {
    ghost var g := grid[..];
    count := 0;
    var row: int, col: int := Row(index), Col(index);
    for r := -1 to 2
      invariant count == |BombsBefore(g, index, (r + 1) * 3)|
      invariant count <= (r + 1) * 3 - (if r > 0 then 1 else 0)
    {
      for c := -1 to 2
        invariant count == |BombsBefore(g, index, (r + 1) * 3 + (c + 1))|
        invariant count <= (r + 1) * 3 + (c + 1) - (if r > 0 || (r == 0 && c > 0) then 1 else 0)
      {
        BombsBeforeStep(g, index, r, c);
        if !(r == 0 && c == 0) {
          var newRow, newCol := row + r, col + c;
          if 0 <= newRow < Width && 0 <= newCol < Width {
            var neighbour := At(newRow, newCol);
            if grid[neighbour].hasBomb {
              count := count + 1;
            }
          }
        }
      }
    }
    ScanCoversBlock(g, index);
  }

  /** The cells holding a bomb. */
  ghost function Bombs(g: seq<Cell>): set<nat>
  {
    set j | 0 <= j < |g| && g[j].hasBomb
  }

  /** The cells holding a treasure. */
  ghost function Treasures(g: seq<Cell>): set<nat>
  {
    set j | 0 <= j < |g| && g[j].hasTreasure
  }

  /** The dug cells holding a treasure. */
  ghost function DugTreasures(g: seq<Cell>): set<nat>
  {
    set j | 0 <= j < |g| && g[j].hasTreasure && g[j].dug
  }

  /** The dug cells holding a bomb. */
  ghost function DugBombs(g: seq<Cell>): set<nat>
  {
    set j | 0 <= j < |g| && g[j].hasBomb && g[j].dug
  }

  /** Every cell without a bomb caches the number of its neighbouring bombs. */
  ghost predicate CountsFresh(g: seq<Cell>)
  {
    |g| == Size && forall j :: 0 <= j < Size && !g[j].hasBomb ==> g[j].adjacentBombs == AdjacentCount(g, j)
  }

  /** `b` is `a` with at most the cached counts changed. */
  ghost predicate OnlyCounts(a: seq<Cell>, b: seq<Cell>)
  {
    |a| == |b| && forall j :: 0 <= j < |a| ==> b[j] == a[j].(adjacentBombs := b[j].adjacentBombs)
  }

  /** The neighbouring-bomb count depends on where the bombs are and on nothing else. */
  lemma AdjacentCountSameBombs(a: seq<Cell>, b: seq<Cell>, i: nat)
    requires |a| == Size && |b| == Size
    requires forall j :: 0 <= j < Size ==> a[j].hasBomb == b[j].hasBomb
    ensures AdjacentCount(a, i) == AdjacentCount(b, i)
  {
    assert NeighbourBombs(a, i) == NeighbourBombs(b, i);
  }

  /**
   * The recount loop of the grid set-up and of the bomb move: every cell
   * without a bomb gets its fresh count; bomb cells keep whatever they had.
   */
  method RefreshCounts(grid: array<Cell>)
    requires grid.Length == Size
    modifies grid
    ensures CountsFresh(grid[..]) && OnlyCounts(old(grid[..]), grid[..])
    ensures forall j :: 0 <= j < Size && grid[j].hasBomb ==> grid[j] == old(grid[j])
  {
    ghost var g := grid[..];
    for i := 0 to Size
      invariant OnlyCounts(g, grid[..])
      invariant forall j :: 0 <= j < Size && (i <= j || grid[j].hasBomb) ==> grid[j] == g[j]
      invariant forall j :: 0 <= j < i && !grid[j].hasBomb ==> grid[j].adjacentBombs == AdjacentCount(g, j)
    {
      if !grid[i].hasBomb {
        var count := CountAdjacentBombs(grid, i);
        AdjacentCountSameBombs(g, grid[..], i);
        grid[i] := grid[i].(adjacentBombs := count);
      }
    }
    forall j | 0 <= j < Size && !grid[j].hasBomb ensures grid[j].adjacentBombs == AdjacentCount(grid[..], j) {
      AdjacentCountSameBombs(g, grid[..], j);
    }
  }

  /**
   * `moveBomb`: the bomb under the first dig moves to `newPosition` (the
   * random draw, which must be free of bombs and treasure and differ from
   * the dug cell) and the counts of all bomb-free cells are refreshed.
   */
  method MoveBomb(grid: array<Cell>, bombIndex: nat, newPosition: nat)
    requires grid.Length == Size && bombIndex < Size && newPosition < Size
    requires !grid[newPosition].hasBomb && !grid[newPosition].hasTreasure && newPosition != bombIndex
    modifies grid
    ensures CountsFresh(grid[..])
    ensures Bombs(grid[..]) == Bombs(old(grid[..])) - {bombIndex} + {newPosition}
    ensures forall j :: 0 <= j < Size ==>
      grid[j].dug == old(grid[j].dug) && grid[j].hasTreasure == old(grid[j].hasTreasure) && grid[j].flagged == old(grid[j].flagged)
  {
    grid[bombIndex] := grid[bombIndex].(hasBomb := false);
    grid[newPosition] := grid[newPosition].(hasBomb := true);
    ghost var moved := grid[..];
    RefreshCounts(grid);
    assert Bombs(grid[..]) == Bombs(moved);
  }

  /** The cells not yet dug. */
  ghost function Undug(g: seq<Cell>): set<nat>
  {
    set j | 0 <= j < |g| && !g[j].dug
  }

  /** `b` is `a` with some bomb-free, unflagged cells newly dug and nothing else changed. */
  ghost predicate DigsOnly(a: seq<Cell>, b: seq<Cell>)
  {
    |a| == |b| &&
    forall j :: 0 <= j < |a| ==>
      b[j] == a[j] || (!a[j].dug && !a[j].hasBomb && !a[j].flagged && b[j] == a[j].(dug := true))
  }

  /** Every bomb-free, unflagged cell of the block around `i` is dug. */
  ghost predicate Expanded(g: seq<Cell>, i: nat)
  {
    forall j :: 0 <= j < |g| && Around(i, j) && !g[j].hasBomb && !g[j].flagged ==> g[j].dug
  }

  /** Every cell dug since `a` whose count is zero has its block opened. */
  ghost predicate ZerosExpanded(a: seq<Cell>, b: seq<Cell>)
    requires |a| == |b|
  {
    forall j :: 0 <= j < |a| && !a[j].dug && b[j].dug && b[j].adjacentBombs == 0 ==> Expanded(b, j)
  }

  lemma DigsOnlyTransitive(a: seq<Cell>, b: seq<Cell>, c: seq<Cell>)
    requires DigsOnly(a, b) && DigsOnly(b, c)
    ensures DigsOnly(a, c)
  {
  }

  /** Digging more cells keeps a block opened. */
  lemma ExpandedStays(b: seq<Cell>, c: seq<Cell>, i: nat)
    requires DigsOnly(b, c) && Expanded(b, i)
    ensures Expanded(c, i)
  {
  }

  /** Digging more cells never adds undug cells, and digging a new one removes one. */
  lemma UndugShrinks(a: seq<Cell>, b: seq<Cell>)
    requires DigsOnly(a, b)
    ensures Undug(b) <= Undug(a)
    ensures (exists j :: 0 <= j < |a| && !a[j].dug && b[j].dug) ==> |Undug(b)| < |Undug(a)|
  {
    var ua, ub := Undug(a), Undug(b);
    assert ua == ub + (ua - ub);
    if exists j :: 0 <= j < |a| && !a[j].dug && b[j].dug {
      var j :| 0 <= j < |a| && !a[j].dug && b[j].dug;
      assert j in ua - ub;
    }
  }

  /** `z` was undug in `g0` and is dug in `g` with no bomb next to it: a cell the flood fill spreads from. */
  ghost predicate NewZero(g0: seq<Cell>, g: seq<Cell>, z: nat)
  {
    z < |g0| && z < |g| && !g0[z].dug && g[z].dug && g[z].adjacentBombs == 0
  }

  /**
   * `j` lies in the block around `i`, or in the block around the end of a
   * chain of at most `fuel` newly dug zero cells, each in the block of the
   * one before, starting next to `i`: the region a flood fill from `i` can reach.
   */
  ghost predicate Reached(g0: seq<Cell>, g: seq<Cell>, i: nat, j: nat, fuel: nat)
    decreases fuel
  {
    Around(i, j) ||
    (fuel > 0 && exists z: nat :: Around(i, z) && NewZero(g0, g, z) && Reached(g0, g, z, j, fuel - 1))
  }

  /** Every cell dug since `g0` was reached from `i`. */
  ghost predicate Confined(g0: seq<Cell>, g: seq<Cell>, i: nat, fuel: nat)
  {
    |g0| == |g| && forall j: nat :: j < |g| && !g0[j].dug && g[j].dug ==> Reached(g0, g, i, j, fuel)
  }

  /** A chain stays a chain with a later start, more cells dug and more fuel. */
  lemma {:induction false} ReachedWeaken(g0: seq<Cell>, g1: seq<Cell>, g: seq<Cell>, h: seq<Cell>, i: nat, j: nat, f: nat, f': nat)
    requires DigsOnly(g0, g1) && DigsOnly(g, h) && |g1| == |g| && f <= f'
    requires Reached(g1, g, i, j, f)
    ensures Reached(g0, h, i, j, f')
    decreases f
  {
    if !Around(i, j) {
      var z: nat :| Around(i, z) && NewZero(g1, g, z) && Reached(g1, g, z, j, f - 1);
      ReachedWeaken(g0, g1, g, h, z, j, f - 1, f' - 1);
      assert NewZero(g0, h, z);
    }
  }

  /** Digging a cell of the block around `index` keeps every dug cell reached. */
  lemma ConfinedDig(g0: seq<Cell>, g: seq<Cell>, index: nat, n: nat, fuel: nat)
    requires Confined(g0, g, index, fuel) && n < |g| && Around(index, n)
    requires !g[n].dug && !g[n].hasBomb && !g[n].flagged
    ensures Confined(g0, g[n := g[n].(dug := true)], index, fuel)
  {
    var h := g[n := g[n].(dug := true)];
    forall j: nat | j < |h| && !g0[j].dug && h[j].dug ensures Reached(g0, h, index, j, fuel) {
      if j != n {
        ReachedWeaken(g0, g0, g, h, index, j, fuel, fuel);
      }
    }
  }

  /** Digging a zero cell next to `index` and flooding from it keeps every dug cell reached from `index`. */
  lemma ConfinedFlood(g0: seq<Cell>, g: seq<Cell>, after: seq<Cell>, index: nat, n: nat, fuel: nat, inner: nat)
    requires Confined(g0, g, index, fuel) && DigsOnly(g0, g) && n < |g| && Around(index, n)
    requires !g[n].dug && !g[n].hasBomb && !g[n].flagged && g[n].adjacentBombs == 0
    requires var h := g[n := g[n].(dug := true)]; DigsOnly(h, after) && Confined(h, after, n, inner)
    requires inner < fuel
    ensures Confined(g0, after, index, fuel)
  {
    var h := g[n := g[n].(dug := true)];
    DigsOnlyTransitive(g, h, after);
    DigsOnlyTransitive(g0, g, h);
    assert NewZero(g0, after, n);
    forall j: nat | j < |after| && !g0[j].dug && after[j].dug ensures Reached(g0, after, index, j, fuel) {
      if g[j].dug {
        ReachedWeaken(g0, g0, g, after, index, j, fuel, fuel);
      } else if j != n {
        assert !h[j].dug;
        ReachedWeaken(g0, h, after, after, n, j, inner, fuel - 1);
      }
    }
  }

  /** Where no newly dug cell has a zero count, the reached cells are the block around `i` alone. */
  lemma ConfinedWithoutZeros(g0: seq<Cell>, g: seq<Cell>, i: nat, fuel: nat)
    requires Confined(g0, g, i, fuel)
    requires forall z: nat :: !NewZero(g0, g, z)
    ensures forall j: nat :: j < |g| && !g0[j].dug && g[j].dug ==> Around(i, j)
  {
  }

  /** The flood fill around `index` has handled every scan step before `k`, starting from `g0`. */
  ghost predicate Progress(g0: seq<Cell>, g: seq<Cell>, index: nat, k: int)
  {
    && DigsOnly(g0, g)
    && ZerosExpanded(g0, g)
    && (forall j :: 0 <= j < |g| && Around(index, j) && Step(index, j) < k && !g[j].hasBomb && !g[j].flagged
          ==> g[j].dug)
  }

  /** A scan step whose cell is off the grid, or dug, bombed or flagged, changes nothing. */
  lemma ProgressSkip(g0: seq<Cell>, g: seq<Cell>, index: nat, r: int, c: int)
    requires |g| == Size && index < Size && -1 <= r <= 1 && -1 <= c <= 1
    requires Progress(g0, g, index, (r + 1) * 3 + (c + 1))
    requires 0 <= Row(index) + r < Width && 0 <= Col(index) + c < Width ==>
      var n := At(Row(index) + r, Col(index) + c);
      g[n].dug || g[n].hasBomb || g[n].flagged
    ensures Progress(g0, g, index, (r + 1) * 3 + (c + 1) + 1)
  {
    ScanStep(index, r, c);
    forall j | 0 <= j < |g| && Around(index, j) && Step(index, j) == (r + 1) * 3 + (c + 1) && !g[j].hasBomb && !g[j].flagged
      ensures g[j].dug
    {
      assert j == index || Adjacent(index, j);
    }
  }

  /** Digging the cell of a scan step whose count is not zero completes that step. */
  lemma ProgressDig(g0: seq<Cell>, g: seq<Cell>, index: nat, r: int, c: int)
    requires |g| == Size && index < Size && -1 <= r <= 1 && -1 <= c <= 1
    requires Progress(g0, g, index, (r + 1) * 3 + (c + 1))
    requires 0 <= Row(index) + r < Width && 0 <= Col(index) + c < Width
    requires var n := At(Row(index) + r, Col(index) + c);
      !g[n].dug && !g[n].hasBomb && !g[n].flagged && g[n].adjacentBombs != 0
    ensures var n := At(Row(index) + r, Col(index) + c);
      Progress(g0, g[n := g[n].(dug := true)], index, (r + 1) * 3 + (c + 1) + 1)
  {
    var n := At(Row(index) + r, Col(index) + c);
    var h := g[n := g[n].(dug := true)];
    forall j | 0 <= j < |g| && !g0[j].dug && h[j].dug && h[j].adjacentBombs == 0 ensures Expanded(h, j) {
      ExpandedStays(g, h, j);
    }
    forall j | 0 <= j < |g| && Around(index, j) && Step(index, j) == (r + 1) * 3 + (c + 1)
      ensures j == n
    {
    }
  }

  /** Digging the cell of a scan step leaves fewer undug cells than at the start of the fill. */
  lemma DigShrinks(g0: seq<Cell>, g: seq<Cell>, n: nat)
    requires DigsOnly(g0, g) && n < |g| && !g[n].dug && !g[n].hasBomb && !g[n].flagged
    ensures DigsOnly(g0, g[n := g[n].(dug := true)])
    ensures |Undug(g[n := g[n].(dug := true)])| < |Undug(g0)|
  {
    UndugShrinks(g0, g[n := g[n].(dug := true)]);
  }

  /** Digging a zero-count cell and flooding from it completes that scan step. */
  lemma ProgressFlood(g0: seq<Cell>, g: seq<Cell>, after: seq<Cell>, index: nat, r: int, c: int)
    requires |g| == Size && index < Size && -1 <= r <= 1 && -1 <= c <= 1
    requires Progress(g0, g, index, (r + 1) * 3 + (c + 1))
    requires 0 <= Row(index) + r < Width && 0 <= Col(index) + c < Width
    requires var n := At(Row(index) + r, Col(index) + c);
      !g[n].dug && !g[n].hasBomb && !g[n].flagged && g[n].adjacentBombs == 0
    requires var n := At(Row(index) + r, Col(index) + c);
      var h := g[n := g[n].(dug := true)];
      DigsOnly(h, after) && Expanded(after, n) && ZerosExpanded(h, after)
    ensures Progress(g0, after, index, (r + 1) * 3 + (c + 1) + 1)
  {
    var n := At(Row(index) + r, Col(index) + c);
    var h := g[n := g[n].(dug := true)];
    DigsOnlyTransitive(g, h, after);
    DigsOnlyTransitive(g0, g, after);
    forall j | 0 <= j < |g| && !g0[j].dug && after[j].dug && after[j].adjacentBombs == 0 ensures Expanded(after, j) {
      if j != n && g[j].dug {
        ExpandedStays(g, after, j);
      }
    }
    forall j | 0 <= j < |g| && Around(index, j) && Step(index, j) == (r + 1) * 3 + (c + 1)
      ensures j == n
    {
    }
  }

  /** A scan that has handled all nine steps has opened the whole block. */
  lemma ProgressDone(g0: seq<Cell>, g: seq<Cell>, index: nat)
    requires Progress(g0, g, index, 9)
    ensures Expanded(g, index)
  {
    forall j | 0 <= j < |g| && Around(index, j) ensures Step(index, j) < 9 {
    }
  }

  /**
   * `revealEmptyCells`: the recursive flood fill after digging a cell whose
   * count is zero. Every bomb-free, unflagged cell of the block around
   * `index` ends up dug, every newly dug cell whose count is zero has its
   * own block opened in turn, and nothing but `dug` flags of bomb-free,
   * unflagged cells changes. Treasure cells are opened like any other.
   */
  method RevealEmptyCells(grid: array<Cell>, index: nat)
    requires grid.Length == Size && index < Size
    modifies grid
    ensures DigsOnly(old(grid[..]), grid[..])
    ensures Expanded(grid[..], index)
    ensures ZerosExpanded(old(grid[..]), grid[..])
    ensures Confined(old(grid[..]), grid[..], index, |Undug(old(grid[..]))|)
    decreases |Undug(grid[..])|
  {
    ghost var g0 := grid[..];
    ghost var fuel := |Undug(g0)|;
    var row: int, col: int := Row(index), Col(index);
    for r := -1 to 2
      invariant Progress(g0, grid[..], index, (r + 1) * 3)
      invariant Confined(g0, grid[..], index, fuel)
    {
      for c := -1 to 2
        invariant Progress(g0, grid[..], index, (r + 1) * 3 + (c + 1))
        invariant Confined(g0, grid[..], index, fuel)
      {
        var newRow, newCol := row + r, col + c;
        ghost var g := grid[..];
        if 0 <= newRow < Width && 0 <= newCol < Width {
          var neighbourIndex := At(newRow, newCol);
          var neighbour := grid[neighbourIndex];
          if !neighbour.dug && !neighbour.hasBomb && !neighbour.flagged {
            ScanStep(index, r, c);
            grid[neighbourIndex] := neighbour.(dug := true);
            if neighbour.adjacentBombs == 0 {
              DigShrinks(g0, g, neighbourIndex);
              ghost var h := grid[..];
              RevealEmptyCells(grid, neighbourIndex);
              ProgressFlood(g0, g, grid[..], index, r, c);
              ConfinedFlood(g0, g, grid[..], index, neighbourIndex, fuel, |Undug(h)|);
            } else {
              ProgressDig(g0, g, index, r, c);
              ConfinedDig(g0, g, index, neighbourIndex, fuel);
            }
          } else {
            ProgressSkip(g0, g, index, r, c);
          }
        } else {
          ProgressSkip(g0, g, index, r, c);
        }
      }
    }
    ProgressDone(g0, grid[..], index);
  }

  /** The `forEach` that shows every bomb after a loss: each bomb cell is dug, nothing else changes. */
  method RevealBombs(grid: array<Cell>)
    modifies grid
    ensures forall j :: 0 <= j < grid.Length ==>
      grid[j] == if old(grid[j]).hasBomb then old(grid[j]).(dug := true) else old(grid[j])
  {
    for i := 0 to grid.Length
      invariant forall j :: 0 <= j < grid.Length ==>
        grid[j] == if j < i && old(grid[j]).hasBomb then old(grid[j]).(dug := true) else old(grid[j])
    {
      if grid[i].hasBomb {
        grid[i] := grid[i].(dug := true);
      }
    }
  }

  /** `flagCell` on the grid: an undug cell's flag is toggled, unless the game is over. */
  function FlagCell(g: seq<Cell>, gameOver: bool, i: nat): (r: seq<Cell>)
    requires i < |g|
    ensures |r| == |g| && forall j :: 0 <= j < |g| && j != i ==> r[j] == g[j]
    ensures r[i] == if gameOver || g[i].dug then g[i] else g[i].(flagged := !g[i].flagged)
  {
    if gameOver || g[i].dug then g else g[i := g[i].(flagged := !g[i].flagged)]
  }

  /** Flagging the same cell twice restores the grid. */
  lemma FlagTwice(g: seq<Cell>, gameOver: bool, i: nat)
    requires i < |g|
    ensures FlagCell(FlagCell(g, gameOver, i), gameOver, i) == g
  {
    var once := FlagCell(g, gameOver, i);
    assert FlagCell(once, gameOver, i)[i] == g[i];
  }

  /** The positions listed in `s`. */
  ghost function Elements(s: seq<nat>): set<nat>
  {
    set x | x in s
  }

  /** A sequence without repeats has as many distinct elements as entries. */
  lemma {:induction false} DistinctCard(s: seq<nat>)
    requires forall a, b :: 0 <= a < b < |s| ==> s[a] != s[b]
    ensures |Elements(s)| == |s|
  {
    if s == [] {
      assert Elements(s) == {};
    } else {
      var t, last := s[..|s| - 1], s[|s| - 1];
      DistinctCard(t);
      assert forall a :: 0 <= a < |t| ==> t[a] == s[a] != last;
      assert last !in Elements(t);
      assert Elements(s) == Elements(t) + {last};
    }
  }
}
