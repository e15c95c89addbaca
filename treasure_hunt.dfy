/**
 * The treasure-hunt game: a minesweeper-style 5×5 grid hiding five
 * treasures and five bombs. The live dig handler is the second definition
 * in the class (a later method of the same name replaces the earlier one);
 * the earlier one, with first-move protection and the flood fill, is kept
 * as `DigShadowed`.
 */
module TreasureHunt {
  import opened TreasureGrid

  const TreasureCount: nat := 5
  const BombCount: nat := 5

  /** Five bombs and five treasures on 25 cells, never both on one cell. */
  ghost predicate Layout(g: seq<Cell>)
  {
    && |g| == Size
    && |Bombs(g)| == BombCount
    && |Treasures(g)| == TreasureCount
    && forall j :: 0 <= j < |g| ==> !(g[j].hasBomb && g[j].hasTreasure)
  }

  /** `b` is `a` with only the `dug` and `flagged` flags changed. */
  ghost predicate SameItems(a: seq<Cell>, b: seq<Cell>)
  {
    |a| == |b| &&
    forall j :: 0 <= j < |a| ==>
      b[j].hasBomb == a[j].hasBomb && b[j].hasTreasure == a[j].hasTreasure && b[j].adjacentBombs == a[j].adjacentBombs
  }

  lemma SameItemsTrans(a: seq<Cell>, b: seq<Cell>, c: seq<Cell>)
    requires SameItems(a, b) && SameItems(b, c)
    ensures SameItems(a, c)
  {
  }

  /** Digging and flagging keep the layout and the cached counts valid. */
  lemma SameItemsKeepLayout(a: seq<Cell>, b: seq<Cell>)
    requires SameItems(a, b) && Layout(a) && CountsFresh(a)
    ensures Layout(b) && CountsFresh(b)
  {
    assert Bombs(a) == Bombs(b);
    assert Treasures(a) == Treasures(b);
    forall j | 0 <= j < Size ensures AdjacentCount(a, j) == AdjacentCount(b, j) {
      AdjacentCountSameBombs(a, b, j);
    }
  }

  /** No entry of `s` repeats. */
  predicate Distinct(s: seq<nat>)
  {
    forall a, b :: 0 <= a < b < |s| ==> s[a] != s[b]
  }

  /** Ten distinct positions split into two lists: each list is distinct and the lists share nothing. */
  lemma DistinctParts(tp: seq<nat>, bp: seq<nat>)
    requires Distinct(tp + bp)
    ensures Distinct(tp) && Distinct(bp)
    ensures forall a, b :: 0 <= a < |tp| && 0 <= b < |bp| ==> tp[a] != bp[b]
  {
    var both := tp + bp;
    forall a, b | 0 <= a < |tp| && 0 <= b < |bp| ensures tp[a] != bp[b] {
      assert both[a] == tp[a] && both[|tp| + b] == bp[b];
    }
    forall a, b | 0 <= a < b < |bp| ensures bp[a] != bp[b] {
      assert both[|tp| + a] == bp[a] && both[|tp| + b] == bp[b];
    }
    forall a, b | 0 <= a < b < |tp| ensures tp[a] != tp[b] {
      assert both[a] == tp[a] && both[b] == tp[b];
    }
  }

  /** A grid with treasures exactly at `tp` and bombs exactly at `bp`, nothing dug, has the game's layout. */
  lemma PlacedLayout(g: seq<Cell>, tp: seq<nat>, bp: seq<nat>)
    requires |g| == Size && |tp| == TreasureCount && |bp| == BombCount && Distinct(tp + bp)
    requires forall j :: 0 <= j < Size ==> g[j].hasTreasure == (j in tp) && g[j].hasBomb == (j in bp) && !g[j].dug
    requires forall k :: 0 <= k < |tp| ==> tp[k] < Size
    requires forall k :: 0 <= k < |bp| ==> bp[k] < Size
    ensures Layout(g) && Treasures(g) == Elements(tp) && Bombs(g) == Elements(bp)
    ensures DugTreasures(g) == {} && DugBombs(g) == {}
  {
    DistinctParts(tp, bp);
    assert Treasures(g) == Elements(tp);
    assert Bombs(g) == Elements(bp);
    DistinctCard(tp);
    DistinctCard(bp);
    assert DugTreasures(g) == {};
    assert DugBombs(g) == {};
  }

  /**
   * The invariant of a game record: five treasures and five bombs apart,
   * fresh counts, at most as many treasures counted as dug, won exactly when
   * all five are counted, and over exactly when won or a bomb lies open.
   */
  ghost predicate Hunt(g: seq<Cell>, found: nat, won: bool, over: bool)
  {
    && Layout(g) && CountsFresh(g)
    && found <= |DugTreasures(g)|
    && (won <==> found == TreasureCount)
    && (over <==> won || DugBombs(g) != {})
  }

  lemma SubsetCard(a: set<nat>, b: set<nat>)
    requires a <= b
    ensures |a| <= |b|
  {
    assert b == a + (b - a);
  }

  /** Digging cell `i` adds it to the dug treasures exactly when it holds one. */
  lemma DigTreasures(g: seq<Cell>, i: nat)
    requires i < |g| && !g[i].dug
    ensures var h := g[i := g[i].(dug := true)];
      && DugTreasures(h) == DugTreasures(g) + (if g[i].hasTreasure then {i} else {})
      && |DugTreasures(h)| == |DugTreasures(g)| + (if g[i].hasTreasure then 1 else 0)
  {
    var h := g[i := g[i].(dug := true)];
    assert i !in DugTreasures(g);
    if g[i].hasTreasure {
      assert DugTreasures(h) == DugTreasures(g) + {i};
    } else {
      assert DugTreasures(h) == DugTreasures(g);
    }
  }

  /** Digging cell `i` adds it to the dug bombs exactly when it holds one. */
  lemma DigBombs(g: seq<Cell>, i: nat)
    requires i < |g| && !g[i].dug
    ensures var h := g[i := g[i].(dug := true)];
      DugBombs(h) == DugBombs(g) + (if g[i].hasBomb then {i} else {})
  {
    var h := g[i := g[i].(dug := true)];
    if g[i].hasBomb {
      assert DugBombs(h) == DugBombs(g) + {i};
    } else {
      assert DugBombs(h) == DugBombs(g);
    }
  }

  /** The live dig keeps the invariant, and keeps every dug treasure counted. */
  lemma DigKeepsHunt(g: seq<Cell>, found: nat, won: bool, over: bool, i: nat)
    requires Hunt(g, found, won, over) && i < |g| && !over && !g[i].dug
    ensures var c := g[i];
      var found' := found + (if c.hasTreasure then 1 else 0);
      var won' := found' == TreasureCount;
      Hunt(g[i := c.(dug := true)], found', won', won' || c.hasBomb)
      && (found == |DugTreasures(g)| ==> found' == |DugTreasures(g[i := c.(dug := true)])|)
  {
    var h := g[i := g[i].(dug := true)];
    SameItemsKeepLayout(g, h);
    DigTreasures(g, i);
    DigBombs(g, i);
    assert DugTreasures(h) <= Treasures(h);
    SubsetCard(DugTreasures(h), Treasures(h));
  }

  /** Moving a bomb to a free cell keeps five bombs apart from the treasures. */
  lemma MoveKeepsLayout(g: seq<Cell>, h: seq<Cell>, i: nat, p: nat)
    requires Layout(g) && |h| == Size
    requires i < Size && g[i].hasBomb && p < Size && !g[p].hasBomb && !g[p].hasTreasure && p != i
    requires Bombs(h) == Bombs(g) - {i} + {p}
    requires forall j :: 0 <= j < Size ==> h[j].hasTreasure == g[j].hasTreasure
    ensures Layout(h)
  {
    assert i in Bombs(g) && p !in Bombs(g);
    assert |Bombs(g) - {i}| == BombCount - 1;
    assert Treasures(h) == Treasures(g);
    forall j | 0 <= j < |h| && h[j].hasBomb ensures !h[j].hasTreasure {
      assert j in Bombs(h);
      if j != p {
        assert j in Bombs(g);
      }
    }
  }

  /** Moving the bomb before anything is dug keeps the invariant. */
  lemma MoveKeepsHunt(g: seq<Cell>, h: seq<Cell>, found: nat, won: bool, over: bool, i: nat, p: nat)
    requires Hunt(g, found, won, over) && !over && forall j :: 0 <= j < |g| ==> !g[j].dug
    requires i < Size && g[i].hasBomb && p < Size && !g[p].hasBomb && !g[p].hasTreasure && p != i
    requires CountsFresh(h) && Bombs(h) == Bombs(g) - {i} + {p}
    requires forall j :: 0 <= j < Size ==> h[j].dug == g[j].dug && h[j].hasTreasure == g[j].hasTreasure
    ensures Hunt(h, found, won, over) && forall j :: 0 <= j < |h| ==> !h[j].dug
  {
    MoveKeepsLayout(g, h, i, p);
    assert DugTreasures(h) == {} && DugBombs(h) == {};
    assert DugTreasures(g) == {} && DugBombs(g) == {};
  }

  /** Showing every bomb after a loss keeps the invariant. */
  lemma RevealBombsKeepsHunt(g: seq<Cell>, h: seq<Cell>, found: nat, won: bool)
    requires Hunt(g, found, won, true) && !won
    requires |h| == |g| && forall j :: 0 <= j < |g| ==> h[j] == if g[j].hasBomb then g[j].(dug := true) else g[j]
    ensures Hunt(h, found, won, true)
  {
    SameItemsKeepLayout(g, h);
    assert DugTreasures(h) == DugTreasures(g);
    assert DugBombs(g) <= DugBombs(h);
  }

  /** The flood fill keeps the invariant: it opens no bomb, and uncounted treasures only widen the slack. */
  lemma FloodKeepsHunt(g: seq<Cell>, h: seq<Cell>, found: nat, won: bool, over: bool)
    requires Hunt(g, found, won, over) && DigsOnly(g, h)
    ensures Hunt(h, found, won, over)
  {
    SameItemsKeepLayout(g, h);
    assert DugBombs(h) == DugBombs(g);
    SubsetCard(DugTreasures(g), DugTreasures(h));
  }

  class TreasureHuntGame {
    var grid: array<Cell>
    var foundTreasures: nat
    var totalTreasures: nat
    var totalBombs: nat
    var gameOver: bool
    var gameWon: bool
    var firstMove: bool

    ghost predicate Valid()
      reads this, grid
    {
      && grid.Length == Size
      && totalTreasures == TreasureCount && totalBombs == BombCount
      && Hunt(grid[..], foundTreasures, gameWon, gameOver)
    }

    /** Under the live dig every dug treasure is counted. */
    ghost predicate Counted()
      reads this, grid
    {
      foundTreasures == |DugTreasures(grid[..])|
    }

    /** Before the first dig of the earlier handler nothing is dug. */
    ghost predicate Untouched()
      reads this, grid
    {
      firstMove ==> forall j :: 0 <= j < grid.Length ==> !grid[j].dug
    }

    /**
     * `getTreasureHuntData` on a widget without a game: the treasures go to
     * `treasurePositions` and the bombs to `bombPositions` (the random draws,
     * ten distinct cells), then every bomb-free cell gets its count.
     */
    constructor (treasurePositions: seq<nat>, bombPositions: seq<nat>)
      requires |treasurePositions| == TreasureCount && |bombPositions| == BombCount
      requires forall k :: 0 <= k < |treasurePositions| ==> treasurePositions[k] < Size
      requires forall k :: 0 <= k < |bombPositions| ==> bombPositions[k] < Size
      requires Distinct(treasurePositions + bombPositions)
      ensures Valid() && Counted() && Untouched() && fresh(grid)
      ensures Treasures(grid[..]) == Elements(treasurePositions) && Bombs(grid[..]) == Elements(bombPositions)
      ensures forall j :: 0 <= j < Size ==> !grid[j].dug && !grid[j].flagged
      ensures foundTreasures == 0 && !gameOver && !gameWon && firstMove
    {
      var cells := new Cell[Size](_ => Cell(false, false, false, 0, false));
      var tp, bp := treasurePositions, bombPositions;
      for i := 0 to TreasureCount
        invariant forall j :: 0 <= j < Size ==> cells[j] == Cell(false, j in tp[..i], false, 0, false)
      {
        cells[tp[i]] := cells[tp[i]].(hasTreasure := true);
      }
      assert tp[..TreasureCount] == tp;
      for i := 0 to BombCount
        invariant forall j :: 0 <= j < Size ==> cells[j] == Cell(false, j in tp, j in bp[..i], 0, false)
      {
        cells[bp[i]] := cells[bp[i]].(hasBomb := true);
      }
      assert bp[..BombCount] == bp;
      RefreshCounts(cells);
      grid := cells;
      foundTreasures := 0;
      totalTreasures := TreasureCount;
      totalBombs := BombCount;
      gameOver := false;
      gameWon := false;
      firstMove := true;
      new;
      PlacedLayout(grid[..], tp, bp);
    }

    /**
     * `digTreasure` as it runs: ignored once the game is over or on a dug
     * cell (a flag does not stop it); otherwise only that cell is dug. A
     * treasure is counted and the fifth one wins; a bomb ends the game
     * unwon. There is no first-move protection and no flood fill.
     */
    method Dig(i: nat)
      requires Valid() && i < Size
      modifies this, grid
      ensures Valid() && grid == old(grid)
      ensures old(Counted()) ==> Counted()
      ensures totalTreasures == old(totalTreasures) && totalBombs == old(totalBombs) && firstMove == old(firstMove)
      ensures old(gameOver) || old(grid[i].dug) ==>
        grid[..] == old(grid[..]) && foundTreasures == old(foundTreasures) &&
        gameOver == old(gameOver) && gameWon == old(gameWon)
      ensures !old(gameOver) && !old(grid[i].dug) ==>
        && grid[..] == old(grid[..])[i := old(grid[i]).(dug := true)]
        && foundTreasures == old(foundTreasures) + (if old(grid[i].hasTreasure) then 1 else 0)
        && (gameWon <==> foundTreasures == totalTreasures)
        && (gameOver <==> gameWon || old(grid[i].hasBomb))
    {
      if gameOver {
        return;
      }
      var cell := grid[i];
      if cell.dug {
        return;
      }
      DigKeepsHunt(grid[..], foundTreasures, gameWon, gameOver, i);
      grid[i] := cell.(dug := true);
      if cell.hasTreasure {
        foundTreasures := foundTreasures + 1;
        if foundTreasures == totalTreasures {
          gameOver := true;
          gameWon := true;
        }
      } else if cell.hasBomb {
        gameOver := true;
      }
    }

    /**
     * `flagCell`: toggles the flag of an undug cell while the game runs;
     * nothing else changes.
     */
    method Flag(i: nat)
      requires Valid() && i < Size
      modifies grid
      ensures Valid()
      ensures grid[..] == FlagCell(old(grid[..]), gameOver, i)
    {
      if gameOver {
        return;
      }
      var cell := grid[i];
      if !cell.dug {
        ghost var before := grid[..];
        grid[i] := cell.(flagged := !cell.flagged);
        SameItemsKeepLayout(before, grid[..]);
        assert DugTreasures(grid[..]) == DugTreasures(before);
        assert DugBombs(grid[..]) == DugBombs(before);
      }
    }

    /**
     * The earlier `digTreasure`, replaced by the later definition and never
     * called: ignored once the game is over or on a dug or flagged cell. A
     * bomb under the very first dig moves to `newPosition` (the random draw)
     * first, so the first dig never loses. A treasure is counted and the
     * fifth one wins; a bomb ends the game and opens every bomb; a cell with
     * no neighbouring bombs starts the flood fill.
     */
    method DigShadowed(i: nat, newPosition: nat)
      requires Valid() && Untouched() && i < Size
      requires !gameOver && !grid[i].dug && !grid[i].flagged && firstMove && grid[i].hasBomb ==>
        newPosition < Size && !grid[newPosition].hasBomb && !grid[newPosition].hasTreasure && newPosition != i
      modifies this, grid
      ensures Valid() && Untouched() && grid == old(grid)
      ensures old(gameOver) || old(grid[i].dug) || old(grid[i].flagged) ==>
        grid[..] == old(grid[..]) && foundTreasures == old(foundTreasures) &&
        gameOver == old(gameOver) && gameWon == old(gameWon) && firstMove == old(firstMove)
      ensures !old(gameOver) && !old(grid[i].dug) && !old(grid[i].flagged) ==>
        && grid[i].dug && !firstMove
        && (old(firstMove) ==> !gameOver || gameWon)
        && foundTreasures == old(foundTreasures) + (if old(grid[i].hasTreasure) then 1 else 0)
        && (gameOver && !gameWon ==> forall j :: 0 <= j < Size && grid[j].hasBomb ==> grid[j].dug)
        && (!grid[i].hasTreasure && !grid[i].hasBomb && grid[i].adjacentBombs == 0 ==> Expanded(grid[..], i))
    {
      if gameOver {
        return;
      }
      if grid[i].dug || grid[i].flagged {
        return;
      }
      if firstMove && grid[i].hasBomb {
        ghost var before := grid[..];
        MoveBomb(grid, i, newPosition);
        MoveKeepsHunt(before, grid[..], foundTreasures, gameWon, gameOver, i, newPosition);
        assert i !in Bombs(grid[..]);
      }
      firstMove := false;
      Open(i);
    }

    /**
     * The second half of the earlier `digTreasure`: the cell is dug and its
     * content decides the outcome. The source holds the cell by reference, so
     * it sees a bomb moved away just before and the refreshed count.
     */
    method Open(i: nat)
      requires Valid() && i < Size && !gameOver && !grid[i].dug
      modifies this, grid
      ensures Valid() && grid == old(grid) && firstMove == old(firstMove)
      ensures SameItems(old(grid[..]), grid[..]) && grid[i].dug
      ensures old(grid[i].hasTreasure) ==> grid[..] == old(grid[..])[i := old(grid[i]).(dug := true)]
      ensures old(grid[i].hasBomb) && !old(grid[i].hasTreasure) ==> forall j :: 0 <= j < Size ==>
        grid[j] == if old(grid[j]).hasBomb then old(grid[j]).(dug := true) else old(grid[j])
      ensures !old(grid[i].hasBomb) && !old(grid[i].hasTreasure) ==>
        var h := old(grid[..])[i := old(grid[i]).(dug := true)];
        DigsOnly(h, grid[..]) && Confined(h, grid[..], i, |Undug(h)|)
      ensures foundTreasures == old(foundTreasures) + (if old(grid[i].hasTreasure) then 1 else 0)
      ensures gameOver && !gameWon ==> old(grid[i].hasBomb) && forall j :: 0 <= j < Size && grid[j].hasBomb ==> grid[j].dug
      ensures !grid[i].hasTreasure && !grid[i].hasBomb && grid[i].adjacentBombs == 0 ==> Expanded(grid[..], i)
    {
      if grid[i].hasTreasure {
        OpenTreasure(i);
      } else if grid[i].hasBomb {
        OpenBomb(i);
      } else {
        OpenSafe(i);
      }
    }

    /** A treasure is counted; the fifth one wins. */
    method OpenTreasure(i: nat)
      requires Valid() && i < Size && !gameOver && !grid[i].dug && grid[i].hasTreasure
      modifies this, grid
      ensures Valid() && grid == old(grid) && firstMove == old(firstMove)
      ensures SameItems(old(grid[..]), grid[..]) && grid[i].dug
      ensures grid[..] == old(grid[..])[i := old(grid[i]).(dug := true)]
      ensures foundTreasures == old(foundTreasures) + 1 && (gameOver ==> gameWon)
    {
      var cell := grid[i];
      DigKeepsHunt(grid[..], foundTreasures, gameWon, gameOver, i);
      grid[i] := cell.(dug := true);
      foundTreasures := foundTreasures + 1;
      if foundTreasures == totalTreasures {
        gameOver := true;
        gameWon := true;
      }
    }

    /** A bomb ends the game and opens every bomb. */
    method OpenBomb(i: nat)
      requires Valid() && i < Size && !gameOver && !grid[i].dug && grid[i].hasBomb && !grid[i].hasTreasure
      modifies this, grid
      ensures Valid() && grid == old(grid) && firstMove == old(firstMove)
      ensures SameItems(old(grid[..]), grid[..]) && grid[i].dug
      ensures foundTreasures == old(foundTreasures) && gameOver && !gameWon
      ensures forall j :: 0 <= j < Size ==>
        grid[j] == if old(grid[j]).hasBomb then old(grid[j]).(dug := true) else old(grid[j])
    {
      ghost var before := grid[..];
      var cell := grid[i];
      DigKeepsHunt(before, foundTreasures, gameWon, gameOver, i);
      grid[i] := cell.(dug := true);
      ghost var afterDig := grid[..];
      assert SameItems(before, afterDig);
      gameOver := true;
      ShowBombs();
      SameItemsTrans(before, afterDig, grid[..]);
      forall j | 0 <= j < Size
        ensures grid[j] == if before[j].hasBomb then before[j].(dug := true) else before[j]
      {
        assert afterDig[j] == if j == i then before[j].(dug := true) else before[j];
      }
    }

    /** An empty cell is opened, and the flood fill starts when no bomb is next to it. */
    method OpenSafe(i: nat)
      requires Valid() && i < Size && !gameOver && !grid[i].dug && !grid[i].hasBomb && !grid[i].hasTreasure
      modifies this, grid
      ensures Valid() && grid == old(grid) && firstMove == old(firstMove)
      ensures SameItems(old(grid[..]), grid[..]) && grid[i].dug
      ensures foundTreasures == old(foundTreasures) && !gameOver
      ensures DigsOnly(old(grid[..])[i := old(grid[i]).(dug := true)], grid[..])
      ensures var h := old(grid[..])[i := old(grid[i]).(dug := true)]; Confined(h, grid[..], i, |Undug(h)|)
      ensures grid[i].adjacentBombs == 0 ==> Expanded(grid[..], i)
    {
      ghost var before := grid[..];
      var cell := grid[i];
      DigKeepsHunt(before, foundTreasures, gameWon, gameOver, i);
      grid[i] := cell.(dug := true);
      if cell.adjacentBombs == 0 {
        ghost var afterDig := grid[..];
        assert SameItems(before, afterDig);
        Flood(i);
        SameItemsTrans(before, afterDig, grid[..]);
      }
    }

    /** After a loss every bomb is opened. */
    method ShowBombs()
      requires Valid() && gameOver && !gameWon
      modifies grid
      ensures Valid() && SameItems(old(grid[..]), grid[..])
      ensures forall j :: 0 <= j < Size ==>
        grid[j] == if old(grid[j]).hasBomb then old(grid[j]).(dug := true) else old(grid[j])
    {
      ghost var before := grid[..];
      RevealBombs(grid);
      RevealBombsKeepsHunt(before, grid[..], foundTreasures, gameWon);
    }

    /** The flood fill from a dug cell without neighbouring bombs. */
    method Flood(i: nat)
      requires Valid() && i < Size
      modifies grid
      ensures Valid() && SameItems(old(grid[..]), grid[..])
      ensures DigsOnly(old(grid[..]), grid[..]) && Expanded(grid[..], i)
      ensures Confined(old(grid[..]), grid[..], i, |Undug(old(grid[..]))|)
    {
      ghost var before := grid[..];
      RevealEmptyCells(grid, i);
      FloodKeepsHunt(before, grid[..], foundTreasures, gameWon, gameOver);
    }
  }
}
