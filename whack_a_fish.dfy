/**
 * The whack-a-fish reaction game: six holes, a thirty-second countdown that
 * shows a fish in a random hole every second, and ten points per catch.
 */
module WhackAFish {

  const HoleCount: nat := 6
  const GameSeconds: nat := 30
  const CatchPoints: nat := 10

  /** A hole: whether its fish shows, the fish's kind (1 to 3, drawn once) and whether it was caught. */
  datatype Hole = Hole(visible: bool, kind: nat, caught: bool)

  predicate ValidKind(kind: nat)
  {
    1 <= kind <= 3
  }

  /**
   * The game record. The countdown interval exists exactly while the game is
   * not over, so it has no field of its own; the two delayed callbacks are
   * the methods `HideIfUncaught` and `ClearCatch`, called when they fire.
   */
  class WhackGame {
    var score: nat
    var timeLeft: nat
    var gameOver: bool
    var holes: array<Hole>

    ghost predicate Valid()
      reads this, holes
    {
      && holes.Length == HoleCount
      && score % CatchPoints == 0
      && timeLeft <= GameSeconds
      && (gameOver <==> timeLeft == 0)
      && forall k :: 0 <= k < HoleCount ==> ValidKind(holes[k].kind) && (holes[k].caught ==> holes[k].visible)
    }

    /** `getWhackAFishData` on a widget without a game: a fresh game whose fish kinds are `kinds`; the countdown starts. */
    constructor (kinds: seq<nat>)
      requires |kinds| == HoleCount && forall k :: 0 <= k < |kinds| ==> ValidKind(kinds[k])
      ensures Valid() && fresh(holes)
      ensures score == 0 && timeLeft == GameSeconds && !gameOver
      ensures forall k :: 0 <= k < HoleCount ==> holes[k] == Hole(false, kinds[k], false)
    {
      score := 0;
      timeLeft := GameSeconds;
      gameOver := false;
      holes := new Hole[HoleCount](k requires 0 <= k < HoleCount => Hole(false, kinds[k], false));
    }

    /**
     * One second of the countdown, while it runs. The clock drops by one and
     * the game ends when it reaches zero; either way the fish in `hole` (the
     * random draw) is shown and uncaught, on the final second too.
     */
    method Tick(hole: nat)
      requires Valid() && !gameOver && hole < HoleCount
      modifies this, holes
      ensures Valid() && holes == old(holes) && score == old(score)
      ensures timeLeft == old(timeLeft) - 1 && (gameOver <==> timeLeft == 0)
      ensures holes[hole] == old(holes[hole]).(visible := true, caught := false)
      ensures forall k :: 0 <= k < HoleCount && k != hole ==> holes[k] == old(holes[k])
    {
      timeLeft := timeLeft - 1;
      if timeLeft == 0 {
        gameOver := true;
      }
      holes[hole] := holes[hole].(visible := true, caught := false);
    }

    /** The hide callback 1.5 s after a fish shows: it hides the fish unless it was caught. */
    method HideIfUncaught(hole: nat)
      requires Valid() && hole < HoleCount
      modifies holes
      ensures Valid()
      ensures old(holes[hole].visible && !holes[hole].caught) ==> holes[hole] == old(holes[hole]).(visible := false)
      ensures !old(holes[hole].visible && !holes[hole].caught) ==> holes[hole] == old(holes[hole])
      ensures forall k :: 0 <= k < HoleCount && k != hole ==> holes[k] == old(holes[k])
    {
      if holes[hole].visible && !holes[hole].caught {
        holes[hole] := holes[hole].(visible := false);
      }
    }

    /**
     * `whackFish`: a visible, uncaught fish in a running game is caught and
     * scores ten points; any other click changes nothing.
     */
    method Whack(hole: nat) returns (scored: bool)
      requires Valid() && hole < HoleCount
      modifies this, holes
      ensures Valid() && holes == old(holes) && timeLeft == old(timeLeft) && gameOver == old(gameOver)
      ensures scored <==> !old(gameOver) && old(holes[hole].visible) && !old(holes[hole].caught)
      ensures score == old(score) + (if scored then CatchPoints else 0)
      ensures scored ==> holes[hole] == old(holes[hole]).(caught := true)
      ensures !scored ==> holes[hole] == old(holes[hole])
      ensures forall k :: 0 <= k < HoleCount && k != hole ==> holes[k] == old(holes[k])
    {
      scored := false;
      if gameOver {
        return;
      }
      if holes[hole].visible && !holes[hole].caught {
        holes[hole] := holes[hole].(caught := true);
        score := score + CatchPoints;
        scored := true;
      }
    }

    /** The clear callback 0.5 s after a catch: the hole goes empty and uncaught, whatever it shows by then. */
    method ClearCatch(hole: nat)
      requires Valid() && hole < HoleCount
      modifies holes
      ensures Valid()
      ensures holes[hole] == old(holes[hole]).(visible := false, caught := false)
      ensures forall k :: 0 <= k < HoleCount && k != hole ==> holes[k] == old(holes[k])
    {
      holes[hole] := holes[hole].(visible := false, caught := false);
    }
  }

  /** A caught fish cannot score again before it is cleared: a second click on it changes nothing. */
  method WhackTwice(g: WhackGame, hole: nat) returns (first: bool, second: bool)
    requires g.Valid() && hole < HoleCount
    modifies g, g.holes
    ensures g.Valid()
    ensures !second
    ensures g.score == old(g.score) + (if first then CatchPoints else 0)
  {
    first := g.Whack(hole);
    second := g.Whack(hole);
  }
}
