/** The game component: the list of past boards, the pointer to the board
    on display, whose turn it is, and the labels of the history list. */
module GameHistory {
  import opened Cells
  import opened WinDetector
  import opened BoardRules

  /** Whose turn it is at history entry `move`: X on even entries
      (`xIsNext = currentMove % 2 === 0`). */
  function NextPlayer(move: nat): (p: Player)
    ensures p == X <==> move % 2 == 0
  {
    Mover(move % 2 == 0)
  }

  /** X opens and the turn passes to the other player at every entry. */
  lemma TurnAlternates(move: nat)
    ensures NextPlayer(0) == X
    ensures NextPlayer(move + 1) != NextPlayer(move)
  {
  }

  // ---------------------------------------------------------------------
  // Labels of the history list

  /** The text of one history entry: the entry on display, a numbered move
      to jump to, or the start of the game. */
  datatype MoveLabel = Current(move: nat) | GoToMove(move: nat) | GoToStart

  function Label(move: nat, currentMove: nat): MoveLabel {
    if move == currentMove then Current(move)
    else if move > 0 then GoToMove(move)
    else GoToStart
  }

  /** The labels of `count` history entries (`history.map`), in order. */
  function Labels(count: nat, currentMove: nat): (ls: seq<MoveLabel>)
    ensures |ls| == count
    ensures forall m | 0 <= m < count ::
              (ls[m].Current? <==> m == currentMove) &&
              (ls[m].GoToStart? <==> m == 0 && m != currentMove) &&
              (ls[m].GoToStart? || ls[m].move == m)
  {
    seq(count, m requires 0 <= m < count => Label(m, currentMove))
  }

  /** How many labels mark the entry on display. */
  function CurrentCount(ls: seq<MoveLabel>): nat {
    if ls == [] then 0
    else CurrentCount(ls[..|ls| - 1]) + (if ls[|ls| - 1].Current? then 1 else 0)
  }

  /** Exactly one entry is marked as the one on display when the pointer is
      inside the history, and none otherwise. */
  lemma {:induction false} OneCurrentLabel(count: nat, currentMove: nat)
    ensures CurrentCount(Labels(count, currentMove)) == if currentMove < count then 1 else 0
  {
    if count > 0 {
      assert Labels(count, currentMove)[..count - 1] == Labels(count - 1, currentMove);
      OneCurrentLabel(count - 1, currentMove);
    }
  }

  // ---------------------------------------------------------------------
  // Histories produced by play

  /** A history that play can produce: it starts from the empty board and
      every entry is an accepted click on the one before it, by the player
      whose turn that entry was. */
  ghost predicate LegalHistory(h: seq<Grid>) {
    |h| >= 1 && h[0] == EmptyGrid &&
    forall n :: 1 <= n < |h| ==> Played(h[n - 1], h[n], NextPlayer(n - 1))
  }

  /** `after` is the board an accepted click by `p` turns `before` into. */
  ghost predicate Played(before: Grid, after: Grid, p: Player) {
    exists i: Index :: ApplyMove(before, i, p) == Some(after)
  }

  /** Consecutive snapshots of a legal history differ in exactly one square,
      which goes from empty to the symbol of the player whose turn it was;
      and the earlier snapshot had no complete line. */
  lemma LegalStepChangesOneSquare(h: seq<Grid>, n: nat)
    requires LegalHistory(h) && 1 <= n < |h|
    ensures !HasLine(h[n - 1])
    ensures exists i: Index :: h[n - 1][i] == Empty && h[n][i] == Taken(NextPlayer(n - 1)) &&
                               forall j: Index :: j != i ==> h[n][j] == h[n - 1][j]
  {
    var i: Index :| ApplyMove(h[n - 1], i, NextPlayer(n - 1)) == Some(h[n]);
  }

  /** Entry `n` of a legal history holds (n+1)/2 X's and n/2 O's. */
  lemma {:induction false} LegalCounts(h: seq<Grid>, n: nat)
    requires LegalHistory(h) && n < |h|
    ensures Count(h[n], Taken(X)) == (n + 1) / 2
    ensures Count(h[n], Taken(O)) == n / 2
  {
    if n == 0 {
      assert Count(EmptyGrid, Taken(X)) == 0 && Count(EmptyGrid, Taken(O)) == 0;
    } else {
      LegalCounts(h, n - 1);
      var p := NextPlayer(n - 1);
      var i: Index :| ApplyMove(h[n - 1], i, p) == Some(h[n]);
      assert h[n] == h[n - 1][i := Taken(p)];
      CountAfterTake(h[n - 1], i, p, if p == X then O else X);
    }
  }

  /** A game lasts at most nine moves, so a legal history has at most ten
      entries. */
  lemma LegalHistoryLength(h: seq<Grid>)
    requires LegalHistory(h)
    ensures |h| <= 10
  {
    var n := |h| - 1;
    LegalCounts(h, n);
    TakenCount(h[n]);
  }

  /** After nine moves the board is full, so the game is over. */
  lemma NinthMoveEndsGame(h: seq<Grid>, xIsNext: bool)
    requires LegalHistory(h) && |h| == 10
    ensures Full(h[9])
    ensures !StatusOf(h[9], xIsNext).InProgress?
  {
    LegalCounts(h, 9);
    TakenCount(h[9]);
  }

  /** Truncating after entry `c` and appending an accepted click on entry `c`
      by the player whose turn it is keeps a history legal. */
  lemma LegalTruncateExtend(h: seq<Grid>, c: nat, i: Index, b: Grid)
    requires LegalHistory(h) && c < |h|
    requires ApplyMove(h[c], i, NextPlayer(c)) == Some(b)
    ensures LegalHistory(h[..c + 1] + [b])
  {
    var h' := h[..c + 1] + [b];
    forall n | 1 <= n < |h'|
      ensures Played(h'[n - 1], h'[n], NextPlayer(n - 1))
    {
      if n <= c {
        assert h'[n - 1] == h[n - 1] && h'[n] == h[n];
      } else {
        assert h'[n - 1] == h[c] && h'[n] == b;
      }
    }
  }

  // ---------------------------------------------------------------------
  // The game's state

  class Game {
    /** Every board shown so far, oldest first. */
    var history: seq<Grid>
    /** The entry on display. */
    var currentMove: nat

    ghost predicate Valid()
      reads this
    {
      1 <= |history| && currentMove < |history|
    }

    /** A new game: one empty board, on display. */
    constructor ()
      ensures Valid()
      ensures history == [EmptyGrid] && currentMove == 0
      ensures LegalHistory(history)
    {
      history := [EmptyGrid];
      currentMove := 0;
    }

    /** `xIsNext`: the turn follows the parity of the entry on display. */
    function XIsNext(): (b: bool)
      reads this
      ensures b <==> NextPlayer(currentMove) == X
    {
      currentMove % 2 == 0
    }

    /** `currentSquares`: the board on display. */
    function CurrentSquares(): (g: Grid)
      reads this
      requires Valid()
      ensures g == history[currentMove]
    {
      history[currentMove]
    }

    /** The labels of the history list: one per entry, in order, exactly
        one of them marking the entry on display. */
    function Moves(): (ls: seq<MoveLabel>)
      reads this
      ensures ls == Labels(|history|, currentMove)
      ensures |ls| == |history|
      ensures Valid() ==> CurrentCount(ls) == 1
    {
      OneCurrentLabel(|history|, currentMove);
      Labels(|history|, currentMove)
    }

    /** `handlePlay`: drop every entry after the one on display, append the
        new board and display it. */
    method HandlePlay(nextSquares: Grid)
      requires Valid()
      modifies this
      ensures Valid()
      ensures history == old(history[..currentMove + 1]) + [nextSquares]
      ensures currentMove == |history| - 1 == old(currentMove) + 1
      ensures CurrentSquares() == nextSquares
      ensures forall k :: 0 <= k <= old(currentMove) ==> history[k] == old(history[k])
    {
      var nextHistory := history[..currentMove + 1] + [nextSquares];
      history := nextHistory;
      currentMove := |nextHistory| - 1;
    }

    /** `jumpTo`: display an existing entry; the history is kept whole. */
    method JumpTo(nextMove: nat)
      requires Valid() && nextMove < |history|
      modifies this
      ensures Valid()
      ensures history == old(history) && currentMove == nextMove
    {
      currentMove := nextMove;
    }

    /** A click on square `i` of the board on display: the board component
        gets the displayed board and the turn, and its accepted moves go to
        `HandlePlay`. A rejected click changes nothing. */
    method SelectCell(i: Index)
      requires Valid()
      modifies this
      ensures Valid()
      ensures var played := old(ApplyMove(CurrentSquares(), i, NextPlayer(currentMove)));
              if played.Some? then
                history == old(history[..currentMove + 1]) + [played.value] &&
                currentMove == old(currentMove) + 1
              else
                history == old(history) && currentMove == old(currentMove)
      ensures LegalHistory(old(history)) ==> LegalHistory(history)
    {
      ghost var h, c := history, currentMove;
      var next := HandleClick(CurrentSquares(), XIsNext(), i);
      if next.Some? {
        HandlePlay(next.value);
        if LegalHistory(h) {
          LegalTruncateExtend(h, c, i, next.value);
        }
      }
    }
  }
}
