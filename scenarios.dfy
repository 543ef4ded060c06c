/** Worked examples: a diagonal win, a drawn game and a branch taken from a
    past entry, derived from the contracts of the model. */
module Scenarios {
  import opened Cells
  import opened WinDetector
  import opened BoardRules
  import opened GameHistory

  /** A click by `p` on an empty square of a board with no winner is
      accepted and writes `p` there. */
  lemma Accepts(squares: Grid, i: Index, p: Player, next: Grid)
    requires Winner(squares).winner.None? && squares[i] == Empty
    requires next == squares[i := Taken(p)]
    ensures ApplyMove(squares, i, p) == Some(next)
  {
  }

  /** Appending an accepted click on the last entry by the player whose
      turn it is keeps a history legal. */
  lemma LegalAppend(h: seq<Grid>, i: Index, next: Grid)
    requires LegalHistory(h)
    requires ApplyMove(h[|h| - 1], i, NextPlayer(|h| - 1)) == Some(next)
    ensures LegalHistory(h + [next])
  {
    LegalTruncateExtend(h, |h| - 1, i, next);
    assert h[..|h|] == h;
  }

  /** X@0, O@1, X@4, O@2, X@8 is a legal game that X wins on the diagonal
      0-4-8; the final board accepts no further click. */
  lemma DiagonalWin()
    ensures var h := [
            [Empty, Empty, Empty, Empty, Empty, Empty, Empty, Empty, Empty],
            [Taken(X), Empty, Empty, Empty, Empty, Empty, Empty, Empty, Empty],
            [Taken(X), Taken(O), Empty, Empty, Empty, Empty, Empty, Empty, Empty],
            [Taken(X), Taken(O), Empty, Empty, Taken(X), Empty, Empty, Empty, Empty],
            [Taken(X), Taken(O), Taken(O), Empty, Taken(X), Empty, Empty, Empty, Empty],
            [Taken(X), Taken(O), Taken(O), Empty, Taken(X), Empty, Empty, Empty, Taken(X)]
          ];
            LegalHistory(h) &&
            Winner(h[5]) == WinResult(Some(X), [0, 4, 8]) &&
            StatusOf(h[5], NextPlayer(5) == X) == Won(X) &&
            forall i: Index :: ApplyMove(h[5], i, NextPlayer(5)) == None
  {
    var b0: Grid := EmptyGrid;
    var b1: Grid := [Taken(X), Empty, Empty, Empty, Empty, Empty, Empty, Empty, Empty];
    var b2: Grid := [Taken(X), Taken(O), Empty, Empty, Empty, Empty, Empty, Empty, Empty];
    var b3: Grid := [Taken(X), Taken(O), Empty, Empty, Taken(X), Empty, Empty, Empty, Empty];
    var b4: Grid := [Taken(X), Taken(O), Taken(O), Empty, Taken(X), Empty, Empty, Empty, Empty];
    var b5: Grid := [Taken(X), Taken(O), Taken(O), Empty, Taken(X), Empty, Empty, Empty, Taken(X)];
    Accepts(b0, 0, X, b1);
    var h: seq<Grid> := [b0];
    LegalAppend(h, 0, b1);
    h := h + [b1];
    Accepts(b1, 1, O, b2);
    LegalAppend(h, 1, b2);
    h := h + [b2];
    Accepts(b2, 4, X, b3);
    LegalAppend(h, 4, b3);
    h := h + [b3];
    Accepts(b3, 2, O, b4);
    LegalAppend(h, 2, b4);
    h := h + [b4];
    Accepts(b4, 8, X, b5);
    LegalAppend(h, 8, b5);
    h := h + [b5];
  }

  /** X@0, O@1, X@2, O@4, X@3, O@5, X@7, O@6, X@8 is a legal game. */
  lemma DrawnGameIsLegal()
    ensures var h := [
            [Empty, Empty, Empty, Empty, Empty, Empty, Empty, Empty, Empty],
            [Taken(X), Empty, Empty, Empty, Empty, Empty, Empty, Empty, Empty],
            [Taken(X), Taken(O), Empty, Empty, Empty, Empty, Empty, Empty, Empty],
            [Taken(X), Taken(O), Taken(X), Empty, Empty, Empty, Empty, Empty, Empty],
            [Taken(X), Taken(O), Taken(X), Empty, Taken(O), Empty, Empty, Empty, Empty],
            [Taken(X), Taken(O), Taken(X), Taken(X), Taken(O), Empty, Empty, Empty, Empty],
            [Taken(X), Taken(O), Taken(X), Taken(X), Taken(O), Taken(O), Empty, Empty, Empty],
            [Taken(X), Taken(O), Taken(X), Taken(X), Taken(O), Taken(O), Empty, Taken(X), Empty],
            [Taken(X), Taken(O), Taken(X), Taken(X), Taken(O), Taken(O), Taken(O), Taken(X), Empty],
            [Taken(X), Taken(O), Taken(X), Taken(X), Taken(O), Taken(O), Taken(O), Taken(X), Taken(X)]
          ];
            LegalHistory(h)
  {
    var b0: Grid := EmptyGrid;
    var b1: Grid := [Taken(X), Empty, Empty, Empty, Empty, Empty, Empty, Empty, Empty];
    var b2: Grid := [Taken(X), Taken(O), Empty, Empty, Empty, Empty, Empty, Empty, Empty];
    var b3: Grid := [Taken(X), Taken(O), Taken(X), Empty, Empty, Empty, Empty, Empty, Empty];
    var b4: Grid := [Taken(X), Taken(O), Taken(X), Empty, Taken(O), Empty, Empty, Empty, Empty];
    var b5: Grid := [Taken(X), Taken(O), Taken(X), Taken(X), Taken(O), Empty, Empty, Empty, Empty];
    var b6: Grid := [Taken(X), Taken(O), Taken(X), Taken(X), Taken(O), Taken(O), Empty, Empty, Empty];
    var b7: Grid := [Taken(X), Taken(O), Taken(X), Taken(X), Taken(O), Taken(O), Empty, Taken(X), Empty];
    var b8: Grid := [Taken(X), Taken(O), Taken(X), Taken(X), Taken(O), Taken(O), Taken(O), Taken(X), Empty];
    var b9: Grid := [Taken(X), Taken(O), Taken(X), Taken(X), Taken(O), Taken(O), Taken(O), Taken(X), Taken(X)];
    Accepts(b0, 0, X, b1);
    var h: seq<Grid> := [b0];
    LegalAppend(h, 0, b1);
    h := h + [b1];
    Accepts(b1, 1, O, b2);
    LegalAppend(h, 1, b2);
    h := h + [b2];
    Accepts(b2, 2, X, b3);
    LegalAppend(h, 2, b3);
    h := h + [b3];
    Accepts(b3, 4, O, b4);
    LegalAppend(h, 4, b4);
    h := h + [b4];
    Accepts(b4, 3, X, b5);
    LegalAppend(h, 3, b5);
    h := h + [b5];
    Accepts(b5, 5, O, b6);
    LegalAppend(h, 5, b6);
    h := h + [b6];
    Accepts(b6, 7, X, b7);
    LegalAppend(h, 7, b7);
    h := h + [b7];
    Accepts(b7, 6, O, b8);
    LegalAppend(h, 6, b8);
    h := h + [b8];
    Accepts(b8, 8, X, b9);
    LegalAppend(h, 8, b9);
    h := h + [b9];
  }

  /** The game above ends in a full board with no line: a draw. */
  lemma FullBoardDraw()
    ensures StatusOf([Taken(X), Taken(O), Taken(X), Taken(X), Taken(O), Taken(O), Taken(O), Taken(X), Taken(X)], NextPlayer(9) == X) == Draw
  {
    WinnerNoneIff([Taken(X), Taken(O), Taken(X), Taken(X), Taken(O), Taken(O), Taken(O), Taken(X), Taken(X)]);
  }

  /** Going back to entry 2 of a five-entry history and playing drops the
      two later entries; the new board becomes entry 3 and is on display. */
  method BranchFromThePast(b1: Grid, b2: Grid, b3: Grid, b4: Grid, next: Grid) {
    var g := new Game();
    g.HandlePlay(b1);
    g.HandlePlay(b2);
    g.HandlePlay(b3);
    g.HandlePlay(b4);
    assert g.history == [EmptyGrid, b1, b2, b3, b4] && g.currentMove == 4;
    g.JumpTo(2);
    assert g.CurrentSquares() == b2 && g.XIsNext();
    g.HandlePlay(next);
    assert g.history == [EmptyGrid, b1, b2, next] && g.currentMove == 3;
    assert g.Moves() == [GoToStart, GoToMove(1), GoToMove(2), Current(3)];
    g.JumpTo(0);
    g.JumpTo(|g.history| - 1);
    assert g.CurrentSquares() == next;
  }
}
