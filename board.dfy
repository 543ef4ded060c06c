/** The board component's logic: the rule that accepts or rejects a click,
    the status line and the highlighting of the winning squares. */
module BoardRules {
  import opened Cells
  import opened WinDetector

  /** The move rule: a click on square `i` by `p` is rejected when some line
      is already complete or the square is taken; otherwise the result is a
      new board that differs from `squares` only at `i`, which now holds `p`. */
  function ApplyMove(squares: Grid, i: Index, p: Player): (r: Option<Grid>)
    ensures r.None? <==> HasLine(squares) || squares[i] != Empty
    ensures r.Some? ==> r.value[i] == Taken(p) &&
                        forall j: Index :: j != i ==> r.value[j] == squares[j]
  {
    WinnerNoneIff(squares);
    if Winner(squares).winner.Some? || squares[i] != Empty then None
    else Some(squares[i := Taken(p)])
  }

  /** `handleClick(i)`: check the rule, copy the board and write the mover's
      symbol into the copy. `None` means the click was ignored and `onPlay`
      is not called; `Some(b)` is the board passed to `onPlay`. The board
      passed in is a value and so is never changed. */
  method HandleClick(squares: Grid, xIsNext: bool, i: Index) returns (next: Option<Grid>)
    ensures next == ApplyMove(squares, i, Mover(xIsNext))
    ensures next.None? <==> HasLine(squares) || squares[i] != Empty
  {
    var w := CalculateWinner(squares);
    if w.winner.Some? || squares[i] != Empty {
      return None;
    }
    var nextSquares := new Cell[9](j requires 0 <= j < 9 => squares[j]);
    nextSquares[i] := Taken(if xIsNext then X else O);
    assert nextSquares[..] == squares[i := Taken(Mover(xIsNext))];
    return Some(nextSquares[..]);
  }

  /** The status line above the board. */
  datatype Status = Won(winner: Player) | Draw | InProgress(next: Player)

  /** Status derivation: a winner first, then a full board, then the player
      to move, which comes from the turn and not from the board. */
  function StatusOf(squares: Grid, xIsNext: bool): (s: Status)
    ensures s.Won? <==> HasLine(squares)
    ensures s.Won? ==> exists k :: FirstLine(squares, k) && squares[Lines[k].a] == Taken(s.winner)
    ensures s == Draw <==> !HasLine(squares) && Full(squares)
    ensures s.InProgress? <==> !HasLine(squares) && !Full(squares)
    ensures s.InProgress? ==> s.next == Mover(xIsNext)
  {
    WinnerNoneIff(squares);
    var w := Winner(squares);
    if w.winner.Some? then
      WinnerSound(squares);
      Won(w.winner.value)
    else if Full(squares) then Draw
    else InProgress(Mover(xIsNext))
  }

  /** A square is on the reported line exactly when it is on the first
      uniform line in scan order. */
  lemma OnReportedLine(squares: Grid, index: Index)
    ensures index in Winner(squares).line <==>
            exists k :: FirstLine(squares, k) && index in Lines[k].Squares()
  {
    WinnerNoneIff(squares);
    if Winner(squares).winner.Some? {
      WinnerSound(squares);
    }
    forall k | FirstLine(squares, k) ensures Winner(squares).line == Lines[k].Squares() {
      WinnerIsFirstLine(squares, k);
    }
  }

  /** `isWinning={line.includes(index)}`: a square is highlighted exactly
      when it lies on the first uniform line in scan order. */
  function IsWinningSquare(squares: Grid, index: Index): (b: bool)
    ensures b <==> exists k :: FirstLine(squares, k) && index in Lines[k].Squares()
    ensures b ==> squares[index] != Empty
  {
    OnReportedLine(squares, index);
    index in Winner(squares).line
  }

  /** Won and drawn boards are final: every click on them is rejected. */
  lemma DecidedBoardRejectsMoves(squares: Grid, xIsNext: bool, i: Index, p: Player)
    requires !StatusOf(squares, xIsNext).InProgress?
    ensures ApplyMove(squares, i, p) == None
  {
  }
}
