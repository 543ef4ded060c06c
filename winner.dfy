/** Win detection: the eight lines of the board, scanned in a fixed order,
    and the first line whose three squares hold the same symbol. */
module WinDetector {
  import opened Cells

  /** Three square indices that form a line. */
  datatype Triple = Triple(a: Index, b: Index, c: Index) {
    /** The line as the array `[a, b, c]` the scan hands back. */
    function Squares(): (s: seq<Index>)
      ensures |s| == 3 && s[0] == a && s[1] == b && s[2] == c
    {
      [a, b, c]
    }
  }

  /** The lines in scan order: rows, then columns, then the two diagonals. */
  const Lines: seq<Triple> := [
    Triple(0, 1, 2), Triple(3, 4, 5), Triple(6, 7, 8),
    Triple(0, 3, 6), Triple(1, 4, 7), Triple(2, 5, 8),
    Triple(0, 4, 8), Triple(2, 4, 6)
  ]

  /** What the scan reports: the winning symbol (None for `null`) and the
      winning line (empty when there is none). */
  datatype WinResult = WinResult(winner: Option<Player>, line: seq<Index>)

  const NoWinner: WinResult := WinResult(None, [])

  /** The three squares of `t` hold the same symbol. */
  predicate Uniform(squares: Grid, t: Triple) {
    squares[t.a] != Empty && squares[t.a] == squares[t.b] && squares[t.a] == squares[t.c]
  }

  /** Some line of the board is uniform. */
  ghost predicate HasLine(squares: Grid) {
    exists k :: 0 <= k < |Lines| && Uniform(squares, Lines[k])
  }

  /** Line `k` is uniform and no line before it in scan order is. */
  ghost predicate FirstLine(squares: Grid, k: int) {
    0 <= k < |Lines| && Uniform(squares, Lines[k]) &&
    forall j :: 0 <= j < k ==> !Uniform(squares, Lines[j])
  }

  /** The report for a uniform line: its symbol and its squares. */
  function LineResult(squares: Grid, t: Triple): WinResult
    requires Uniform(squares, t)
  {
    WinResult(Some(squares[t.a].player), t.Squares())
  }

  /** The scan from line `i` on (the loop's remaining iterations). */
  function WinnerFrom(squares: Grid, i: nat): WinResult
    decreases |Lines| - i
  {
    if i >= |Lines| then NoWinner
    else if Uniform(squares, Lines[i]) then LineResult(squares, Lines[i])
    else WinnerFrom(squares, i + 1)
  }

  /** The whole scan: the value of `calculateWinner(squares)`. */
  function Winner(squares: Grid): WinResult {
    WinnerFrom(squares, 0)
  }

  /** The scan from `i` finds nothing exactly when no line from `i` on is
      uniform, and then reports the empty line. */
  lemma {:induction false} WinnerFromNone(squares: Grid, i: nat)
    requires i <= |Lines|
    ensures WinnerFrom(squares, i).winner.None? <==>
            forall k :: i <= k < |Lines| ==> !Uniform(squares, Lines[k])
    ensures WinnerFrom(squares, i).winner.None? ==> WinnerFrom(squares, i) == NoWinner
    decreases |Lines| - i
  {
    if i < |Lines| && !Uniform(squares, Lines[i]) {
      WinnerFromNone(squares, i + 1);
    }
  }

  /** The scan from `i` reports the first uniform line from `i` on. */
  lemma {:induction false} WinnerFromFirst(squares: Grid, i: nat, k: nat)
    requires i <= k < |Lines| && Uniform(squares, Lines[k])
    requires forall j :: i <= j < k ==> !Uniform(squares, Lines[j])
    ensures WinnerFrom(squares, i) == LineResult(squares, Lines[k])
    decreases k - i
  {
    if i < k {
      WinnerFromFirst(squares, i + 1, k);
    }
  }

  /** A winner reported by the scan from `i` comes from the first uniform
      line from `i` on. */
  lemma {:induction false} WinnerFromSome(squares: Grid, i: nat)
    requires WinnerFrom(squares, i).winner.Some?
    ensures exists k :: i <= k < |Lines| && Uniform(squares, Lines[k]) &&
                        (forall j :: i <= j < k ==> !Uniform(squares, Lines[j])) &&
                        WinnerFrom(squares, i) == LineResult(squares, Lines[k])
    decreases |Lines| - i
  {
    if !Uniform(squares, Lines[i]) {
      WinnerFromSome(squares, i + 1);
    }
  }

  /** No winner is reported exactly when no line is uniform. */
  lemma WinnerNoneIff(squares: Grid)
    ensures Winner(squares).winner.None? <==> !HasLine(squares)
    ensures Winner(squares).winner.None? ==> Winner(squares) == NoWinner
  {
    WinnerFromNone(squares, 0);
  }

  /** When several lines are uniform, the first in scan order is reported. */
  lemma WinnerIsFirstLine(squares: Grid, k: nat)
    requires FirstLine(squares, k)
    ensures Winner(squares) == LineResult(squares, Lines[k])
  {
    WinnerFromFirst(squares, 0, k);
  }

  /** A reported winner `p` comes with a line of the table, the first uniform
      one, all three of whose squares hold `p`. */
  lemma {:induction false} WinnerSound(squares: Grid)
    requires Winner(squares).winner.Some?
    ensures exists k :: FirstLine(squares, k) &&
                        Winner(squares).line == Lines[k].Squares() &&
                        squares[Lines[k].a] == Taken(Winner(squares).winner.value) &&
                        squares[Lines[k].b] == Taken(Winner(squares).winner.value) &&
                        squares[Lines[k].c] == Taken(Winner(squares).winner.value)
  {
    WinnerFromSome(squares, 0);
  }

  /** The empty board has no winner. */
  lemma EmptyGridNoWinner()
    ensures Winner(EmptyGrid) == NoWinner
  {
    WinnerNoneIff(EmptyGrid);
  }

  /** `calculateWinner`: walk the table and return at the first uniform line. */
  method CalculateWinner(squares: Grid) returns (r: WinResult)
    ensures r == Winner(squares)
    ensures r.winner.None? <==> !HasLine(squares)
    ensures r.winner.None? ==> r.line == []
    ensures forall k :: FirstLine(squares, k) ==> r == LineResult(squares, Lines[k])
  {
    var lines := Lines;
    for i := 0 to |lines|
      invariant forall j :: 0 <= j < i ==> !Uniform(squares, lines[j])
      invariant WinnerFrom(squares, i) == Winner(squares)
    {
      var t := lines[i];
      if squares[t.a] != Empty && squares[t.a] == squares[t.b] && squares[t.a] == squares[t.c] {
        assert FirstLine(squares, i);
        return WinResult(Some(squares[t.a].player), [t.a, t.b, t.c]);
      }
    }
    return NoWinner;
  }
}
