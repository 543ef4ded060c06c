/** The values the game is made of: the two players, the contents of one
    square and a 3x3 board stored row-major in nine squares. */
module Cells {

  /** Absent or present value; `None` plays the part of JavaScript's `null`. */
  datatype Option<+T> = None | Some(value: T)

  datatype Player = X | O

  /** One square: `Empty` is the `null` the board starts with. */
  datatype Cell = Empty | Taken(player: Player)

  /** A square index, 0 to 8, row-major. */
  type Index = i: nat | i < 9

  /** A board: exactly nine squares. */
  type Grid = s: seq<Cell> | |s| == 9
    witness [Empty, Empty, Empty, Empty, Empty, Empty, Empty, Empty, Empty]

  /** The board every game starts from (`Array(9).fill(null)`). */
  const EmptyGrid: Grid := [Empty, Empty, Empty, Empty, Empty, Empty, Empty, Empty, Empty]

  /** The symbol written by the player to move: 'X' when `xIsNext`, else 'O'. */
  function Mover(xIsNext: bool): (p: Player)
    ensures p == X <==> xIsNext
  {
    if xIsNext then X else O
  }

  /** Every square is taken (`squares.every(s => s !== null)`). */
  predicate Full(squares: Grid) {
    forall j | 0 <= j < 9 :: squares[j] != Empty
  }

  /** Number of squares of `s` holding `c`. */
  function Count(s: seq<Cell>, c: Cell): (n: nat)
    ensures n <= |s|
  {
    if s == [] then 0 else (if s[0] == c then 1 else 0) + Count(s[1..], c)
  }

  /** Writing a symbol into an empty square adds one to that symbol's count
      and leaves the other symbol's count alone. */
  lemma {:induction false} CountAfterTake(s: seq<Cell>, i: nat, p: Player, q: Player)
    requires i < |s| && s[i] == Empty
    ensures Count(s[i := Taken(p)], Taken(p)) == Count(s, Taken(p)) + 1
    ensures q != p ==> Count(s[i := Taken(p)], Taken(q)) == Count(s, Taken(q))
  {
    var t := s[i := Taken(p)];
    if i > 0 {
      assert t[1..] == s[1..][i - 1 := Taken(p)];
      CountAfterTake(s[1..], i - 1, p, q);
    } else {
      assert t[1..] == s[1..];
    }
  }

  /** The two symbols' counts add up to the length exactly when no square
      is empty, and never exceed it. */
  lemma {:induction false} TakenCount(s: seq<Cell>)
    ensures Count(s, Taken(X)) + Count(s, Taken(O)) <= |s|
    ensures Count(s, Taken(X)) + Count(s, Taken(O)) == |s| <==> forall j | 0 <= j < |s| :: s[j] != Empty
  {
    if s != [] {
      TakenCount(s[1..]);
      assert s[0] != Empty <==> s[0] == Taken(X) || s[0] == Taken(O) by {
        if s[0].Taken? { assert s[0].player == X || s[0].player == O; }
      }
      assert forall j | 0 <= j < |s| - 1 :: s[1..][j] == s[j + 1];
      assert (forall j | 0 <= j < |s| :: s[j] != Empty) <==>
             s[0] != Empty && forall j | 0 <= j < |s| - 1 :: s[1..][j] != Empty;
    }
  }
}
