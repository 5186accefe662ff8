/** The 3x3 board: nine cells in row-major order, win detection and the
    random choice of an empty cell. */
module Boards {
  import opened Picking

  /** A board snapshot. Cell value 0 is empty; any other value is the name
      (the mark) of the player who took the cell. */
  type Board = seq<int>

  const Empty: int := 0
  const Size: nat := 9

  /** The eight winning lines, in the order the source checks them. */
  const WinCases: seq<(nat, nat, nat)> :=
    [(0, 1, 2), (3, 4, 5), (6, 7, 8), (0, 3, 6), (1, 4, 7), (2, 5, 8), (0, 4, 8), (2, 4, 6)]

  function EmptyBoard(): (b: Board)
    ensures |b| == Size && forall i :: 0 <= i < Size ==> b[i] == Empty
  {
    [Empty, Empty, Empty, Empty, Empty, Empty, Empty, Empty, Empty]
  }

  /** The three cells of `line` are on the board, taken, and carry the same mark. */
  predicate Complete(b: Board, line: (nat, nat, nat))
  {
    line.0 < |b| && line.1 < |b| && line.2 < |b| &&
    b[line.0] != Empty && b[line.0] == b[line.1] && b[line.1] == b[line.2]
  }

  /** Someone has won: one of the eight lines, checked in order, is complete. */
  predicate IsWin(b: Board)
    requires |b| == Size
  {
    exists j :: 0 <= j < |WinCases| && Complete(b, WinCases[j])
  }

  predicate SameTaken(b: Board, x: nat, y: nat, z: nat)
    requires x < |b| && y < |b| && z < |b|
  {
    b[x] != Empty && b[x] == b[y] && b[y] == b[z]
  }

  predicate RowWon(b: Board, r: nat)
    requires |b| == Size && r < 3
  {
    SameTaken(b, 3 * r, 3 * r + 1, 3 * r + 2)
  }

  predicate ColumnWon(b: Board, c: nat)
    requires |b| == Size && c < 3
  {
    SameTaken(b, c, c + 3, c + 6)
  }

  /** The geometric reading of a win, independent of the list of lines:
      a row, a column or one of the two diagonals is taken by one mark. */
  lemma IsWinIffLine(b: Board)
    requires |b| == Size
    ensures IsWin(b) <==>
      (exists r :: 0 <= r < 3 && RowWon(b, r)) ||
      (exists c :: 0 <= c < 3 && ColumnWon(b, c)) ||
      SameTaken(b, 0, 4, 8) || SameTaken(b, 2, 4, 6)
  {
    if IsWin(b) {
      var j :| 0 <= j < |WinCases| && Complete(b, WinCases[j]);
      if j < 3 {
        assert RowWon(b, j);
      } else if j < 6 {
        assert ColumnWon(b, j - 3);
      }
    }
    if exists r :: 0 <= r < 3 && RowWon(b, r) {
      var r :| 0 <= r < 3 && RowWon(b, r);
      assert Complete(b, WinCases[r]);
    }
    if exists c :: 0 <= c < 3 && ColumnWon(b, c) {
      var c :| 0 <= c < 3 && ColumnWon(b, c);
      assert Complete(b, WinCases[c + 3]);
    }
    if SameTaken(b, 0, 4, 8) {
      assert Complete(b, WinCases[6]);
    }
    if SameTaken(b, 2, 4, 6) {
      assert Complete(b, WinCases[7]);
    }
  }

  /** The empty board has no winner. */
  lemma EmptyBoardNotWon()
    ensures !IsWin(EmptyBoard())
  {
  }

  /** The indices below `n` of the empty cells, in increasing order: the list
      `choose_pos_randomly` builds. */
  function EmptyCellsBelow(b: Board, n: nat): (r: seq<nat>)
    requires n <= |b|
    ensures |r| <= n && forall k :: 0 <= k < |r| ==> r[k] < n
  {
    if n == 0 then []
    else EmptyCellsBelow(b, n - 1) + (if b[n - 1] == Empty then [n - 1] else [])
  }

  /** The list holds exactly the empty cells below `n`, in increasing order. */
  lemma {:induction false} EmptyCellsBelowMembers(b: Board, n: nat)
    requires n <= |b|
    ensures var r := EmptyCellsBelow(b, n);
      (forall i: int :: i in r <==> 0 <= i < n && b[i] == Empty) &&
      (forall j, k :: 0 <= j < k < |r| ==> r[j] < r[k])
  {
    if n > 0 {
      EmptyCellsBelowMembers(b, n - 1);
    }
  }

  function EmptyCells(b: Board): (cells: seq<nat>)
  {
    EmptyCellsBelow(b, |b|)
  }

  /** Every cell of the empty board is a candidate. */
  lemma EmptyBoardAllFree()
    ensures |EmptyCells(EmptyBoard())| == Size
  {
    AllFreeBelow(EmptyBoard(), Size);
  }

  lemma {:induction false} AllFreeBelow(b: Board, n: nat)
    requires n <= |b| && forall i :: 0 <= i < n ==> b[i] == Empty
    ensures |EmptyCellsBelow(b, n)| == n
  {
    if n > 0 {
      AllFreeBelow(b, n - 1);
    }
  }

  /** A board with an empty cell has a non-empty candidate list, and a full
      board has none. */
  lemma EmptyCellsNonEmpty(b: Board)
    ensures Empty in b <==> |EmptyCells(b)| > 0
  {
    EmptyCellsBelowMembers(b, |b|);
    if Empty in b {
      var i :| 0 <= i < |b| && b[i] == Empty;
      assert i in EmptyCells(b);
    }
    if |EmptyCells(b)| > 0 {
      assert EmptyCells(b)[0] in EmptyCells(b);
    }
  }

  /** Taking one empty cell removes exactly one candidate. */
  lemma {:induction false} PlaceRemovesOneCandidate(b: Board, i: nat, m: int, n: nat)
    requires i < |b| && b[i] == Empty && m != Empty && n <= |b|
    ensures |EmptyCellsBelow(b[i := m], n)| == |EmptyCellsBelow(b, n)| - (if i < n then 1 else 0)
  {
    if n > 0 {
      PlaceRemovesOneCandidate(b, i, m, n - 1);
    }
  }

  /** `choose_pos_randomly`: collect the empty cells, then pick the one the
      random draw names (the draw is reduced modulo the number of candidates,
      so every draw names a candidate and every candidate can be named). */
  method ChoosePosRandomly(b: Board, draw: nat) returns (pos: nat)
    requires Empty in b
    ensures pos < |b| && b[pos] == Empty
    ensures |EmptyCells(b)| > 0 && pos == EmptyCells(b)[DrawIndex(draw, |EmptyCells(b)|)]
  {
    EmptyCellsNonEmpty(b);
    var temp: seq<nat> := [];
    var i := 0;
    while i < |b|
      invariant i <= |b|
      invariant temp == EmptyCellsBelow(b, i)
    {
      if b[i] == Empty {
        temp := temp + [i];
      }
      i := i + 1;
    }
    assert temp == EmptyCells(b);
    EmptyCellsBelowMembers(b, |b|);
    pos := temp[DrawIndex(draw, |temp|)];
    assert pos in temp;
  }
}
