/** The sparse value table a player keeps: board snapshot to value estimate.
    A board that was never stored reads as 0; storing overwrites one entry. */
module ValueTable {
  import opened Boards

  type Table = map<Board, real>

  /** Lookup with the table's default. */
  function Get(t: Table, b: Board): (v: real)
  {
    if b in t then t[b] else 0.0
  }

  /** Storing `v` under `b` makes `b` read `v` and leaves every other board's value alone. */
  lemma StoreThenGet(t: Table, b: Board, v: real, c: Board)
    ensures Get(t[b := v], c) == if c == b then v else Get(t, c)
  {
  }

  /** A fresh table values every board at 0. */
  lemma FreshTableIsZero(b: Board)
    ensures Get(map[], b) == 0.0
  {
  }
}
