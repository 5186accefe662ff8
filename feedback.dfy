/** `value_feed_back`: after a win, walk the move trace backwards, undo each
    move on a copy of the final board and apply one temporal-difference
    update per undone move. */
module FeedBack {
  import opened Boards
  import opened ValueTable
  import opened Agents

  const RewardWin: real := 2.0
  const RewardLose: real := -2.0
  const RewardDraw: real := 0.0

  /** One entry of the trace: the cell taken and the player who took it. */
  datatype Move = Move(pos: nat, player: Player)

  /** The move trace of one episode (`path`): appended to by the episode,
      emptied by the feedback pass. */
  class Trace {
    var moves: seq<Move>

    constructor ()
      ensures moves == []
    {
      moves := [];
    }

    method Append(m: Move)
      modifies this
      ensures moves == old(moves) + [m]
    {
      moves := moves + [m];
    }

    method Pop() returns (m: Move)
      requires moves != []
      modifies this
      ensures old(moves) == moves + [m]
    {
      m := moves[|moves| - 1];
      moves := moves[..|moves| - 1];
    }
  }

  /** Whose table an update refines. */
  datatype Recipient = ToWinner | ToLoser

  /** One update of the pass: the table it goes to, the board and the reward. */
  datatype Update = Update(to: Recipient, board: Board, reward: real)

  predicate OnBoard(moves: seq<Move>, n: nat)
  {
    forall k :: 0 <= k < |moves| ==> moves[k].pos < n
  }

  /** The updates the pass performs, in order, for trace `moves` ending on
      board `b`: the last move is undone first, and the board with it undone
      is updated for the loser with the losing reward if the winner made that
      move, for the winner with the winning reward otherwise. */
  function Schedule(moves: seq<Move>, winner: Player, b: Board): (r: seq<Update>)
    requires OnBoard(moves, |b|)
    ensures |r| == |moves|
  {
    if moves == [] then []
    else
      var m := moves[|moves| - 1];
      var prev := b[m.pos := Empty];
      [if m.player == winner then Update(ToLoser, prev, RewardLose) else Update(ToWinner, prev, RewardWin)]
        + Schedule(moves[..|moves| - 1], winner, prev)
  }

  /** The winner's and the loser's tables after the updates `us`, in order. */
  function ApplyAll(us: seq<Update>, winner: Player, loser: Player, tw: Table, tl: Table): (tables: (Table, Table))
  {
    if us == [] then (tw, tl)
    else if us[0].to == ToLoser then
      ApplyAll(us[1..], winner, loser, tw, Td(tl, loser.name, loser.learningRate, us[0].board, us[0].reward))
    else
      ApplyAll(us[1..], winner, loser, Td(tw, winner.name, winner.learningRate, us[0].board, us[0].reward), tl)
  }

  /** The pass changes no value but those of the boards it updates. */
  lemma {:induction false} ApplyAllLeavesOthers(us: seq<Update>, winner: Player, loser: Player, tw: Table, tl: Table, c: Board)
    requires forall k :: 0 <= k < |us| ==> us[k].board != c
    ensures var r := ApplyAll(us, winner, loser, tw, tl);
      Get(r.0, c) == Get(tw, c) && Get(r.1, c) == Get(tl, c)
  {
    if us != [] {
      var u := us[0];
      var tw' := if u.to == ToLoser then tw else Td(tw, winner.name, winner.learningRate, u.board, u.reward);
      var tl' := if u.to == ToLoser then Td(tl, loser.name, loser.learningRate, u.board, u.reward) else tl;
      TdTouchesOnlyItsBoard(tw, winner.name, winner.learningRate, u.board, u.reward, c);
      TdTouchesOnlyItsBoard(tl, loser.name, loser.learningRate, u.board, u.reward, c);
      ApplyAllLeavesOthers(us[1..], winner, loser, tw', tl', c);
    }
  }

  /** Board `b` with every cell in `cells` reset to empty. */
  function Reset(b: Board, cells: set<nat>): (r: Board)
    ensures |r| == |b|
  {
    seq(|b|, i requires 0 <= i < |b| => if i in cells then Empty else b[i])
  }

  /** The cells of the last `k` moves of `moves`. */
  function LastCells(moves: seq<Move>, k: nat): (cells: set<nat>)
    requires k <= |moves|
  {
    set j | |moves| - k <= j < |moves| :: moves[j].pos
  }

  /** The shape of the pass: the k-th update (counting from 0 at the end of
      the trace) goes to the board with the last k + 1 moves reset, to the
      loser with the losing reward exactly when the winner made that move,
      and to the winner with the winning reward otherwise. */
  lemma {:induction false} ScheduleShape(moves: seq<Move>, winner: Player, b: Board, k: nat)
    requires OnBoard(moves, |b|) && k < |moves|
    ensures var u := Schedule(moves, winner, b)[k];
      var m := moves[|moves| - 1 - k];
      u.board == Reset(b, LastCells(moves, k + 1)) &&
      (u.to == ToLoser <==> m.player == winner) &&
      u.reward == (if m.player == winner then RewardLose else RewardWin)
  {
    var n := |moves|;
    var last := moves[n - 1];
    var prev := b[last.pos := Empty];
    var init := moves[..n - 1];
    if k == 0 {
      assert LastCells(moves, 1) == {last.pos};
      assert prev == Reset(b, {last.pos});
    } else {
      assert OnBoard(init, |prev|);
      ScheduleShape(init, winner, prev, k - 1);
      assert Schedule(moves, winner, b)[k] == Schedule(init, winner, prev)[k - 1];
      assert init[|init| - 1 - (k - 1)] == moves[n - 1 - k];
      assert LastCells(moves, k + 1) == LastCells(init, k) + {last.pos} by {
        forall c | c in LastCells(moves, k + 1) ensures c in LastCells(init, k) + {last.pos} {
          var j :| n - (k + 1) <= j < n && moves[j].pos == c;
          if j < n - 1 {
            assert init[j].pos == c;
          }
        }
        forall c | c in LastCells(init, k) ensures c in LastCells(moves, k + 1) {
          var j :| |init| - k <= j < |init| && init[j].pos == c;
          assert moves[j].pos == c;
        }
      }
      assert Reset(prev, LastCells(init, k)) == Reset(b, LastCells(moves, k + 1));
    }
  }

  /** The board after playing `moves`, in order, from the empty board. */
  function Build(moves: seq<Move>): (b: Board)
    requires OnBoard(moves, Size)
    ensures |b| == Size
  {
    if moves == [] then EmptyBoard()
    else
      var m := moves[|moves| - 1];
      Build(moves[..|moves| - 1])[m.pos := m.player.name]
  }

  /** Every move of `moves` took a cell that was empty at the time. */
  predicate Legal(moves: seq<Move>)
  {
    moves == [] ||
    (OnBoard(moves, Size) && Legal(moves[..|moves| - 1]) &&
     Build(moves[..|moves| - 1])[moves[|moves| - 1].pos] == Empty)
  }

  /** A move on a cell that is empty after `moves` extends a legal trace to
      a legal trace, and puts the mover's mark on that cell. */
  lemma LegalSnoc(moves: seq<Move>, m: Move)
    requires OnBoard(moves, Size) && Legal(moves) && m.pos < Size && Build(moves)[m.pos] == Empty
    ensures OnBoard(moves + [m], Size) && Legal(moves + [m])
    ensures Build(moves + [m]) == Build(moves)[m.pos := m.player.name]
  {
    assert (moves + [m])[..|moves|] == moves;
  }

  /** Undoing the last move of a legal trace gives back the board before it. */
  lemma UndoLastMove(moves: seq<Move>)
    requires Legal(moves) && moves != []
    ensures Build(moves)[moves[|moves| - 1].pos := Empty] == Build(moves[..|moves| - 1])
  {
    var m := moves[|moves| - 1];
    var before := Build(moves[..|moves| - 1]);
    assert Build(moves) == before[m.pos := m.player.name];
    RestoreCell(before, m.pos, m.player.name);
  }

  /** Overwriting a cell and writing its old content back restores the board. */
  lemma RestoreCell(b: Board, i: nat, x: int)
    requires i < |b|
    ensures b[i := x][i := b[i]] == b
  {
  }

  /** The k-th update of the pass is the first one of the pass that starts
      one move earlier, k - 1 steps later. */
  lemma ScheduleUnfold(moves: seq<Move>, winner: Player, b: Board, k: nat)
    requires OnBoard(moves, |b|) && 0 < k < |moves|
    ensures var prev := b[moves[|moves| - 1].pos := Empty];
      OnBoard(moves[..|moves| - 1], |prev|) &&
      Schedule(moves, winner, b)[k] == Schedule(moves[..|moves| - 1], winner, prev)[k - 1]
  {
  }

  /** For a trace played legally from the empty board, undoing moves from
      the end reconstructs the positions of the game: the k-th update of the
      pass refines the board as it stood before move |moves| - 1 - k. */
  lemma {:induction false} ScheduleRevisitsHistory(moves: seq<Move>, winner: Player, k: nat)
    requires Legal(moves) && k < |moves|
    ensures Schedule(moves, winner, Build(moves))[k].board == Build(moves[..|moves| - 1 - k])
  {
    var n := |moves|;
    var init := moves[..n - 1];
    UndoLastMove(moves);
    if k > 0 {
      ScheduleUnfold(moves, winner, Build(moves), k);
      ScheduleRevisitsHistory(init, winner, k - 1);
      assert init[..|init| - 1 - (k - 1)] == moves[..n - 1 - k];
    }
  }

  /** Undoing the last move of the trace and applying its update leaves the
      rest of the pass to do. */
  lemma FeedBackStep(moves: seq<Move>, winner: Player, loser: Player, b: Board, tw: Table, tl: Table)
    requires OnBoard(moves, |b|) && moves != []
    ensures var m := moves[|moves| - 1];
      var init := moves[..|moves| - 1];
      var prev := b[m.pos := Empty];
      OnBoard(init, |prev|) &&
      ApplyAll(Schedule(moves, winner, b), winner, loser, tw, tl) ==
        if m.player == winner then
          ApplyAll(Schedule(init, winner, prev), winner, loser, tw, Td(tl, loser.name, loser.learningRate, prev, RewardLose))
        else
          ApplyAll(Schedule(init, winner, prev), winner, loser, Td(tw, winner.name, winner.learningRate, prev, RewardWin), tl)
  {
    var m := moves[|moves| - 1];
    var prev := b[m.pos := Empty];
    var us := Schedule(moves, winner, b);
    assert us[1..] == Schedule(moves[..|moves| - 1], winner, prev);
  }

  /** `value_feed_back(path, winner, loser, last_board)`: pops the whole
      trace and applies the scheduled updates to the two tables; the final
      board is only read (the pass works on the copy `temp`). */
  method ValueFeedBack(path: Trace, winner: Player, loser: Player, lastBoard: array<int>)
    requires winner != loser
    requires OnBoard(path.moves, lastBoard.Length)
    modifies path, winner`valueEstimate, loser`valueEstimate
    ensures path.moves == []
    ensures (winner.valueEstimate, loser.valueEstimate) ==
      ApplyAll(Schedule(old(path.moves), winner, old(lastBoard[..])), winner, loser,
               old(winner.valueEstimate), old(loser.valueEstimate))
    ensures lastBoard[..] == old(lastBoard[..])
  {
    var temp := new int[lastBoard.Length];
    forall i | 0 <= i < temp.Length {
      temp[i] := lastBoard[i];
    }
    assert temp[..] == lastBoard[..] == old(lastBoard[..]);
    while |path.moves| > 0
      invariant OnBoard(path.moves, temp.Length)
      invariant temp.Length == lastBoard.Length
      invariant ApplyAll(Schedule(path.moves, winner, temp[..]), winner, loser,
                         winner.valueEstimate, loser.valueEstimate) ==
                ApplyAll(Schedule(old(path.moves), winner, old(lastBoard[..])), winner, loser,
                         old(winner.valueEstimate), old(loser.valueEstimate))
      decreases |path.moves|
    {
      ghost var before := temp[..];
      ghost var moves := path.moves;
      FeedBackStep(moves, winner, loser, before, winner.valueEstimate, loser.valueEstimate);
      var res := path.Pop();
      assert path.moves == moves[..|moves| - 1];
      temp[res.pos] := Empty;
      assert temp[..] == before[res.pos := Empty];
      if res.player == winner {
        loser.UpdateValueLearning(temp[..], RewardLose);
      } else {
        winner.UpdateValueLearning(temp[..], RewardWin);
      }
    }
  }
}
