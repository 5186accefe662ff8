/** One training episode (the body of the training loop) and the loop that
    repeats it: the two players alternate moves on a shared board until a
    win or a full board, updating their value tables as they go. */
module Training {
  import opened Boards
  import opened ValueTable
  import opened Picking
  import opened Agents
  import opened FeedBack

  /** The random draws of one move: the uniform draw of `random_pick` and the
      index draw for `np.random.randint` (used by whichever choice is made). */
  datatype Roll = Roll(p: real, index: nat)

  datatype Status = Running | Won(winner: Player) | Drawn

  /** An episode between two moves, as the specification sees it: the board,
      both tables, the trace, the number of moves made, the status, and
      whether every move so far was made while the game was running, on a
      cell that was empty. */
  datatype Progress = Progress(board: Board, t1: Table, t2: Table, path: seq<Move>, turn: nat, status: Status, legal: bool)

  function Start(t1: Table, t2: Table): (s: Progress)
  {
    Progress(EmptyBoard(), t1, t2, [], 0, Running, true)
  }

  /** What a move that produced board `b` does, seen from the player who
      made it (`mover`, table `tm`) and the other one (`other`, table `to`);
      `path` already holds the move. A win updates the mover with the
      winning reward and the other player with the losing reward, then runs
      the feedback pass over the whole trace, which empties it; a full board
      updates the mover with the draw reward; otherwise the other player,
      who is about to move, has its value of `b` updated with reward 0.
      Returns the two new tables, the trace and the status. */
  function Outcome(mover: Player, other: Player, tm: Table, to: Table, b: Board, path: seq<Move>)
    : (r: (Table, Table, seq<Move>, Status))
    requires |b| == Size && OnBoard(path, Size)
  {
    if IsWin(b) then
      var tm1 := Td(tm, mover.name, mover.learningRate, b, RewardWin);
      var to1 := Td(to, other.name, other.learningRate, b, RewardLose);
      var after := ApplyAll(Schedule(path, mover, b), mover, other, tm1, to1);
      (after.0, after.1, [], Won(mover))
    else if Empty !in b then
      (Td(tm, mover.name, mover.learningRate, b, RewardDraw), to, path, Drawn)
    else
      (tm, Td(to, other.name, other.learningRate, b, 0.0), path, Running)
  }

  /** The outcome is a win exactly when a line is complete, and then it
      belongs to the mover and the feedback pass has emptied the trace; a
      draw exactly when the board is full without one; otherwise the game
      runs on. Only a win changes the trace. */
  lemma OutcomeMatchesBoard(mover: Player, other: Player, tm: Table, to: Table, b: Board, path: seq<Move>)
    requires |b| == Size && OnBoard(path, Size)
    ensures var r := Outcome(mover, other, tm, to, b, path);
      (r.3.Won? <==> IsWin(b)) &&
      (r.3 == Drawn <==> !IsWin(b) && Empty !in b) &&
      (r.3 == Running <==> !IsWin(b) && Empty in b) &&
      (r.3.Won? ==> r.3.winner == mover && r.2 == []) &&
      (!r.3.Won? ==> r.2 == path)
  {
  }

  /** The effect of one move at `pos`: player 1 moves on even turns and
      player 2 on odd ones; the mover's mark goes on the board, the move on
      the trace, and then `Outcome` applies. */
  function Step(p1: Player, p2: Player, s: Progress, pos: nat): (r: Progress)
    requires |s.board| == Size && pos < Size && OnBoard(s.path, Size)
    ensures |r.board| == Size && OnBoard(r.path, Size) && r.turn == s.turn + 1
    ensures r.board == s.board[pos := (if s.turn % 2 == 0 then p1 else p2).name]
    ensures r.status == Running ==> r.path == s.path + [Move(pos, if s.turn % 2 == 0 then p1 else p2)]
    ensures r.status.Won? ==> r.status.winner == (if s.turn % 2 == 0 then p1 else p2)
    ensures r.legal == (s.legal && s.status == Running && s.board[pos] == Empty)
  {
    var p1Moves := s.turn % 2 == 0;
    var mover := if p1Moves then p1 else p2;
    var other := if p1Moves then p2 else p1;
    var b := s.board[pos := mover.name];
    var o := Outcome(mover, other, if p1Moves then s.t1 else s.t2, if p1Moves then s.t2 else s.t1, b, s.path + [Move(pos, mover)]);
    var legal := s.legal && s.status == Running && s.board[pos] == Empty;
    Progress(b, if p1Moves then o.0 else o.1, if p1Moves then o.1 else o.0, o.2, s.turn + 1, o.3, legal)
  }

  predicate Cells(ps: seq<nat>)
  {
    forall k :: 0 <= k < |ps| ==> ps[k] < Size
  }

  /** The episode after the moves `ps`, in order, from `s0`. */
  function Run(p1: Player, p2: Player, s0: Progress, ps: seq<nat>): (s: Progress)
    requires |s0.board| == Size && OnBoard(s0.path, Size) && Cells(ps)
    ensures |s.board| == Size && OnBoard(s.path, Size) && s.turn == s0.turn + |ps|
  {
    if ps == [] then s0
    else Step(p1, p2, Run(p1, p2, s0, ps[..|ps| - 1]), ps[|ps| - 1])
  }

  /** Every move of `ps` was made while the episode was running, on a cell
      that was empty. */
  predicate PlayedLegally(p1: Player, p2: Player, s0: Progress, ps: seq<nat>)
    requires |s0.board| == Size && OnBoard(s0.path, Size) && Cells(ps)
  {
    Run(p1, p2, s0, ps).legal
  }

  /** Adding one move to the list of moves runs one more step. */
  lemma RunSnoc(p1: Player, p2: Player, s0: Progress, ps: seq<nat>, pos: nat)
    requires |s0.board| == Size && OnBoard(s0.path, Size) && Cells(ps) && pos < Size
    ensures Cells(ps + [pos])
    ensures Run(p1, p2, s0, ps + [pos]) == Step(p1, p2, Run(p1, p2, s0, ps), pos)
    ensures PlayedLegally(p1, p2, s0, ps + [pos]) <==>
      PlayedLegally(p1, p2, s0, ps) && Run(p1, p2, s0, ps).status == Running && Run(p1, p2, s0, ps).board[pos] == Empty
  {
    assert (ps + [pos])[..|ps|] == ps;
  }

  /** After at least one move the status says what the board shows: a win
      exactly when a line is complete, a draw exactly when the board is full
      without one, and the game runs on otherwise. */
  lemma RunStatusMatchesBoard(p1: Player, p2: Player, s0: Progress, ps: seq<nat>)
    requires |s0.board| == Size && OnBoard(s0.path, Size) && Cells(ps) && ps != []
    ensures var s := Run(p1, p2, s0, ps);
      (s.status.Won? <==> IsWin(s.board)) &&
      (s.status == Drawn <==> !IsWin(s.board) && Empty !in s.board) &&
      (s.status == Running <==> !IsWin(s.board) && Empty in s.board)
  {
    var n := |ps|;
    assert ps[..n - 1] + [ps[n - 1]] == ps;
    RunSnoc(p1, p2, s0, ps[..n - 1], ps[n - 1]);
  }

  /** While an episode from the empty board runs, its trace holds every move
      made so far, the players alternate in it starting with player 1, it was
      played legally, and replaying it on the empty board gives the current
      board. So the feedback pass of a win undoes the whole game (see
      ScheduleRevisitsHistory). */
  lemma {:induction false} RunningTraceIsTheGame(p1: Player, p2: Player, t1: Table, t2: Table, ps: seq<nat>)
    requires Cells(ps) && PlayedLegally(p1, p2, Start(t1, t2), ps)
    requires Run(p1, p2, Start(t1, t2), ps).status == Running
    ensures var s := Run(p1, p2, Start(t1, t2), ps);
      |s.path| == |ps| && Legal(s.path) && Build(s.path) == s.board &&
      forall k :: 0 <= k < |s.path| ==>
        s.path[k].pos == ps[k] && s.path[k].player == (if k % 2 == 0 then p1 else p2)
  {
    var s0 := Start(t1, t2);
    if ps != [] {
      var n := |ps|;
      var init := ps[..n - 1];
      var pos := ps[n - 1];
      assert init + [pos] == ps;
      RunSnoc(p1, p2, s0, init, pos);
      var s := Run(p1, p2, s0, init);
      assert s.legal && s.status == Running && s.board[pos] == Empty;
      RunningTraceIsTheGame(p1, p2, t1, t2, init);
      var r := Run(p1, p2, s0, ps);
      RunningStep(p1, p2, s.path, s.board, init, pos, r.path, ps, r.board);
    }
  }

  /** The induction step of RunningTraceIsTheGame: appending the next
      player's move on an empty cell to a legal trace that lists the game so
      far and replays to `board` gives a legal trace that lists the game one
      move longer and replays to `board` with that cell taken. */
  lemma RunningStep(p1: Player, p2: Player, path: seq<Move>, board: Board, ps: seq<nat>, pos: nat,
                    path': seq<Move>, ps': seq<nat>, board': Board)
    requires OnBoard(path, Size) && pos < Size && |ps| == |path| && Legal(path) && Build(path) == board
    requires forall k :: 0 <= k < |path| ==> path[k].pos == ps[k] && path[k].player == (if k % 2 == 0 then p1 else p2)
    requires board[pos] == Empty && ps' == ps + [pos]
    requires var mover := if |ps| % 2 == 0 then p1 else p2;
      path' == path + [Move(pos, mover)] && board' == board[pos := mover.name]
    ensures |path'| == |ps'| && OnBoard(path', Size) && Legal(path') && Build(path') == board'
    ensures forall k :: 0 <= k < |path'| ==> path'[k].pos == ps'[k] && path'[k].player == (if k % 2 == 0 then p1 else p2)
  {
    LegalSnoc(path, Move(pos, if |ps| % 2 == 0 then p1 else p2));
    AlternatingSnoc(p1, p2, path, ps, pos);
  }

  /** A trace that lists the moves `ps` in turn, player 1 first, goes on
      doing so when the next player's move is appended. */
  lemma AlternatingSnoc(p1: Player, p2: Player, path: seq<Move>, ps: seq<nat>, pos: nat)
    requires |path| == |ps|
    requires forall k :: 0 <= k < |path| ==> path[k].pos == ps[k] && path[k].player == (if k % 2 == 0 then p1 else p2)
    ensures var path' := path + [Move(pos, if |ps| % 2 == 0 then p1 else p2)];
      forall k :: 0 <= k < |path'| ==> path'[k].pos == (ps + [pos])[k] && path'[k].player == (if k % 2 == 0 then p1 else p2)
  {
  }

  /** Move `pos` is the choice, under the draws `roll`, of the player whose
      turn it is in `s`, made with that player's table in `s`. */
  predicate ChosenAt(p1: Player, p2: Player, s: Progress, roll: Roll, pos: nat)
  {
    if s.turn % 2 == 0 then Chosen(p1, s.t1, s.board, roll, pos) else Chosen(p2, s.t2, s.board, roll, pos)
  }

  /** Every move of `ps` is the epsilon-greedy choice in the episode as it
      stood before that move, with `rolls(k)` the draws of move k. */
  predicate FollowsPolicy(p1: Player, p2: Player, s0: Progress, ps: seq<nat>, rolls: nat -> Roll)
    requires |s0.board| == Size && OnBoard(s0.path, Size) && Cells(ps)
  {
    ps != [] ==>
      FollowsPolicy(p1, p2, s0, ps[..|ps| - 1], rolls) &&
      ChosenAt(p1, p2, Run(p1, p2, s0, ps[..|ps| - 1]), rolls(|ps| - 1), ps[|ps| - 1])
  }

  /** A move chosen by the policy extends a list of moves that follows it. */
  lemma FollowsPolicySnoc(p1: Player, p2: Player, s0: Progress, ps: seq<nat>, rolls: nat -> Roll, pos: nat)
    requires |s0.board| == Size && OnBoard(s0.path, Size) && Cells(ps) && pos < Size
    requires FollowsPolicy(p1, p2, s0, ps, rolls) && ChosenAt(p1, p2, Run(p1, p2, s0, ps), rolls(|ps|), pos)
    ensures Cells(ps + [pos]) && FollowsPolicy(p1, p2, s0, ps + [pos], rolls)
  {
    assert (ps + [pos])[..|ps|] == ps;
  }

  /** Move k of a list of moves that follows the policy was chosen on the
      board, and with the mover's table, reached after the first k moves. */
  lemma {:induction false} PolicyAtMove(p1: Player, p2: Player, s0: Progress, ps: seq<nat>, rolls: nat -> Roll, k: nat)
    requires |s0.board| == Size && OnBoard(s0.path, Size) && Cells(ps) && k < |ps|
    requires FollowsPolicy(p1, p2, s0, ps, rolls)
    ensures Cells(ps[..k]) && ChosenAt(p1, p2, Run(p1, p2, s0, ps[..k]), rolls(k), ps[k])
    decreases |ps|
  {
    var init := ps[..|ps| - 1];
    if k < |init| {
      PolicyAtMove(p1, p2, s0, init, rolls, k);
      assert init[..k] == ps[..k];
    }
  }

  /** Spelled out move by move: every move was chosen on the board, and with
      the mover's table, reached after the moves before it. */
  lemma FollowsPolicyAtEveryMove(p1: Player, p2: Player, s0: Progress, ps: seq<nat>, rolls: nat -> Roll)
    requires |s0.board| == Size && OnBoard(s0.path, Size) && Cells(ps)
    requires FollowsPolicy(p1, p2, s0, ps, rolls)
    ensures forall k :: 0 <= k < |ps| ==> Cells(ps[..k]) && ChosenAt(p1, p2, Run(p1, p2, s0, ps[..k]), rolls(k), ps[k])
  {
    forall k | 0 <= k < |ps|
      ensures Cells(ps[..k]) && ChosenAt(p1, p2, Run(p1, p2, s0, ps[..k]), rolls(k), ps[k])
    {
      PolicyAtMove(p1, p2, s0, ps, rolls, k);
    }
  }

  /** The draws decide the game: two move lists of the same length that both
      follow the policy under the same draws are the same list. */
  lemma {:induction false} PolicyDeterminesMoves(p1: Player, p2: Player, s0: Progress, ps: seq<nat>, qs: seq<nat>, rolls: nat -> Roll)
    requires |s0.board| == Size && OnBoard(s0.path, Size) && Cells(ps) && Cells(qs) && |ps| == |qs|
    requires FollowsPolicy(p1, p2, s0, ps, rolls) && FollowsPolicy(p1, p2, s0, qs, rolls)
    ensures ps == qs
  {
    if ps != [] {
      LastMoveFollowsPolicy(p1, p2, s0, ps, rolls);
      LastMoveFollowsPolicy(p1, p2, s0, qs, rolls);
      PolicyDeterminesMoves(p1, p2, s0, ps[..|ps| - 1], qs[..|qs| - 1], rolls);
      SameLastChoice(p1, p2, s0, ps, qs, rolls);
    }
  }

  /** Two lists that follow the policy and agree before their last move
      agree on it too. */
  lemma SameLastChoice(p1: Player, p2: Player, s0: Progress, ps: seq<nat>, qs: seq<nat>, rolls: nat -> Roll)
    requires |s0.board| == Size && OnBoard(s0.path, Size) && Cells(ps) && Cells(qs) && |ps| == |qs| > 0
    requires ps[..|ps| - 1] == qs[..|qs| - 1]
    requires FollowsPolicy(p1, p2, s0, ps, rolls) && FollowsPolicy(p1, p2, s0, qs, rolls)
    ensures ps == qs
  {
    var n := |ps|;
    var init := ps[..n - 1];
    LastMoveFollowsPolicy(p1, p2, s0, ps, rolls);
    LastMoveFollowsPolicy(p1, p2, s0, qs, rolls);
    ChosenAtIsUnique(p1, p2, Run(p1, p2, s0, init), rolls(n - 1), ps[n - 1], qs[n - 1]);
    assert ps == init + [ps[n - 1]];
    assert qs == init + [qs[n - 1]];
  }

  /** The moves before the last of a list that follows the policy follow it
      too, and the last move is the policy's choice after them. */
  lemma LastMoveFollowsPolicy(p1: Player, p2: Player, s0: Progress, ps: seq<nat>, rolls: nat -> Roll)
    requires |s0.board| == Size && OnBoard(s0.path, Size) && Cells(ps) && ps != []
    requires FollowsPolicy(p1, p2, s0, ps, rolls)
    ensures Cells(ps[..|ps| - 1]) && FollowsPolicy(p1, p2, s0, ps[..|ps| - 1], rolls)
    ensures ChosenAt(p1, p2, Run(p1, p2, s0, ps[..|ps| - 1]), rolls(|ps| - 1), ps[|ps| - 1])
  {
  }

  /** At most one cell is the choice of the player whose turn it is. */
  lemma ChosenAtIsUnique(p1: Player, p2: Player, s: Progress, roll: Roll, x: nat, y: nat)
    requires ChosenAt(p1, p2, s, roll, x) && ChosenAt(p1, p2, s, roll, y)
    ensures x == y
  {
    if s.turn % 2 == 0 {
      ChosenIsUnique(p1, s.t1, s.board, roll, x, y);
    } else {
      ChosenIsUnique(p2, s.t2, s.board, roll, x, y);
    }
  }

  /** `pos` is the epsilon-greedy choice of `player`, holding table `t`, on
      board `b` under the draws `roll`: with the uniform draw below
      `epsilon`, the empty cell the index draw names; otherwise a cell whose
      successor is worth at least every other empty cell's, namely the entry
      the index draw names in the list of cells that tie for that value. */
  predicate Chosen(player: Player, t: Table, b: Board, roll: Roll, pos: nat)
  {
    pos < |b| && b[pos] == Empty &&
    (roll.p < player.epsilon ==>
       |EmptyCells(b)| > 0 && pos == EmptyCells(b)[DrawIndex(roll.index, |EmptyCells(b)|)]) &&
    (roll.p >= player.epsilon ==>
       (forall i :: 0 <= i < |b| && b[i] == Empty ==> SuccessorValue(t, player.name, b, i) <= SuccessorValue(t, player.name, b, pos)) &&
       var ties := TiesBelow(t, player.name, b, SuccessorValue(t, player.name, b, pos), |b|);
       |ties| > 0 && pos == ties[DrawIndex(roll.index, |ties|)])
  }

  /** The draws decide the choice: at most one cell is the epsilon-greedy
      choice for given player, table, board and draws. */
  lemma ChosenIsUnique(player: Player, t: Table, b: Board, roll: Roll, x: nat, y: nat)
    requires Chosen(player, t, b, roll, x) && Chosen(player, t, b, roll, y)
    ensures x == y
  {
    if roll.p >= player.epsilon {
      assert SuccessorValue(t, player.name, b, x) == SuccessorValue(t, player.name, b, y);
    }
  }

  /** The epsilon-greedy choice of one move: with the uniform draw below
      `epsilon` a random empty cell, otherwise a greedy one. */
  method ChooseMove(player: Player, b: Board, roll: Roll) returns (pos: nat)
    requires Empty in b
    ensures Chosen(player, player.valueEstimate, b, roll, pos)
  {
    var pickRes := RandomPick([0, 1], [player.epsilon, 1.0 - player.epsilon], roll.p);
    EpsilonCoin(player.epsilon, roll.p);
    assert [player.epsilon, 1.0 - player.epsilon][..2] == [player.epsilon, 1.0 - player.epsilon];
    if pickRes == 0 {
      pos := ChoosePosRandomly(b, roll.index);
    } else {
      var maxValue;
      maxValue, pos := player.GetNextMaxValueAndPos(b, roll.index);
    }
  }

  /** One move of the episode loop once the cell is chosen: take the cell,
      record the move, then handle a win (rewards, win count, feedback
      pass), a full board (draw reward) or neither (reward 0 for the player
      about to move). The new state is one `Step` of the old one. */
  method TakeTurn(player1: Player, player2: Player, board: array<int>, path: Trace, turn: nat, pos: nat)
    returns (status: Status)
    requires player1 != player2 && player1.name != Empty && player2.name != Empty
    requires board.Length == Size && pos < Size && board[pos] == Empty && OnBoard(path.moves, Size)
    modifies board, path, player1, player2
    ensures Step(player1, player2,
                 Progress(old(board[..]), old(player1.valueEstimate), old(player2.valueEstimate), old(path.moves), turn, Running, true), pos) ==
            Progress(board[..], player1.valueEstimate, player2.valueEstimate, path.moves, turn + 1, status, true)
    ensures player1.accuWin == old(player1.accuWin) + (if status == Won(player1) then 1 else 0)
    ensures player2.accuWin == old(player2.accuWin) + (if status == Won(player2) then 1 else 0)
  {
    var nowPlayer := if turn % 2 == 0 then player1 else player2;
    var otherPlayer := if turn % 2 == 0 then player2 else player1;
    board[pos] := nowPlayer.name;
    path.Append(Move(pos, nowPlayer));
    status := Conclude(nowPlayer, otherPlayer, board, path);
  }

  /** The end of one move, once the mark is on the board and the move on the
      trace: the checks for a win and for a full board and their updates, as
      `Outcome` describes them. */
  method Conclude(nowPlayer: Player, otherPlayer: Player, board: array<int>, path: Trace) returns (status: Status)
    requires nowPlayer != otherPlayer && board.Length == Size && OnBoard(path.moves, Size)
    modifies path, nowPlayer, otherPlayer
    ensures Outcome(nowPlayer, otherPlayer, old(nowPlayer.valueEstimate), old(otherPlayer.valueEstimate), board[..], old(path.moves)) ==
      (nowPlayer.valueEstimate, otherPlayer.valueEstimate, path.moves, status)
    ensures nowPlayer.accuWin == old(nowPlayer.accuWin) + (if status.Won? then 1 else 0)
    ensures otherPlayer.accuWin == old(otherPlayer.accuWin)
    ensures status.Won? ==> status.winner == nowPlayer
  {
    if IsWin(board[..]) {
      nowPlayer.UpdateValueLearning(board[..], RewardWin);
      nowPlayer.accuWin := nowPlayer.accuWin + 1;
      var loser := otherPlayer;
      loser.UpdateValueLearning(board[..], RewardLose);
      status := Won(nowPlayer);
      ValueFeedBack(path, nowPlayer, loser, board);
    } else if Empty !in board[..] {
      nowPlayer.UpdateValueLearning(board[..], RewardDraw);
      status := Drawn;
    } else {
      var updatingPlayer := otherPlayer;
      updatingPlayer.UpdateValueLearning(board[..], 0.0);
      status := Running;
    }
  }

  /** The state of the episode loop after the moves `positions` is the
      replay of those moves from `s0`, every move took one free cell, and
      every move was the epsilon-greedy choice under its draws. */
  predicate Mirrors(p1: Player, p2: Player, s0: Progress, positions: seq<nat>, rolls: nat -> Roll,
                    board: Board, t1: Table, t2: Table, moves: seq<Move>, turn: nat, status: Status)
  {
    |s0.board| == Size && OnBoard(s0.path, Size) && Cells(positions) &&
    turn == |positions| <= Size && |EmptyCells(board)| + turn == Size &&
    Run(p1, p2, s0, positions) == Progress(board, t1, t2, moves, turn, status, true) &&
    FollowsPolicy(p1, p2, s0, positions, rolls)
  }

  /** One pass of the episode loop: the player whose turn it is chooses a
      cell with the draws `rolls(turn)` and the turn is taken. The loop
      state goes on mirroring the replay of the moves, now one longer. */
  method PlayMove(player1: Player, player2: Player, board: array<int>, path: Trace, turn: nat, rolls: nat -> Roll,
                  ghost s0: Progress, ghost positions: seq<nat>)
    returns (status: Status, ghost pos: nat)
    requires player1 != player2 && player1.name != Empty && player2.name != Empty
    requires board.Length == Size
    requires Mirrors(player1, player2, s0, positions, rolls, board[..], player1.valueEstimate, player2.valueEstimate, path.moves, turn, Running)
    modifies board, path, player1, player2
    ensures Mirrors(player1, player2, s0, positions + [pos], rolls, board[..], player1.valueEstimate, player2.valueEstimate, path.moves, turn + 1, status)
    ensures status.Won? ==> status.winner == player1 || status.winner == player2
    ensures player1.accuWin == old(player1.accuWin) + (if status == Won(player1) then 1 else 0)
    ensures player2.accuWin == old(player2.accuWin) + (if status == Won(player2) then 1 else 0)
  {
    EmptyCellsNonEmpty(board[..]);
    var nowPlayer := if turn % 2 == 0 then player1 else player2;
    var p := ChooseMove(nowPlayer, board[..], rolls(turn));
    pos := p;
    FollowsPolicySnoc(player1, player2, s0, positions, rolls, pos);
    PlaceRemovesOneCandidate(board[..], pos, nowPlayer.name, Size);
    RunSnoc(player1, player2, s0, positions, pos);
    status := TakeTurn(player1, player2, board, path, turn, p);
  }

  /** One episode of `train()`. `rolls(k)` holds the random draws of move k. */
  method PlayEpisode(player1: Player, player2: Player, rolls: nat -> Roll, drawCount: int)
    returns (newDrawCount: int, status: Status, ghost positions: seq<nat>)
    requires player1 != player2 && player1.name != Empty && player2.name != Empty
    modifies player1, player2
    ensures status != Running && |positions| <= Size && Cells(positions)
    ensures var s0 := Start(old(player1.valueEstimate), old(player2.valueEstimate));
      PlayedLegally(player1, player2, s0, positions) &&
      var s := Run(player1, player2, s0, positions);
      s.t1 == player1.valueEstimate && s.t2 == player2.valueEstimate && s.status == status &&
      PlayedOut(player1, player2, old(player1.valueEstimate), old(player2.valueEstimate), positions, rolls) &&
      forall k :: 0 <= k < |positions| ==> Cells(positions[..k]) && ChosenAt(player1, player2, Run(player1, player2, s0, positions[..k]), rolls(k), positions[k])
    ensures status.Won? ==> status.winner == player1 || status.winner == player2
    ensures player1.accuWin == old(player1.accuWin) + (if status == Won(player1) then 1 else 0)
    ensures player2.accuWin == old(player2.accuWin) + (if status == Won(player2) then 1 else 0)
    ensures newDrawCount == drawCount + (if status == Drawn then 1 else 0)
  {
    var board := new int[Size](_ => Empty);
    var path := new Trace();
    ghost var s0 := Start(player1.valueEstimate, player2.valueEstimate);
    assert board[..] == EmptyBoard();
    EmptyBoardAllFree();
    var isGameEnd := false;
    newDrawCount := drawCount;
    status := Running;
    positions := [];
    var turn: nat := 0;
    while !isGameEnd
      invariant fresh(board) && fresh(path) && board.Length == Size
      invariant Mirrors(player1, player2, s0, positions, rolls, board[..], player1.valueEstimate, player2.valueEstimate, path.moves, turn, status)
      invariant isGameEnd <==> status != Running
      invariant status.Won? ==> status.winner == player1 || status.winner == player2
      invariant player1.accuWin == old(player1.accuWin) + (if status == Won(player1) then 1 else 0)
      invariant player2.accuWin == old(player2.accuWin) + (if status == Won(player2) then 1 else 0)
      invariant newDrawCount == drawCount + (if status == Drawn then 1 else 0)
      decreases Size - turn
    {
      ghost var pos;
      status, pos := PlayMove(player1, player2, board, path, turn, rolls, s0, positions);
      positions := positions + [pos];
      if status == Drawn {
        newDrawCount := newDrawCount + 1;
      }
      isGameEnd := status != Running;
      turn := turn + 1;
    }
    FollowsPolicyAtEveryMove(player1, player2, s0, positions, rolls);
  }

  /** The two players of the training run: marks 1 and 2, learning rate
      0.1, exploration rate 0.1, and the default table and win count, so
      every board is worth 0 to both and neither has won yet. */
  method NewPlayers() returns (player1: Player, player2: Player)
    ensures fresh(player1) && fresh(player2) && player1 != player2
    ensures player1.name == 1 && player1.learningRate == 0.1 && player1.epsilon == 0.1
    ensures player2.name == 2 && player2.learningRate == 0.1 && player2.epsilon == 0.1
    ensures player1.accuWin == 0 && player2.accuWin == 0
    ensures forall b :: player1.GetValue(b) == 0.0 && player2.GetValue(b) == 0.0
  {
    player1 := new Player(1, 0.1, 0.1);
    player2 := new Player(2, 0.1, 0.1);
  }

  /** The tables after the games `games`, played in order from the tables
      `t1`, `t2`: each game starts on the empty board with the tables the
      games before it left behind. */
  function Season(p1: Player, p2: Player, t1: Table, t2: Table, games: seq<seq<nat>>): (tables: (Table, Table))
    requires forall e :: 0 <= e < |games| ==> Cells(games[e])
  {
    if games == [] then (t1, t2)
    else
      var before := Season(p1, p2, t1, t2, games[..|games| - 1]);
      var s := Run(p1, p2, Start(before.0, before.1), games[|games| - 1]);
      (s.t1, s.t2)
  }

  /** Training in two sessions is training once: the games `a` and then
      the games `b`, the second session starting from the tables the first
      left behind, end with the tables of all the games `a + b`. */
  lemma {:induction false} SeasonAppend(p1: Player, p2: Player, t1: Table, t2: Table, a: seq<seq<nat>>, b: seq<seq<nat>>)
    requires forall e :: 0 <= e < |a| ==> Cells(a[e])
    requires forall e :: 0 <= e < |b| ==> Cells(b[e])
    ensures forall e :: 0 <= e < |a + b| ==> Cells((a + b)[e])
    ensures var m := Season(p1, p2, t1, t2, a);
      Season(p1, p2, t1, t2, a + b) == Season(p1, p2, m.0, m.1, b)
  {
    if b == [] {
      assert a + b == a;
    } else {
      var init := b[..|b| - 1];
      assert (a + b)[..|a + b| - 1] == a + init;
      assert (a + b)[|a + b| - 1] == b[|b| - 1];
      SeasonAppend(p1, p2, t1, t2, a, init);
    }
  }

  /** The moves `g` are a whole episode played from the tables `t1`, `t2`
      under the draws `rolls`: at most nine moves, each made on an empty cell
      while the game ran and chosen by the policy, ending in a win or a
      draw. */
  predicate PlayedOut(p1: Player, p2: Player, t1: Table, t2: Table, g: seq<nat>, rolls: nat -> Roll)
  {
    Cells(g) && |g| <= Size && PlayedLegally(p1, p2, Start(t1, t2), g) &&
    Run(p1, p2, Start(t1, t2), g).status != Running && FollowsPolicy(p1, p2, Start(t1, t2), g, rolls)
  }

  /** Every game of `games` was played out: game e from the tables the games
      before it left, under the draws `rolls(e + 1)`. */
  predicate PlayedSeason(p1: Player, p2: Player, t1: Table, t2: Table, games: seq<seq<nat>>, rolls: nat -> nat -> Roll)
    requires forall e :: 0 <= e < |games| ==> Cells(games[e])
  {
    games != [] ==>
      var n := |games|;
      var before := Season(p1, p2, t1, t2, games[..n - 1]);
      PlayedSeason(p1, p2, t1, t2, games[..n - 1], rolls) &&
      PlayedOut(p1, p2, before.0, before.1, games[n - 1], rolls(n))
  }

  /** One more game played from the tables the season left extends the
      season by that game. */
  lemma SeasonSnoc(p1: Player, p2: Player, t1: Table, t2: Table, games: seq<seq<nat>>, rolls: nat -> nat -> Roll, g: seq<nat>)
    requires (forall e :: 0 <= e < |games| ==> Cells(games[e])) && Cells(g)
    requires PlayedSeason(p1, p2, t1, t2, games, rolls)
    requires var before := Season(p1, p2, t1, t2, games);
      PlayedOut(p1, p2, before.0, before.1, g, rolls(|games| + 1))
    ensures forall e :: 0 <= e < |games + [g]| ==> Cells((games + [g])[e])
    ensures PlayedSeason(p1, p2, t1, t2, games + [g], rolls)
    ensures var before := Season(p1, p2, t1, t2, games);
      var s := Run(p1, p2, Start(before.0, before.1), g);
      Season(p1, p2, t1, t2, games + [g]) == (s.t1, s.t2)
  {
    assert (games + [g])[..|games|] == games;
  }

  /** How many of the games `games`, played in order from the tables `t1`,
      `t2`, ended with status `o`. */
  function Tally(p1: Player, p2: Player, t1: Table, t2: Table, games: seq<seq<nat>>, o: Status): (count: nat)
    requires forall e :: 0 <= e < |games| ==> Cells(games[e])
    ensures count <= |games|
  {
    if games == [] then 0
    else
      var before := Season(p1, p2, t1, t2, games[..|games| - 1]);
      Tally(p1, p2, t1, t2, games[..|games| - 1], o) +
      (if Run(p1, p2, Start(before.0, before.1), games[|games| - 1]).status == o then 1 else 0)
  }

  /** One more game adds one to the count of its own outcome only. */
  lemma TallySnoc(p1: Player, p2: Player, t1: Table, t2: Table, games: seq<seq<nat>>, g: seq<nat>, o: Status)
    requires (forall e :: 0 <= e < |games| ==> Cells(games[e])) && Cells(g)
    ensures forall e :: 0 <= e < |games + [g]| ==> Cells((games + [g])[e])
    ensures var before := Season(p1, p2, t1, t2, games);
      Tally(p1, p2, t1, t2, games + [g], o) ==
      Tally(p1, p2, t1, t2, games, o) + (if Run(p1, p2, Start(before.0, before.1), g).status == o then 1 else 0)
  {
    assert (games + [g])[..|games|] == games;
  }

  /** The count of an outcome over a non-empty list of games is its count
      over all but the last game, plus one if the last game ended so. */
  lemma TallyLast(p1: Player, p2: Player, t1: Table, t2: Table, games: seq<seq<nat>>, o: Status)
    requires (forall e :: 0 <= e < |games| ==> Cells(games[e])) && games != []
    ensures var before := Season(p1, p2, t1, t2, games[..|games| - 1]);
      Tally(p1, p2, t1, t2, games, o) == Tally(p1, p2, t1, t2, games[..|games| - 1], o) +
        (if Run(p1, p2, Start(before.0, before.1), games[|games| - 1]).status == o then 1 else 0)
  {
  }

  /** A game played out ends with a win by one of the two players or a draw. */
  lemma PlayedOutEnds(p1: Player, p2: Player, t1: Table, t2: Table, g: seq<nat>, rolls: nat -> Roll)
    requires PlayedOut(p1, p2, t1, t2, g, rolls)
    ensures var o := Run(p1, p2, Start(t1, t2), g).status;
      o == Won(p1) || o == Won(p2) || o == Drawn
  {
    assert g != [];
  }

  /** Every game of a season counts once: its wins for player 1, its wins
      for player 2 and its draws add up to the number of games. */
  lemma {:induction false} TallyCoversSeason(p1: Player, p2: Player, t1: Table, t2: Table, games: seq<seq<nat>>, rolls: nat -> nat -> Roll)
    requires p1 != p2 && forall e :: 0 <= e < |games| ==> Cells(games[e])
    requires PlayedSeason(p1, p2, t1, t2, games, rolls)
    ensures Tally(p1, p2, t1, t2, games, Won(p1)) + Tally(p1, p2, t1, t2, games, Won(p2)) +
      Tally(p1, p2, t1, t2, games, Drawn) == |games|
  {
    if games != [] {
      var n := |games|;
      var before := Season(p1, p2, t1, t2, games[..n - 1]);
      TallyCoversSeason(p1, p2, t1, t2, games[..n - 1], rolls);
      PlayedOutEnds(p1, p2, before.0, before.1, games[n - 1], rolls(n));
      TallyLast(p1, p2, t1, t2, games, Won(p1));
      TallyLast(p1, p2, t1, t2, games, Won(p2));
      TallyLast(p1, p2, t1, t2, games, Drawn);
    }
  }

  /** The training loop over `episodes` episodes; `rolls(e)` holds the draws
      of episode e. Every episode ends in exactly one win or one draw, and
      each starts from the tables the episodes before it left; `games` are
      the moves of the episodes, in order. */
  method Train(player1: Player, player2: Player, episodes: nat, rolls: nat -> nat -> Roll)
    returns (drawCount: int, ghost games: seq<seq<nat>>)
    requires player1 != player2 && player1.name != Empty && player2.name != Empty
    modifies player1, player2
    ensures |games| == episodes && forall e :: 0 <= e < |games| ==> Cells(games[e])
    ensures PlayedSeason(player1, player2, old(player1.valueEstimate), old(player2.valueEstimate), games, rolls)
    ensures (player1.valueEstimate, player2.valueEstimate) ==
      Season(player1, player2, old(player1.valueEstimate), old(player2.valueEstimate), games)
    ensures drawCount == Tally(player1, player2, old(player1.valueEstimate), old(player2.valueEstimate), games, Drawn)
    ensures player1.accuWin ==
      old(player1.accuWin) + Tally(player1, player2, old(player1.valueEstimate), old(player2.valueEstimate), games, Won(player1))
    ensures player2.accuWin ==
      old(player2.accuWin) + Tally(player1, player2, old(player1.valueEstimate), old(player2.valueEstimate), games, Won(player2))
    ensures 0 <= drawCount <= episodes
    ensures player1.accuWin >= old(player1.accuWin) && player2.accuWin >= old(player2.accuWin)
    ensures (player1.accuWin - old(player1.accuWin)) + (player2.accuWin - old(player2.accuWin)) + drawCount == episodes
  {
    drawCount := 0;
    games := [];
    var episode := 1;
    while episode <= episodes
      invariant 1 <= episode <= episodes + 1
      invariant |games| == episode - 1 && forall e :: 0 <= e < |games| ==> Cells(games[e])
      invariant PlayedSeason(player1, player2, old(player1.valueEstimate), old(player2.valueEstimate), games, rolls)
      invariant (player1.valueEstimate, player2.valueEstimate) ==
        Season(player1, player2, old(player1.valueEstimate), old(player2.valueEstimate), games)
      invariant drawCount == Tally(player1, player2, old(player1.valueEstimate), old(player2.valueEstimate), games, Drawn)
      invariant player1.accuWin ==
        old(player1.accuWin) + Tally(player1, player2, old(player1.valueEstimate), old(player2.valueEstimate), games, Won(player1))
      invariant player2.accuWin ==
        old(player2.accuWin) + Tally(player1, player2, old(player1.valueEstimate), old(player2.valueEstimate), games, Won(player2))
    {
      var status;
      ghost var positions;
      drawCount, status, positions := PlayEpisode(player1, player2, rolls(episode), drawCount);
      SeasonSnoc(player1, player2, old(player1.valueEstimate), old(player2.valueEstimate), games, rolls, positions);
      TallySnoc(player1, player2, old(player1.valueEstimate), old(player2.valueEstimate), games, positions, Drawn);
      TallySnoc(player1, player2, old(player1.valueEstimate), old(player2.valueEstimate), games, positions, Won(player1));
      TallySnoc(player1, player2, old(player1.valueEstimate), old(player2.valueEstimate), games, positions, Won(player2));
      games := games + [positions];
      episode := episode + 1;
    }
    TallyCoversSeason(player1, player2, old(player1.valueEstimate), old(player2.valueEstimate), games, rolls);
  }
}
