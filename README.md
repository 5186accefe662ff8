# Tic-tac-toe value learner

A Dafny model of the learning core of `OOXX_Jaye.py`. Two players play
tic-tac-toe against each other many times. Each player keeps a table that
maps a board (as it stands after a move) to an estimated value. Players pick
moves epsilon-greedily:

- with probability `epsilon`, a random empty cell;
- otherwise, a cell whose successor board has the highest estimate, with
  ties broken at random.

The tables are refined by a temporal-difference rule:

    new = old + learning_rate * (reward + sum of successor values - old)

The rewards are 2 for a win, -2 for a loss, 0 for a draw, and 0 while the
game goes on. After a win, the whole game is replayed backwards: each move
is undone in turn, and one update is made for every position the undoing
passes through (the feedback pass).

Modules, one per part of the program:

- `Boards` (`board.dfy`): the 3x3 board as nine cells, the eight winning
  lines, win detection, and the random choice of an empty cell.
- `Picking` (`random_pick.dfy`): `random_pick`, the pick by cumulative
  probabilities, and the reduction of an index draw.
- `ValueTable` (`value_table.dfy`): the sparse table, where a missing board
  reads as 0.
- `Agents` (`player.dfy`): the class `Player`, with its value table, the
  greedy choice, the successor sum and the update rule.
- `FeedBack` (`feedback.dfy`): the move trace (class `Trace`) and the
  backward feedback pass after a win.
- `Training` (`episode.dfy`): one episode of the training loop, and the
  loop over episodes.

The program changes state in place, and the model keeps that form:

- `Player`, `Trace` and the board are updated in place: the first two are
  classes, the board is an `array<int>`.
- The methods are proved against pure specification functions. The greedy
  and random choices are specified by `TiesBelow` and `EmptyCells`, the
  update by `Td`, and the feedback pass by `Schedule` (the ordered list of
  updates it makes) and `ApplyAll`. A whole episode is specified by
  `Step`/`Run`, a fold over the list of chosen cells.
- Randomness is an input. `random.uniform(0, 1)` is a real parameter `p`.
  Each `np.random.randint(0, n)` is a natural-number draw reduced modulo
  `n`: every draw names a valid index, and every index is named by some
  draw.

## Model

| member | source | states |
|---|---|---|
| Agents.Player.constructor | OOXX_Jaye.py:9-18 | the player starts with the given mark, learning rate, exploration rate, table and win count; the table defaults to the empty one and the win count to 0 |
| Agents.Player.GetValue | OOXX_Jaye.py:20-24 | a board missing from the table reads 0; a stored board reads its stored value |
| ValueTable.FreshTableIsZero | OOXX_Jaye.py:10-11 | the empty table, which a player gets when created without one, values every board at 0 |
| ValueTable.StoreThenGet | OOXX_Jaye.py:59-60 | after storing v under b, b reads v and every other board reads as before |
| Agents.Player.GetNextMaxValueAndPos | OOXX_Jaye.py:26-41 | the chosen cell is empty; the returned maximum is that cell's successor value; no empty cell's successor is worth more; the cell is the tie-list entry named by the draw, and the tie list is not empty |
| Agents.TiesBelowMembers | OOXX_Jaye.py:28-39 | the tie list holds exactly the empty cells whose successor value equals the maximum |
| Agents.NoTiesBelow | OOXX_Jaye.py:34-36 | when a new strict maximum is found, no earlier empty cell reaches it, so restarting the tie list with that one cell loses nothing |
| Agents.Player.GetNextTotalValue | OOXX_Jaye.py:43-51 | the result is the sum, over the empty cells, of the value of the board with that cell taken by this player |
| Agents.SuccessorSumOverEmptyCells | OOXX_Jaye.py:43-51 | that sum equals the sum over the list of empty cells, in index order |
| Agents.FullBoardSuccessorSum | OOXX_Jaye.py:43-51 | on a full board the successor sum is 0 |
| Agents.Player.UpdateValueLearning | OOXX_Jaye.py:53-57 | the board's value becomes old + learning_rate * (reward + successor sum - old); every other board keeps its value |
| Agents.TdTouchesOnlyItsBoard | OOXX_Jaye.py:53-57 | one update changes the value of its own board only |
| Agents.TdOnFullBoard | OOXX_Jaye.py:53-57 | on a full board the update moves the old value towards the reward by the learning rate |
| Agents.TdFirstWinValue | OOXX_Jaye.py:53-57 | a fresh table, a full board, learning rate 0.1 and reward 2 store exactly 0.2 |
| Agents.Player.UpdateValue | OOXX_Jaye.py:59-60 | the table becomes the old table with b mapped to the value; every other board keeps its value |
| Boards.EmptyBoard | OOXX_Jaye.py:134 | a fresh board has nine cells, all empty |
| Boards.EmptyCellsBelow | OOXX_Jaye.py:63-67 | the candidate list has at most n entries, all below n |
| Boards.EmptyCellsBelowMembers | OOXX_Jaye.py:63-67 | the candidate list holds exactly the empty cells, in strictly increasing order |
| Boards.EmptyCellsNonEmpty | OOXX_Jaye.py:63-68 | the candidate list is non-empty exactly when the board has an empty cell |
| Boards.EmptyBoardAllFree | OOXX_Jaye.py:134 | all nine cells of a fresh board are candidates |
| Boards.AllFreeBelow | OOXX_Jaye.py:63-67 | when the first n cells are empty, the list below n has n entries |
| Boards.PlaceRemovesOneCandidate | OOXX_Jaye.py:150 | taking an empty cell removes exactly one candidate |
| Boards.ChoosePosRandomly | OOXX_Jaye.py:63-69 | the result is an empty cell, namely the candidate the draw names |
| Picking.DrawIndex | OOXX_Jaye.py:68 | a reduced draw is a valid index, and every index is some draw |
| Boards.IsWinIffLine | OOXX_Jaye.py:81-86 | a win holds exactly when a row, a column or a diagonal carries one non-empty mark |
| Boards.EmptyBoardNotWon | OOXX_Jaye.py:81-86 | the empty board has no winner |
| Picking.PickIndex | OOXX_Jaye.py:89-97 | the picked index lies within the list |
| Picking.PickIndexIsFirstCrossing | OOXX_Jaye.py:89-97 | every index before the pick leaves the draw at or above the running sum; the pick is the first index whose running sum exceeds the draw, unless it is the last index |
| Picking.EpsilonCoin | OOXX_Jaye.py:144 | `random_pick([0, 1], [e, 1 - e])` explores exactly when the draw is below e |
| Picking.RandomPick | OOXX_Jaye.py:89-97 | the result is a member of the list: the one whose index the cumulative walk over the zipped prefix settles on |
| FeedBack.Trace.constructor | OOXX_Jaye.py:137 | a new trace is empty |
| FeedBack.Trace.Append | OOXX_Jaye.py:151 | the move goes on the end of the trace |
| FeedBack.Trace.Pop | OOXX_Jaye.py:103 | the last move comes off the trace |
| FeedBack.Schedule | OOXX_Jaye.py:100-108 | the pass makes exactly one update per move of the trace |
| FeedBack.ScheduleShape | OOXX_Jaye.py:100-108 | update k (counting from the end) goes to the board with the last k + 1 moves reset; it goes to the loser with -2 exactly when the winner made that move, otherwise to the winner with 2 |
| FeedBack.ScheduleUnfold | OOXX_Jaye.py:102-104 | update k of the pass is update k - 1 of the pass over the shorter trace, started one undo later |
| FeedBack.LegalSnoc | OOXX_Jaye.py:150-151 | a move on a cell that is empty extends a legal trace to a legal trace and puts the mover's mark on that cell |
| FeedBack.UndoLastMove | OOXX_Jaye.py:104 | resetting the cell of the last move of a legal trace gives the board before that move |
| FeedBack.RestoreCell | OOXX_Jaye.py:104 | writing a cell's old content back restores the board |
| FeedBack.ScheduleRevisitsHistory | OOXX_Jaye.py:100-108 | for a game played legally from the empty board, the k-th update refines the board exactly as it stood before the k-th last move |
| FeedBack.FeedBackStep | OOXX_Jaye.py:102-108 | popping one move and making its update leaves exactly the rest of the pass to do |
| FeedBack.ApplyAllLeavesOthers | OOXX_Jaye.py:100-108 | the pass changes no value but those of the boards it updates |
| FeedBack.ValueFeedBack | OOXX_Jaye.py:100-108 | the trace ends empty; the final board is unchanged; the two tables are the old ones with the scheduled updates applied in order |
| Training.OutcomeMatchesBoard | OOXX_Jaye.py:152-173 | after a move the outcome is a win exactly when a line is complete, and the win is the mover's and leaves the trace empty; a draw exactly when the board is full without a line; otherwise the game runs on; only a win changes the trace |
| Training.Step | OOXX_Jaye.py:150-173 | one move puts the mover's mark on the cell; while the game runs, the move is appended to the trace; a win belongs to the mover; a move is legal only while the game runs and only on an empty cell |
| Training.Run | OOXX_Jaye.py:138-173 | the replay of n moves has made n turns |
| Training.RunSnoc | OOXX_Jaye.py:138-173 | one more move is one more step of the replay, and legal exactly when the game was still running and the cell was empty |
| Training.RunStatusMatchesBoard | OOXX_Jaye.py:152-167 | after a move, the game is won exactly when a line is complete, drawn exactly when the board is full without one, and running otherwise |
| Training.RunningTraceIsTheGame | OOXX_Jaye.py:138-173 | while the game runs, the trace holds every move so far, in order, alternating player 1 and player 2; every move took an empty cell; replaying the trace gives the board |
| Training.RunningStep | OOXX_Jaye.py:150-151 | appending the next player's move on an empty cell keeps the trace legal, listing the game in turn from player 1, and replaying to the board with that cell taken |
| Training.AlternatingSnoc | OOXX_Jaye.py:141-151 | a trace that lists the moves in turn, player 1 first, keeps doing so when the next player's move is appended |
| Training.ChooseMove | OOXX_Jaye.py:144-149 | the cell is the epsilon-greedy choice (`Chosen`) for the player's current table: with a draw below epsilon, the randomly named candidate; otherwise a greedy cell, worth at least every other empty cell and chosen from the ties by the draw |
| Training.ChosenIsUnique | OOXX_Jaye.py:144-149 | for a given player, table, board and draws, at most one cell is the epsilon-greedy choice |
| Training.ChosenAtIsUnique | OOXX_Jaye.py:141-149 | at most one cell is the choice of the player whose turn it is |
| Training.FollowsPolicySnoc | OOXX_Jaye.py:141-151 | a move chosen by the mover's policy extends a list of moves that follows the policy |
| Training.PolicyAtMove | OOXX_Jaye.py:141-151 | in a list of moves that follows the policy, move k is the choice, under draws k, of the player to move, with that player's table, on the board reached after the first k moves |
| Training.FollowsPolicyAtEveryMove | OOXX_Jaye.py:141-151 | the same, for every move of the list at once |
| Training.PolicyDeterminesMoves | OOXX_Jaye.py:141-151 | two move lists of the same length that follow the policy under the same draws are equal: the draws decide the game |
| Training.TakeTurn | OOXX_Jaye.py:150-173 | marking the cell, recording the move and concluding the turn is exactly one step of the replay; the win count goes up for a win by that player only |
| Training.Conclude | OOXX_Jaye.py:152-173 | the updates after a move are those the outcome rule prescribes; the win count goes up exactly on a win, and the winner is the mover |
| Training.PlayMove | OOXX_Jaye.py:141-173 | one pass of the loop keeps the loop state equal to the replay of the moves, now one longer, uses up one empty cell, and the new move is the mover's epsilon-greedy choice under the draws of that move, with the mover's current table |
| Training.PlayEpisode | OOXX_Jaye.py:134-173 | the episode ends won or drawn after at most nine legal moves; move k is the epsilon-greedy choice, under draws k, of the player to move, with that player's table on the board reached after the first k moves; the tables are those of the replay; exactly one of player 1's wins, player 2's wins and the draw count goes up by one, according to the outcome |
| Training.NewPlayers | OOXX_Jaye.py:113-114 | the two players have marks 1 and 2, learning rate 0.1 and exploration rate 0.1, value every board at 0 and have no wins |
| Training.LastMoveFollowsPolicy | OOXX_Jaye.py:141-151 | the moves before the last of a policy-following list follow the policy, and the last move is the policy's choice after them |
| Training.SameLastChoice | OOXX_Jaye.py:141-151 | two policy-following lists that agree before their last move agree on it |
| Training.SeasonAppend | OOXX_Jaye.py:128-173 | training on the games `a` and then, from the tables left behind, on the games `b` ends with the tables of training on `a + b` |
| Training.SeasonSnoc | OOXX_Jaye.py:128-173 | one more episode, played out from the tables the earlier ones left, extends the record of the training by that episode and its tables |
| Training.Tally | OOXX_Jaye.py:152-167 | the count of games ending with a given outcome is at most the number of games |
| Training.TallySnoc | OOXX_Jaye.py:128-173 | one more game raises the count of its own outcome by one and leaves every other count alone |
| Training.TallyLast | OOXX_Jaye.py:128-173 | the count over a list of games is the count over all but the last, plus one if the last ended so |
| Training.PlayedOutEnds | OOXX_Jaye.py:152-167 | a game played out ends with a win by player 1, a win by player 2, or a draw |
| Training.TallyCoversSeason | OOXX_Jaye.py:128-173 | over a season, player 1's wins, player 2's wins and the draws add up to the number of games |
| Training.Train | OOXX_Jaye.py:124-173 | there is one game per episode; game e is a whole episode, legal, chosen by the policy under the draws of episode e + 1 and ended by a win or a draw, played from the tables the games before it left; the final tables are those of all the games in order; the draw count is the number of drawn games, and each player's win count rises by the number of games that player won; so the draw count stays between 0 and the number of episodes, win counts never drop, and new wins plus draws equal the number of episodes |

Several definitions that model source code directly have no contract of their
own; the rows above state what they mean:

- `Boards.IsWin` (OOXX_Jaye.py:81-86, `is_win`) is described by the
  `Boards.IsWinIffLine` and `Boards.EmptyBoardNotWon` rows.
- `ValueTable.Get` (OOXX_Jaye.py:20-24, the lookup with default 0) is
  described by the `Agents.Player.GetValue`, `ValueTable.StoreThenGet` and
  `ValueTable.FreshTableIsZero` rows.
- `Agents.TdValue` and `Agents.Td` (OOXX_Jaye.py:53-57, the value
  `update_value_learning` stores) are described by the
  `Agents.Player.UpdateValueLearning`, `Agents.TdTouchesOnlyItsBoard`,
  `Agents.TdOnFullBoard` and `Agents.TdFirstWinValue` rows.
- `Training.Outcome` (OOXX_Jaye.py:152-173, the win, draw and ongoing
  branches) is described by the `Training.OutcomeMatchesBoard` and
  `Training.Conclude` rows.
- `Training.Chosen`, `ChosenAt` and `FollowsPolicy` (OOXX_Jaye.py:144-149,
  the epsilon-greedy choice of each move) are described by the
  `Training.ChooseMove`, `Training.PolicyAtMove` and
  `Training.PolicyDeterminesMoves` rows.
- `Training.Season`, `PlayedOut` and `PlayedSeason` (OOXX_Jaye.py:128-173,
  the tables carried from one episode into the next) are described by the
  `Training.SeasonAppend`, `Training.PlayEpisode` and `Training.Train`
  rows; `Training.Tally` (the counters at lines 154 and 165, summed over
  the episodes) by the `Training.TallyCoversSeason` and `Training.Train`
  rows.

## Left out

- Printing, the human-against-computer game (`computer_down`, `human_down`,
  `begin_play`, the `__main__` block), `print_board`, the plot (`draw_pic`)
  and the curve lists `x`, `y1`, `y2`, `y3`: interaction and output only,
  no effect on training.
- `tqdm` and the fixed count of 100000 episodes: `Train` takes the number of
  episodes as a parameter.
- The random number generators: every draw is a parameter. No statement is
  made about distributions or win rates.
- The module-level players `player1`, `player2` are created by
  `NewPlayers`, but `PlayEpisode` and `Train` take any two distinct players
  with non-zero marks rather than those two objects.
- Floating point: values, probabilities and rewards are exact reals. The sum
  `e + (1 - e)` is exactly 1 here, so the second item of the exploration
  coin is reached exactly when the draw is at least `e`, which is also what
  the Python loop returns when the float sum falls short.
- `np.random.randint(0, n)` is modelled as an arbitrary natural number taken
  modulo `n`.
- The starting maximum `float('-inf')` is modelled by a flag that makes the
  first empty cell always become the maximum.
- Agents.Player.GetNextMaxValueAndPos, Boards.ChoosePosRandomly: require an
  empty cell. On a full board the program fails on an empty list, and the
  training loop never calls them there.
- Picking.RandomPick: requires a non-empty item list. The program reads
  `some_list[0]` and fails on an empty list.
- FeedBack.ValueFeedBack: requires distinct winner and loser, and a trace of
  cells on the board. The training loop always passes both.
- The episode's nested `while 0 in board` / `for now_player in players` loops
  are one loop in which player 1 moves on even turns and player 2 on odd
  turns. This is equivalent: a full board always ends the game, so a second
  move of a pair never starts on a full board.
- Boards are sequences of integers as table keys; the conversion to a tuple
  is left out. The cells of the board, of the trace and of the table keys
  are not bounded by the model beyond what each operation needs.
- The Python aliasing of the `path` list between the episode and
  `value_feed_back` is kept: the trace is one `Trace` object that the pass
  empties.
