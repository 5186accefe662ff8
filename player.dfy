/** A learning player: its value table, the greedy choice among successor
    boards, the sum of successor values and the temporal-difference update. */
module Agents {
  import opened Boards
  import opened ValueTable
  import opened Picking

  /** The value, in table `t`, of board `b` with cell `i` taken by `mark`. */
  function SuccessorValue(t: Table, mark: int, b: Board, i: nat): (v: real)
    requires i < |b|
  {
    Get(t, b[i := mark])
  }

  /** Sum, over the empty cells below `n`, of the value of the board with that
      cell taken by `mark`. */
  function SuccessorSumBelow(t: Table, mark: int, b: Board, n: nat): (sum: real)
    requires n <= |b|
  {
    if n == 0 then 0.0
    else SuccessorSumBelow(t, mark, b, n - 1) + (if b[n - 1] == Empty then SuccessorValue(t, mark, b, n - 1) else 0.0)
  }

  /** The successor-value estimate of the update rule: the values of all the
      boards `mark` can reach in one move, added up (not their maximum). */
  function SuccessorSum(t: Table, mark: int, b: Board): (sum: real)
  {
    SuccessorSumBelow(t, mark, b, |b|)
  }

  /** Sum of the successor values of the listed cells. */
  function SumOver(t: Table, mark: int, b: Board, cells: seq<nat>): (sum: real)
    requires forall k :: 0 <= k < |cells| ==> cells[k] < |b|
  {
    if cells == [] then 0.0
    else SumOver(t, mark, b, cells[..|cells| - 1]) + SuccessorValue(t, mark, b, cells[|cells| - 1])
  }

  /** The successor sum is the sum over exactly the empty cells. */
  lemma {:induction false} SuccessorSumOverEmptyCells(t: Table, mark: int, b: Board, n: nat)
    requires n <= |b|
    ensures SuccessorSumBelow(t, mark, b, n) == SumOver(t, mark, b, EmptyCellsBelow(b, n))
  {
    if n > 0 {
      SuccessorSumOverEmptyCells(t, mark, b, n - 1);
      var prev := EmptyCellsBelow(b, n - 1);
      if b[n - 1] == Empty {
        var cells := prev + [n - 1];
        assert cells == EmptyCellsBelow(b, n);
        assert cells[..|cells| - 1] == prev;
        assert SumOver(t, mark, b, cells) == SumOver(t, mark, b, prev) + SuccessorValue(t, mark, b, n - 1);
        assert SuccessorSumBelow(t, mark, b, n) == SuccessorSumBelow(t, mark, b, n - 1) + SuccessorValue(t, mark, b, n - 1);
      } else {
        assert prev == EmptyCellsBelow(b, n);
        assert SuccessorSumBelow(t, mark, b, n) == SuccessorSumBelow(t, mark, b, n - 1);
      }
    } else {
      assert EmptyCellsBelow(b, 0) == [];
    }
  }

  /** On a full board there is no successor, so the sum is 0. */
  lemma {:induction false} FullBoardSuccessorSum(t: Table, mark: int, b: Board, n: nat)
    requires n <= |b| && Empty !in b
    ensures SuccessorSumBelow(t, mark, b, n) == 0.0
  {
    if n > 0 {
      assert b[n - 1] in b;
      FullBoardSuccessorSum(t, mark, b, n - 1);
    }
  }

  /** The value `update_value_learning` stores for `b`. */
  function TdValue(t: Table, mark: int, lr: real, b: Board, reward: real): (v: real)
  {
    Get(t, b) + lr * (reward + SuccessorSum(t, mark, b) - Get(t, b))
  }

  /** The table after `update_value_learning(b, reward)`. */
  function Td(t: Table, mark: int, lr: real, b: Board, reward: real): (updated: Table)
  {
    t[b := TdValue(t, mark, lr, b, reward)]
  }

  /** One update changes the value of `b` only. */
  lemma TdTouchesOnlyItsBoard(t: Table, mark: int, lr: real, b: Board, reward: real, c: Board)
    requires c != b
    ensures Get(Td(t, mark, lr, b, reward), c) == Get(t, c)
  {
  }

  /** On a full board the update moves the old value towards the reward by
      the learning rate: new = old + lr * (reward - old). */
  lemma TdOnFullBoard(t: Table, mark: int, lr: real, b: Board, reward: real)
    requires Empty !in b
    ensures Get(Td(t, mark, lr, b, reward), b) == Get(t, b) + lr * (reward - Get(t, b))
  {
    FullBoardSuccessorSum(t, mark, b, |b|);
  }

  /** The worked case: a fresh table, a full board, learning rate 0.1 and
      the win reward 2 store 0.2. */
  lemma TdFirstWinValue(mark: int, b: Board)
    requires Empty !in b
    ensures Get(Td(map[], mark, 0.1, b, 2.0), b) == 0.2
  {
    TdOnFullBoard(map[], mark, 0.1, b, 2.0);
  }

  /** The empty cells below `n` whose successor for `mark` has value `m`, in
      increasing order: the tie list of the greedy choice. */
  function TiesBelow(t: Table, mark: int, b: Board, m: real, n: nat): (ties: seq<nat>)
    requires n <= |b|
  {
    if n == 0 then []
    else TiesBelow(t, mark, b, m, n - 1) + (if b[n - 1] == Empty && SuccessorValue(t, mark, b, n - 1) == m then [n - 1] else [])
  }

  /** The tie list holds exactly the empty cells whose successor reaches `m`. */
  lemma {:induction false} TiesBelowMembers(t: Table, mark: int, b: Board, m: real, n: nat)
    requires n <= |b|
    ensures forall i: int :: i in TiesBelow(t, mark, b, m, n) <==> 0 <= i < n && b[i] == Empty && SuccessorValue(t, mark, b, i) == m
  {
    if n > 0 {
      TiesBelowMembers(t, mark, b, m, n - 1);
    }
  }

  /** No empty cell below `n` reaches `m`, so the tie list for `m` is empty. */
  lemma NoTiesBelow(t: Table, mark: int, b: Board, m: real, n: nat)
    requires n <= |b|
    requires forall i :: 0 <= i < n && b[i] == Empty ==> SuccessorValue(t, mark, b, i) < m
    ensures TiesBelow(t, mark, b, m, n) == []
  {
    TiesBelowMembers(t, mark, b, m, n);
  }

  class Player {
    /** The player's mark on the board. */
    const name: int
    const learningRate: real
    /** Probability of a random (exploring) move. */
    const epsilon: real
    /** The value estimate of the board after a move. */
    var valueEstimate: Table
    var accuWin: int

    /** A player starts from the given table (empty by default) and win count (0 by default). */
    constructor (name: int, learningRate: real, epsilon: real, valueEstimate: Table := map[], accuWin: int := 0)
      ensures this.name == name && this.learningRate == learningRate && this.epsilon == epsilon
      ensures this.valueEstimate == valueEstimate && this.accuWin == accuWin
    {
      this.name := name;
      this.learningRate := learningRate;
      this.epsilon := epsilon;
      this.valueEstimate := valueEstimate;
      this.accuWin := accuWin;
    }

    /** The estimated value of `b`: what is stored for it, 0 if nothing is. */
    function GetValue(b: Board): (v: real)
      reads this
      ensures b !in valueEstimate ==> v == 0.0
      ensures b in valueEstimate ==> v == valueEstimate[b]
    {
      Get(valueEstimate, b)
    }

    /** Greedy choice: the best successor value and one of the cells that
        reach it. `float('-inf')` as the starting maximum is the flag `seen`
        being false: the first empty cell always becomes the maximum. The
        random index into the tie list is `draw`, reduced modulo its length. */
    method GetNextMaxValueAndPos(b: Board, draw: nat) returns (maxValue: real, pos: nat)
      requires Empty in b
      ensures pos < |b| && b[pos] == Empty
      ensures SuccessorValue(valueEstimate, name, b, pos) == maxValue
      ensures forall i :: 0 <= i < |b| && b[i] == Empty ==> SuccessorValue(valueEstimate, name, b, i) <= maxValue
      ensures var ties := TiesBelow(valueEstimate, name, b, maxValue, |b|);
        |ties| > 0 && pos == ties[DrawIndex(draw, |ties|)]
    {
      ghost var t := valueEstimate;
      var seen := false;
      maxValue := 0.0;
      var maxPosList: seq<nat> := [];
      var i := 0;
      while i < |b|
        invariant i <= |b|
        invariant seen <==> exists j :: 0 <= j < i && b[j] == Empty
        invariant seen ==> forall j :: 0 <= j < i && b[j] == Empty ==> SuccessorValue(t, name, b, j) <= maxValue
        invariant seen ==> maxPosList == TiesBelow(t, name, b, maxValue, i) && |maxPosList| > 0
      {
        if b[i] == Empty {
          var temp := b[i := name];
          var v := GetValue(temp);
          assert v == SuccessorValue(t, name, b, i);
          if !seen || v > maxValue {
            NoTiesBelow(t, name, b, v, i);
            maxValue := v;
            maxPosList := [i];
            seen := true;
          } else if v == maxValue {
            maxPosList := maxPosList + [i];
          }
        }
        i := i + 1;
      }
      pos := maxPosList[DrawIndex(draw, |maxPosList|)];
      TiesBelowMembers(t, name, b, maxValue, |b|);
      assert pos in maxPosList;
    }

    /** The sum of the values of every board this player can reach in one move. */
    method GetNextTotalValue(b: Board) returns (totalValue: real)
      ensures totalValue == SuccessorSum(valueEstimate, name, b)
    {
      totalValue := 0.0;
      var i := 0;
      while i < |b|
        invariant i <= |b|
        invariant totalValue == SuccessorSumBelow(valueEstimate, name, b, i)
      {
        if b[i] == Empty {
          var temp := b[i := name];
          var v := GetValue(temp);
          totalValue := totalValue + v;
        }
        i := i + 1;
      }
    }

    /** The temporal-difference update of the value of `b`. */
    method UpdateValueLearning(b: Board, reward: real)
      modifies this`valueEstimate
      ensures valueEstimate == Td(old(valueEstimate), name, learningRate, b, reward)
      ensures GetValue(b) == old(GetValue(b)) + learningRate * (reward + SuccessorSum(old(valueEstimate), name, b) - old(GetValue(b)))
      ensures forall c :: c != b ==> GetValue(c) == old(GetValue(c))
    {
      var oldEstimate := GetValue(b);
      var total := GetNextTotalValue(b);
      var newEstimate := oldEstimate + learningRate * (reward + total - oldEstimate);
      assert newEstimate == TdValue(valueEstimate, name, learningRate, b, reward);
      UpdateValue(b, newEstimate);
    }

    /** Store `value` for `b`; every other board keeps its value. */
    method UpdateValue(b: Board, value: real)
      modifies this`valueEstimate
      ensures valueEstimate == old(valueEstimate)[b := value]
      ensures GetValue(b) == value
      ensures forall c :: c != b ==> GetValue(c) == old(GetValue(c))
    {
      valueEstimate := valueEstimate[b := value];
    }
  }
}
