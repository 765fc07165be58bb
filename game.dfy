/** The shared game state (the `GameState` object every screen observes) and the handlers
    of GameView.swift that change it: the player's roll and tap, the opponent's turn, the
    end-of-game verdict and the reset. */
module Game {
  import opened Scoring
  import opened Columns
  import opened Board
  import opened Policy

  datatype Option<T> = None | Some(value: T)

  datatype WinnerType = P1 | P2

  /** One snapshot of every published field of `GameState`. */
  datatype State = State(
    p1board: Grid, p1score: seq<int>, p1roll: int,
    p2board: Grid, p2score: seq<int>, p2roll: int,
    gameInProgress: bool, isP1Turn: bool,
    gameDifficulty: Difficulty,
    rolls: seq<int>, gamesWon: int, gamesPlayed: int,
    winner: Option<WinnerType>)

  /** What every handler keeps: two well-formed boards whose column scores are up to date,
      six non-negative roll counters, a pending player roll only on the player's turn, a
      decided game only off the player's turn, an undecided game only while neither top row
      is full, and no more wins than games finished. */
  ghost predicate Inv(s: State)
  {
    && WellFormed(s.p1board) && WellFormed(s.p2board)
    && Scored(s.p1board, s.p1score) && Scored(s.p2board, s.p2score)
    && |s.rolls| == 6 && (forall i :: 0 <= i < 6 ==> s.rolls[i] >= 0)
    && (s.p1roll == -1 || IsDie(s.p1roll))
    && (s.p2roll == -1 || IsDie(s.p2roll))
    && (s.p1roll != -1 ==> s.isP1Turn)
    && (s.winner.Some? ==> !s.isP1Turn)
    && (s.winner.None? ==> !TopFull(s.p1board) && !TopFull(s.p2board))
    && 0 <= s.gamesWon <= s.gamesPlayed + (if s.winner == Some(P1) then 1 else 0)
  }

  /** The verdict once a top row is full: the player wins only with a strictly greater
      total; a tie goes to the opponent. */
  function Verdict(p1Total: int, p2Total: int): (w: WinnerType)
    ensures w == P1 <==> p1Total > p2Total
  {
    if p1Total > p2Total then P1 else P2
  }

  /** The end-of-game block both handlers run when a top row is full: the verdict on the
      current totals, and one more game won when it is the player's. */
  function Decide(s: State): (s': State)
    ensures s'.winner == Some(Verdict(Total(s.p1score), Total(s.p2score)))
    ensures s'.gamesWon == s.gamesWon + (if s'.winner == Some(P1) then 1 else 0)
    ensures s' == s.(winner := s'.winner, gamesWon := s'.gamesWon)
  {
    if Total(s.p1score) > Total(s.p2score) then s.(gamesWon := s.gamesWon + 1, winner := Some(P1))
    else s.(winner := Some(P2))
  }

  /** Column `col` rescored on both boards: when only that column's scores were stale,
      both score arrays are back in step with their boards, and nothing else changes. */
  function Rescore(s: State, col: int): (r: State)
    requires Shaped(s.p1board) && Shaped(s.p2board) && |s.p1score| == 3 && |s.p2score| == 3 && 0 <= col < 3
    ensures (forall c :: 0 <= c < 3 && c != col ==> s.p1score[c] == ColScore(Column(s.p1board, c)))
            ==> Scored(r.p1board, r.p1score)
    ensures (forall c :: 0 <= c < 3 && c != col ==> s.p2score[c] == ColScore(Column(s.p2board, c)))
            ==> Scored(r.p2board, r.p2score)
    ensures r == s.(p1score := r.p1score, p2score := r.p2score)
  {
    s.(p1score := s.p1score[col := ColScore(Column(s.p1board, col))],
       p2score := s.p2score[col := ColScore(Column(s.p2board, col))])
  }

  /** What an accepted tap on column `col` does to snapshot `s`: the pending die lands in
      that column, the opponent's dice of that face in the same column are destroyed and
      the survivors fall, nothing else on either board moves, the player's turn ends, and
      the game is decided exactly when the player's top row is full (the player winning
      only on a strictly greater total). Statistics, difficulty and the opponent's roll are
      untouched. */
  ghost predicate Tapped(s: State, s': State, col: int)
    requires Inv(s) && 0 <= col < 3
  {
    && Shaped(s'.p1board) && Shaped(s'.p2board)
    && Column(s'.p1board, col) == Placed(Column(s.p1board, col), s.p1roll)
    && Column(s'.p2board, col) == Collapsed(Column(s.p2board, col), s.p1roll)
    && SameOutside(s.p1board, s'.p1board, col) && SameOutside(s.p2board, s'.p2board, col)
    && s'.p1roll == -1 && !s'.isP1Turn
    && (s'.winner.Some? <==> TopFull(s'.p1board))
    && (s'.winner.Some? ==> s'.winner.value == Verdict(Total(s'.p1score), Total(s'.p2score)))
    && s'.gamesWon == s.gamesWon + (if s'.winner == Some(P1) then 1 else 0)
    && s'.p2roll == s.p2roll && s'.rolls == s.rolls && s'.gameInProgress == s.gameInProgress
    && s'.gameDifficulty == s.gameDifficulty && s'.gamesPlayed == s.gamesPlayed
  }

  /** The player's turn once a tap on column `col` is accepted, step by step as the handler
      runs it; the removal's delayed shifts run last. */
  method Tap(s: State, col: int) returns (s': State)
    requires Inv(s) && 0 <= col < 3 && s.p1roll != -1 && s.p1board[2][col] == 0
    ensures Inv(s') && Tapped(s, s', col)
  {
    var v := s.p1roll;
    var p1 := AddDieToCol(s.p1board, col, v);
    var orig := Column(s.p2board, col);
    var p2 := ZeroMatches(s.p2board, col, v);
    RescoredColumn(s.p1board, s.p1score, p1, col);
    s' := s.(p1board := p1, p2board := p2, p1roll := -1, isP1Turn := false);
    s' := Rescore(s', col);
    if p1[2][0] != 0 && p1[2][1] != 0 && p1[2][2] != 0 {
      s' := Decide(s');
    }
    // The shifts scheduled by the removal pass, run after their delay.
    var settled := ShiftDeferred(p2, col, orig, v);
    DeferredShiftSettles(s.p2board, s.p2score, p2, settled, col, v);
    s' := s'.(p2board := settled);
  }

  /** What the opponent's die, `s.p2roll`, does when dropped into its open column `col`:
      it lands in that column, the player's dice of that face in the same column are
      destroyed and the survivors fall, nothing else on either board moves, and the game is
      decided exactly when the opponent's top row is full (the player winning only on a
      strictly greater total); otherwise the turn passes back with the roll cleared. The
      player's roll, the statistics and the difficulty are untouched. */
  ghost predicate Dropped(s: State, s': State, col: int)
    requires Inv(s) && 0 <= col < 3
  {
    && Shaped(s'.p1board) && Shaped(s'.p2board)
    && Column(s'.p2board, col) == Placed(Column(s.p2board, col), s.p2roll)
    && Column(s'.p1board, col) == Collapsed(Column(s.p1board, col), s.p2roll)
    && SameOutside(s.p1board, s'.p1board, col) && SameOutside(s.p2board, s'.p2board, col)
    && (s'.winner.Some? <==> TopFull(s'.p2board))
    && (s'.winner.Some? ==> s'.winner.value == Verdict(Total(s'.p1score), Total(s'.p2score)))
    && s'.gamesWon == s.gamesWon + (if s'.winner == Some(P1) then 1 else 0)
    && (s'.isP1Turn <==> s'.winner.None?)
    && s'.p2roll == (if s'.winner.None? then -1 else s.p2roll)
    && s'.p1roll == s.p1roll && s'.rolls == s.rolls && s'.gameInProgress == s.gameInProgress
    && s'.gameDifficulty == s.gameDifficulty && s'.gamesPlayed == s.gamesPlayed
  }

  /** The opponent's turn after its roll and its choice of column, step by step as the
      handler runs it. */
  method OpponentMove(s: State, col: int) returns (s': State)
    requires Inv(s) && !s.isP1Turn && s.winner.None? && IsDie(s.p2roll)
    requires 0 <= col < 3 && s.p2board[2][col] == 0
    ensures Inv(s') && Dropped(s, s', col)
  {
    var v := s.p2roll;
    var p2, placed := PlaceOpponentDie(s.p2board, col, v);
    var p1 := RemoveMatches(s.p1board, col, v);
    CollapseKeepsTopOpen(s.p1board, p1, col, v);
    RescoredColumn(s.p2board, s.p2score, p2, col);
    RescoredColumn(s.p1board, s.p1score, p1, col);
    s' := s.(p2board := p2, p1board := p1);
    s' := Rescore(s', col);
    if p2[2][0] != 0 && p2[2][1] != 0 && p2[2][2] != 0 {
      s' := Decide(s');
    } else {
      s' := s'.(p2roll := -1, isP1Turn := true);
    }
  }

  class GameState {
    var p1board: Grid
    var p1score: seq<int>
    var p1roll: int

    var p2board: Grid
    var p2score: seq<int>
    var p2roll: int

    var gameInProgress: bool
    var isP1Turn: bool

    var gameDifficulty: Difficulty

    var rolls: seq<int>
    var gamesWon: int
    var gamesPlayed: int

    var winner: Option<WinnerType>

    /** The fields as one value. */
    function Model(): State
      reads this
    {
      State(p1board, p1score, p1roll, p2board, p2score, p2roll, gameInProgress, isP1Turn,
            gameDifficulty, rolls, gamesWon, gamesPlayed, winner)
    }

    ghost predicate Valid()
      reads this
    {
      Inv(Model())
    }

    /** A fresh app: empty boards, no rolls, the player to move, Easy, no game on screen. */
    constructor ()
      ensures Valid()
      ensures p1board == EmptyBoard && p2board == EmptyBoard && p1score == [0, 0, 0] && p2score == [0, 0, 0]
      ensures rolls == [0, 0, 0, 0, 0, 0]
      ensures p1roll == -1 && p2roll == -1 && isP1Turn && !gameInProgress && winner == None
      ensures gameDifficulty == Easy && gamesWon == 0 && gamesPlayed == 0
    {
      p1board, p2board := EmptyBoard, EmptyBoard;
      p1score, p2score := [0, 0, 0], [0, 0, 0];
      p1roll, p2roll := -1, -1;
      gameInProgress, isP1Turn := false, true;
      gameDifficulty := Easy;
      rolls := [0, 0, 0, 0, 0, 0];
      gamesWon, gamesPlayed := 0, 0;
      winner := None;
      EmptyBoardScored();
    }

    /** Writes a handler's edited snapshot back to the published fields: the boards and
        their scores, then the turn and bookkeeping fields. */
    method Publish(s: State)
      modifies this
      ensures Model() == s
    {
      PublishBoards(s);
      PublishTurn(s);
    }

    method PublishBoards(s: State)
      modifies this`p1board, this`p1score, this`p2board, this`p2score
      ensures p1board == s.p1board && p1score == s.p1score && p2board == s.p2board && p2score == s.p2score
    {
      p1board, p1score, p2board, p2score := s.p1board, s.p1score, s.p2board, s.p2score;
    }

    method PublishTurn(s: State)
      modifies this`p1roll, this`p2roll, this`gameInProgress, this`isP1Turn, this`gameDifficulty
      modifies this`rolls, this`gamesWon, this`gamesPlayed, this`winner
      ensures p1roll == s.p1roll && p2roll == s.p2roll && gameInProgress == s.gameInProgress
      ensures isP1Turn == s.isP1Turn && gameDifficulty == s.gameDifficulty
      ensures rolls == s.rolls && gamesWon == s.gamesWon && gamesPlayed == s.gamesPlayed && winner == s.winner
    {
      p1roll, p2roll, gameInProgress, isP1Turn, gameDifficulty := s.p1roll, s.p2roll, s.gameInProgress, s.isP1Turn, s.gameDifficulty;
      rolls, gamesWon, gamesPlayed, winner := s.rolls, s.gamesWon, s.gamesPlayed, s.winner;
    }

    /** A die roll; the random face is the parameter `randomRoll`. The opponent's roll is
        only stored; the player's is stored and counted in the statistics. */
    method RollDie(isOpponent: bool, randomRoll: int)
      requires IsDie(randomRoll) && |rolls| == 6
      modifies this`p1roll, this`p2roll, this`rolls
      ensures isOpponent ==> p2roll == randomRoll && p1roll == old(p1roll) && rolls == old(rolls)
      ensures !isOpponent ==> p1roll == randomRoll && p2roll == old(p2roll)
      ensures !isOpponent ==> rolls == old(rolls)[randomRoll - 1 := old(rolls)[randomRoll - 1] + 1]
      ensures Total(rolls) == old(Total(rolls)) + (if isOpponent then 0 else 1)
    {
      if isOpponent {
        p2roll := randomRoll;
        return;
      }
      TotalUpdate(rolls, randomRoll - 1, rolls[randomRoll - 1] + 1);
      p1roll := randomRoll;
      rolls := rolls[randomRoll - 1 := rolls[randomRoll - 1] + 1];
    }

    /** The roll button: it rolls only on the player's turn with no roll pending. */
    method RollTapped(randomRoll: int) returns (rolled: bool)
      requires Valid() && IsDie(randomRoll)
      modifies this`p1roll, this`p2roll, this`rolls
      ensures Valid()
      ensures rolled <==> old(isP1Turn) && old(p1roll) == -1
      ensures rolled ==> p1roll == randomRoll && Total(rolls) == old(Total(rolls)) + 1
      ensures rolled ==> rolls == old(rolls)[randomRoll - 1 := old(rolls)[randomRoll - 1] + 1]
      ensures forall i :: 0 <= i < 6 ==> rolls[i] >= old(rolls)[i]
      ensures !rolled ==> p1roll == old(p1roll) && rolls == old(rolls)
      ensures p2roll == old(p2roll)
    {
      rolled := isP1Turn && p1roll == -1;
      if rolled {
        RollDie(false, randomRoll);
        assert forall i :: 0 <= i < 6 ==> rolls[i] >= old(rolls)[i];
      }
    }

    /** The opponent's column for its roll `p2roll` among the open columns `possible`: the
        random pick (index `pick` reduced modulo the number of candidates); on Hard, the
        first candidate holding an opponent die of that face overrides it, and the first
        candidate holding a player die of that face overrides both. */
    method ChooseColumn(possible: seq<int>, pick: nat) returns (dieCol: int)
      requires Shaped(p1board) && Shaped(p2board)
      requires possible == OpenColumns(p2board) && possible != []
      ensures Indexes(possible, ColumnsOf(p2board)) && Indexes(possible, ColumnsOf(p1board))
      ensures dieCol == Target(ColumnsOf(p2board), ColumnsOf(p1board), possible, p2roll, gameDifficulty, pick % |possible|)
      ensures 0 <= dieCol < 3 && p2board[2][dieCol] == 0
    {
      assert forall i :: 0 <= i < |possible| ==> possible[i] in possible;
      dieCol := possible[pick % |possible|];
      if gameDifficulty == Hard {
        // A column where the die joins the opponent's own dice ...
        dieCol := SearchColumns(p2board, possible, p2roll, dieCol);
        // ... and, above that, one where it destroys the player's.
        dieCol := SearchColumns(p1board, possible, p2roll, dieCol);
      }
    }

    /** The opponent's whole turn: roll (`randomRoll`), choose a column (`pick` is the random
        draw), drop the die, destroy the player's dice of that face in the same column and
        let the survivors fall, rescore that column on both boards, then either decide the
        game, when the opponent's top row is full, or hand the turn back. */
    method OpponentTurn(randomRoll: int, pick: nat) returns (dieCol: int)
      requires Valid() && !isP1Turn && winner.None? && IsDie(randomRoll)
      modifies this
      ensures Valid()
      ensures OpenColumns(old(p2board)) != []
      ensures Indexes(OpenColumns(old(p2board)), ColumnsOf(old(p2board)))
      ensures Indexes(OpenColumns(old(p2board)), ColumnsOf(old(p1board)))
      ensures dieCol == Target(ColumnsOf(old(p2board)), ColumnsOf(old(p1board)), OpenColumns(old(p2board)),
                               randomRoll, gameDifficulty, pick % |OpenColumns(old(p2board))|)
      ensures 0 <= dieCol < 3 && old(p2board)[2][dieCol] == 0
      ensures Dropped(old(Model()).(p2roll := randomRoll), Model(), dieCol)
    {
      RollDie(true, randomRoll);
      var possible := PossibleCols(p2board);
      dieCol := ChooseColumn(possible, pick);
      var s := OpponentMove(Model(), dieCol);
      Publish(s);
    }

    /** A tap on the player's column `col`: live only while a roll is pending and the
        column has room; then the whole turn of `Tap`. */
    method PlayerTap(col: int) returns (accepted: bool)
      requires Valid() && 0 <= col < 3
      modifies this
      ensures Valid()
      ensures accepted <==> old(p1roll) != -1 && old(p1board)[2][col] == 0
      ensures !accepted ==> unchanged(this)
      ensures accepted ==> Tapped(old(Model()), Model(), col)
    {
      accepted := p1roll != -1 && p1board[2][col] == 0;
      if !accepted {
        return;
      }
      var s := Tap(Model(), col);
      Publish(s);
    }

    /** The whole tap gesture on column `col`: the tap itself and, when it leaves the
        game undecided, the opponent's turn it schedules (`opponentRoll` and `pick` are that
        turn's random draws). `mid` is the state the tap leaves and `dieCol` the column the
        opponent answers in. An accepted tap always ends with the game decided or with the
        player to roll again. */
    method TapGesture(col: int, opponentRoll: int, pick: nat)
      returns (accepted: bool, replied: bool, dieCol: int, ghost mid: State)
      requires Valid() && 0 <= col < 3 && IsDie(opponentRoll)
      modifies this
      ensures Valid()
      ensures accepted <==> old(p1roll) != -1 && old(p1board)[2][col] == 0
      ensures !accepted ==> unchanged(this)
      ensures accepted ==> Inv(mid) && Tapped(old(Model()), mid, col)
      ensures accepted && !replied ==> Model() == mid
      ensures replied ==> Inv(mid.(p2roll := opponentRoll)) && 0 <= dieCol < 3 && mid.p2board[2][dieCol] == 0
      ensures replied ==> Dropped(mid.(p2roll := opponentRoll), Model(), dieCol)
      ensures replied ==> accepted
      ensures accepted && !replied ==> winner.Some? && TopFull(p1board)
      ensures replied ==> (winner.Some? <==> TopFull(p2board))
      ensures accepted ==> winner.Some? || (isP1Turn && p1roll == -1 && p2roll == -1)
      ensures rolls == old(rolls) && gamesPlayed == old(gamesPlayed) && gameDifficulty == old(gameDifficulty)
    {
      replied, dieCol := false, -1;
      accepted := PlayerTap(col);
      mid := Model();
      if accepted && winner.None? {
        dieCol := OpponentTurn(opponentRoll, pick);
        replied := true;
      }
    }

    /** Quit (`playAgain` false) or play again: the player to move with no roll pending,
        both boards and scores cleared, the game counted as played, the verdict cleared;
        quitting also leaves the game screen. The roll statistics and the win count are
        kept. */
    method ResetGame(playAgain: bool)
      requires Valid()
      modifies this
      ensures Valid()
      ensures p1board == EmptyBoard && p2board == EmptyBoard && p1score == [0, 0, 0] && p2score == [0, 0, 0]
      ensures isP1Turn && p1roll == -1 && p2roll == -1 && winner == None
      ensures gamesPlayed == old(gamesPlayed) + 1 && gamesWon == old(gamesWon) && rolls == old(rolls)
      ensures gameInProgress == (playAgain && old(gameInProgress))
      ensures gameDifficulty == old(gameDifficulty)
    {
      EmptyBoardScored();
      var s := Model();
      s := s.(isP1Turn := true, p1roll := -1, p2roll := -1);
      s := s.(p1board := EmptyBoard, p2board := EmptyBoard, p1score := [0, 0, 0], p2score := [0, 0, 0]);
      s := s.(gamesPlayed := s.gamesPlayed + 1, winner := None);
      if !playAgain {
        s := s.(gameInProgress := false);
      }
      Publish(s);
    }

    /** The board a colouring query looks at. */
    function BoardOf(isOpponent: bool): Grid
      reads this
    {
      if isOpponent then p2board else p1board
    }

    /** Whether face `num` occurs at least twice in column `col` (such dice are drawn yellow). */
    method TwoInCol(num: int, col: int, isOpponent: bool) returns (r: bool)
      requires Shaped(p1board) && Shaped(p2board) && 0 <= col < 3
      ensures r <==> num != 0 && multiset(Column(BoardOf(isOpponent), col))[num] >= 2
    {
      var board := if isOpponent then p2board else p1board;
      assert Column(BoardOf(isOpponent), col) == [board[0][col], board[1][col], board[2][col]];
      if num == 0 {
        PairCount(board[0][col], board[1][col], board[2][col], num);
        return false;
      }
      for row := 0 to 3
        invariant forall i, j :: 0 <= i < row && i < j < 3 ==> !(board[i][col] == num && board[j][col] == num)
      {
        if board[row][col] == num {
          for otherRow := row + 1 to 3
            invariant forall j :: row < j < otherRow ==> board[j][col] != num
          {
            if board[otherRow][col] == num {
              PairCount(board[0][col], board[1][col], board[2][col], num);
              return true;
            }
          }
        }
      }
      PairCount(board[0][col], board[1][col], board[2][col], num);
      return false;
    }

    /** Whether column `col` holds three dice of one face (such dice are drawn blue). */
    function ThreeInCol(col: int, isOpponent: bool): (r: bool)
      reads this
      requires Shaped(p1board) && Shaped(p2board) && 0 <= col < 3
      ensures r <==> exists v :: v != 0 && multiset(Column(BoardOf(isOpponent), col))[v] == 3
    {
      var board := if isOpponent then p2board else p1board;
      assert Column(BoardOf(isOpponent), col) == [board[0][col], board[1][col], board[2][col]];
      TripleCount(board[0][col], board[1][col], board[2][col]);
      if board[2][col] == 0 then false
      else board[0][col] == board[1][col] && board[1][col] == board[2][col]
    }
  }

  /** Face `num` occurs at least twice in a three-cell column exactly when two of its cells
      hold it. */
  lemma PairCount(a: int, b: int, x: int, num: int)
    ensures multiset([a, b, x])[num] >= 2 <==> (a == num && b == num) || (a == num && x == num) || (b == num && x == num)
  {
    assert multiset([a, b, x]) == multiset{a} + multiset{b} + multiset{x};
  }

  /** A three-cell column holds three of a nonzero face exactly when its top is a die and all
      three cells are equal. */
  lemma TripleCount(a: int, b: int, x: int)
    ensures (exists v :: v != 0 && multiset([a, b, x])[v] == 3) <==> x != 0 && a == b && b == x
  {
    var m := multiset([a, b, x]);
    assert m == multiset{a} + multiset{b} + multiset{x};
    if x != 0 && a == b && b == x {
      assert m[x] == 3;
    }
  }
}
