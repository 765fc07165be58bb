/** A player's 3x3 board, `b[row][col]` with row 0 at the bottom, and the operations
    GameView.swift performs on it. Swift's nested arrays are values, so each operation
    returns the updated board, which the caller stores back. */
module Board {
  import opened Scoring
  import opened Columns
  import opened Policy

  type Grid = seq<seq<int>>

  /** Three rows of three cells. */
  predicate Shaped(b: Grid)
  {
    |b| == 3 && forall r :: 0 <= r < 3 ==> |b[r]| == 3
  }

  /** The cells of column `col`, bottom row first. */
  function Column(b: Grid, col: int): seq<int>
    requires Shaped(b) && 0 <= col < 3
  {
    [b[0][col], b[1][col], b[2][col]]
  }

  /** The three columns of a board, as the column-choosing rule sees them. */
  function ColumnsOf(b: Grid): (cols: seq<seq<int>>)
    requires Shaped(b)
    ensures |cols| == 3 && forall c :: 0 <= c < 3 ==> cols[c] == Column(b, c)
  {
    [Column(b, 0), Column(b, 1), Column(b, 2)]
  }

  /** `board[r][c] = v`. */
  function Put(b: Grid, r: int, c: int, v: int): (b': Grid)
    requires Shaped(b) && 0 <= r < 3 && 0 <= c < 3
    ensures Shaped(b') && b'[r][c] == v
    ensures forall i, j :: 0 <= i < 3 && 0 <= j < 3 && (i != r || j != c) ==> b'[i][j] == b[i][j]
  {
    b[r := b[r][c := v]]
  }

  /** Every cell outside column `col` is the same on both boards. */
  predicate SameOutside(b: Grid, b': Grid, col: int)
    requires Shaped(b) && Shaped(b')
  {
    forall r, c :: 0 <= r < 3 && 0 <= c < 3 && c != col ==> b'[r][c] == b[r][c]
  }

  /** Every cell empty or a die face, and gravity in every column. */
  predicate WellFormed(b: Grid)
  {
    && Shaped(b)
    && (forall r, c :: 0 <= r < 3 && 0 <= c < 3 ==> IsCell(b[r][c]))
    && (forall c :: 0 <= c < 3 ==> Packed(Column(b, c)))
  }

  /** Every column score is the scoring rule applied to the column as it is now. */
  predicate Scored(b: Grid, s: seq<int>)
  {
    && Shaped(b) && |s| == 3
    && forall c :: 0 <= c < 3 ==> s[c] == ColScore(Column(b, c))
  }

  /** The top row is full: the test that ends the game. */
  predicate TopFull(b: Grid)
    requires Shaped(b)
  {
    b[2][0] != 0 && b[2][1] != 0 && b[2][2] != 0
  }

  /** The columns whose top cell is empty, in ascending order. */
  function OpenColumns(b: Grid): (cols: seq<int>)
    requires Shaped(b)
    ensures forall c :: c in cols <==> 0 <= c < 3 && b[2][c] == 0
    ensures Increasing(cols)
    ensures cols == [] <==> TopFull(b)
  {
    (if b[2][0] == 0 then [0] else []) + (if b[2][1] == 0 then [1] else []) + (if b[2][2] == 0 then [2] else [])
  }

  /** A new board, `Array(repeating: Array(repeating: 0, count: 3), count: 3)`. */
  const EmptyBoard: Grid := [[0, 0, 0], [0, 0, 0], [0, 0, 0]]

  /** The empty board is well formed, open in every column and scores 0 everywhere. */
  lemma EmptyBoardScored()
    ensures WellFormed(EmptyBoard) && Scored(EmptyBoard, [0, 0, 0])
    ensures OpenColumns(EmptyBoard) == [0, 1, 2]
  {
    assert forall c :: 0 <= c < 3 ==> Column(EmptyBoard, c) == [0, 0, 0];
    assert ColScore([0, 0, 0]) == 0;
  }

  /** A list of column indices in strictly ascending order. */
  predicate Increasing(s: seq<int>)
  {
    forall i, j :: 0 <= i < j < |s| ==> s[i] < s[j]
  }

  /** Removing every occurrence of a value keeps a list ascending. */
  lemma {:induction false} WithoutIncreasing(s: seq<int>, v: int)
    requires Increasing(s)
    ensures Increasing(Without(s, v))
  {
    if s != [] {
      WithoutIncreasing(s[1..], v);
      var r := Without(s[1..], v);
      forall k | 0 <= k < |r|
        ensures s[0] < r[k]
      {
        assert r[k] in r;
        var j :| 0 <= j < |s| - 1 && s[1..][j] == r[k];
        assert s[j + 1] == r[k];
      }
    }
  }

  /** Two ascending lists with the same members are the same list. */
  lemma {:induction false} IncreasingUnique(s: seq<int>, t: seq<int>)
    requires Increasing(s) && Increasing(t)
    requires forall x :: x in s <==> x in t
    ensures s == t
  {
    assert s != [] ==> s[0] in s;
    assert t != [] ==> t[0] in t;
    if s != [] && t != [] {
      assert s[0] in t && t[0] in s;
      assert forall k :: 0 < k < |s| ==> s[0] < s[k];
      assert forall k :: 0 < k < |t| ==> t[0] < t[k];
      assert s[0] == t[0];
      forall x ensures x in s[1..] <==> x in t[1..] {
        assert x in s[1..] <==> x in s && x != s[0];
        assert x in t[1..] <==> x in t && x != t[0];
      }
      IncreasingUnique(s[1..], t[1..]);
      assert s == [s[0]] + s[1..] && t == [t[0]] + t[1..];
    }
  }

  /** The opponent's candidate columns: 0, 1, 2 with every column whose top cell is
      taken removed (`removeAll(where:)`). */
  method PossibleCols(b: Grid) returns (possible: seq<int>)
    requires Shaped(b)
    ensures possible == OpenColumns(b)
  {
    possible := [0, 1, 2];
    for i := 0 to 3
      invariant forall c :: c in possible <==> 0 <= c < 3 && (c < i ==> b[2][c] == 0)
      invariant Increasing(possible)
    {
      if b[2][i] != 0 {
        WithoutIncreasing(possible, i);
        possible := Without(possible, i);
      }
    }
    IncreasingUnique(possible, OpenColumns(b));
  }

  /** One of the labelled searches of the Hard opponent: the first column of `possible`
      with a cell equal to `v`, scanned row by row, replaces `dieCol`; if there is none,
      `dieCol` stands. */
  method SearchColumns(b: Grid, possible: seq<int>, v: int, dieCol: int) returns (found: int)
    requires Shaped(b)
    requires forall i :: 0 <= i < |possible| ==> 0 <= possible[i] < 3
    ensures Indexes(possible, ColumnsOf(b))
    ensures var k := FirstHolding(possible, ColumnsOf(b), v);
      found == if k < |possible| then possible[k] else dieCol
  {
    ghost var cols := ColumnsOf(b);
    ghost var first := FirstHolding(possible, cols, v);
    found := dieCol;
    label outer:
    for k := 0 to |possible|
      invariant k <= first
      invariant found == dieCol
    {
      var col := possible[k];
      for row := 0 to 3
        invariant forall r :: 0 <= r < row ==> b[r][col] != v
      {
        if b[row][col] == v {
          assert v == cols[col][row];
          found := col;
          break outer;
        }
      }
      assert v !in cols[col];
    }
  }

  /** The player's placement: scan rows 0, 1, 2 of `col` and drop the die into the first
      empty one; a full column is left alone. */
  method AddDieToCol(b: Grid, col: int, die: int) returns (b': Grid)
    requires WellFormed(b) && 0 <= col < 3 && IsDie(die)
    ensures WellFormed(b') && SameOutside(b, b', col)
    ensures Column(b', col) == Placed(Column(b, col), die)
  {
    var before := Column(b, col);
    for i := 0 to 3
      invariant forall k :: 0 <= k < i ==> before[k] != 0
    {
      if b[i][col] == 0 {
        PlacedAt(before, i, die);
        b' := Put(b, i, col, die);
        assert Column(b', col) == before[i := die];
        ColumnAfterWrite(b, b', col, Placed(before, die));
        return;
      }
    }
    PlacedFull(before, die);
    b' := b;
  }

  /** The opponent's placement, an if-chain over rows 0, 1, 2; `placed` is false, and the
      board untouched, when the column is full. */
  method PlaceOpponentDie(b: Grid, col: int, die: int) returns (b': Grid, placed: bool)
    requires WellFormed(b) && 0 <= col < 3 && IsDie(die)
    ensures WellFormed(b') && SameOutside(b, b', col)
    ensures placed <==> b[2][col] == 0
    ensures Column(b', col) == Placed(Column(b, col), die)
  {
    var before := Column(b, col);
    RoomAtTop(before);
    placed := true;
    if b[0][col] == 0 {
      b' := Put(b, 0, col, die);
    } else if b[1][col] == 0 {
      b' := Put(b, 1, col, die);
    } else if b[2][col] == 0 {
      b' := Put(b, 2, col, die);
    } else {
      placed := false;
      PlacedFull(before, die);
      b' := b;
      return;
    }
    PlacedStacks(before, die);
    assert Column(b', col) == Placed(before, die);
    ColumnAfterWrite(b, b', col, Placed(before, die));
  }

  /** The destructive pass: rows 2, 1, 0 of `col` in turn; a cell equal to `v` is emptied
      and the dice above it shift down. */
  method RemoveMatches(b: Grid, col: int, v: int) returns (b': Grid)
    requires WellFormed(b) && 0 <= col < 3 && IsDie(v)
    ensures WellFormed(b') && SameOutside(b, b', col)
    ensures Column(b', col) == Collapsed(Column(b, col), v)
  {
    var before := Column(b, col);
    b' := b;
    var i := 2;
    while i >= 0
      invariant -1 <= i <= 2
      invariant Shaped(b') && SameOutside(b, b', col)
      invariant Column(b', col) == PassFrom(before, v, i + 1)
    {
      if b'[i][col] == v {
        b' := Put(b', i, col, 0);
        if i < 2 && b'[i + 1][col] != 0 {
          b' := Put(b', i, col, b'[i + 1][col]);
          b' := Put(b', i + 1, col, 0);
        }
        if i == 0 && b'[2][col] != 0 {
          b' := Put(b', 1, col, b'[2][col]);
          b' := Put(b', 2, col, 0);
        }
      }
      i := i - 1;
    }
    RemovalPassCollapses(before, v);
    CollapsedProperties(before, v);
    ColumnAfterWrite(b, b', col, Collapsed(before, v));
  }

  /** The first half of the player's destructive pass: rows 2, 1, 0 of `col` in turn, a
      cell equal to `v` is emptied at once (its shift is scheduled for later). */
  method ZeroMatches(b: Grid, col: int, v: int) returns (b': Grid)
    requires Shaped(b) && 0 <= col < 3
    ensures Shaped(b') && SameOutside(b, b', col)
    ensures Column(b', col) == Zeroed(Column(b, col), v)
  {
    var before := Column(b, col);
    b' := b;
    var i := 2;
    while i >= 0
      invariant -1 <= i <= 2
      invariant Shaped(b') && SameOutside(b, b', col)
      invariant forall r :: 0 <= r <= i ==> b'[r][col] == before[r]
      invariant forall r :: i < r < 3 ==> b'[r][col] == Zeroed(before, v)[r]
    {
      if b'[i][col] == v {
        b' := Put(b', i, col, 0);
      }
      i := i - 1;
    }
    assert Column(b', col) == Zeroed(before, v);
  }

  /** The second half, run after the delay: for each row of `orig` (the column before
      zeroing) that matched `v`, from row 2 down to row 0, the dice above it shift down. */
  method ShiftDeferred(b: Grid, col: int, orig: seq<int>, v: int) returns (b': Grid)
    requires Shaped(b) && 0 <= col < 3 && |orig| == 3
    ensures Shaped(b') && SameOutside(b, b', col)
    ensures Column(b', col) == DeferredFrom(orig, Column(b, col), v, 0)
  {
    var cur := Column(b, col);
    b' := b;
    var i := 2;
    while i >= 0
      invariant -1 <= i <= 2
      invariant Shaped(b') && SameOutside(b, b', col)
      invariant Column(b', col) == DeferredFrom(orig, cur, v, i + 1)
    {
      if orig[i] == v {
        if i < 2 && b'[i + 1][col] != 0 {
          b' := Put(b', i, col, b'[i + 1][col]);
          b' := Put(b', i + 1, col, 0);
        }
        if i == 0 && b'[2][col] != 0 {
          b' := Put(b', 1, col, b'[2][col]);
          b' := Put(b', 2, col, 0);
        }
      }
      i := i - 1;
    }
  }

  /** The player's whole removal on the opponent's column: the score taken between the two
      halves is already the score of the final column, and the final column is the collapse. */
  lemma TwoPhaseRemoval(c: seq<int>, v: int)
    requires |c| == 3 && Packed(c) && IsDie(v)
    ensures ColScore(Zeroed(c, v)) == ColScore(Collapsed(c, v))
    ensures DeferredFrom(c, Zeroed(c, v), v, 0) == Collapsed(c, v)
  {
    ZeroedScoresAsCollapsed(c, v);
    DeferredCollapseAgrees(c, v);
  }

  /** A well-formed board whose column `col` was replaced by a packed column of cells, the
      others left as they were, is still well formed. */
  lemma ColumnAfterWrite(b: Grid, b': Grid, col: int, after: seq<int>)
    requires WellFormed(b) && Shaped(b') && 0 <= col < 3 && SameOutside(b, b', col)
    requires Column(b', col) == after && Packed(after)
    requires forall r :: 0 <= r < 3 ==> IsCell(after[r])
    ensures WellFormed(b')
  {
    assert forall r :: 0 <= r < 3 ==> b'[r][col] == after[r];
    assert forall c :: 0 <= c < 3 && c != col ==> Column(b', c) == Column(b, c);
  }

  /** Rescoring column `col` after it changed, the other columns being unchanged, leaves the
      whole row of scores up to date. */
  lemma RescoredColumn(b: Grid, s: seq<int>, b': Grid, col: int)
    requires Scored(b, s) && Shaped(b') && 0 <= col < 3 && SameOutside(b, b', col)
    ensures Scored(b', s[col := ColScore(Column(b', col))])
  {
    assert forall c :: 0 <= c < 3 && c != col ==> Column(b', c) == Column(b, c);
  }

  /** The player's destructive pass in two phases on the opponent board `b`: `z` has the
      matching cells of column `col` emptied in place, and `f` is `z` after the shifts
      scheduled from the original column. `f` is a well-formed board whose column `col` is
      the collapsed one, and the score taken on `z` is already the score of `f`. */
  lemma DeferredShiftSettles(b: Grid, s: seq<int>, z: Grid, f: Grid, col: int, v: int)
    requires WellFormed(b) && Scored(b, s) && 0 <= col < 3 && IsDie(v)
    requires Shaped(z) && SameOutside(b, z, col) && Column(z, col) == Zeroed(Column(b, col), v)
    requires Shaped(f) && SameOutside(z, f, col)
    requires Column(f, col) == DeferredFrom(Column(b, col), Column(z, col), v, 0)
    ensures WellFormed(f) && SameOutside(b, f, col)
    ensures Column(f, col) == Collapsed(Column(b, col), v)
    ensures ColScore(Column(z, col)) == ColScore(Column(f, col))
    ensures Scored(f, s[col := ColScore(Column(z, col))])
    ensures TopFull(f) ==> TopFull(b)
  {
    var orig := Column(b, col);
    TwoPhaseRemoval(orig, v);
    CollapsedProperties(orig, v);
    assert SameOutside(b, f, col);
    ColumnAfterWrite(b, f, col, Collapsed(orig, v));
    CollapseKeepsTopOpen(b, f, col, v);
    RescoredColumn(b, s, f, col);
  }

  /** Emptying cells never fills a top cell: a column whose top is empty still has an empty
      top after the destructive pass. */
  lemma CollapseKeepsTopOpen(b: Grid, b': Grid, col: int, v: int)
    requires WellFormed(b) && Shaped(b') && 0 <= col < 3 && IsDie(v) && SameOutside(b, b', col)
    requires Column(b', col) == Collapsed(Column(b, col), v)
    ensures TopFull(b') ==> TopFull(b)
  {
    if b'[2][col] != 0 {
      CollapsedTop(Column(b, col), v);
    }
  }

  /** A column edit leaves the scores of the other columns as they were. */
  lemma OtherScoresKept(b: Grid, s: seq<int>, b': Grid, s': seq<int>, col: int)
    requires Scored(b, s) && Scored(b', s') && 0 <= col < 3 && SameOutside(b, b', col)
    ensures forall c :: 0 <= c < 3 && c != col ==> s'[c] == s[c]
    ensures s' == s[col := s'[col]]
  {
    assert forall c :: 0 <= c < 3 && c != col ==> Column(b', c) == Column(b, c);
  }

  /** A die v dropped into open column `col` raises the board's total by v * (2n + 1), n
      being how many dice v the column held. */
  lemma PlacementScores(b: Grid, s: seq<int>, b': Grid, s': seq<int>, col: int, v: int)
    requires WellFormed(b) && Scored(b, s) && Scored(b', s') && 0 <= col < 3 && IsDie(v)
    requires b[2][col] == 0 && SameOutside(b, b', col) && Column(b', col) == Placed(Column(b, col), v)
    ensures Total(s') == Total(s) + v * (2 * multiset(Column(b, col))[v] + 1)
  {
    OtherScoresKept(b, s, b', s', col);
    PlaceGain(Column(b, col), v);
    TotalUpdate(s, col, s'[col]);
  }

  /** Destroying the dice v of column `col` lowers the board's total by v * n * n, n being
      how many of them the column held. */
  lemma DestructionScores(b: Grid, s: seq<int>, b': Grid, s': seq<int>, col: int, v: int)
    requires WellFormed(b) && Scored(b, s) && Scored(b', s') && 0 <= col < 3 && IsDie(v)
    requires SameOutside(b, b', col) && Column(b', col) == Collapsed(Column(b, col), v)
    ensures Total(s') == Total(s) - v * multiset(Column(b, col))[v] * multiset(Column(b, col))[v]
  {
    OtherScoresKept(b, s, b', s', col);
    DestroyCost(Column(b, col), v);
    TotalUpdate(s, col, s'[col]);
  }
}
