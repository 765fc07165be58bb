/** Where the opponent drops its die: a random open column on Easy; on Hard, the first
    open column where the die destroys player dice, else the first open column where it
    joins dice of its own, else the random one. */
module Policy {

  datatype Difficulty = Easy | Hard

  /** The boards' columns are indexed by the entries of `possible`. */
  predicate Indexes(possible: seq<int>, cols: seq<seq<int>>)
  {
    forall i :: 0 <= i < |possible| ==> 0 <= possible[i] < |cols|
  }

  /** Position in `possible` of the first column of `cols` that holds `v`; |possible| if none. */
  function FirstHolding(possible: seq<int>, cols: seq<seq<int>>, v: int): (k: nat)
    requires Indexes(possible, cols)
    ensures k <= |possible|
    ensures k < |possible| ==> v in cols[possible[k]]
    ensures forall i :: 0 <= i < k ==> v !in cols[possible[i]]
  {
    if possible == [] then 0
    else if v in cols[possible[0]] then 0
    else 1 + FirstHolding(possible[1..], cols, v)
  }

  /** The column chosen for a roll. `choice` is the index the random pick drew from
      `possible`; `opp` and `player` are the two boards' columns. */
  function Target(opp: seq<seq<int>>, player: seq<seq<int>>, possible: seq<int>, roll: int,
                  difficulty: Difficulty, choice: int): (col: int)
    requires Indexes(possible, opp) && Indexes(possible, player)
    requires 0 <= choice < |possible|
    ensures col in possible
  {
    var random := possible[choice];
    if difficulty == Easy then random
    else
      var destroy := FirstHolding(possible, player, roll);
      var combo := FirstHolding(possible, opp, roll);
      if destroy < |possible| then possible[destroy]
      else if combo < |possible| then possible[combo]
      else random
  }

  /** Easy ignores both boards, and every open column can be drawn. */
  lemma EasyIsBlind(opp: seq<seq<int>>, player: seq<seq<int>>, opp': seq<seq<int>>,
                    player': seq<seq<int>>, possible: seq<int>, roll: int, roll': int)
    requires Indexes(possible, opp) && Indexes(possible, player)
    requires Indexes(possible, opp') && Indexes(possible, player')
    ensures forall choice :: 0 <= choice < |possible| ==>
      Target(opp, player, possible, roll, Easy, choice) == Target(opp', player', possible, roll', Easy, choice)
    ensures forall c :: c in possible ==>
      exists choice :: 0 <= choice < |possible| && Target(opp, player, possible, roll, Easy, choice) == c
  {
    forall c | c in possible
      ensures exists choice :: 0 <= choice < |possible| && Target(opp, player, possible, roll, Easy, choice) == c
    {
      var choice :| 0 <= choice < |possible| && possible[choice] == c;
      assert Target(opp, player, possible, roll, Easy, choice) == c;
    }
  }

  /** On Hard, a roll that matches player dice in an open column always destroys, in the
      first such column, whatever the random draw. */
  lemma HardDestroysFirst(opp: seq<seq<int>>, player: seq<seq<int>>, possible: seq<int>, roll: int,
                          choice: int, i: int)
    requires Indexes(possible, opp) && Indexes(possible, player)
    requires 0 <= choice < |possible|
    requires 0 <= i < |possible| && roll in player[possible[i]]
    ensures roll in player[Target(opp, player, possible, roll, Hard, choice)]
    ensures exists k :: 0 <= k <= i && Target(opp, player, possible, roll, Hard, choice) == possible[k] &&
                        (forall j :: 0 <= j < k ==> roll !in player[possible[j]])
  {
    var k := FirstHolding(possible, player, roll);
    assert k <= i;
  }

  /** On Hard, with nothing to destroy, a roll that matches the opponent's own dice in an
      open column joins them, in the first such column. */
  lemma HardCombosSecond(opp: seq<seq<int>>, player: seq<seq<int>>, possible: seq<int>, roll: int,
                         choice: int, i: int)
    requires Indexes(possible, opp) && Indexes(possible, player)
    requires 0 <= choice < |possible|
    requires forall j :: 0 <= j < |possible| ==> roll !in player[possible[j]]
    requires 0 <= i < |possible| && roll in opp[possible[i]]
    ensures roll in opp[Target(opp, player, possible, roll, Hard, choice)]
    ensures exists k :: 0 <= k <= i && Target(opp, player, possible, roll, Hard, choice) == possible[k] &&
                        (forall j :: 0 <= j < k ==> roll !in opp[possible[j]])
  {
    assert FirstHolding(possible, player, roll) == |possible|;
    var k := FirstHolding(possible, opp, roll);
    assert k <= i;
  }

  /** On Hard, with neither a destroying nor a combining column, the random draw stands. */
  lemma HardFallsBackToRandom(opp: seq<seq<int>>, player: seq<seq<int>>, possible: seq<int>,
                              roll: int, choice: int)
    requires Indexes(possible, opp) && Indexes(possible, player)
    requires 0 <= choice < |possible|
    requires forall j :: 0 <= j < |possible| ==> roll !in player[possible[j]] && roll !in opp[possible[j]]
    ensures Target(opp, player, possible, roll, Hard, choice) == possible[choice]
  {
    assert FirstHolding(possible, player, roll) == |possible|;
    assert FirstHolding(possible, opp, roll) == |possible|;
  }
}
