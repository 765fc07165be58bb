/** One board column as a value: the cells of rows 0, 1 and 2, bottom row first.
    0 is an empty cell, 1 to 6 a die face. */
module Columns {
  import opened Scoring

  predicate IsDie(v: int) { 1 <= v <= 6 }

  predicate IsCell(v: int) { 0 <= v <= 6 }

  /** The gravity invariant: no empty cell sits below a die. */
  predicate Packed(c: seq<int>)
  {
    forall i, j :: 0 <= i < j < |c| && c[i] == 0 ==> c[j] == 0
  }

  /** The dice of a column, bottom first, without the empty cells. */
  function Dice(c: seq<int>): (d: seq<int>)
    ensures |d| <= |c|
    ensures forall x :: x in d ==> x != 0 && x in c
  {
    if c == [] then []
    else if c[0] == 0 then Dice(c[1..])
    else [c[0]] + Dice(c[1..])
  }

  /** `d` with every occurrence of `v` dropped, the rest kept in order. */
  function Without(d: seq<int>, v: int): (r: seq<int>)
    ensures |r| <= |d|
    ensures forall x :: x in r <==> x in d && x != v
  {
    if d == [] then []
    else if d[0] == v then Without(d[1..], v)
    else [d[0]] + Without(d[1..], v)
  }

  /** A column of height n holding the dice `d` at the bottom and empty cells above. */
  function Pack(d: seq<int>, n: nat): seq<int>
    requires |d| <= n
  {
    d + seq(n - |d|, _ => 0)
  }

  /** Index of the lowest empty cell, or |c| when the column is full. */
  function FirstEmpty(c: seq<int>): (k: nat)
    ensures k <= |c|
    ensures k < |c| ==> c[k] == 0
    ensures forall i :: 0 <= i < k ==> c[i] != 0
  {
    if c == [] then 0
    else if c[0] == 0 then 0
    else 1 + FirstEmpty(c[1..])
  }

  /** The column after a die v is dropped into it: it lands in the lowest empty cell, and
      nothing happens to a full column. */
  function Placed(c: seq<int>, v: int): (r: seq<int>)
    ensures |r| == |c|
  {
    var k := FirstEmpty(c);
    if k < |c| then c[k := v] else c
  }

  /** The column after every die equal to v is destroyed and the survivors fall down. */
  function Collapsed(c: seq<int>, v: int): seq<int>
  {
    Pack(Without(Dice(c), v), |c|)
  }

  /** A column of zeros has no dice. */
  lemma {:induction false} DiceOfZeros(n: nat)
    ensures Dice(seq(n, _ => 0)) == []
  {
    if n > 0 {
      assert seq(n, _ => 0)[1..] == seq(n - 1, _ => 0);
      DiceOfZeros(n - 1);
    }
  }

  /** A packed column is its dice with empty cells on top. */
  lemma {:induction false} PackedIsPackOfDice(c: seq<int>)
    requires Packed(c)
    ensures c == Pack(Dice(c), |c|)
  {
    if c != [] {
      var t := c[1..];
      assert Packed(t) by {
        forall i, j | 0 <= i < j < |t| && t[i] == 0 ensures t[j] == 0 {
          assert c[i + 1] == 0;
        }
      }
      PackedIsPackOfDice(t);
      if c[0] == 0 {
        assert t == seq(|t|, _ => 0);
        DiceOfZeros(|t|);
        assert c == seq(|c|, _ => 0);
      } else {
        assert Dice(c) == [c[0]] + Dice(t);
        assert c == [c[0]] + t;
      }
    }
  }

  /** Dice packed at the bottom form a packed column whose dice are exactly those. */
  lemma {:induction false} PackIsPacked(d: seq<int>, n: nat)
    requires |d| <= n
    requires forall x :: x in d ==> x != 0
    ensures Packed(Pack(d, n))
    ensures Dice(Pack(d, n)) == d
    decreases |d|
  {
    var c := Pack(d, n);
    assert forall k :: 0 <= k < |d| ==> c[k] == d[k] && d[k] in d;
    if d == [] {
      assert c == seq(n, _ => 0);
      DiceOfZeros(n);
    } else {
      assert c[1..] == Pack(d[1..], n - 1);
      assert forall x :: x in d[1..] ==> x in d;
      PackIsPacked(d[1..], n - 1);
      assert d == [d[0]] + d[1..];
      assert d[0] in d && c[0] == d[0];
    }
  }

  /** In a packed column the lowest empty cell is the one just above the dice. */
  lemma FirstEmptyOfPacked(c: seq<int>)
    requires Packed(c)
    ensures FirstEmpty(c) == |Dice(c)|
  {
    PackedIsPackOfDice(c);
    var d := Dice(c);
    assert forall i :: 0 <= i < |d| ==> c[i] == d[i] && d[i] in d;
    if |d| < |c| {
      assert c[|d|] == 0;
    }
  }

  /** In a packed column there is room iff the top cell is empty. */
  lemma RoomAtTop(c: seq<int>)
    requires Packed(c) && |c| > 0
    ensures (0 in c) <==> c[|c| - 1] == 0
  {
  }

  /** Writing a die into the first cell above the dice of a packed layout stacks it on them. */
  lemma PackPut(d: seq<int>, n: nat, v: int)
    requires |d| < n
    ensures Pack(d, n)[|d| := v] == Pack(d + [v], n)
  {
    assert forall k :: 0 <= k < n ==> Pack(d, n)[|d| := v][k] == Pack(d + [v], n)[k];
  }

  /** Dropping a die into a packed column with room puts it on top of the dice already
      there, and the column stays packed. */
  lemma PlacedStacks(c: seq<int>, v: int)
    requires Packed(c) && v != 0 && 0 in c
    ensures Packed(Placed(c, v))
    ensures Dice(Placed(c, v)) == Dice(c) + [v]
  {
    PackedIsPackOfDice(c);
    FirstEmptyOfPacked(c);
    var d := Dice(c);
    assert |d| < |c| by {
      var e :| 0 <= e < |c| && c[e] == 0;
      assert forall i :: 0 <= i < |d| ==> c[i] == d[i] && d[i] in d;
    }
    PackPut(d, |c|, v);
    assert forall x :: x in d + [v] ==> x == v || x in d;
    PackIsPacked(d + [v], |c|);
  }

  /** Placing into a packed column whose cell i is its lowest empty one writes cell i. */
  lemma PlacedAt(c: seq<int>, i: int, v: int)
    requires Packed(c) && 0 <= i < |c| && c[i] == 0 && v != 0
    requires forall k :: 0 <= k < i ==> c[k] != 0
    ensures Placed(c, v) == c[i := v]
    ensures Packed(c[i := v])
  {
    assert FirstEmpty(c) == i;
    assert c[i] in c;
    PlacedStacks(c, v);
  }

  /** A full column is left as it is. */
  lemma PlacedFull(c: seq<int>, v: int)
    requires 0 !in c
    ensures Placed(c, v) == c
  {
    assert forall i :: 0 <= i < |c| ==> c[i] in c;
  }

  /** The collapsed column is packed, holds no die v, and keeps every other die of the
      column in order. */
  lemma CollapsedProperties(c: seq<int>, v: int)
    requires v != 0
    ensures |Collapsed(c, v)| == |c|
    ensures Packed(Collapsed(c, v))
    ensures Dice(Collapsed(c, v)) == Without(Dice(c), v)
    ensures v !in Collapsed(c, v)
    ensures forall x :: x in Collapsed(c, v) ==> x == 0 || x in c
  {
    var w := Without(Dice(c), v);
    PackIsPacked(w, |c|);
    forall x | x in Collapsed(c, v) ensures x == 0 || (x in c && x != v) {
      var i :| 0 <= i < |c| && Collapsed(c, v)[i] == x;
      if i < |w| { assert w[i] in w; }
    }
  }

  /** A destruction can only free the top cell, never fill it. */
  lemma CollapsedTop(c: seq<int>, v: int)
    requires |c| > 0 && Packed(c) && v != 0
    requires Collapsed(c, v)[|c| - 1] != 0
    ensures c[|c| - 1] != 0
  {
    PackedIsPackOfDice(c);
    var d := Dice(c);
    var w := Without(d, v);
    assert Collapsed(c, v) == w + seq(|c| - |w|, _ => 0);
    assert |w| == |c| == |d|;
    assert d[|c| - 1] in d;
  }

  // ---------------------------------------------------------------------------------
  // The removal pass as GameView.swift writes it, one row at a time, on a column of
  // height 3.

  /** The shift run after row i was emptied: the die just above falls into row i, and when
      row 0 was emptied the top die falls one row too. */
  function ShiftAbove(c: seq<int>, i: int): (r: seq<int>)
    requires |c| == 3 && 0 <= i < 3
    ensures |r| == 3
  {
    var s := if i < 2 && c[i + 1] != 0 then c[i := c[i + 1]][i + 1 := 0] else c;
    if i == 0 && s[2] != 0 then s[1 := s[2]][2 := 0] else s
  }

  /** One iteration of the descending pass for row i. */
  function RemoveRow(c: seq<int>, v: int, i: int): (r: seq<int>)
    requires |c| == 3 && 0 <= i < 3
    ensures |r| == 3
  {
    if c[i] == v then ShiftAbove(c[i := 0], i) else c
  }

  /** The column once the pass has handled rows 2 down to `from`. */
  function PassFrom(c: seq<int>, v: int, from: int): (r: seq<int>)
    requires |c| == 3 && 0 <= from <= 3
    ensures |r| == 3
    decreases 3 - from
  {
    if from == 3 then c else RemoveRow(PassFrom(c, v, from + 1), v, from)
  }

  /** Enumerates the shapes of a packed column of height 3. */
  lemma PackedShapes(c: seq<int>)
    requires |c| == 3 && Packed(c)
    ensures c == [0, 0, 0] || (c[0] != 0 && c[1] == 0 && c[2] == 0)
         || (c[0] != 0 && c[1] != 0 && c[2] == 0) || (c[0] != 0 && c[1] != 0 && c[2] != 0)
  {
  }

  /** The dice of each packed shape, written out. */
  lemma DiceOfShapes(c: seq<int>)
    requires |c| == 3 && Packed(c)
    ensures c == [0, 0, 0] ==> Dice(c) == []
    ensures c[0] != 0 && c[1] == 0 && c[2] == 0 ==> Dice(c) == [c[0]]
    ensures c[0] != 0 && c[1] != 0 && c[2] == 0 ==> Dice(c) == [c[0], c[1]]
    ensures c[0] != 0 && c[1] != 0 && c[2] != 0 ==> Dice(c) == c
  {
    var t1 := c[1..];
    var t2 := t1[1..];
    assert t2[1..] == [];
    assert Dice(t2) == Keep(c[2], 0) + Dice(t2[1..]);
    assert Dice(t1) == Keep(c[1], 0) + Dice(t2);
    assert Dice(c) == Keep(c[0], 0) + Dice(t1);
    assert c == [c[0], c[1], c[2]];
  }

  /** [x], or nothing when x is v. */
  function Keep(x: int, v: int): seq<int>
  {
    if x == v then [] else [x]
  }

  /** Without, written out for up to three dice. */
  lemma WithoutOfThree(a: int, b: int, x: int, v: int)
    ensures Without([], v) == []
    ensures Without([a], v) == Keep(a, v)
    ensures Without([a, b], v) == Keep(a, v) + Keep(b, v)
    ensures Without([a, b, x], v) == Keep(a, v) + Keep(b, v) + Keep(x, v)
  {
    assert [a, b, x][1..] == [b, x] && [b, x][1..] == [x] && [x][1..] == [] && [a, b][1..] == [b] && [b][1..] == [];
    assert Without([x], v) == Keep(x, v);
    assert Without([b], v) == Keep(b, v);
  }

  /** The descending pass of GameView.swift, run on a packed column, destroys exactly the
      dice equal to v and lets the survivors fall in order. */
  lemma RemovalPassCollapses(c: seq<int>, v: int)
    requires |c| == 3 && Packed(c) && v != 0
    ensures PassFrom(c, v, 0) == Collapsed(c, v)
  {
    PackedShapes(c);
    DiceOfShapes(c);
    var a, b, x := c[0], c[1], c[2];
    WithoutOfThree(a, b, x, v);
    assert c == [a, b, x];
    assert PassFrom(c, v, 0) == RemoveRow(RemoveRow(RemoveRow(c, v, 2), v, 1), v, 0);
    var w := Without(Dice(c), v);
    assert Collapsed(c, v) == w + seq(3 - |w|, _ => 0);
  }

  // ---------------------------------------------------------------------------------
  // The player-side variant: every matching cell is emptied at once, the shifts run later.

  /** The column with every cell equal to v emptied where it stands. */
  function Zeroed(c: seq<int>, v: int): (r: seq<int>)
    ensures |r| == |c|
  {
    seq(|c|, i requires 0 <= i < |c| => if c[i] == v then 0 else c[i])
  }

  /** The delayed shifts, one per row of `orig` that matched, from row 2 down to `from`,
      applied to `cur`. */
  function DeferredFrom(orig: seq<int>, cur: seq<int>, v: int, from: int): (r: seq<int>)
    requires |orig| == 3 && |cur| == 3 && 0 <= from <= 3
    ensures |r| == 3
    decreases 3 - from
  {
    if from == 3 then cur
    else
      var prev := DeferredFrom(orig, cur, v, from + 1);
      if orig[from] == v then ShiftAbove(prev, from) else prev
  }

  /** Emptying first and shifting afterwards ends in the same column as the interleaved
      pass. */
  lemma DeferredCollapseAgrees(c: seq<int>, v: int)
    requires |c| == 3 && Packed(c) && v != 0
    ensures DeferredFrom(c, Zeroed(c, v), v, 0) == Collapsed(c, v)
  {
    RemovalPassCollapses(c, v);
    PackedShapes(c);
    var z := Zeroed(c, v);
    assert z == [if c[0] == v then 0 else c[0], if c[1] == v then 0 else c[1], if c[2] == v then 0 else c[2]];
    assert PassFrom(c, v, 0) == RemoveRow(RemoveRow(RemoveRow(c, v, 2), v, 1), v, 0);
  }

  /** Three cells hold the same multiset of values after a rotation. */
  lemma Rotated(p: int, q: int, r: int)
    ensures multiset([p, q, r]) == multiset([q, r, p])
  {
    assert multiset([p, q, r]) == multiset{p, q, r};
    assert multiset([q, r, p]) == multiset{q, r, p};
  }

  /** Three cells hold the same multiset of values after swapping the lower two. */
  lemma Swapped(p: int, q: int, r: int)
    ensures multiset([p, q, r]) == multiset([q, p, r])
  {
    assert multiset([p, q, r]) == multiset{p, q, r};
    assert multiset([q, p, r]) == multiset{q, p, r};
  }

  /** Three cells hold the same multiset of values after swapping the upper two. */
  lemma Reflected(p: int, q: int, r: int)
    ensures multiset([p, q, r]) == multiset([p, r, q])
  {
    assert multiset([p, q, r]) == multiset{p, q, r};
    assert multiset([p, r, q]) == multiset{p, r, q};
  }

  /** Rescoring the emptied column before the shifts gives the score of the collapsed one. */
  lemma ZeroedScoresAsCollapsed(c: seq<int>, v: int)
    requires |c| == 3 && Packed(c) && v != 0
    ensures ColScore(Zeroed(c, v)) == ColScore(Collapsed(c, v))
  {
    RemovalPassCollapses(c, v);
    PackedShapes(c);
    assert c == [c[0], c[1], c[2]];
    ZeroedScoresAsPass(c[0], c[1], c[2], v);
  }

  /** Emptying the matching cells in place leaves the cells of the descending pass in
      another order, so both score alike. */
  lemma ZeroedScoresAsPass(a: int, b: int, x: int, v: int)
    requires v != 0 && (a == 0 ==> b == 0) && (b == 0 ==> x == 0)
    ensures ColScore(Zeroed([a, b, x], v)) == ColScore(PassFrom([a, b, x], v, 0))
  {
    var c := [a, b, x];
    var z := Zeroed(c, v);
    assert z == [if a == v then 0 else a, if b == v then 0 else b, if x == v then 0 else x];
    var p2 := RemoveRow(c, v, 2);
    assert p2 == [a, b, if x == v then 0 else x];
    var p1 := RemoveRow(p2, v, 1);
    var p0 := RemoveRow(p1, v, 0);
    assert PassFrom(c, v, 0) == p0;
    if a == v {
      if b == 0 {
        assert p0 == [0, 0, 0] && z == [0, 0, 0];
      } else if b == v {
        if x == v || x == 0 {
          assert p0 == [0, 0, 0] && z == [0, 0, 0];
        } else {
          assert p2 == [v, v, x];
          assert p1 == ShiftAbove([v, 0, x], 1) == [v, x, 0];
          assert p0 == ShiftAbove([0, x, 0], 0) == [x, 0, 0];
          assert z == [0, 0, x];
          Rotated(x, 0, 0);
          ColScoreOrderFree([0, 0, x], [x, 0, 0]);
        }
      } else if x == v || x == 0 {
        assert p0 == [b, 0, 0] && z == [0, b, 0];
        Swapped(0, b, 0);
        ColScoreOrderFree([0, b, 0], [b, 0, 0]);
      } else {
        assert p0 == [b, x, 0] && z == [0, b, x];
        Rotated(0, b, x);
        ColScoreOrderFree([0, b, x], [b, x, 0]);
      }
    } else if b == v {
      if x == v || x == 0 {
        assert p0 == [a, 0, 0] && z == [a, 0, 0];
      } else {
        assert p0 == [a, x, 0] && z == [a, 0, x];
        Reflected(a, 0, x);
        ColScoreOrderFree([a, 0, x], [a, x, 0]);
      }
    } else {
      assert p0 == p2 && z == p2;
    }
  }

  // ---------------------------------------------------------------------------------
  // What a placement and a destruction do to the score of a column.

  /** Dropping die v into a packed column with room adds v * (2n + 1), n being how many
      dice v the column held: the new die is worth v * (n + 1) and each of the n others
      gains v. */
  lemma PlaceGain(c: seq<int>, v: int)
    requires |c| == 3 && Packed(c) && IsDie(v) && c[2] == 0
    ensures ColScore(Placed(c, v)) == ColScore(c) + v * (2 * multiset(c)[v] + 1)
  {
    var a, b, x := c[0], c[1], c[2];
    assert c == [a, b, x];
    CountInThree(a, b, x, v);
    ColScoreByCounts(a, b, x);
    if a == 0 {
      assert Placed(c, v) == [v, 0, 0] && c == [0, 0, 0];
      ColScoreByCounts(v, 0, 0);
    } else if b == 0 {
      assert Placed(c, v) == [a, v, 0];
      ColScoreByCounts(a, v, 0);
      GainWithTwo(a, v);
    } else {
      assert Placed(c, v) == [a, b, v];
      ColScoreByCounts(a, b, v);
      GainWithThree(a, b, v);
    }
  }

  /** The arithmetic of a second die landing on a column holding the die a. */
  lemma GainWithTwo(a: int, v: int)
    requires a != 0 && v != 0
    ensures a * CountOf(a, v, 0, a) + v * CountOf(a, v, 0, v)
         == a * CountOf(a, 0, 0, a) + v * (2 * CountOf(a, 0, 0, v) + 1)
  {
  }

  /** The arithmetic of a third die landing on a column holding the dice a and b. */
  lemma GainWithThree(a: int, b: int, v: int)
    requires a != 0 && b != 0 && v != 0
    ensures a * CountOf(a, b, v, a) + b * CountOf(a, b, v, b) + v * CountOf(a, b, v, v)
         == a * CountOf(a, b, 0, a) + b * CountOf(a, b, 0, b) + v * (2 * CountOf(a, b, 0, v) + 1)
  {
    if a == b {
      if v == a {
        assert CountOf(a, b, 0, v) == 2;
      }
    } else if v == a || v == b {
      assert CountOf(a, b, 0, v) == 1;
    }
  }

  /** Destroying the n dice v of a packed column takes v * n * n off its score: each of
      them was worth v * n. */
  lemma DestroyCost(c: seq<int>, v: int)
    requires |c| == 3 && Packed(c) && IsDie(v)
    ensures ColScore(Collapsed(c, v)) == ColScore(c) - v * multiset(c)[v] * multiset(c)[v]
  {
    var a, b, x := c[0], c[1], c[2];
    assert c == [a, b, x];
    CountInThree(a, b, x, v);
    ZeroedScoresAsCollapsed(c, v);
    var a', b', x' := if a == v then 0 else a, if b == v then 0 else b, if x == v then 0 else x;
    assert Zeroed(c, v) == [a', b', x'];
    ColScoreByCounts(a, b, x);
    ColScoreByCounts(a', b', x');
    CostOfZeroing(a, b, x, v);
  }

  /** The arithmetic of emptying every cell equal to v among three cells. */
  lemma CostOfZeroing(a: int, b: int, x: int, v: int)
    requires v != 0
    ensures var a', b', x' := if a == v then 0 else a, if b == v then 0 else b, if x == v then 0 else x;
      a' * CountOf(a', b', x', a') + b' * CountOf(a', b', x', b') + x' * CountOf(a', b', x', x')
      == a * CountOf(a, b, x, a) + b * CountOf(a, b, x, b) + x * CountOf(a, b, x, x)
         - v * CountOf(a, b, x, v) * CountOf(a, b, x, v)
  {
    var n := CountOf(a, b, x, v);
    if n == 0 {
    } else if n == 1 {
      assert v * n * n == v;
    } else if n == 2 {
      assert v * n * n == 4 * v;
    } else {
      assert v * n * n == 9 * v;
    }
  }
}
