/** Column scoring: calculateColSum and an independent, order-free reference for it. */
module Scoring {

  /** Sum of a sequence (Swift's `reduce(0, +)`). */
  function Total(s: seq<int>): int
  {
    if s == [] then 0 else s[0] + Total(s[1..])
  }

  /** Score of one column, cells listed bottom row first; 0 is an empty cell and takes
      part in the equality tests like any face. */
  function ColScore(c: seq<int>): int
    requires |c| == 3
  {
    if c[0] == c[1] && c[1] == c[2] then c[0] * 9
    else if c[0] == c[1] then c[2] + c[0] * 4
    else if c[0] == c[2] then c[1] + c[2] * 4
    else if c[1] == c[2] then c[0] + c[1] * 4
    else Total(c)
  }

  /** Changing one entry changes the sum by the difference. */
  lemma {:induction false} TotalUpdate(s: seq<int>, i: int, x: int)
    requires 0 <= i < |s|
    ensures Total(s[i := x]) == Total(s) - s[i] + x
  {
    if i > 0 {
      TotalUpdate(s[1..], i - 1, x);
      assert s[i := x][1..] == s[1..][i - 1 := x];
    } else {
      assert s[i := x][1..] == s[1..];
    }
  }

  /** Each element of `s` weighted by how often it occurs in `m`. */
  function WeightedSum(s: seq<int>, m: multiset<int>): int
  {
    if s == [] then 0 else s[0] * m[s[0]] + WeightedSum(s[1..], m)
  }

  /** Reference rule of the game: a die showing v that shares its column with n dice of
      face v (itself included) is worth v * n, so a face occurring n times adds v * n * n. */
  function CellwiseScore(c: seq<int>): int
  {
    WeightedSum(c, multiset(c))
  }

  /** The reference rule unfolded for a three-cell column. */
  lemma CellwiseOfThree(c: seq<int>)
    requires |c| == 3
    ensures CellwiseScore(c) == c[0] * multiset(c)[c[0]] + c[1] * multiset(c)[c[1]] + c[2] * multiset(c)[c[2]]
  {
    var m := multiset(c);
    assert c[1..] == [c[1], c[2]] && c[1..][1..] == [c[2]] && c[1..][1..][1..] == [];
    assert WeightedSum(c[1..][1..], m) == c[2] * m[c[2]] + WeightedSum(c[1..][1..][1..], m);
    assert WeightedSum(c[1..], m) == c[1] * m[c[1]] + WeightedSum(c[1..][1..], m);
    assert WeightedSum(c, m) == c[0] * m[c[0]] + WeightedSum(c[1..], m);
  }

  /** How often y occurs in a three-cell column, cell by cell. */
  lemma CountInThree(a: int, b: int, x: int, y: int)
    ensures multiset([a, b, x])[y] == (if a == y then 1 else 0) + (if b == y then 1 else 0) + (if x == y then 1 else 0)
  {
    assert multiset([a, b, x]) == multiset{a} + multiset{b} + multiset{x};
  }

  /** The sum of a three-cell column. */
  lemma TotalOfThree(c: seq<int>)
    requires |c| == 3
    ensures Total(c) == c[0] + c[1] + c[2]
  {
    assert c[1..][1..][1..] == [];
    assert Total(c[1..][1..]) == c[2] + Total(c[1..][1..][1..]);
    assert Total(c[1..]) == c[1] + Total(c[1..][1..]);
  }

  /** Matching dice never score below their plain sum, and no column scores more than
      three sixes do. */
  lemma ColScoreBounds(c: seq<int>)
    requires |c| == 3 && forall i :: 0 <= i < 3 ==> 0 <= c[i] <= 6
    ensures Total(c) <= ColScore(c) <= 54
  {
    TotalOfThree(c);
  }

  /** The three-way case split computes the reference rule. */
  lemma ColScoreIsCellwise(c: seq<int>)
    requires |c| == 3
    ensures ColScore(c) == CellwiseScore(c)
  {
    var a, b, x := c[0], c[1], c[2];
    assert c == [a, b, x];
    CellwiseOfThree(c);
    CountInThree(a, b, x, a);
    CountInThree(a, b, x, b);
    CountInThree(a, b, x, x);
    TotalOfThree(c);
  }

  /** How often y occurs among three cells. */
  function CountOf(a: int, b: int, x: int, y: int): nat
  {
    (if a == y then 1 else 0) + (if b == y then 1 else 0) + (if x == y then 1 else 0)
  }

  /** The score of a column as the sum, over its cells, of the cell's value times how often
      that value occurs in the column. */
  lemma ColScoreByCounts(a: int, b: int, x: int)
    ensures ColScore([a, b, x]) == a * CountOf(a, b, x, a) + b * CountOf(a, b, x, b) + x * CountOf(a, b, x, x)
  {
    var c := [a, b, x];
    ColScoreIsCellwise(c);
    CellwiseOfThree(c);
    CountInThree(a, b, x, a);
    CountInThree(a, b, x, b);
    CountInThree(a, b, x, x);
  }

  /** Taking the element at index j out of the weighted sum. */
  lemma {:induction false} WeightedSumRemove(s: seq<int>, m: multiset<int>, j: int)
    requires 0 <= j < |s|
    ensures WeightedSum(s, m) == s[j] * m[s[j]] + WeightedSum(s[..j] + s[j + 1..], m)
  {
    if j > 0 {
      WeightedSumRemove(s[1..], m, j - 1);
      assert s[1..][..j - 1] + s[1..][j..] == (s[..j] + s[j + 1..])[1..];
    } else {
      assert s[..j] + s[j + 1..] == s[1..];
    }
  }

  /** Dropping the element at index j takes one copy of it out of the multiset. */
  lemma MultisetWithout(t: seq<int>, j: int)
    requires 0 <= j < |t|
    ensures multiset(t[..j] + t[j + 1..]) == multiset(t) - multiset{t[j]}
  {
    assert t == t[..j] + [t[j]] + t[j + 1..];
  }

  /** An element of the multiset of `t` sits at some index of `t`. */
  lemma IndexOf(t: seq<int>, x: int) returns (j: int)
    requires x in multiset(t)
    ensures 0 <= j < |t| && t[j] == x
  {
    assert x in t;
    j :| 0 <= j < |t| && t[j] == x;
  }

  /** The weighted sum depends only on the multiset of the weighted elements. */
  lemma {:induction false} WeightedSumPermutation(s: seq<int>, t: seq<int>, m: multiset<int>)
    requires multiset(s) == multiset(t)
    ensures WeightedSum(s, m) == WeightedSum(t, m)
    decreases |s|
  {
    if s != [] {
      var j := IndexOf(t, s[0]);
      var rest := t[..j] + t[j + 1..];
      MultisetWithout(t, j);
      assert s == [s[0]] + s[1..];
      assert multiset(s[1..]) == multiset(s) - multiset{s[0]};
      assert multiset(s[1..]) == multiset(rest);
      WeightedSumPermutation(s[1..], rest, m);
      WeightedSumRemove(t, m, j);
    } else {
      assert |t| == |multiset(t)|;
    }
  }

  /** The score of a column does not depend on the order of its cells. */
  lemma ColScoreOrderFree(c: seq<int>, d: seq<int>)
    requires |c| == 3 && |d| == 3
    requires multiset(c) == multiset(d)
    ensures ColScore(c) == ColScore(d)
  {
    ColScoreIsCellwise(c);
    ColScoreIsCellwise(d);
    WeightedSumPermutation(c, d, multiset(c));
  }

  /** An empty column scores 0. */
  lemma EmptyColumnScore()
    ensures ColScore([0, 0, 0]) == 0
  {
  }

  /** A column holding one die v and two empty cells, in any order, scores v. */
  lemma SingleDieScore(c: seq<int>, v: int)
    requires |c| == 3 && v != 0
    requires multiset(c) == multiset{v, 0, 0}
    ensures ColScore(c) == v
  {
    assert multiset([v, 0, 0]) == multiset{v, 0, 0};
    ColScoreOrderFree(c, [v, 0, 0]);
  }
}
