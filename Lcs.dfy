/** The longest-common-subsequence utility: a dynamic-programming table
    filled by nested loops, the recursive backtrack that reads one longest
    common subsequence off the table, and the insertion/deletion edit
    distance derived from its length. */
module LongestCommonSubsequence {
  import opened Basics

  /** The value the table holds at row `i`, column `j`: the recurrence the
      constructor fills it with, over the prefixes `x[..i]` and `y[..j]`. */
  function Table(x: string, y: string, i: nat, j: nat): (r: nat)
    requires i <= |x| && j <= |y|
    ensures r <= i && r <= j
    decreases i + j
  {
    if i == 0 || j == 0 then 0
    else if x[i - 1] == y[j - 1] then Table(x, y, i - 1, j - 1) + 1
    else Max(Table(x, y, i, j - 1), Table(x, y, i - 1, j))
  }

  /** Moving one row or one column further never lowers an entry and
      raises it by at most one. */
  lemma {:induction false} TableSteps(x: string, y: string, i: nat, j: nat)
    requires i <= |x| && j <= |y|
    ensures i > 0 ==> Table(x, y, i - 1, j) <= Table(x, y, i, j) <= Table(x, y, i - 1, j) + 1
    ensures j > 0 ==> Table(x, y, i, j - 1) <= Table(x, y, i, j) <= Table(x, y, i, j - 1) + 1
    decreases i + j
  {
    if i > 0 && j > 0 {
      TableSteps(x, y, i - 1, j);
      TableSteps(x, y, i, j - 1);
      TableSteps(x, y, i - 1, j - 1);
    }
  }

  /** The table is nondecreasing in each index. */
  lemma {:induction false} TableMonotone(x: string, y: string, i: nat, j: nat, i2: nat, j2: nat)
    requires i <= i2 <= |x| && j <= j2 <= |y|
    ensures Table(x, y, i, j) <= Table(x, y, i2, j2)
    decreases i2 - i + j2 - j
  {
    if i < i2 {
      TableMonotone(x, y, i, j, i2 - 1, j2);
      TableSteps(x, y, i2, j2);
    } else if j < j2 {
      TableMonotone(x, y, i, j, i2, j2 - 1);
      TableSteps(x, y, i2, j2);
    }
  }

  /** No common subsequence of `x[..i]` and `y[..j]` is longer than the
      table entry at `i`, `j`. */
  lemma {:induction false} TableIsOptimal(x: string, y: string, i: nat, j: nat, z: string)
    requires i <= |x| && j <= |y|
    requires IsSubseq(z, x[..i]) && IsSubseq(z, y[..j])
    ensures |z| <= Table(x, y, i, j)
    decreases i + j
  {
    if i == 0 || j == 0 {
      SubseqLength(z, x[..i]);
      SubseqLength(z, y[..j]);
    } else if z != [] {
      assert x[..i][..i - 1] == x[..i - 1];
      assert y[..j][..j - 1] == y[..j - 1];
      if IsSubseq(z, x[..i - 1]) {
        TableIsOptimal(x, y, i - 1, j, z);
        TableSteps(x, y, i, j);
      } else if IsSubseq(z, y[..j - 1]) {
        TableIsOptimal(x, y, i, j - 1, z);
        TableSteps(x, y, i, j);
      } else {
        TableIsOptimal(x, y, i - 1, j - 1, z[..|z| - 1]);
      }
    }
  }

  /** A string compared with itself: the table's diagonal is the prefix length. */
  lemma {:induction false} TableSelf(x: string, i: nat)
    requires i <= |x|
    ensures Table(x, x, i, i) == i
  {
    if i > 0 {
      TableSelf(x, i - 1);
    }
  }

  /** The constructor's nested loops: column 0, then row 0, then every
      other entry row by row from the three entries above and to the left. */
  method FillTable(str1: string, str2: string) returns (c: array2<int>)
    ensures fresh(c)
    ensures c.Length0 == |str1| + 1 && c.Length1 == |str2| + 1
    ensures forall i, j :: 0 <= i <= |str1| && 0 <= j <= |str2| ==> c[i, j] == Table(str1, str2, i, j)
  {
    var m, n := |str1|, |str2|;
    c := new int[m + 1, n + 1];
    for i := 0 to m + 1
      invariant forall a :: 0 <= a < i ==> c[a, 0] == 0
    {
      c[i, 0] := 0;
    }
    for j := 0 to n + 1
      invariant forall a :: 0 <= a <= m ==> c[a, 0] == 0
      invariant forall b :: 0 <= b < j ==> c[0, b] == 0
    {
      c[0, j] := 0;
    }
    for i := 1 to m + 1
      invariant forall a, b {:trigger c[a, b]} :: 0 <= a < i && 0 <= b <= n ==> c[a, b] == Table(str1, str2, a, b)
      invariant forall a :: i <= a <= m ==> c[a, 0] == 0
    {
      for j := 1 to n + 1
        invariant forall a, b {:trigger c[a, b]} :: 0 <= a < i && 0 <= b <= n ==> c[a, b] == Table(str1, str2, a, b)
        invariant forall b {:trigger c[i, b]} :: 0 <= b < j ==> c[i, b] == Table(str1, str2, i, b)
        invariant forall a :: i < a <= m ==> c[a, 0] == 0
      {
        assert c[i - 1, j - 1] == Table(str1, str2, i - 1, j - 1);
        assert c[i - 1, j] == Table(str1, str2, i - 1, j);
        assert c[i, j - 1] == Table(str1, str2, i, j - 1);
        if str1[i - 1] == str2[j - 1] {
          c[i, j] := c[i - 1, j - 1] + 1;
        } else {
          c[i, j] := Max(c[i, j - 1], c[i - 1, j]);
        }
      }
    }
  }

  class LCS {
    const X: string
    const Y: string
    const C: array2<int>

    /** `C` has `|X| + 1` rows and `|Y| + 1` columns, and each entry holds
        the recurrence's value. */
    ghost predicate Valid()
      reads this, C
    {
      C.Length0 == |X| + 1 && C.Length1 == |Y| + 1 &&
      forall i, j :: 0 <= i <= |X| && 0 <= j <= |Y| ==> C[i, j] == Table(X, Y, i, j)
    }

    /** Stores both strings and fills the table. */
    constructor (str1: string, str2: string)
      ensures Valid() && X == str1 && Y == str2 && fresh(C)
    {
      var c := FillTable(str1, str2);
      X, Y, C := str1, str2, c;
    }

    /** The length of a longest common subsequence of `X` and `Y`: no common
        subsequence is longer (and `Value` exhibits one this long). */
    function Length(): (r: nat)
      reads this, C
      requires Valid()
      ensures r <= |X| && r <= |Y|
      ensures forall z :: IsSubseq(z, X) && IsSubseq(z, Y) ==> |z| <= r
    {
      assert X[..|X|] == X && Y[..|Y|] == Y;
      assert forall z :: IsSubseq(z, X) && IsSubseq(z, Y) ==> |z| <= Table(X, Y, |X|, |Y|) by {
        forall z | IsSubseq(z, X) && IsSubseq(z, Y)
          ensures |z| <= Table(X, Y, |X|, |Y|)
        {
          TableIsOptimal(X, Y, |X|, |Y|, z);
        }
      }
      C[|X|, |Y|]
    }

    /** Reads a common subsequence of `X[..i]` and `Y[..j]` off the table,
        as long as the table entry says. */
    function Backtrack(i: nat, j: nat): (r: string)
      reads this, C
      requires Valid() && i <= |X| && j <= |Y|
      ensures |r| == Table(X, Y, i, j)
      ensures IsSubseq(r, X[..i]) && IsSubseq(r, Y[..j])
      decreases i + j
    {
      if i == 0 || j == 0 then ""
      else
        assert X[..i] == X[..i - 1] + [X[i - 1]];
        assert Y[..j] == Y[..j - 1] + [Y[j - 1]];
        if X[i - 1] == Y[j - 1] then
          var r := Backtrack(i - 1, j - 1);
          SubseqSnoc(r, X[..i - 1], X[i - 1]);
          SubseqSnoc(r, Y[..j - 1], Y[j - 1]);
          r + [X[i - 1]]
        else if C[i, j - 1] > C[i - 1, j] then
          var r := Backtrack(i, j - 1);
          SubseqAppend(r, Y[..j - 1], Y[j - 1]);
          r
        else
          var r := Backtrack(i - 1, j);
          SubseqAppend(r, X[..i - 1], X[i - 1]);
          r
    }

    /** One longest common subsequence of `X` and `Y`. */
    function Value(): (r: string)
      reads this, C
      requires Valid()
      ensures |r| == Length()
      ensures IsSubseq(r, X) && IsSubseq(r, Y)
    {
      assert X[..|X|] == X && Y[..|Y|] == Y;
      Backtrack(|X|, |Y|)
    }

    /** Edit distance when only insertions and deletions are allowed. */
    function Distance(): (r: int)
      reads this, C
      requires Valid()
      ensures r >= 0
      ensures r >= |X| - |Y| && r >= |Y| - |X|
      ensures X == Y ==> r == 0
    {
      if X == Y then TableSelf(X, |X|); |X| + |Y| - 2 * Length()
      else |X| + |Y| - 2 * Length()
    }
  }
}
