/** The integer parts of the Jaro similarity: the common prefix used by
    Jaro-Winkler, the windowed matching of common characters, and Jaro's
    window, early returns and transposition count. */
module StringDistance {
  import opened Basics

  /** Length of the longest common prefix of `s1` and `s2`. */
  function CommonPrefix(s1: string, s2: string): (r: nat)
    ensures r <= |s1| && r <= |s2|
    ensures forall i :: 0 <= i < r ==> s1[i] == s2[i]
    ensures r < |s1| && r < |s2| ==> s1[r] != s2[r]
  {
    if s1 == [] || s2 == [] || s1[0] != s2[0] then 0
    else 1 + CommonPrefix(s1[1..], s2[1..])
  }

  /** Scans the first `min(minPrefixLength, |s1|, |s2|)` positions and
      stops at the first difference. */
  method GetPrefixLength(s1: string, s2: string, minPrefixLength: int) returns (r: int)
    ensures var n := Min(Min(minPrefixLength, |s1|), |s2|);
      if n <= 0 then r == n else r == Min(n, CommonPrefix(s1, s2))
  {
    var n := Min(Min(minPrefixLength, |s1|), |s2|);
    var i := 0;
    while i < n
      invariant 0 <= i && (n > 0 ==> i <= n)
      invariant i <= CommonPrefix(s1, s2)
    {
      if s1[i] != s2[i] {
        return i;
      }
      i := i + 1;
    }
    return n;
  }

  /** The first position in `[lo, hi)` of `s2` that is not consumed yet and
      holds `c`. */
  function FirstFree(c: char, s2: string, used: seq<bool>, lo: int, hi: int): (r: Option<nat>)
    requires |used| == |s2| && 0 <= lo && hi <= |s2|
    ensures r.Some? ==> lo <= r.value < hi && !used[r.value] && s2[r.value] == c
    ensures r.Some? ==> forall j :: lo <= j < r.value ==> used[j] || s2[j] != c
    ensures r.None? ==> forall j :: lo <= j < hi ==> used[j] || s2[j] != c
    decreases hi - lo
  {
    if lo >= hi then None
    else if !used[lo] && s2[lo] == c then Some(lo)
    else FirstFree(c, s2, used, lo + 1, hi)
  }

  /** Number of consumed positions. */
  function Consumed(used: seq<bool>): (r: nat)
    ensures r <= |used|
  {
    if used == [] then 0
    else Consumed(used[..|used| - 1]) + (if used[|used| - 1] then 1 else 0)
  }

  /** Consuming a free position adds one to the count. */
  lemma {:induction false} ConsumeOne(used: seq<bool>, j: nat)
    requires j < |used| && !used[j]
    ensures Consumed(used[j := true]) == Consumed(used) + 1
    decreases |used|
  {
    var u := used[j := true];
    if j < |used| - 1 {
      assert u[..|u| - 1] == used[..|used| - 1][j := true];
      ConsumeOne(used[..|used| - 1], j);
    } else {
      assert u[..|u| - 1] == used[..|used| - 1];
    }
  }

  /** What the matching has produced after the first characters of `s1`:
      the common characters so far and which positions of `s2` are consumed. */
  datatype Matching = Matching(commons: string, used: seq<bool>)

  /** The matching after the first `i` characters of `s1`: each one takes the
      first free equal position of `s2` within `allowedDistance` of it. */
  function MatchUpTo(s1: string, s2: string, allowedDistance: int, i: nat): (m: Matching)
    requires i <= |s1|
    ensures |m.used| == |s2|
    ensures |m.commons| == Consumed(m.used)
    ensures IsSubseq(m.commons, s1[..i])
  {
    if i == 0 then
      Matching("", Unused(|s2|))
    else
      var m := MatchUpTo(s1, s2, allowedDistance, i - 1);
      var c := s1[i - 1];
      assert s1[..i] == s1[..i - 1] + [c];
      SubseqAppend(m.commons, s1[..i - 1], c);
      match FirstFree(c, s2, m.used, Max(0, i - 1 - allowedDistance), Min(i + allowedDistance, |s2|))
      case None => m
      case Some(j) =>
        ConsumeOne(m.used, j);
        SubseqSnoc(m.commons, s1[..i - 1], c);
        Matching(m.commons + [c], m.used[j := true])
  }

  /** `n` positions, none of them consumed yet. */
  function Unused(n: nat): (r: seq<bool>)
    ensures |r| == n && Consumed(r) == 0
    ensures forall j :: 0 <= j < n ==> !r[j]
  {
    if n == 0 then []
    else
      var r := Unused(n - 1) + [false];
      assert r[..n - 1] == Unused(n - 1);
      r
  }


  /** The common characters of `s1` with respect to `s2`, in the order of
      `s1`: a subsequence of `s1`, and since no position of `s2` serves
      twice, at most `|s2|` of them. */
  function CommonCharacters(s1: string, s2: string, allowedDistance: int): (r: string)
    ensures IsSubseq(r, s1)
    ensures |r| <= |s1| && |r| <= |s2|
  {
    var m := MatchUpTo(s1, s2, allowedDistance, |s1|);
    assert s1[..|s1|] == s1;
    SubseqLength(m.commons, s1);
    m.commons
  }

  /** One step of the matching, as the loop body performs it. */
  lemma MatchStep(s1: string, s2: string, allowedDistance: int, i: nat)
    requires i < |s1|
    ensures var m := MatchUpTo(s1, s2, allowedDistance, i);
      MatchUpTo(s1, s2, allowedDistance, i + 1) ==
        match FirstFree(s1[i], s2, m.used, Max(0, i - allowedDistance), Min(i + allowedDistance + 1, |s2|))
        case None => m
        case Some(j) => Matching(m.commons + [s1[i]], m.used[j := true])
  {
  }

  /** The nested loops: for each character of `s1`, scan the window of `s2`
      around it and consume the first free position holding the same
      character. */
  method GetCommonCharacters(s1: string, s2: string, allowedDistance: int) returns (commons: string)
    ensures commons == CommonCharacters(s1, s2, allowedDistance)
    ensures IsSubseq(commons, s1) && |commons| <= |s1| && |commons| <= |s2|
  {
    // the consumed positions of the copy of s2
    var used := Unused(|s2|);
    commons := "";
    for i := 0 to |s1|
      invariant MatchUpTo(s1, s2, allowedDistance, i) == Matching(commons, used)
    {
      commons, used := ScanWindow(s1[i], s2, commons, used, Max(0, i - allowedDistance), Min(i + allowedDistance + 1, |s2|));
      MatchStep(s1, s2, allowedDistance, i);
    }
  }

  /** The inner loop: walk the window `[lo, hi)` of `s2` and, at the first
      free position holding `c`, append `c` to the common characters and
      consume that position. */
  method ScanWindow(c: char, s2: string, commons: string, used: seq<bool>, lo: int, hi: int)
    returns (commons': string, used': seq<bool>)
    requires |used| == |s2| && 0 <= lo && hi <= |s2|
    ensures match FirstFree(c, s2, used, lo, hi)
      case None => commons' == commons && used' == used
      case Some(p) => commons' == commons + [c] && used' == used[p := true]
  {
    var noMatch := true;
    var j := lo;
    commons', used' := commons, used;
    while noMatch && j < hi
      invariant 0 <= j
      invariant noMatch ==> used' == used && commons' == commons
      invariant noMatch ==> FirstFree(c, s2, used, j, hi) == FirstFree(c, s2, used, lo, hi)
      invariant !noMatch ==> var target := FirstFree(c, s2, used, lo, hi);
        target.Some? && commons' == commons + [c] && used' == used[target.value := true]
      decreases hi - j
    {
      if !used'[j] && s2[j] == c {
        noMatch := false;
        commons' := commons' + [c];
        used' := used'[j := true];
      }
      j := j + 1;
    }
  }

  // ---------------------------------------------------------------------
  // The consume step as written: the consumed slot of the copy of `s2`
  // receives the empty string, which a PHP engine before 7.1 stores as a
  // NUL character (and 7.1 and later reject with an error).

  /** The first position in `[lo, hi)` of the copy `temp` that holds `c`. */
  function FirstEqual(c: char, temp: string, lo: int, hi: int): (r: Option<nat>)
    requires 0 <= lo && hi <= |temp|
    ensures r.Some? ==> lo <= r.value < hi && temp[r.value] == c
    ensures r.Some? ==> forall j :: lo <= j < r.value ==> temp[j] != c
    ensures r.None? ==> forall j :: lo <= j < hi ==> temp[j] != c
    decreases hi - lo
  {
    if lo >= hi then None
    else if temp[lo] == c then Some(lo)
    else FirstEqual(c, temp, lo + 1, hi)
  }

  /** The common characters after the first `i` characters of `s1` and the
      copy of `s2`, when a consumed slot is overwritten with NUL. */
  function MatchUpToWithNul(s1: string, s2: string, allowedDistance: int, i: nat): (r: (string, string))
    requires i <= |s1|
    ensures |r.1| == |s2| && |r.0| <= i
  {
    if i == 0 then ("", s2)
    else
      var (commons, temp) := MatchUpToWithNul(s1, s2, allowedDistance, i - 1);
      var c := s1[i - 1];
      match FirstEqual(c, temp, Max(0, i - 1 - allowedDistance), Min(i + allowedDistance, |s2|))
      case None => (commons, temp)
      case Some(j) => (commons + [c], temp[j := '\0'])
  }

  /** The NUL sentinel is itself a character `s1` may hold: four NULs
      matched against two, with window 1, yield three common characters,
      more than `s2` has. */
  lemma NulSentinelOvercounts()
    ensures |MatchUpToWithNul("\0\0\0\0", "\0\0", 1, 4).0| == 3
  {
    var s1, s2 := "\0\0\0\0", "\0\0";
    assert FirstEqual('\0', s2, 0, 2) == Some(0);
    assert FirstEqual('\0', s2, 1, 2) == Some(1);
    assert FirstEqual('\0', s2, 2, 2) == None;
    assert s2[0 := '\0'] == s2 && s2[1 := '\0'] == s2;
    assert MatchUpToWithNul(s1, s2, 1, 0) == ("", s2);
    assert s1[0] == '\0' && "" + ['\0'] == "\0";
    assert MatchUpToWithNul(s1, s2, 1, 1) == ("\0", "\0\0");
    assert s1[1] == '\0' && "\0" + ['\0'] == "\0\0";
    assert MatchUpToWithNul(s1, s2, 1, 2) == ("\0\0", "\0\0");
    assert s1[2] == '\0' && "\0\0" + ['\0'] == "\0\0\0";
    assert MatchUpToWithNul(s1, s2, 1, 3) == ("\0\0\0", "\0\0");
    assert MatchUpToWithNul(s1, s2, 1, 4) == ("\0\0\0", "\0\0");
  }

  /** On the same input, consuming each position of `s2` at most once
      yields two common characters, as many as `s2` has. */
  lemma NulInputMatchedOnce()
    ensures |CommonCharacters("\0\0\0\0", "\0\0", 1)| == 2
  {
    var s1, s2 := "\0\0\0\0", "\0\0";
    assert Unused(1) == [] + [false];
    assert Unused(2) == [false] + [false];
    assert MatchUpTo(s1, s2, 1, 0) == Matching("", [false, false]);
    assert MatchUpTo(s1, s2, 1, 1) == Matching("\0", [true, false]);
    assert MatchUpTo(s1, s2, 1, 2) == Matching("\0\0", [true, true]);
    assert MatchUpTo(s1, s2, 1, 3) == Matching("\0\0", [true, true]);
    assert MatchUpTo(s1, s2, 1, 4) == Matching("\0\0", [true, true]);
  }

  /** The match window Jaro passes to the common-character search:
      half the shorter length, rounded down. */
  function MatchWindow(len1: nat, len2: nat): (d: nat)
    ensures 2 * d <= Min(len1, len2) < 2 * d + 2
  {
    Min(len1, len2) / 2
  }

  /** Positions below `n` where `c1` and `c2` differ. */
  function Mismatches(c1: string, c2: string, n: nat): (r: nat)
    requires n <= |c1| && n <= |c2|
    ensures r <= n
    ensures r == 0 <==> c1[..n] == c2[..n]
  {
    if n == 0 then 0
    else
      assert c1[..n] == c1[..n - 1] + [c1[n - 1]] && c2[..n] == c2[..n - 1] + [c2[n - 1]];
      Mismatches(c1, c2, n - 1) + (if c1[n - 1] != c2[n - 1] then 1 else 0)
  }

  /** Jaro's counter loop over the positions both common-character strings
      have. */
  method CountTranspositions(commons1: string, commons2: string) returns (transpositions: nat)
    ensures transpositions == Mismatches(commons1, commons2, Min(|commons1|, |commons2|))
    ensures transpositions <= |commons1| && transpositions <= |commons2|
  {
    transpositions := 0;
    var upperBound := Min(|commons1|, |commons2|);
    for i := 0 to upperBound
      invariant transpositions == Mismatches(commons1, commons2, i)
    {
      if commons1[i] != commons2[i] {
        transpositions := transpositions + 1;
      }
    }
  }

  /** The integers Jaro's score is computed from: a score of 0 returned
      early, or both common-character counts, the two lengths and the
      transposition count before it is halved. */
  datatype JaroCounts =
    | Zero
    | Counts(str1Length: nat, str2Length: nat, commons1Length: nat, commons2Length: nat, transpositions: nat)

  /** Jaro up to the floating-point score. */
  method Jaro(s1: string, s2: string) returns (r: JaroCounts)
    ensures var d := MatchWindow(|s1|, |s2|);
      var c1 := CommonCharacters(s1, s2, d);
      var c2 := CommonCharacters(s2, s1, d);
      && (r.Zero? <==> c1 == [] || c2 == [])
      && (r.Counts? ==> r == Counts(|s1|, |s2|, |c1|, |c2|, Mismatches(c1, c2, Min(|c1|, |c2|))))
    ensures |s1| == 0 || |s2| == 0 ==> r.Zero?
    ensures r.Counts? ==> 1 <= r.commons1Length <= r.str1Length && 1 <= r.commons2Length <= r.str2Length
    ensures r.Counts? ==> r.transpositions <= Min(r.commons1Length, r.commons2Length)
  {
    var str1Len, str2Len := |s1|, |s2|;
    var distance := MatchWindow(str1Len, str2Len);
    var commons1 := GetCommonCharacters(s1, s2, distance);
    var commons2 := GetCommonCharacters(s2, s1, distance);
    var commons1Len := |commons1|;
    if commons1Len == 0 {
      return Zero;
    }
    var commons2Len := |commons2|;
    if commons2Len == 0 {
      return Zero;
    }
    var transpositions := CountTranspositions(commons1, commons2);
    return Counts(str1Len, str2Len, commons1Len, commons2Len, transpositions);
  }
}
