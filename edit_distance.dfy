/**
 * Levenshtein distance: the recursive definition both source copies compute,
 * and the dynamic-programming table that fills it in (`levenshtein` in
 * run-test.py and in js/skill-data.js build the same `dp` table).
 */
module EditDistance {

  function Min3(x: nat, y: nat, z: nat): nat {
    if x <= y && x <= z then x else if y <= z then y else z
  }

  function Max(x: nat, y: nat): nat {
    if x >= y then x else y
  }

  /**
   * The distance between `a` and `b`, stated on prefixes exactly as the table
   * entry `dp[|a|][|b|]`: an empty side costs the other side's length, a
   * shared last character is free, otherwise one edit plus the cheapest of
   * deletion, insertion and substitution.
   */
  function Levenshtein(a: string, b: string): nat
    decreases |a| + |b|
  {
    if |a| == 0 then |b|
    else if |b| == 0 then |a|
    else if a[|a| - 1] == b[|b| - 1] then Levenshtein(a[..|a| - 1], b[..|b| - 1])
    else 1 + Min3(Levenshtein(a[..|a| - 1], b), Levenshtein(a, b[..|b| - 1]), Levenshtein(a[..|a| - 1], b[..|b| - 1]))
  }

  /** `levenshtein(a, b)`: fills `dp[i][j]` row by row and returns `dp[m][n]`. */
  method LevenshteinTable(a: string, b: string) returns (d: nat)
    ensures d == Levenshtein(a, b)
  {
    var m, n := |a|, |b|;
    var dp := new nat[m + 1, n + 1];
    for i := 0 to m + 1
      invariant forall i' :: 0 <= i' < i ==> dp[i', 0] == i'
    {
      dp[i, 0] := i;
    }
    for j := 0 to n + 1
      invariant forall i' :: 0 <= i' <= m ==> dp[i', 0] == i'
      invariant forall j' :: 0 <= j' < j ==> dp[0, j'] == j'
    {
      dp[0, j] := j;
    }
    assert forall j' :: 0 <= j' <= n ==> dp[0, j'] == Levenshtein(a[..0], b[..j']);
    for i := 1 to m + 1
      invariant forall i', j' :: 0 <= i' < i && 0 <= j' <= n ==> dp[i', j'] == Levenshtein(a[..i'], b[..j'])
      invariant forall i' :: i <= i' <= m ==> dp[i', 0] == i'
    {
      FillRow(dp, a, b, i);
    }
    assert a[..m] == a && b[..n] == b;
    d := dp[m, n];
  }

  /** Row `i` of the table from row `i - 1`, left to right. */
  method FillRow(dp: array2<nat>, a: string, b: string, i: nat)
    requires dp.Length0 == |a| + 1 && dp.Length1 == |b| + 1
    requires 0 < i <= |a|
    requires forall j' :: 0 <= j' <= |b| ==> dp[i - 1, j'] == Levenshtein(a[..i - 1], b[..j'])
    requires dp[i, 0] == i
    modifies dp
    ensures forall j' :: 0 <= j' <= |b| ==> dp[i, j'] == Levenshtein(a[..i], b[..j'])
    ensures forall i', j' :: 0 <= i' < dp.Length0 && 0 <= j' < dp.Length1 && i' != i ==> dp[i', j'] == old(dp[i', j'])
  {
    assert dp[i, 0] == Levenshtein(a[..i], b[..0]);
    for j := 1 to |b| + 1
      invariant forall j' :: 0 <= j' <= |b| ==> dp[i - 1, j'] == Levenshtein(a[..i - 1], b[..j'])
      invariant forall j' :: 0 <= j' < j ==> dp[i, j'] == Levenshtein(a[..i], b[..j'])
      invariant forall i', j' :: 0 <= i' < dp.Length0 && 0 <= j' < dp.Length1 && i' != i ==> dp[i', j'] == old(dp[i', j'])
    {
      LevenshteinStep(a, b, i, j);
      var del, ins, sub := dp[i - 1, j], dp[i, j - 1], dp[i - 1, j - 1];
      dp[i, j] := if a[i - 1] == b[j - 1] then sub else 1 + Min3(del, ins, sub);
    }
  }

  /** One table entry from its three neighbours, stated on prefixes. */
  lemma LevenshteinStep(a: string, b: string, i: nat, j: nat)
    requires 0 < i <= |a| && 0 < j <= |b|
    ensures Levenshtein(a[..i], b[..j]) ==
      if a[i - 1] == b[j - 1] then Levenshtein(a[..i - 1], b[..j - 1])
      else 1 + Min3(Levenshtein(a[..i - 1], b[..j]), Levenshtein(a[..i], b[..j - 1]), Levenshtein(a[..i - 1], b[..j - 1]))
  {
    assert a[..i][..i - 1] == a[..i - 1];
    assert b[..j][..j - 1] == b[..j - 1];
  }

  /** A string is at distance 0 from itself. */
  lemma {:induction false} LevenshteinSelf(a: string)
    ensures Levenshtein(a, a) == 0
  {
    if |a| > 0 {
      LevenshteinSelf(a[..|a| - 1]);
    }
  }

  /** Distance 0 means equal strings. */
  lemma {:induction false} LevenshteinZero(a: string, b: string)
    ensures Levenshtein(a, b) == 0 <==> a == b
    decreases |a| + |b|
  {
    if |a| > 0 && |b| > 0 && a[|a| - 1] == b[|b| - 1] {
      LevenshteinZero(a[..|a| - 1], b[..|b| - 1]);
      assert a == a[..|a| - 1] + [a[|a| - 1]];
      assert b == b[..|b| - 1] + [b[|b| - 1]];
    }
  }

  /** Against the empty string the distance is the other string's length. */
  lemma LevenshteinEmpty(a: string)
    ensures Levenshtein(a, "") == |a| && Levenshtein("", a) == |a|
  {
  }

  /** Never more edits than the longer string has characters. */
  lemma {:induction false} LevenshteinAtMostMax(a: string, b: string)
    ensures Levenshtein(a, b) <= Max(|a|, |b|)
    decreases |a| + |b|
  {
    if |a| > 0 && |b| > 0 {
      LevenshteinAtMostMax(a[..|a| - 1], b[..|b| - 1]);
    }
  }

  /** Never fewer edits than the difference in length. */
  lemma {:induction false} LevenshteinAtLeastLengthGap(a: string, b: string)
    ensures Levenshtein(a, b) >= |a| - |b| && Levenshtein(a, b) >= |b| - |a|
    decreases |a| + |b|
  {
    if |a| > 0 && |b| > 0 {
      LevenshteinAtLeastLengthGap(a[..|a| - 1], b[..|b| - 1]);
      if a[|a| - 1] != b[|b| - 1] {
        LevenshteinAtLeastLengthGap(a[..|a| - 1], b);
        LevenshteinAtLeastLengthGap(a, b[..|b| - 1]);
      }
    }
  }

  /** The distance does not depend on the order of its arguments. */
  lemma {:induction false} LevenshteinSymmetric(a: string, b: string)
    ensures Levenshtein(a, b) == Levenshtein(b, a)
    decreases |a| + |b|
  {
    if |a| > 0 && |b| > 0 {
      LevenshteinSymmetric(a[..|a| - 1], b[..|b| - 1]);
      if a[|a| - 1] != b[|b| - 1] {
        LevenshteinSymmetric(a[..|a| - 1], b);
        LevenshteinSymmetric(a, b[..|b| - 1]);
      }
    }
  }
}
