/**
 * The edit distance behind the TypeScript word similarity. Dist(a, b, i, j)
 * is the value the dynamic-programming table of `similarity` holds in cell
 * (i, j), the distance between the prefixes a[..i] and b[..j].
 */
module Levenshtein {
  import opened Text

  function Min3(x: nat, y: nat, z: nat): (m: nat)
    ensures m <= x && m <= y && m <= z
    ensures m == x || m == y || m == z
  {
    if x <= y && x <= z then x else if y <= z then y else z
  }

  /** dp[i][0] = i, dp[0][j] = j; equal characters copy the diagonal, others take 1 + the least neighbour. */
  function Dist(a: Str, b: Str, i: nat, j: nat): nat
    requires i <= |a| && j <= |b|
    decreases i + j
  {
    if i == 0 then j
    else if j == 0 then i
    else if a[i - 1] == b[j - 1] then Dist(a, b, i - 1, j - 1)
    else 1 + Min3(Dist(a, b, i - 1, j), Dist(a, b, i, j - 1), Dist(a, b, i - 1, j - 1))
  }

  /** The distance between two whole strings. */
  function Lev(a: Str, b: Str): nat {
    Dist(a, b, |a|, |b|)
  }

  function Max(x: nat, y: nat): nat {
    if x >= y then x else y
  }

  /** The distance lies between the difference of the lengths and the larger length. */
  lemma {:induction false} DistBounds(a: Str, b: Str, i: nat, j: nat)
    requires i <= |a| && j <= |b|
    ensures Dist(a, b, i, j) <= Max(i, j)
    ensures Dist(a, b, i, j) >= i - j && Dist(a, b, i, j) >= j - i
    decreases i + j
  {
    if i > 0 && j > 0 {
      DistBounds(a, b, i - 1, j - 1);
      DistBounds(a, b, i - 1, j);
      DistBounds(a, b, i, j - 1);
    }
  }

  /** The distance is zero exactly for equal prefixes. */
  lemma {:induction false} DistZeroIffEqual(a: Str, b: Str, i: nat, j: nat)
    requires i <= |a| && j <= |b|
    ensures Dist(a, b, i, j) == 0 <==> a[..i] == b[..j]
    decreases i + j
  {
    if i > 0 && j > 0 {
      DistZeroIffEqual(a, b, i - 1, j - 1);
      assert a[..i] == a[..i - 1] + [a[i - 1]];
      assert b[..j] == b[..j - 1] + [b[j - 1]];
      if a[..i] == b[..j] {
        assert a[..i][..i - 1] == b[..j][..j - 1];
        assert a[..i - 1] == b[..j - 1];
      }
    }
  }

  /** The recurrence is symmetric, so the distance is too. */
  lemma {:induction false} DistSymmetric(a: Str, b: Str, i: nat, j: nat)
    requires i <= |a| && j <= |b|
    ensures Dist(a, b, i, j) == Dist(b, a, j, i)
    decreases i + j
  {
    if i > 0 && j > 0 {
      DistSymmetric(a, b, i - 1, j - 1);
      DistSymmetric(a, b, i - 1, j);
      DistSymmetric(a, b, i, j - 1);
    }
  }

  /** The same facts for whole strings. */
  lemma LevFacts(a: Str, b: Str)
    ensures Lev(a, b) <= Max(|a|, |b|)
    ensures Lev(a, b) == 0 <==> a == b
    ensures Lev(a, b) == Lev(b, a)
  {
    DistBounds(a, b, |a|, |b|);
    DistZeroIffEqual(a, b, |a|, |b|);
    DistSymmetric(a, b, |a|, |b|);
    assert a[..|a|] == a && b[..|b|] == b;
  }
}
