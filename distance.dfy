/** `levenshtein` and `similarity` of the quiz page (src/pages/revise.tsx). */
module Distance {

  function Min3(x: nat, y: nat, z: nat): (m: nat)
    ensures m <= x && m <= y && m <= z
    ensures m == x || m == y || m == z
  {
    if x <= y && x <= z then x else if y <= z then y else z
  }

  function Max(x: nat, y: nat): nat {
    if x >= y then x else y
  }

  /** Textbook edit distance between the prefixes a[..i] and b[..j]: the cheapest
      of deleting, inserting, or substituting (free when the characters agree). */
  function Dist(a: string, b: string, i: nat, j: nat): nat
    requires i <= |a| && j <= |b|
    decreases i + j
  {
    if i == 0 then j
    else if j == 0 then i
    else Min3(Dist(a, b, i - 1, j) + 1, Dist(a, b, i, j - 1) + 1,
              Dist(a, b, i - 1, j - 1) + (if a[i - 1] == b[j - 1] then 0 else 1))
  }

  /** Number of single-character insertions, deletions and substitutions that turn a into b. */
  function EditDistance(a: string, b: string): nat {
    Dist(a, b, |a|, |b|)
  }

  /** The recurrence that the rolling row of `levenshtein` fills in: on equal
      characters it copies the diagonal cell without comparing the others. */
  function Cell(a: string, b: string, i: nat, j: nat): nat
    requires i <= |a| && j <= |b|
    decreases i + j
  {
    if i == 0 then j
    else if j == 0 then i
    else if a[i - 1] == b[j - 1] then Cell(a, b, i - 1, j - 1)
    else 1 + Min3(Cell(a, b, i - 1, j - 1), Cell(a, b, i, j - 1), Cell(a, b, i - 1, j))
  }

  /** Neighbouring cells of the table differ by at most one. */
  predicate Steps(a: string, b: string, x: nat, y: nat)
    requires x <= |a| && y <= |b|
  {
    && (x >= 1 ==> Cell(a, b, x, y) <= Cell(a, b, x - 1, y) + 1 && Cell(a, b, x - 1, y) <= Cell(a, b, x, y) + 1)
    && (y >= 1 ==> Cell(a, b, x, y) <= Cell(a, b, x, y - 1) + 1 && Cell(a, b, x, y - 1) <= Cell(a, b, x, y) + 1)
  }

  lemma {:induction false} CellSteps(a: string, b: string, x: nat, y: nat)
    requires x <= |a| && y <= |b|
    ensures Steps(a, b, x, y)
    decreases x + y
  {
    if x >= 1 && y >= 1 {
      CellSteps(a, b, x - 1, y);
      CellSteps(a, b, x, y - 1);
      CellStepsInner(a, b, x, y);
    }
  }

  /** The step of CellSteps at an inner cell, from the steps around the diagonal cell. */
  lemma CellStepsInner(a: string, b: string, x: nat, y: nat)
    requires 1 <= x <= |a| && 1 <= y <= |b|
    requires Steps(a, b, x - 1, y) && Steps(a, b, x, y - 1)
    ensures Steps(a, b, x, y)
  {
  }

  /** The table and the textbook distance agree on one cell. */
  predicate Agree(a: string, b: string, i: nat, j: nat)
    requires i <= |a| && j <= |b|
  {
    Cell(a, b, i, j) == Dist(a, b, i, j)
  }

  /** The shortcut on equal characters loses nothing: the table is the textbook distance. */
  lemma {:induction false} CellIsDist(a: string, b: string, i: nat, j: nat)
    requires i <= |a| && j <= |b|
    ensures Agree(a, b, i, j)
    decreases i + j
  {
    if i >= 1 && j >= 1 {
      CellIsDist(a, b, i - 1, j - 1);
      CellIsDist(a, b, i - 1, j);
      CellIsDist(a, b, i, j - 1);
      CellIsDistInner(a, b, i, j);
    }
  }

  /** The step of CellIsDist at an inner cell, from the three cells before it. */
  lemma CellIsDistInner(a: string, b: string, i: nat, j: nat)
    requires 1 <= i <= |a| && 1 <= j <= |b|
    requires Agree(a, b, i - 1, j - 1) && Agree(a, b, i - 1, j) && Agree(a, b, i, j - 1)
    ensures Agree(a, b, i, j)
  {
    DiagonalBound(a, b, i, j);
    StepsAgree(Cell(a, b, i - 1, j - 1), Cell(a, b, i, j - 1), Cell(a, b, i - 1, j), a[i - 1] == b[j - 1]);
  }

  /** The diagonal cell is at most one more than the cells beside it. */
  lemma DiagonalBound(a: string, b: string, i: nat, j: nat)
    requires 1 <= i <= |a| && 1 <= j <= |b|
    ensures Cell(a, b, i - 1, j - 1) <= Cell(a, b, i - 1, j) + 1
    ensures Cell(a, b, i - 1, j - 1) <= Cell(a, b, i, j - 1) + 1
  {
    CellSteps(a, b, i - 1, j);
    CellSteps(a, b, i, j - 1);
  }

  /** The two recurrences agree on one cell when the diagonal is at most one more
      than its neighbours. */
  lemma StepsAgree(diag: nat, left: nat, up: nat, same: bool)
    requires diag <= up + 1 && diag <= left + 1
    ensures (if same then diag else 1 + Min3(diag, left, up))
         == Min3(up + 1, left + 1, diag + (if same then 0 else 1))
  {
  }

  lemma {:induction false} DistSelf(a: string, i: nat)
    requires i <= |a|
    ensures Dist(a, a, i, i) == 0
  {
    if i > 0 {
      DistSelf(a, i - 1);
    }
  }

  /** The distance is never more than the longer length. */
  lemma {:induction false} DistUpper(a: string, b: string, i: nat, j: nat)
    requires i <= |a| && j <= |b|
    ensures Dist(a, b, i, j) <= Max(i, j)
    decreases i + j
  {
    if i > 0 && j > 0 {
      DistUpper(a, b, i - 1, j - 1);
    }
  }

  /** Distance zero means the prefixes are the same text. */
  lemma {:induction false} DistZero(a: string, b: string, i: nat, j: nat)
    requires i <= |a| && j <= |b|
    requires Dist(a, b, i, j) == 0
    ensures i == j && a[..i] == b[..j]
    decreases i + j
  {
    if i > 0 && j > 0 {
      DistZero(a, b, i - 1, j - 1);
      assert a[..i] == a[..i - 1] + [a[i - 1]];
      assert b[..j] == b[..j - 1] + [b[j - 1]];
    }
  }

  /** The distance between two prefixes does not depend on their order. */
  predicate Symmetric(a: string, b: string, i: nat, j: nat)
    requires i <= |a| && j <= |b|
  {
    Dist(a, b, i, j) == Dist(b, a, j, i)
  }

  lemma {:induction false} DistSymmetric(a: string, b: string, i: nat, j: nat)
    requires i <= |a| && j <= |b|
    ensures Symmetric(a, b, i, j)
    decreases i + j
  {
    if i > 0 && j > 0 {
      DistSymmetric(a, b, i - 1, j);
      DistSymmetric(a, b, i, j - 1);
      DistSymmetric(a, b, i - 1, j - 1);
      DistSymmetricInner(a, b, i, j);
    }
  }

  /** The step of DistSymmetric at an inner cell, from the three cells before it. */
  lemma DistSymmetricInner(a: string, b: string, i: nat, j: nat)
    requires 1 <= i <= |a| && 1 <= j <= |b|
    requires Symmetric(a, b, i - 1, j) && Symmetric(a, b, i, j - 1) && Symmetric(a, b, i - 1, j - 1)
    ensures Symmetric(a, b, i, j)
  {
  }

  /** The distance is 0 exactly for equal texts, the other length when one is empty,
      at most the longer length, and the same in both directions. */
  lemma EditDistanceFacts(a: string, b: string)
    ensures EditDistance(a, b) == 0 <==> a == b
    ensures a == [] ==> EditDistance(a, b) == |b|
    ensures b == [] ==> EditDistance(a, b) == |a|
    ensures EditDistance(a, b) <= Max(|a|, |b|)
    ensures EditDistance(a, b) == EditDistance(b, a)
  {
    if a == b {
      DistSelf(a, |a|);
    }
    if EditDistance(a, b) == 0 {
      DistZero(a, b, |a|, |b|);
      assert a == a[..|a|] && b == b[..|b|];
    }
    DistUpper(a, b, |a|, |b|);
    DistSymmetric(a, b, |a|, |b|);
  }

  /** `levenshtein(a, b)`: one row `dp` of the table, overwritten in place row by row. */
  method Levenshtein(a: string, b: string) returns (d: nat)
    ensures d == EditDistance(a, b)
  {
    if a == b {
      DistSelf(a, |a|);
      return 0;
    }
    if |a| == 0 {
      return |b|;
    }
    if |b| == 0 {
      return |a|;
    }
    var dp := new nat[|b| + 1];
    var j := 0;
    while j <= |b|
      invariant 0 <= j <= |b| + 1
      invariant forall k :: 0 <= k < j ==> dp[k] == Cell(a, b, 0, k)
    {
      dp[j] := j;
      j := j + 1;
    }
    var i := 1;
    while i <= |a|
      invariant 1 <= i <= |a| + 1
      invariant forall k :: 0 <= k <= |b| ==> dp[k] == Cell(a, b, i - 1, k)
    {
      NextRow(a, b, dp, i);
      i := i + 1;
    }
    d := dp[|b|];
    CellIsDist(a, b, |a|, |b|);
  }

  /** One pass of the inner loop of `levenshtein`: turns row i - 1 of the table into row i,
      keeping the overwritten diagonal cell in `prev`. */
  method NextRow(a: string, b: string, dp: array<nat>, i: nat)
    requires 1 <= i <= |a| && dp.Length == |b| + 1
    requires forall k :: 0 <= k <= |b| ==> dp[k] == Cell(a, b, i - 1, k)
    modifies dp
    ensures forall k :: 0 <= k <= |b| ==> dp[k] == Cell(a, b, i, k)
  {
    var prev := dp[0];
    dp[0] := i;
    var j := 1;
    while j <= |b|
      invariant 1 <= j <= |b| + 1
      invariant prev == Cell(a, b, i - 1, j - 1)
      invariant forall k :: 0 <= k < j ==> IsCell(a, b, i, k, dp[k])
      invariant forall k :: j <= k <= |b| ==> IsCell(a, b, i - 1, k, dp[k])
    {
      var temp := dp[j];
      CellRule(a, b, i, j, prev, dp[j - 1], temp);
      if a[i - 1] == b[j - 1] {
        dp[j] := prev;
      } else {
        dp[j] := Min3(prev, dp[j - 1], dp[j]) + 1;
      }
      prev := temp;
      j := j + 1;
    }
  }

  /** `v` is the table's cell (i, k). */
  predicate IsCell(a: string, b: string, i: nat, k: nat, v: nat)
    requires i <= |a| && k <= |b|
  {
    v == Cell(a, b, i, k)
  }

  /** One cell of the table from the three cells before it. */
  lemma CellRule(a: string, b: string, i: nat, j: nat, diag: nat, left: nat, up: nat)
    requires 1 <= i <= |a| && 1 <= j <= |b|
    requires IsCell(a, b, i - 1, j - 1, diag) && IsCell(a, b, i, j - 1, left) && IsCell(a, b, i - 1, j, up)
    ensures IsCell(a, b, i, j, if a[i - 1] == b[j - 1] then diag else Min3(diag, left, up) + 1)
  {
  }

  /** `KEYWORD_THRESHOLD` (src/pages/revise.tsx:10). */
  const Threshold: real := 0.8

  lemma MulPos(x: real, y: real)
    requires x > 0.0 && y > 0.0
    ensures x * y > 0.0
  {
  }

  /** A distance over a positive length no smaller than it lies in [0, 1]. */
  lemma RatioBounds(d: real, m: real)
    requires 0.0 <= d <= m && m > 0.0
    ensures 0.0 <= d / m <= 1.0
  {
    var q := d / m;
    assert q * m == d;
    if q < 0.0 {
      MulPos(-q, m);
    }
    if q > 1.0 {
      MulPos(q - 1.0, m);
    }
  }

  /** `similarity`: 1 for two empty texts, else one minus the distance over the longer length. */
  function Similarity(a: string, b: string): (r: real)
    ensures 0.0 <= r <= 1.0
  {
    if |a| == 0 && |b| == 0 then 1.0
    else
      EditDistanceFacts(a, b);
      RatioBounds(EditDistance(a, b) as real, Max(|a|, |b|) as real);
      1.0 - (EditDistance(a, b) as real) / (Max(|a|, |b|) as real)
  }

  predicate Similar(a: string, b: string) {
    Similarity(a, b) >= Threshold
  }

  /** One minus a ratio reaches 0.8 exactly when five times the numerator is at most the denominator. */
  lemma ThresholdIff(d: real, m: real)
    requires m > 0.0
    ensures 1.0 - d / m >= Threshold <==> 5.0 * d <= m
  {
    var q := d / m;
    assert q * m == d;
    if q > 0.2 {
      MulPos(q - 0.2, m);
    } else if q < 0.2 {
      MulPos(0.2 - q, m);
    }
  }

  /** The threshold test without division: at most one edit per five characters of the longer text. */
  lemma SimilarIff(a: string, b: string)
    ensures Similar(a, b) <==> 5 * EditDistance(a, b) <= Max(|a|, |b|)
  {
    if |a| != 0 || |b| != 0 {
      ThresholdIff(EditDistance(a, b) as real, Max(|a|, |b|) as real);
    } else {
      EditDistanceFacts(a, b);
    }
  }

  /** Similarity is 1 exactly for equal texts, and does not depend on the order of its arguments. */
  lemma SimilarityFacts(a: string, b: string)
    ensures Similarity(a, b) == 1.0 <==> a == b
    ensures Similarity(a, b) == Similarity(b, a)
  {
    EditDistanceFacts(a, b);
    EditDistanceFacts(b, a);
    if |a| != 0 || |b| != 0 {
      var d := EditDistance(a, b) as real;
      var m := Max(|a|, |b|) as real;
      assert d / m == 0.0 <==> d == 0.0;
    }
  }

  /** `similarity(a, b)` as the page computes it, through `levenshtein`. */
  method ComputeSimilarity(a: string, b: string) returns (r: real)
    ensures r == Similarity(a, b)
  {
    if |a| == 0 && |b| == 0 {
      return 1.0;
    }
    var d := Levenshtein(a, b);
    r := 1.0 - (d as real) / (Max(|a|, |b|) as real);
  }
}
