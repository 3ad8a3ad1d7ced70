/**
 * The constants of code/functions/ca_model.py and the statistics it derives
 * from a grid: the mean distance of cancer cells from the origin
 * (origin_distance), the density development and the mitosis probability.
 *
 * math.sqrt is not modelled: the per-cell distance is `root` applied to the
 * exact squared distance, with `root` a parameter standing for math.sqrt.
 */
module CaStatistics {
  import opened Grids

  const ROWS: nat := 101
  const COLS: nat := 101
  /** ORIGIN = (COLS // 2, ROWS // 2), read as (row, column). */
  const ORIGIN: Pos := (COLS / 2, ROWS / 2)
  const PHI: real := 1000.0
  const K3: real := 0.4
  const K4: real := 0.4
  const RHO: real := 3.85

  /** The seed positions CANCER_INIT_POSITIONS: the origin and its four neighbours. */
  const CANCER_INIT_POSITIONS: seq<Pos> :=
    [(ORIGIN.0, ORIGIN.1), (ORIGIN.0 + 1, ORIGIN.1), (ORIGIN.0 - 1, ORIGIN.1),
     (ORIGIN.0, ORIGIN.1 - 1), (ORIGIN.0, ORIGIN.1 + 1)]

  /** (i - o.0)^2 + (j - o.1)^2, the argument of math.sqrt. */
  function SquaredDistance(i: int, j: int, o: Pos): real {
    ((i - o.0) * (i - o.0) + (j - o.1) * (j - o.1)) as real
  }

  /** The distance term a cell contributes to R: only cancer cells count. */
  function CellDistance(g: Grid, i: nat, j: nat, o: Pos, root: real -> real): real
    requires i < |g| && j < |g[i]|
  {
    if g[i][j] == Cancerous then root(SquaredDistance(i, j, o)) else 0.0
  }

  /** The sum of the distance terms of row i, columns 0 .. j-1. */
  function RowDistanceSum(g: Grid, i: nat, j: nat, o: Pos, root: real -> real): real
    requires i < |g| && j <= |g[i]|
  {
    if j == 0 then 0.0
    else RowDistanceSum(g, i, j - 1, o, root) + CellDistance(g, i, j - 1, o, root)
  }

  /** The sum of the distance terms of rows 0 .. i-1. */
  function DistanceSum(g: Grid, i: nat, o: Pos, root: real -> real): real
    requires Rect(g) && i <= |g|
  {
    if i == 0 then 0.0
    else DistanceSum(g, i - 1, o, root) + RowDistanceSum(g, i - 1, Width(g), o, root)
  }

  /**
   * origin_distance: the sum of the cancer cells' distances divided by
   * n' = C + E + D (not by the number of cancer cells), and 0 when n' is 0.
   */
  function MeanRadius(g: Grid, o: Pos, root: real -> real): real
    requires Rect(g)
  {
    var n := NPrime(g);
    if n != 0 then DistanceSum(g, |g|, o, root) / n as real else 0.0
  }

  /** R is the mean over n' = C + E + D of the cancer cells' distances, and 0 without such cells. */
  lemma MeanRadiusSpec(g: Grid, o: Pos, root: real -> real)
    requires Rect(g)
    ensures NPrime(g) == 0 ==> MeanRadius(g, o, root) == 0.0
    ensures NPrime(g) != 0 ==> MeanRadius(g, o, root) * (NPrime(g) as real) == DistanceSum(g, |g|, o, root)
  {
  }

  /** n / r^2, and 0 when r is 0: the guarded quotient of density_development. */
  function GuardedRatio(n: real, r: real): real {
    if r != 0.0 then n / (r * r) else 0.0
  }

  /** The guarded quotient q satisfies q * r^2 == n, and is 0 when r is 0. */
  lemma GuardedRatioSpec(n: real, r: real)
    ensures r == 0.0 ==> GuardedRatio(n, r) == 0.0
    ensures r != 0.0 ==> GuardedRatio(n, r) * (r * r) == n
  {
  }

  /**
   * density_development: n' / R^2, and 0 when R is 0. R is always taken
   * about the module ORIGIN, whatever origin the caller passes.
   */
  function Density(g: Grid, root: real -> real): real
    requires Rect(g)
  {
    GuardedRatio(NPrime(g) as real, MeanRadius(g, ORIGIN, root))
  }

  /** The 'dense' flag of a grid: density above RHO. */
  predicate IsDense(g: Grid, root: real -> real)
    requires Rect(g)
  {
    Density(g, root) > RHO
  }

  /** A grid without cancer, edge or dead cells has R = 0, density 0 and is not dense. */
  lemma ZeroGuards(g: Grid, root: real -> real)
    requires Rect(g) && NPrime(g) == 0
    ensures MeanRadius(g, ORIGIN, root) == 0.0
    ensures Density(g, root) == 0.0 && !IsDense(g, root)
  {
  }

  /** origin_distance: the row-by-row accumulation of R, then the guarded division. */
  method OriginDistance(M: array2<Cell>, o: Pos, root: real -> real) returns (R: real)
    ensures R == MeanRadius(Cells(M), o, root)
  {
    ghost var g := Cells(M);
    var nPrime := NPrime(Cells(M));
    R := 0.0;
    var i := 0;
    while i < M.Length0
      invariant 0 <= i <= M.Length0
      invariant R == DistanceSum(g, i, o, root)
    {
      var j := 0;
      while j < M.Length1
        invariant 0 <= j <= M.Length1
        invariant R == DistanceSum(g, i, o, root) + RowDistanceSum(g, i, j, o, root)
      {
        if M[i, j] == Cancerous {
          R := R + root(SquaredDistance(i, j, o));
        }
        j := j + 1;
      }
      i := i + 1;
    }
    R := if nPrime != 0 then R / nPrime as real else 0.0;
  }

  /** density_development(M, origin): the origin argument is ignored. */
  method DensityDevelopment(M: array2<Cell>, origin: Pos, root: real -> real) returns (rho: real)
    ensures rho == Density(Cells(M), root)
  {
    var nPrime := NPrime(Cells(M));
    var R := OriginDistance(M, ORIGIN, root);
    rho := GuardedRatio(nPrime as real, R);
  }

  /**
   * basic_mitosis_probability: k * (1 - n / PHI), falling from the full rate
   * k without cancer cells to 0 at PHI of them.
   */
  function BasicMitosisProbability(k: real, n: int): (r: real)
  {
    k * (1.0 - n as real / PHI)
  }

  /** The probability is the full rate k with no cancer cells and 0 with PHI of them. */
  lemma ProbabilityEndpoints(k: real, n: int)
    ensures n == 0 ==> BasicMitosisProbability(k, n) == k
    ensures n as real == PHI ==> BasicMitosisProbability(k, n) == 0.0
  {
  }

  lemma MulNonNegative(a: real, b: real)
    requires 0.0 <= a && 0.0 <= b
    ensures 0.0 <= a * b
  {
  }

  /** With 0 <= n <= PHI cancer cells and k >= 0 the probability lies in [0, k]. */
  lemma ProbabilityBounds(k: real, n: int)
    requires 0.0 <= k && 0 <= n && n as real <= PHI
    ensures 0.0 <= BasicMitosisProbability(k, n) <= k
  {
    var f := 1.0 - n as real / PHI;
    assert 0.0 <= n as real / PHI <= 1.0;
    assert BasicMitosisProbability(k, n) == k * f;
    MulNonNegative(k, f);
    MulNonNegative(k, 1.0 - f);
    assert k - k * f == k * (1.0 - f);
  }

  /** More cancer cells never raise the mitosis probability (logistic feedback). */
  lemma ProbabilityAntitone(k: real, n1: int, n2: int)
    requires 0.0 <= k && n1 <= n2
    ensures BasicMitosisProbability(k, n2) <= BasicMitosisProbability(k, n1)
  {
    var f1 := 1.0 - n1 as real / PHI;
    var f2 := 1.0 - n2 as real / PHI;
    assert n1 as real / PHI <= n2 as real / PHI;
    assert BasicMitosisProbability(k, n1) == k * f1 && BasicMitosisProbability(k, n2) == k * f2;
    MulNonNegative(k, f1 - f2);
    assert k * f1 - k * f2 == k * (f1 - f2);
  }
}
