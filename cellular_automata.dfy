/**
 * The stand-alone automaton of code/cellular_automata.py: its own constants
 * and probability, and simulate_tumor_growth_one_generation, whose scan runs
 * over range(1, ROWS) x range(1, COLS) and so reaches the last row and column.
 * Counting, the density, the quadrants and the division are the same code as
 * in code/functions/ca_model.py and are shared with that model.
 */
module CellularAutomata {
  import opened Grids
  import CaStatistics
  import opened CaMitosis
  import opened CaScan

  const K1: real := 0.7
  const K2: real := 0.2
  const K3: real := 0.3
  const K4: real := 0.3
  /** PHI = ROWS * COLS, the carrying capacity of the whole grid. */
  const PHI: real := (CaStatistics.ROWS * CaStatistics.COLS) as real

  /** mitosis_probability(k, n, p): k * (1 - n / p). */
  function MitosisProbability(k: real, n: int, p: real): (r: real)
    requires p != 0.0
  {
    k * (1.0 - n as real / p)
  }

  /** The probability is the full rate k with no cancer cells and 0 with p of them. */
  lemma ProbabilityEndpoints(k: real, n: int, p: real)
    requires p != 0.0
    ensures n == 0 ==> MitosisProbability(k, n, p) == k
    ensures n as real == p ==> MitosisProbability(k, n, p) == 0.0
  {
  }

  /** With p = 1000 this is the basic probability of code/functions/ca_model.py. */
  lemma SameFormulaAsBasic(k: real, n: int)
    ensures MitosisProbability(k, n, CaStatistics.PHI) == CaStatistics.BasicMitosisProbability(k, n)
  {
  }

  /** With 0 <= n <= p and k >= 0 the probability lies in [0, k], and it falls as n grows. */
  lemma ProbabilityBounds(k: real, n1: int, n2: int, p: real)
    requires 0.0 <= k && 0 <= n1 <= n2 && n2 as real <= p && p > 0.0
    ensures 0.0 <= MitosisProbability(k, n2, p) <= MitosisProbability(k, n1, p) <= k
  {
    var f1 := 1.0 - n1 as real / p;
    var f2 := 1.0 - n2 as real / p;
    assert 0.0 <= n1 as real / p <= n2 as real / p <= 1.0;
    CaStatistics.MulNonNegative(k, f2);
    CaStatistics.MulNonNegative(k, f1 - f2);
    CaStatistics.MulNonNegative(k, 1.0 - f1);
    assert k * f1 - k * f2 == k * (f1 - f2);
    assert k - k * f1 == k * (1.0 - f1);
  }

  /** The thresholds of a generation: p from the current count of 'C', then K2, K3, K4. */
  function GenerationRates(M: Grid): Rates
    requires Rect(M)
  {
    Rates(MitosisProbability(K1, Count(M, Cancerous), PHI), K2, K3, K4)
  }

  /**
   * The positions the generation visits: range(1, ROWS) x range(1, COLS),
   * written with the dimensions of the ROWS x COLS grid M.
   */
  function GenerationPositions(M: Grid): seq<Pos> {
    Interior(|M|, Width(M))
  }

  lemma GenerationInGrid(M: Grid)
    requires IsGrid(M, CaStatistics.ROWS, CaStatistics.COLS)
    ensures Rect(M) && AllInGrid(M, GenerationPositions(M))
  {
    assert Width(M) == CaStatistics.COLS;
    InteriorInGrid(M, |M|, Width(M));
  }

  /**
   * The scan of one generation with a given dense flag and directional
   * division; None is the IndexError of a division that reads row or
   * column ROWS.
   */
  function GenerationWith(M: Grid, dense: bool, u: nat -> real, k: nat): (r: Option<ScanState>)
    requires IsGrid(M, CaStatistics.ROWS, CaStatistics.COLS)
    ensures r.Some? ==> IsGrid(r.value.grid, CaStatistics.ROWS, CaStatistics.COLS)
  {
    GenerationInGrid(M);
    Scan(M, M, GenerationPositions(M), u, k, GenerationRates(M), dense, Directional)
  }

  /**
   * simulate_tumor_growth_one_generation as a function: the scan with the
   * grid's own dense flag.
   */
  function Generation(M: Grid, root: real -> real, u: nat -> real, k: nat): (r: Option<ScanState>)
    requires IsGrid(M, CaStatistics.ROWS, CaStatistics.COLS)
    ensures r.Some? ==> IsGrid(r.value.grid, CaStatistics.ROWS, CaStatistics.COLS)
  {
    GenerationWith(M, CaStatistics.IsDense(M, root), u, k)
  }

  /** A generation is the scan of the visited positions with the grid's own rates and dense flag. */
  lemma GenerationIsScan(M: Grid, root: real -> real, u: nat -> real, k: nat)
    requires IsGrid(M, CaStatistics.ROWS, CaStatistics.COLS)
    ensures AllInGrid(M, GenerationPositions(M))
    ensures Generation(M, root, u, k) ==
            Scan(M, M, GenerationPositions(M), u, k, GenerationRates(M), CaStatistics.IsDense(M, root), Directional)
  {
    GenerationInGrid(M);
  }

  /**
   * In the not-dense phase both candidates of every visited cell lie in the
   * grid once it extends past ORIGIN by two rows and two columns.
   */
  lemma NotDenseCandidatesInRange(M: Grid)
    requires Rect(M) && CaStatistics.ORIGIN.0 + 2 <= |M| && CaStatistics.ORIGIN.1 + 2 <= Width(M)
    ensures SafeDivisions(M, Interior(|M|, Width(M)), false)
  {
    var ps := Interior(|M|, Width(M));
    InteriorSpec(|M|, Width(M));
    forall t | 0 <= t < |ps|
      ensures InGrid(M, ps[t])
      ensures Locate(M, Choices(ps[t].0, ps[t].1, false)[0]).Some?
      ensures Locate(M, Choices(ps[t].0, ps[t].1, false)[1]).Some?
    {
      assert ps[t] in ps;
    }
  }

  /** In the not-dense phase a generation never raises IndexError. */
  lemma NotDenseNeverFails(M: Grid, root: real -> real, u: nat -> real, k: nat)
    requires IsGrid(M, CaStatistics.ROWS, CaStatistics.COLS) && !CaStatistics.IsDense(M, root)
    ensures Generation(M, root, u, k).Some?
  {
    assert Width(M) == CaStatistics.COLS;
    NotDenseCandidatesInRange(M);
    GenerationIsScan(M, root, u, k);
    ScanSafeSucceeds(M, M, GenerationPositions(M), u, k, GenerationRates(M), false, Directional);
  }

  /**
   * A scan that meets no 'C' cell never raises IndexError and draws at most
   * once per position.
   */
  lemma {:induction false} ScanWithoutCancer(M: Grid, G: Grid, ps: seq<Pos>, u: nat -> real, k: nat,
                                             rates: Rates, dense: bool)
    requires SameShape(M, G) && AllInGrid(M, ps)
    requires forall t :: 0 <= t < |ps| ==> M[ps[t].0][ps[t].1] != Cancerous
    ensures Scan(M, G, ps, u, k, rates, dense, Directional).Some?
    ensures k <= Scan(M, G, ps, u, k, rates, dense, Directional).value.next <= k + |ps|
    decreases |ps|
  {
    if ps != [] {
      var s1 := CellRule(M, G, ps[0], u, k, rates, dense, Directional).value;
      assert forall t :: 0 <= t < |ps| - 1 ==> ps[1..][t] == ps[t + 1];
      ScanWithoutCancer(M, s1.grid, ps[1..], u, s1.next, rates, dense);
    }
  }

  /**
   * A 'C' corner past ORIGIN (quadrant IV) whose division draw succeeds in
   * the dense phase tries the cell to its right first, which is out of range,
   * whatever the next grid holds.
   */
  lemma CornerCellFails(M: Grid, G: Grid, u: nat -> real, k: nat, rates: Rates)
    requires SameShape(M, G) && CaStatistics.ORIGIN.0 + 2 <= |M| && CaStatistics.ORIGIN.1 + 2 <= Width(M)
    requires M[|M| - 1][Width(M) - 1] == Cancerous && u(k) < rates.p
    ensures Scan(M, G, [(|M| - 1, Width(M) - 1)], u, k, rates, true, Directional).None?
  {
    var last := (|M| - 1, Width(M) - 1);
    DividedCases(G, last.0, last.1, true);
    assert Divided(G, last.0, last.1, true).None?;
    assert CellRule(M, G, last, u, k, rates, true, Directional).None?;
  }

  /** The visited positions end at the corner, which occurs only there. */
  lemma InteriorEndsAtCorner(M: Grid)
    requires Rect(M) && 1 < |M| && 1 < Width(M)
    ensures var ps := Interior(|M|, Width(M));
            && AllInGrid(M, ps) && |ps| > 0 && ps[|ps| - 1] == (|M| - 1, Width(M) - 1)
            && AllInGrid(M, ps[..|ps| - 1]) && ps == ps[..|ps| - 1] + [ps[|ps| - 1]]
            && forall t :: 0 <= t < |ps| - 1 ==> ps[t] != ps[|ps| - 1]
  {
    var ps := Interior(|M|, Width(M));
    InteriorInGrid(M, |M|, Width(M));
    InteriorLast(|M|, Width(M));
    InteriorSpec(|M|, Width(M));
    var a := ps[..|ps| - 1];
    assert ps == a + [ps[|ps| - 1]];
    assert AllInGrid(M, a) by {
      forall t | 0 <= t < |a| ensures InGrid(M, a[t]) { assert a[t] == ps[t]; }
    }
  }

  /**
   * The dense scan of a grid whose only 'C' cell is the last visited one
   * fails once the draws it reaches are below p: every earlier cell is 'N',
   * 'E' or 'D', which never divides.
   */
  lemma CornerScanFails(M: Grid, u: nat -> real, k: nat, rates: Rates)
    requires Rect(M) && CaStatistics.ORIGIN.0 + 2 <= |M| && CaStatistics.ORIGIN.1 + 2 <= Width(M)
    requires M[|M| - 1][Width(M) - 1] == Cancerous
    requires forall i, j :: 0 <= i < |M| && 0 <= j < Width(M) && M[i][j] == Cancerous ==>
               (i, j) == (|M| - 1, Width(M) - 1)
    requires forall j :: k <= j <= k + |Interior(|M|, Width(M))| ==> u(j) < rates.p
    ensures AllInGrid(M, Interior(|M|, Width(M)))
    ensures Scan(M, M, Interior(|M|, Width(M)), u, k, rates, true, Directional).None?
  {
    InteriorEndsAtCorner(M);
    var ps := Interior(|M|, Width(M));
    var last := ps[|ps| - 1];
    var a := ps[..|ps| - 1];
    forall t | 0 <= t < |a| ensures M[a[t].0][a[t].1] != Cancerous {
      assert a[t] == ps[t];
    }
    ScanWithoutCancer(M, M, a, u, k, rates, true);
    var s1 := Scan(M, M, a, u, k, rates, true, Directional).value;
    assert u(s1.next) < rates.p;
    ScanConcat(M, M, a, [last], u, k, rates, true, Directional);
    CornerCellFails(M, s1.grid, u, s1.next, rates);
  }

  /**
   * The IndexError as written: in the dense phase, a ROWS x COLS grid whose
   * only 'C' cell is the last visited one, (ROWS - 1, COLS - 1), makes the
   * generation fail once the draws from k on are below p. Every other cell
   * may be 'N', 'E' or 'D'.
   */
  lemma CornerDivisionFails(M: Grid, u: nat -> real, k: nat)
    requires IsGrid(M, CaStatistics.ROWS, CaStatistics.COLS)
    requires M[|M| - 1][Width(M) - 1] == Cancerous
    requires forall i, j :: 0 <= i < |M| && 0 <= j < Width(M) && M[i][j] == Cancerous ==>
               (i, j) == (|M| - 1, Width(M) - 1)
    requires forall j :: k <= j ==> u(j) < GenerationRates(M).p
    ensures GenerationWith(M, true, u, k).None?
  {
    var rates := GenerationRates(M);
    CornerGridFails(M, u, k, rates);
    GenerationWithIsScan(M, true, u, k);
  }

  /** The same failure for any thresholds whose p exceeds the draws. */
  lemma CornerGridFails(M: Grid, u: nat -> real, k: nat, rates: Rates)
    requires IsGrid(M, CaStatistics.ROWS, CaStatistics.COLS)
    requires M[|M| - 1][Width(M) - 1] == Cancerous
    requires forall i, j :: 0 <= i < |M| && 0 <= j < Width(M) && M[i][j] == Cancerous ==>
               (i, j) == (|M| - 1, Width(M) - 1)
    requires forall j :: k <= j ==> u(j) < rates.p
    ensures AllInGrid(M, Interior(|M|, Width(M)))
    ensures Scan(M, M, Interior(|M|, Width(M)), u, k, rates, true, Directional).None?
  {
    assert Width(M) == CaStatistics.COLS && Rect(M);
    CornerScanFails(M, u, k, rates);
  }

  /** A generation with a given dense flag is the scan of the visited positions. */
  lemma GenerationWithIsScan(M: Grid, dense: bool, u: nat -> real, k: nat)
    requires IsGrid(M, CaStatistics.ROWS, CaStatistics.COLS)
    ensures AllInGrid(M, Interior(|M|, Width(M)))
    ensures GenerationWith(M, dense, u, k) ==
            Scan(M, M, Interior(|M|, Width(M)), u, k, GenerationRates(M), dense, Directional)
  {
    GenerationInGrid(M);
  }

  /**
   * The evidently intended generation: the scan over range(1, ROWS - 1) x
   * range(1, COLS - 1), as code/functions/ca_model.py has it.
   */
  function CorrectedGeneration(M: Grid, root: real -> real, u: nat -> real, k: nat): Option<ScanState>
    requires IsGrid(M, CaStatistics.ROWS, CaStatistics.COLS)
  {
    assert Width(M) == CaStatistics.COLS;
    InteriorInGrid(M, |M| - 1, Width(M) - 1);
    Scan(M, M, Interior(|M| - 1, Width(M) - 1), u, k, GenerationRates(M), CaStatistics.IsDense(M, root), Directional)
  }

  /** The corrected generation never raises IndexError, dense or not. */
  lemma CorrectedNeverFails(M: Grid, root: real -> real, u: nat -> real, k: nat)
    requires IsGrid(M, CaStatistics.ROWS, CaStatistics.COLS)
    ensures CorrectedGeneration(M, root, u, k).Some?
  {
    assert Width(M) == CaStatistics.COLS;
    var ps := Interior(|M| - 1, Width(M) - 1);
    InteriorSpec(|M| - 1, Width(M) - 1);
    assert forall t :: 0 <= t < |ps| ==> ps[t] in ps;
    ScanInnerSucceeds(M, M, ps, u, k, GenerationRates(M), CaStatistics.IsDense(M, root), Directional);
  }

  /**
   * simulate_tumor_growth_one_generation: copy M, take the dense flag, and
   * scan into the copy; ok = false is the IndexError.
   */
  method SimulateTumorGrowthOneGeneration(M: array2<Cell>, root: real -> real, u: nat -> real, k: nat)
    returns (newM: array2<Cell>, next: nat, ok: bool)
    requires M.Length0 == CaStatistics.ROWS && M.Length1 == CaStatistics.COLS
    ensures fresh(newM) && newM.Length0 == M.Length0 && newM.Length1 == M.Length1
    ensures var r := Generation(Cells(M), root, u, k);
            ok == r.Some? && (ok ==> Cells(newM) == r.value.grid && next == r.value.next)
  {
    ghost var Mv := Cells(M);
    newM := CopyGrid(M);
    var rho := CaStatistics.DensityDevelopment(M, CaStatistics.ORIGIN, root);
    var dense := rho > CaStatistics.RHO;
    assert dense == CaStatistics.IsDense(Mv, root);
    var rates := Rates(MitosisProbability(K1, Count(Cells(M), Cancerous), PHI), K2, K3, K4);
    assert rates == GenerationRates(Mv);
    next, ok := GenerationInto(M, newM, rates, dense, u, k);
    GenerationIsScan(Cells(M), root, u, k);
  }

  /** The scan of a generation on the array newM, a copy of M. */
  method GenerationInto(M: array2<Cell>, newM: array2<Cell>, rates: Rates, dense: bool, u: nat -> real, k: nat)
    returns (next: nat, ok: bool)
    requires M != newM && newM.Length0 == M.Length0 && newM.Length1 == M.Length1 && Cells(newM) == Cells(M)
    modifies newM
    ensures AllInGrid(Cells(M), GenerationPositions(Cells(M)))
    ensures var s := Scan(Cells(M), Cells(M), GenerationPositions(Cells(M)), u, k, rates, dense, Directional);
            ok == s.Some? && (ok ==> Cells(newM) == s.value.grid && next == s.value.next)
  {
    if 0 < M.Length0 {
      assert Width(Cells(M)) == M.Length1;
    }
    next, ok := ScanInterior(M, newM, M.Length0, M.Length1, u, k, rates, dense, Directional);
  }
}
