/**
 * The mean-field variant of the engine (code/functions/mean_field.py): the
 * mean-field interaction of a cell state, and a step whose mitosis never
 * places a daughter in a neighbour. A dividing 'C' cell stays 'C'; a cell
 * whose division draw fails turns 'E' on a second draw below K2. The step
 * reuses the grid, the history, the scan and the drivers' conventions of
 * code/functions/ca_model.py.
 */
module MeanField {
  import opened Grids
  import CaStatistics
  import opened CaHistory
  import opened CaScan
  import CaModel

  const K1: real := 0.74
  const K2: real := 0.2
  const K3: real := 0.4
  const K4: real := 0.4

  /** mean_field_interaction: the share of `t` among the C, E and D cells; 0.0 when there are none. */
  function MeanFieldInteraction(M: Grid, t: Cell): real {
    if NPrime(M) == 0 then 0.0 else Count(M, t) as real / NPrime(M) as real
  }

  /**
   * For t one of 'C', 'E', 'D' the interaction is a fraction in [0, 1], and
   * 0.0 exactly when no cell is in state t.
   */
  lemma MeanFieldBounds(M: Grid, t: Cell)
    requires t != Normal
    ensures NPrime(M) == 0 ==> MeanFieldInteraction(M, t) == 0.0
    ensures 0.0 <= MeanFieldInteraction(M, t) <= 1.0
    ensures MeanFieldInteraction(M, t) == 0.0 <==> Count(M, t) == 0
  {
    if NPrime(M) == 0 {
      assert Count(M, t) == 0;
    } else {
      FractionInUnit(Count(M, t) as real, NPrime(M) as real);
    }
  }

  lemma FractionInUnit(x: real, n: real)
    requires 0.0 <= x <= n && 0.0 < n
    ensures 0.0 <= x / n <= 1.0 && (x / n == 0.0 <==> x == 0.0)
  {
    assert x / n * n == x;
  }

  /** When some cell is C, E or D, the three interactions add up to one. */
  lemma MeanFieldSum(M: Grid)
    requires NPrime(M) != 0
    ensures MeanFieldInteraction(M, Cancerous) + MeanFieldInteraction(M, Edge) + MeanFieldInteraction(M, Dead) == 1.0
  {
    var n := NPrime(M) as real;
    var a, b, c := Count(M, Cancerous) as real, Count(M, Edge) as real, Count(M, Dead) as real;
    assert a / n + b / n + c / n == (a + b + c) / n;
    assert a + b + c == n;
  }

  /**
   * The thresholds of the step: the probability of ca_model's
   * mitosis_probability(K1, count('C'), 1, 1, {}), then K2, K3 and K4.
   */
  function FieldRates(M: Grid): Rates
    requires Rect(M)
  {
    Rates(MitosisProbability(K1, Count(M, Cancerous), 1, 1, map[]), K2, K3, K4)
  }

  /**
   * The empty history makes the probability the undelayed K1 * (1 - n / PHI),
   * which falls as the count of 'C' grows.
   */
  lemma FieldProbability(M: Grid, M': Grid)
    requires Rect(M) && Rect(M') && Count(M, Cancerous) <= Count(M', Cancerous)
    ensures FieldRates(M).p == CaStatistics.BasicMitosisProbability(K1, Count(M, Cancerous))
    ensures FieldRates(M').p <= FieldRates(M).p
  {
    EmptyHistoryProbability(K1, Count(M, Cancerous), 1, 1);
    EmptyHistoryProbability(K1, Count(M', Cancerous), 1, 1);
    CaStatistics.ProbabilityAntitone(K1, Count(M, Cancerous), Count(M', Cancerous));
  }

  /**
   * The variant mitosis on the cell at `pos`: only that cell of the next
   * grid is written; it becomes 'C' on a division draw below p, otherwise
   * 'E' on a second draw below k2, otherwise it keeps its value; one draw
   * is used on success and two otherwise.
   */
  lemma InPlaceMitosis(M: Grid, G: Grid, pos: Pos, u: nat -> real, k: nat, rates: Rates, dense: bool)
    requires SameShape(M, G) && InGrid(M, pos) && M[pos.0][pos.1] == Cancerous
    ensures CellRule(M, G, pos, u, k, rates, dense, InPlace).Some?
    ensures var s := CellRule(M, G, pos, u, k, rates, dense, InPlace).value;
            && (forall i, j :: 0 <= i < |G| && 0 <= j < Width(G) && (i, j) != pos ==> s.grid[i][j] == G[i][j])
            && s.grid[pos.0][pos.1] == (if u(k) < rates.p then Cancerous
                                         else if u(k + 1) < rates.k2 then Edge
                                         else G[pos.0][pos.1])
            && s.next == k + (if u(k) < rates.p then 1 else 2)
  {
  }

  /** In-place division reads no neighbour, so the dense flag never changes a scan. */
  lemma {:induction false} ScanIgnoresDense(M: Grid, G: Grid, ps: seq<Pos>, u: nat -> real, k: nat,
                                            rates: Rates, d1: bool, d2: bool)
    requires SameShape(M, G) && AllInGrid(M, ps)
    ensures Scan(M, G, ps, u, k, rates, d1, InPlace) == Scan(M, G, ps, u, k, rates, d2, InPlace)
    decreases |ps|
  {
    if ps != [] {
      var s := CellRule(M, G, ps[0], u, k, rates, d1, InPlace);
      assert s == CellRule(M, G, ps[0], u, k, rates, d2, InPlace);
      if s.Some? {
        ScanIgnoresDense(M, s.value.grid, ps[1..], u, s.value.next, rates, d1, d2);
      }
    }
  }

  /**
   * simulate_tumor_growth_one_step of the mean-field variant as a function:
   * store the record of M under key g and scan range(1, ROWS - 1) x
   * range(1, COLS - 1) with in-place division. time_delay is not read.
   */
  function FieldStep(M: Grid, g: int, hist: map<int, Record>, root: real -> real, u: nat -> real, k: nat)
    : (s: CaModel.StepResult)
    requires IsGrid(M, CaStatistics.ROWS, CaStatistics.COLS)
    ensures IsGrid(s.grid, CaStatistics.ROWS, CaStatistics.COLS)
  {
    CaModel.StepPositionsInner(M);
    var ps := CaModel.StepPositions(M);
    var dense := CaStatistics.IsDense(M, root);
    ScanInnerSucceeds(M, M, ps, u, k, FieldRates(M), dense, InPlace);
    var s := Scan(M, M, ps, u, k, FieldRates(M), dense, InPlace).value;
    CaModel.StepResult(s.grid, hist[g := RecordOf(M, root)], s.next)
  }

  /** The step as one scan; its dense flag may be replaced by any other. */
  lemma FieldStepIsScan(M: Grid, g: int, hist: map<int, Record>, root: real -> real, u: nat -> real, k: nat,
                        dense: bool)
    requires IsGrid(M, CaStatistics.ROWS, CaStatistics.COLS)
    ensures AllInGrid(M, CaModel.StepPositions(M))
    ensures Scan(M, M, CaModel.StepPositions(M), u, k, FieldRates(M), dense, InPlace).Some?
    ensures var s := Scan(M, M, CaModel.StepPositions(M), u, k, FieldRates(M), dense, InPlace).value;
            FieldStep(M, g, hist, root, u, k) == CaModel.StepResult(s.grid, hist[g := RecordOf(M, root)], s.next)
  {
    CaModel.StepPositionsInner(M);
    var ps := CaModel.StepPositions(M);
    ScanInnerSucceeds(M, M, ps, u, k, FieldRates(M), dense, InPlace);
    ScanIgnoresDense(M, M, ps, u, k, FieldRates(M), dense, CaStatistics.IsDense(M, root));
  }

  /**
   * The dense flag is computed but ignored: the next grid and the draws
   * do not depend on the distance function.
   */
  lemma FieldStepIgnoresDense(M: Grid, g: int, hist: map<int, Record>, root1: real -> real, root2: real -> real,
                              u: nat -> real, k: nat)
    requires IsGrid(M, CaStatistics.ROWS, CaStatistics.COLS)
    ensures FieldStep(M, g, hist, root1, u, k).grid == FieldStep(M, g, hist, root2, u, k).grid
    ensures FieldStep(M, g, hist, root1, u, k).next == FieldStep(M, g, hist, root2, u, k).next
  {
    FieldStepIsScan(M, g, hist, root1, u, k, false);
    FieldStepIsScan(M, g, hist, root2, u, k, false);
  }

  /** No cell becomes 'C': every 'C' cell after the step was 'C' before it. */
  lemma FieldStepNoNewCancer(M: Grid, g: int, hist: map<int, Record>, root: real -> real, u: nat -> real, k: nat)
    requires IsGrid(M, CaStatistics.ROWS, CaStatistics.COLS)
    ensures var h := FieldStep(M, g, hist, root, u, k).grid;
            forall i, j :: 0 <= i < CaStatistics.ROWS && 0 <= j < CaStatistics.COLS && h[i][j] == Cancerous ==>
              M[i][j] == Cancerous
    ensures Count(FieldStep(M, g, hist, root, u, k).grid, Cancerous) <= Count(M, Cancerous)
  {
    var dense := CaStatistics.IsDense(M, root);
    FieldStepIsScan(M, g, hist, root, u, k, dense);
    var ps := CaModel.StepPositions(M);
    InPlaceNoNewCancer(M, M, ps, u, k, FieldRates(M), dense);
    var h := FieldStep(M, g, hist, root, u, k).grid;
    assert Width(M) == CaStatistics.COLS;
    CountMonotone(M, h, Cancerous);
  }

  /** The border rows and columns are never written. */
  lemma FieldStepBorder(M: Grid, g: int, hist: map<int, Record>, root: real -> real, u: nat -> real, k: nat,
                        i: int, j: int)
    requires IsGrid(M, CaStatistics.ROWS, CaStatistics.COLS)
    requires 0 <= i < CaStatistics.ROWS && 0 <= j < CaStatistics.COLS
    requires i == 0 || i == CaStatistics.ROWS - 1 || j == 0 || j == CaStatistics.COLS - 1
    ensures FieldStep(M, g, hist, root, u, k).grid[i][j] == M[i][j]
  {
    var dense := CaStatistics.IsDense(M, root);
    FieldStepIsScan(M, g, hist, root, u, k, dense);
    CaModel.StepPositionsInner(M);
    var ps := CaModel.StepPositions(M);
    ScanFrame(M, M, ps, u, k, FieldRates(M), dense, InPlace, i, j);
    InPlaceNoNewCancer(M, M, ps, u, k, FieldRates(M), dense);
  }

  /**
   * The fate of the t-th visited cell, whose draws start at index kt: 'C'
   * ends 'E' exactly when the division draw fails and the second draw is
   * below K2, else stays 'C'; 'E' ends 'D' exactly on a draw below K3; 'D'
   * ends 'N' exactly on a draw below K4; 'N' stays 'N'.
   */
  lemma FieldStepTransition(M: Grid, g: int, hist: map<int, Record>, root: real -> real, u: nat -> real, k: nat,
                            t: nat)
    requires IsGrid(M, CaStatistics.ROWS, CaStatistics.COLS) && t < |CaModel.StepPositions(M)|
    ensures 1 <= CaModel.StepPositions(M)[t].0 < CaStatistics.ROWS - 1
    ensures 1 <= CaModel.StepPositions(M)[t].1 < CaStatistics.COLS - 1
    ensures AllInGrid(M, CaModel.StepPositions(M)[..t])
    ensures var ps := CaModel.StepPositions(M);
            var p := FieldRates(M).p;
            var kt := ScanDraws(M, ps[..t], u, k, p);
            var w := FieldStep(M, g, hist, root, u, k).grid[ps[t].0][ps[t].1];
            match M[ps[t].0][ps[t].1]
            case Cancerous => (w == Cancerous || w == Edge) && (w == Edge <==> u(kt) >= p && u(kt + 1) < K2)
            case Edge => (w == Edge || w == Dead) && (w == Dead <==> u(kt) < K3)
            case Dead => (w == Dead || w == Normal) && (w == Normal <==> u(kt) < K4)
            case Normal => w == Normal
  {
    var dense := CaStatistics.IsDense(M, root);
    FieldStepIsScan(M, g, hist, root, u, k, dense);
    CaModel.StepPositionsInner(M);
    var ps := CaModel.StepPositions(M);
    assert ps[t] in ps;
    InteriorSpec(|M| - 1, Width(M) - 1);
    ScanTransition(M, M, ps, t, u, k, FieldRates(M), dense, InPlace);
    InPlaceNoNewCancer(M, M, ps, u, k, FieldRates(M), dense);
  }

  /**
   * simulate_tumor_growth_one_step (mean field): copies M, stores the record
   * of M in the history and scans into the copy. M itself is never written.
   */
  method SimulateTumorGrowthOneStep(M: array2<Cell>, generation: int, timeDelay: int, history: HistoryStore,
                                    root: real -> real, u: nat -> real, k: nat)
    returns (newM: array2<Cell>, next: nat)
    requires M.Length0 == CaStatistics.ROWS && M.Length1 == CaStatistics.COLS
    modifies history
    ensures fresh(newM) && newM.Length0 == CaStatistics.ROWS && newM.Length1 == CaStatistics.COLS
    ensures Cells(M) == old(Cells(M))
    ensures var s := FieldStep(Cells(M), generation, old(history.records), root, u, k);
            Cells(newM) == s.grid && history.records == s.hist && next == s.next
  {
    ghost var Mv := Cells(M);
    ghost var hist := history.records;
    newM := CopyGrid(M);
    history.Store(generation, M, root);
    var rho := CaStatistics.DensityDevelopment(M, CaStatistics.ORIGIN, root);
    var dense := rho > CaStatistics.RHO;
    var rates := Rates(MitosisProbability(K1, Count(Cells(M), Cancerous), 1, 1, map[]), K2, K3, K4);
    assert rates == FieldRates(Mv);
    next := FieldStepInto(M, newM, rates, dense, u, k);
    FieldStepIsScan(Mv, generation, hist, root, u, k, dense);
  }

  /** The in-place scan of a step on the array newM, a copy of M. */
  method FieldStepInto(M: array2<Cell>, newM: array2<Cell>, rates: Rates, dense: bool, u: nat -> real, k: nat)
    returns (next: nat)
    requires M.Length0 == CaStatistics.ROWS && M.Length1 == CaStatistics.COLS && M != newM
    requires newM.Length0 == M.Length0 && newM.Length1 == M.Length1 && Cells(newM) == Cells(M)
    modifies newM
    ensures AllInGrid(Cells(M), CaModel.StepPositions(Cells(M)))
    ensures Scan(Cells(M), Cells(M), CaModel.StepPositions(Cells(M)), u, k, rates, dense, InPlace).Some?
    ensures var s := Scan(Cells(M), Cells(M), CaModel.StepPositions(Cells(M)), u, k, rates, dense, InPlace).value;
            Cells(newM) == s.grid && next == s.next
  {
    CaModel.StepPositionsInner(Cells(M));
    ScanInnerSucceeds(Cells(M), Cells(newM), CaModel.StepPositions(Cells(M)), u, k, rates, dense, InPlace);
    var ok;
    next, ok := ScanInterior(M, newM, M.Length0 - 1, M.Length1 - 1, u, k, rates, dense, InPlace);
  }

  /** The grid, the history and the next draw after n mean-field generations from M0. */
  function FieldRun(n: nat, M0: Grid, root: real -> real, u: nat -> real): (s: CaModel.RunState)
    requires IsGrid(M0, CaStatistics.ROWS, CaStatistics.COLS)
    ensures IsGrid(s.grid, CaStatistics.ROWS, CaStatistics.COLS)
  {
    if n == 0 then CaModel.RunState(M0, map[], 0)
    else
      var s := FieldRun(n - 1, M0, root, u);
      var t := FieldStep(s.grid, n - 1, s.hist, root, u, s.next);
      CaModel.RunState(t.grid, t.hist, t.next)
  }

  /** One more mean-field generation stores exactly the record of the grid it started from. */
  lemma FieldRunStores(n: nat, M0: Grid, root: real -> real, u: nat -> real)
    requires IsGrid(M0, CaStatistics.ROWS, CaStatistics.COLS)
    ensures var s := FieldRun(n, M0, root, u);
            FieldRun(n + 1, M0, root, u).hist == s.hist[n := RecordOf(s.grid, root)]
  {
  }

  /** After n generations the history has exactly the keys 0 .. n-1. */
  lemma {:induction false} FieldRunHistoryKeys(n: nat, M0: Grid, root: real -> real, u: nat -> real)
    requires IsGrid(M0, CaStatistics.ROWS, CaStatistics.COLS)
    ensures forall g :: g in FieldRun(n, M0, root, u).hist <==> 0 <= g < n
  {
    if n > 0 {
      var m := n - 1;
      FieldRunHistoryKeys(m, M0, root, u);
      FieldRunStores(m, M0, root, u);
      var s := FieldRun(m, M0, root, u);
      CaModel.KeysExtend(s.hist, FieldRun(m + 1, M0, root, u).hist, m, RecordOf(s.grid, root));
    }
  }

  /** Over a whole run the count of 'C' never grows. */
  lemma {:induction false} FieldRunCancerNeverGrows(n: nat, M0: Grid, root: real -> real, u: nat -> real)
    requires IsGrid(M0, CaStatistics.ROWS, CaStatistics.COLS)
    ensures Count(FieldRun(n, M0, root, u).grid, Cancerous) <= Count(M0, Cancerous)
  {
    if n > 0 {
      FieldRunCancerNeverGrows(n - 1, M0, root, u);
      var s := FieldRun(n - 1, M0, root, u);
      FieldStepNoNewCancer(s.grid, n - 1, s.hist, root, u, s.next);
    }
  }

  /**
   * simulate_tumor_growth (mean field): `for g in range(generations)` steps
   * the initial grid, storing into a fresh history; the history ends with
   * exactly the keys 0 .. generations-1.
   */
  method SimulateTumorGrowth(timeDelay: int, generations: int, root: real -> real, u: nat -> real)
    returns (history: HistoryStore)
    ensures fresh(history)
    ensures history.records == FieldRun(CaModel.Generations(generations), CaModel.InitialState(), root, u).hist
    ensures forall g :: g in history.records <==> 0 <= g < generations
  {
    history := new HistoryStore();
    var M0 := CaModel.InitialArray();
    FieldRunGenerations(M0, history, timeDelay, generations, root, u);
    FieldRunHistoryKeys(CaModel.Generations(generations), CaModel.InitialState(), root, u);
  }

  /** The loop of the driver: `for g in range(generations)` steps the grid from M0, storing into history. */
  method FieldRunGenerations(M0: array2<Cell>, history: HistoryStore, timeDelay: int, generations: int,
                             root: real -> real, u: nat -> real)
    requires M0.Length0 == CaStatistics.ROWS && M0.Length1 == CaStatistics.COLS && history.records == map[]
    modifies history
    ensures history.records == FieldRun(CaModel.Generations(generations), Cells(M0), root, u).hist
  {
    ghost var G0 := Cells(M0);
    var M := M0;
    var k := 0;
    var g := 0;
    while g < generations
      invariant 0 <= g <= CaModel.Generations(generations)
      invariant M.Length0 == CaStatistics.ROWS && M.Length1 == CaStatistics.COLS
      invariant FieldReached(g, G0, root, u, history.records, Cells(M), k)
      decreases generations - g
    {
      M, k := FieldNextGeneration(G0, M, g, timeDelay, history, root, u, k);
      g := g + 1;
    }
    assert g == CaModel.Generations(generations);
  }

  /** After g mean-field generations from G0: the history, the grid and the next draw. */
  ghost predicate FieldReached(g: nat, G0: Grid, root: real -> real, u: nat -> real,
                               records: map<int, Record>, grid: Grid, k: nat)
    requires IsGrid(G0, CaStatistics.ROWS, CaStatistics.COLS)
  {
    var s := FieldRun(g, G0, root, u);
    records == s.hist && grid == s.grid && k == s.next
  }

  /** One pass of the driver's loop: step generation g. */
  method FieldNextGeneration(ghost G0: Grid, M: array2<Cell>, g: nat, timeDelay: int, history: HistoryStore,
                             root: real -> real, u: nat -> real, k: nat)
    returns (M': array2<Cell>, k': nat)
    requires IsGrid(G0, CaStatistics.ROWS, CaStatistics.COLS)
    requires M.Length0 == CaStatistics.ROWS && M.Length1 == CaStatistics.COLS
    requires FieldReached(g, G0, root, u, history.records, Cells(M), k)
    modifies history
    ensures M'.Length0 == CaStatistics.ROWS && M'.Length1 == CaStatistics.COLS
    ensures FieldReached(g + 1, G0, root, u, history.records, Cells(M'), k')
  {
    M', k' := SimulateTumorGrowthOneStep(M, g, timeDelay, history, root, u, k);
  }
}
