/**
 * The engine of code/functions/ca_model.py (and of its copy code/ca_model.py):
 * one generation step with the history and its delayed look-ups, the
 * metastasis step, and the generation drivers.
 */
module CaModel {
  import opened Grids
  import opened CaStatistics
  import opened CaHistory
  import opened CaMitosis
  import opened CaScan

  /**
   * The positions the step visits: range(1, ROWS - 1) x range(1, COLS - 1),
   * written with the dimensions of the ROWS x COLS grid M.
   */
  function StepPositions(M: Grid): seq<Pos> {
    Interior(|M| - 1, Width(M) - 1)
  }

  /** The step's positions are exactly the cells away from the border. */
  lemma StepPositionsInner(M: Grid)
    requires IsGrid(M, ROWS, COLS)
    ensures Rect(M) && Inner(M, StepPositions(M)) && AllInGrid(M, StepPositions(M))
    ensures Positive(StepPositions(M))
    ensures forall p :: p in StepPositions(M) <==> 1 <= p.0 < ROWS - 1 && 1 <= p.1 < COLS - 1
  {
    assert Width(M) == COLS;
    InteriorSpec(|M| - 1, Width(M) - 1);
    var ps := StepPositions(M);
    assert forall t :: 0 <= t < |ps| ==> ps[t] in ps;
  }

  /** The thresholds of a step: the (possibly delayed) probability, k2, K3 and K4. */
  function StepRates(M: Grid, g: int, tau: int, h: map<int, Record>, k1: real, k2: real): Rates
    requires Rect(M)
  {
    Rates(MitosisProbability(k1, Count(M, Cancerous), tau, g, h), k2, K3, K4)
  }

  /** The dense flag of a step: read from the history after storing the record of M. */
  function StepDense(M: Grid, g: int, tau: int, hist: map<int, Record>, root: real -> real): bool
    requires Rect(M)
  {
    DelayedDense(hist[g := RecordOf(M, root)], g, tau)
  }

  /** The scan of a step; it visits only inner cells, so it never raises IndexError. */
  function StepScan(M: Grid, g: int, tau: int, hist: map<int, Record>, k1: real, k2: real,
                    root: real -> real, u: nat -> real, k: nat): (s: ScanState)
    requires IsGrid(M, ROWS, COLS)
    ensures IsGrid(s.grid, ROWS, COLS)
  {
    StepPositionsInner(M);
    var rates := StepRates(M, g, tau, hist[g := RecordOf(M, root)], k1, k2);
    var dense := StepDense(M, g, tau, hist, root);
    ScanInnerSucceeds(M, M, StepPositions(M), u, k, rates, dense, Directional);
    Scan(M, M, StepPositions(M), u, k, rates, dense, Directional).value
  }

  datatype StepResult = StepResult(grid: Grid, hist: map<int, Record>, next: nat)

  /**
   * simulate_tumor_growth_one_step as a function: store the record of M
   * under key g, take the delayed dense flag and probability from the new
   * history, and scan the interior with directional division.
   */
  function Step(M: Grid, g: int, tau: int, hist: map<int, Record>, k1: real, k2: real,
                root: real -> real, u: nat -> real, k: nat): (s: StepResult)
    requires IsGrid(M, ROWS, COLS)
    ensures IsGrid(s.grid, ROWS, COLS)
  {
    var s := StepScan(M, g, tau, hist, k1, k2, root, u, k);
    StepResult(s.grid, hist[g := RecordOf(M, root)], s.next)
  }

  /** The draws a step consumes: one or two per 'C' cell, one per 'E' or 'D' cell, none per 'N' cell. */
  lemma StepDraws(M: Grid, g: int, tau: int, hist: map<int, Record>, k1: real, k2: real,
                  root: real -> real, u: nat -> real, k: nat)
    requires IsGrid(M, ROWS, COLS)
    ensures AllInGrid(M, StepPositions(M))
    ensures Step(M, g, tau, hist, k1, k2, root, u, k).next ==
            ScanDraws(M, StepPositions(M), u, k, StepRates(M, g, tau, hist[g := RecordOf(M, root)], k1, k2).p)
  {
    StepPositionsInner(M);
    var rates := StepRates(M, g, tau, hist[g := RecordOf(M, root)], k1, k2);
    ScanInnerSucceeds(M, M, StepPositions(M), u, k, rates, StepDense(M, g, tau, hist, root), Directional);
  }

  /**
   * The border rows and columns are never visited by the step: they change
   * only through a neighbour's division, so only into 'C' and never from
   * 'E' or 'D'.
   */
  lemma StepBorder(M: Grid, g: int, tau: int, hist: map<int, Record>, k1: real, k2: real,
                   root: real -> real, u: nat -> real, k: nat, i: int, j: int)
    requires IsGrid(M, ROWS, COLS)
    requires 0 <= i < ROWS && 0 <= j < COLS && (i == 0 || i == ROWS - 1 || j == 0 || j == COLS - 1)
    ensures Stable(M[i][j], Step(M, g, tau, hist, k1, k2, root, u, k).grid[i][j])
  {
    StepPositionsInner(M);
    var rates := StepRates(M, g, tau, hist[g := RecordOf(M, root)], k1, k2);
    var dense := StepDense(M, g, tau, hist, root);
    ScanInnerSucceeds(M, M, StepPositions(M), u, k, rates, dense, Directional);
    ScanFrame(M, M, StepPositions(M), u, k, rates, dense, Directional, i, j);
  }

  /**
   * The fate of the t-th visited cell (r, c), whose draws start at index kt:
   * C -> E exactly when the division draw fails and the second draw is below k2,
   * E -> D exactly on a draw below K3, D -> N (or a later daughter 'C') on a draw
   * below K4; otherwise the cell keeps its state, and N may only become 'C'.
   */
  lemma StepTransition(M: Grid, g: int, tau: int, hist: map<int, Record>, k1: real, k2: real,
                       root: real -> real, u: nat -> real, k: nat, t: nat)
    requires IsGrid(M, ROWS, COLS) && t < |StepPositions(M)|
    ensures 1 <= StepPositions(M)[t].0 < ROWS - 1 && 1 <= StepPositions(M)[t].1 < COLS - 1
    ensures AllInGrid(M, StepPositions(M)[..t])
    ensures var ps := StepPositions(M);
            var p := StepRates(M, g, tau, hist[g := RecordOf(M, root)], k1, k2).p;
            var kt := ScanDraws(M, ps[..t], u, k, p);
            var w := Step(M, g, tau, hist, k1, k2, root, u, k).grid[ps[t].0][ps[t].1];
            match M[ps[t].0][ps[t].1]
            case Cancerous => (w == Cancerous || w == Edge) && (w == Edge <==> u(kt) >= p && u(kt + 1) < k2)
            case Edge => (w == Edge || w == Dead) && (w == Dead <==> u(kt) < K3)
            case Dead => if u(kt) < K4 then w == Normal || w == Cancerous else w == Dead
            case Normal => w == Normal || w == Cancerous
  {
    StepPositionsInner(M);
    var ps := StepPositions(M);
    assert ps[t] in ps;
    InteriorSpec(|M| - 1, Width(M) - 1);
    var rates := StepRates(M, g, tau, hist[g := RecordOf(M, root)], k1, k2);
    var dense := StepDense(M, g, tau, hist, root);
    ScanInnerSucceeds(M, M, ps, u, k, rates, dense, Directional);
    ScanTransition(M, M, ps, t, u, k, rates, dense, Directional);
  }

  /**
   * simulate_tumor_growth_one_step: copies M into newM, stores the record of
   * M in the history, reads the dense flag for generation - time_delay from
   * the history, and runs the scan. M itself is never written.
   */
  method SimulateTumorGrowthOneStep(M: array2<Cell>, generation: int, timeDelay: int, history: HistoryStore,
                                    k1: real, k2: real, root: real -> real, u: nat -> real, k: nat)
    returns (newM: array2<Cell>, next: nat)
    requires M.Length0 == ROWS && M.Length1 == COLS
    modifies history
    ensures fresh(newM) && newM.Length0 == ROWS && newM.Length1 == COLS
    ensures Cells(M) == old(Cells(M))
    ensures var s := Step(Cells(M), generation, timeDelay, old(history.records), k1, k2, root, u, k);
            Cells(newM) == s.grid && history.records == s.hist && next == s.next
  {
    ghost var Mv := Cells(M);
    ghost var hist := history.records;
    newM := CopyGrid(M);
    history.Store(generation, M, root);
    var dense := history.records[generation].dense;
    var delayedGen := generation - timeDelay;
    if delayedGen in history.records {
      dense := history.records[delayedGen].dense;
    }
    assert dense == StepDense(Mv, generation, timeDelay, hist, root);
    var mitosisProb := MitosisProbability(k1, Count(Cells(M), Cancerous), timeDelay, generation, history.records);
    var rates := Rates(mitosisProb, k2, K3, K4);
    assert rates == StepRates(Mv, generation, timeDelay, history.records, k1, k2);
    next := StepInto(M, newM, rates, dense, u, k);
  }

  /** The scan of a step on the array newM, a copy of M. */
  method StepInto(M: array2<Cell>, newM: array2<Cell>, rates: Rates, dense: bool, u: nat -> real, k: nat)
    returns (next: nat)
    requires M.Length0 == ROWS && M.Length1 == COLS && M != newM
    requires newM.Length0 == ROWS && newM.Length1 == COLS && Cells(newM) == Cells(M)
    modifies newM
    ensures AllInGrid(Cells(M), StepPositions(Cells(M)))
    ensures Scan(Cells(M), Cells(M), StepPositions(Cells(M)), u, k, rates, dense, Directional).Some?
    ensures var s := Scan(Cells(M), Cells(M), StepPositions(Cells(M)), u, k, rates, dense, Directional).value;
            Cells(newM) == s.grid && next == s.next
  {
    StepPositionsInner(Cells(M));
    ScanInnerSucceeds(Cells(M), Cells(newM), StepPositions(Cells(M)), u, k, rates, dense, Directional);
    var ok;
    next, ok := ScanInterior(M, newM, M.Length0 - 1, M.Length1 - 1, u, k, rates, dense, Directional);
  }

  // ---------------------------------------------------------------------
  // The metastasis step (simulate_tumor_growth_one_step_metastasis)
  // ---------------------------------------------------------------------

  /**
   * The metastasis step as a function: no history, the current dense flag
   * and the basic probability; it scans range(1, rows - 1) x range(1, cols - 1)
   * for the rows and cols it is given.
   */
  function MetastasisStep(M: Grid, rows: nat, cols: nat, k1: real, k2: real,
                          root: real -> real, u: nat -> real, k: nat): (s: ScanState)
    requires Rect(M) && rows <= |M| && cols <= Width(M)
    ensures SameShape(M, s.grid)
  {
    InteriorSpec(rows - 1, cols - 1);
    var ps := Interior(rows - 1, cols - 1);
    assert forall t :: 0 <= t < |ps| ==> ps[t] in ps;
    var rates := Rates(BasicMitosisProbability(k1, Count(M, Cancerous)), k2, K3, K4);
    ScanInnerSucceeds(M, M, ps, u, k, rates, IsDense(M, root), Directional);
    Scan(M, M, ps, u, k, rates, IsDense(M, root), Directional).value
  }

  /**
   * Outside range(1, rows - 1) x range(1, cols - 1) the metastasis step
   * changes cells only through division.
   */
  lemma MetastasisStepFrame(M: Grid, rows: nat, cols: nat, k1: real, k2: real,
                            root: real -> real, u: nat -> real, k: nat, i: int, j: int)
    requires Rect(M) && rows <= |M| && cols <= Width(M)
    requires 0 <= i < |M| && 0 <= j < Width(M) && !(1 <= i < rows - 1 && 1 <= j < cols - 1)
    ensures Stable(M[i][j], MetastasisStep(M, rows, cols, k1, k2, root, u, k).grid[i][j])
  {
    InteriorSpec(rows - 1, cols - 1);
    var ps := Interior(rows - 1, cols - 1);
    assert forall t :: 0 <= t < |ps| ==> ps[t] in ps;
    var rates := Rates(BasicMitosisProbability(k1, Count(M, Cancerous)), k2, K3, K4);
    ScanInnerSucceeds(M, M, ps, u, k, rates, IsDense(M, root), Directional);
    ScanFrame(M, M, ps, u, k, rates, IsDense(M, root), Directional, i, j);
  }

  method SimulateTumorGrowthOneStepMetastasis(M: array2<Cell>, k1: real, k2: real, rows: nat, cols: nat,
                                              origin: Pos, root: real -> real, u: nat -> real, k: nat)
    returns (newM: array2<Cell>, next: nat)
    requires 0 < M.Length0 && rows <= M.Length0 && cols <= M.Length1
    ensures fresh(newM) && newM.Length0 == M.Length0 && newM.Length1 == M.Length1
    ensures var s := MetastasisStep(Cells(M), rows, cols, k1, k2, root, u, k);
            Cells(newM) == s.grid && next == s.next
  {
    newM := CopyGrid(M);
    var rho := DensityDevelopment(M, origin, root);
    var dense := rho > RHO;
    var rates := Rates(BasicMitosisProbability(k1, Count(Cells(M), Cancerous)), k2, K3, K4);
    InteriorSpec(rows - 1, cols - 1);
    var ps := Interior(rows - 1, cols - 1);
    assert forall t :: 0 <= t < |ps| ==> ps[t] in ps;
    ScanInnerSucceeds(Cells(M), Cells(newM), ps, u, k, rates, dense, Directional);
    var ok;
    next, ok := ScanInterior(M, newM, rows - 1, cols - 1, u, k, rates, dense, Directional);
  }

  // ---------------------------------------------------------------------
  // The generation drivers
  // ---------------------------------------------------------------------

  /** initialize_grid(): the 101 x 101 grid, 'C' exactly at the five seeds. */
  lemma InitialGridSeeds()
    ensures InitialGrid(ROWS, COLS, CANCER_INIT_POSITIONS).Some?
    ensures var M := InitialGrid(ROWS, COLS, CANCER_INIT_POSITIONS).value;
            IsGrid(M, ROWS, COLS) &&
            forall i, j :: 0 <= i < ROWS && 0 <= j < COLS ==>
              M[i][j] == if (i, j) in CANCER_INIT_POSITIONS then Cancerous else Normal
  {
    var ps := CANCER_INIT_POSITIONS;
    assert forall p :: p in ps ==> 0 <= p.0 < ROWS && 0 <= p.1 < COLS;
    InitialGridSpec(ROWS, COLS, ps);
  }

  /** The grid built by initialize_grid(). */
  function InitialState(): (M: Grid)
    ensures IsGrid(M, ROWS, COLS)
  {
    InitialGridSeeds();
    InitialGrid(ROWS, COLS, CANCER_INIT_POSITIONS).value
  }

  datatype RunState = RunState(grid: Grid, hist: map<int, Record>, next: nat)

  /** The grid, the history and the next draw after n generations from M0. */
  function Run(n: nat, M0: Grid, tau: int, k1: real, k2: real, root: real -> real, u: nat -> real): (s: RunState)
    requires IsGrid(M0, ROWS, COLS)
    ensures IsGrid(s.grid, ROWS, COLS)
  {
    if n == 0 then RunState(M0, map[], 0)
    else
      var s := Run(n - 1, M0, tau, k1, k2, root, u);
      var t := Step(s.grid, n - 1, tau, s.hist, k1, k2, root, u, s.next);
      RunState(t.grid, t.hist, t.next)
  }

  /** One more generation stores exactly the record of the grid it started from. */
  lemma RunStores(n: nat, M0: Grid, tau: int, k1: real, k2: real, root: real -> real, u: nat -> real)
    requires IsGrid(M0, ROWS, COLS)
    ensures var s := Run(n, M0, tau, k1, k2, root, u);
            Run(n + 1, M0, tau, k1, k2, root, u).hist == s.hist[n := RecordOf(s.grid, root)]
  {
  }

  /** Adding key n to a map with keys 0 .. n-1 gives the keys 0 .. n. */
  lemma KeysExtend(h: map<int, Record>, h': map<int, Record>, n: nat, v: Record)
    requires h' == h[n := v] && forall g :: g in h <==> 0 <= g < n
    ensures forall g :: g in h' <==> 0 <= g < n + 1
  {
  }

  /** After n generations the history has exactly the keys 0 .. n-1. */
  lemma {:induction false} RunHistoryKeys(n: nat, M0: Grid, tau: int, k1: real, k2: real,
                                          root: real -> real, u: nat -> real)
    requires IsGrid(M0, ROWS, COLS)
    ensures forall g :: g in Run(n, M0, tau, k1, k2, root, u).hist <==> 0 <= g < n
  {
    if n > 0 {
      var m := n - 1;
      RunHistoryKeys(m, M0, tau, k1, k2, root, u);
      RunStores(m, M0, tau, k1, k2, root, u);
      var s := Run(m, M0, tau, k1, k2, root, u);
      KeysExtend(s.hist, Run(m + 1, M0, tau, k1, k2, root, u).hist, m, RecordOf(s.grid, root));
    }
  }

  /**
   * Key g of the history after n > g generations holds the record of the
   * grid generation g started from: later generations never overwrite it.
   */
  lemma {:induction false} RunHistoryRecord(n: nat, g: nat, M0: Grid, tau: int, k1: real, k2: real,
                                            root: real -> real, u: nat -> real)
    requires IsGrid(M0, ROWS, COLS) && g < n
    ensures g in Run(n, M0, tau, k1, k2, root, u).hist
    ensures Run(n, M0, tau, k1, k2, root, u).hist[g] == RecordOf(Run(g, M0, tau, k1, k2, root, u).grid, root)
  {
    var hs := (i: nat) => Run(i, M0, tau, k1, k2, root, u).hist;
    var rs := (i: nat) => RecordOf(Run(i, M0, tau, k1, k2, root, u).grid, root);
    forall i | 0 <= i < n
      ensures hs(i + 1) == hs(i)[i := rs(i)]
    {
      RunStores(i, M0, tau, k1, k2, root, u);
    }
    StoredRecordKept(hs, rs, n, g);
  }

  /** A history extended by key i at every step i < n still holds, at g < n, what step g stored. */
  lemma {:induction false} StoredRecordKept(hs: nat -> map<int, Record>, rs: nat -> Record, n: nat, g: nat)
    requires g < n
    requires forall i :: 0 <= i < n ==> hs(i + 1) == hs(i)[i := rs(i)]
    ensures g in hs(n) && hs(n)[g] == rs(g)
  {
    var m := n - 1;
    assert hs(m + 1) == hs(m)[m := rs(m)];
    if g < m {
      StoredRecordKept(hs, rs, m, g);
    }
  }

  /** The grids after generations 1 .. n, in order. */
  function Trajectory(n: nat, M0: Grid, tau: int, k1: real, k2: real, root: real -> real, u: nat -> real): (t: seq<Grid>)
    requires IsGrid(M0, ROWS, COLS)
    ensures |t| == n
  {
    if n == 0 then [] else Trajectory(n - 1, M0, tau, k1, k2, root, u) + [Run(n, M0, tau, k1, k2, root, u).grid]
  }

  /** The trajectory after n generations has n entries; entry i is the grid after generation i + 1. */
  lemma {:induction false} TrajectoryEntry(n: nat, i: nat, M0: Grid, tau: int, k1: real, k2: real,
                                           root: real -> real, u: nat -> real)
    requires IsGrid(M0, ROWS, COLS) && i < n
    ensures |Trajectory(n, M0, tau, k1, k2, root, u)| == n
    ensures Trajectory(n, M0, tau, k1, k2, root, u)[i] == Run(i + 1, M0, tau, k1, k2, root, u).grid
  {
    if i < n - 1 {
      TrajectoryEntry(n - 1, i, M0, tau, k1, k2, root, u);
    } else if n > 1 {
      TrajectoryEntry(n - 1, 0, M0, tau, k1, k2, root, u);
    }
  }

  /** The number of generations `range(generations)` runs. */
  function Generations(generations: int): nat {
    if generations < 0 then 0 else generations
  }

  /** The state of the drivers after g generations from G0: history, grid, draw index and grid list. */
  ghost predicate Reached(g: nat, G0: Grid, tau: int, k1: real, k2: real, root: real -> real, u: nat -> real,
                          records: map<int, Record>, grid: Grid, k: nat, grids: seq<Grid>)
    requires IsGrid(G0, ROWS, COLS)
  {
    var s := Run(g, G0, tau, k1, k2, root, u);
    records == s.hist && grid == s.grid && k == s.next && grids == Trajectory(g, G0, tau, k1, k2, root, u)
  }

  /**
   * The loop of the drivers: `for g in range(generations)` steps the grid
   * from M0, storing into history; grids collects the grid after each step.
   */
  method RunGenerations(M0: array2<Cell>, history: HistoryStore, timeDelay: int, generations: int,
                        k1: real, k2: real, root: real -> real, u: nat -> real)
    returns (M: array2<Cell>, grids: seq<Grid>)
    requires M0.Length0 == ROWS && M0.Length1 == COLS && history.records == map[]
    modifies history
    ensures var n := Generations(generations);
            var s := Run(n, Cells(M0), timeDelay, k1, k2, root, u);
            history.records == s.hist && Cells(M) == s.grid &&
            grids == Trajectory(n, Cells(M0), timeDelay, k1, k2, root, u)
  {
    ghost var G0 := Cells(M0);
    M := M0;
    grids := [];
    var k := 0;
    var g := 0;
    while g < generations
      invariant 0 <= g <= Generations(generations)
      invariant M.Length0 == ROWS && M.Length1 == COLS
      invariant Reached(g, G0, timeDelay, k1, k2, root, u, history.records, Cells(M), k, grids)
      decreases generations - g
    {
      M, grids, k := NextGeneration(G0, M, grids, g, timeDelay, history, k1, k2, root, u, k);
      g := g + 1;
    }
    assert g == Generations(generations);
  }

  /** One pass of the drivers' loop: step generation g and append the new grid. */
  method NextGeneration(ghost G0: Grid, M: array2<Cell>, grids: seq<Grid>, g: nat, timeDelay: int,
                        history: HistoryStore, k1: real, k2: real, root: real -> real, u: nat -> real, k: nat)
    returns (M': array2<Cell>, grids': seq<Grid>, k': nat)
    requires IsGrid(G0, ROWS, COLS) && M.Length0 == ROWS && M.Length1 == COLS
    requires Reached(g, G0, timeDelay, k1, k2, root, u, history.records, Cells(M), k, grids)
    modifies history
    ensures M'.Length0 == ROWS && M'.Length1 == COLS
    ensures Reached(g + 1, G0, timeDelay, k1, k2, root, u, history.records, Cells(M'), k', grids')
  {
    M', k' := SimulateTumorGrowthOneStep(M, g, timeDelay, history, k1, k2, root, u, k);
    grids' := grids + [Cells(M')];
  }

  /** initialize_grid() as an array, with its grid named. */
  method InitialArray() returns (M: array2<Cell>)
    ensures fresh(M) && M.Length0 == ROWS && M.Length1 == COLS && Cells(M) == InitialState()
  {
    var ok;
    M, ok := InitializeGrid(ROWS, COLS, CANCER_INIT_POSITIONS);
    InitialGridSeeds();
  }

  /**
   * simulate_tumor_growth: the history after `generations` steps from the
   * initial grid; a non-positive count runs no step.
   */
  method SimulateTumorGrowth(timeDelay: int, generations: int, k1: real, k2: real,
                             root: real -> real, u: nat -> real)
    returns (history: HistoryStore)
    ensures fresh(history)
    ensures history.records == Run(Generations(generations), InitialState(), timeDelay, k1, k2, root, u).hist
  {
    history := new HistoryStore();
    var M0 := InitialArray();
    var M, grids := RunGenerations(M0, history, timeDelay, generations, k1, k2, root, u);
  }

  /**
   * simulate_tumor_growth_with_clusters: the history and the list of grids
   * after each generation. The closing asserts fail (ok = false) when the
   * list is shorter than a negative `generations` (AssertionError) and when
   * no generation ran, so that history[0] is missing (KeyError); the
   * history entries always hold all five keys.
   */
  method SimulateTumorGrowthWithClusters(timeDelay: int, generations: int, k1: real, k2: real,
                                         root: real -> real, u: nat -> real)
    returns (ok: bool, history: HistoryStore, grids: seq<Grid>)
    ensures fresh(history)
    ensures ok <==> generations > 0
    ensures var n := Generations(generations);
            history.records == Run(n, InitialState(), timeDelay, k1, k2, root, u).hist &&
            grids == Trajectory(n, InitialState(), timeDelay, k1, k2, root, u)
  {
    history := new HistoryStore();
    var M0 := InitialArray();
    var M;
    M, grids := RunGenerations(M0, history, timeDelay, generations, k1, k2, root, u);
    RunHistoryKeys(Generations(generations), InitialState(), timeDelay, k1, k2, root, u);
    ok := |grids| == generations && 0 in history.records;
  }
}
