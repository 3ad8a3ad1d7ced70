/**
 * The analysis helpers of code/functions/analyze.py (and of their copies in
 * code/analyze.py): delay-coordinate reconstruction of a time series, the
 * cell-type codes used for drawing, and the metastasis driver that counts
 * clusters after every generation.
 */
module Analyze {
  import opened Grids
  import CaModel
  import CaHistory
  import opened Clusters

  // ---------------------------------------------------------------------
  // delay_coordinates_reconstruction
  // ---------------------------------------------------------------------

  /** The outcomes of the reconstruction: the two ValueErrors, numpy's refusal of ragged rows, or the vectors. */
  datatype DelayResult<T> = TooShort | ZeroStep | Ragged | Embedded(vectors: seq<seq<T>>)

  /** The Python slice s[start:stop:step] for a positive step and indices inside s. */
  function Slice<T>(s: seq<T>, start: nat, stop: nat, step: nat): (r: seq<T>)
    requires step > 0 && stop <= |s|
    decreases stop - start
  {
    if start >= stop then [] else [s[start]] + Slice(s, start + step, stop, step)
  }

  /**
   * s[start:stop:step] lists s[start], s[start + step], ... while the index
   * stays below stop: it is empty exactly when start >= stop, and the next
   * index after its last entry reaches stop.
   */
  lemma {:induction false} SliceSpec<T>(s: seq<T>, start: nat, stop: nat, step: nat)
    requires step > 0 && stop <= |s|
    ensures var r := Slice(s, start, stop, step);
            (|r| == 0 <==> start >= stop) &&
            (forall j :: 0 <= j < |r| ==> start + j * step < stop && r[j] == s[start + j * step]) &&
            start + |r| * step >= stop
    decreases stop - start
  {
    if start < stop {
      var r := Slice(s, start, stop, step);
      var r' := Slice(s, start + step, stop, step);
      SliceSpec(s, start + step, stop, step);
      forall j | 0 < j < |r| ensures start + j * step < stop && r[j] == s[start + j * step] {
        assert r[j] == r'[j - 1];
        assert start + step + (j - 1) * step == start + j * step;
      }
      var L := |r'|;
      assert |r| == L + 1;
      MulSucc(L, step);
    }
  }

  lemma MulSucc(a: int, b: int)
    ensures (a + 1) * b == a * b + b
  {
  }

  /** Products of naturals are natural. */
  lemma {:induction false} MulNatural(a: nat, b: nat)
    ensures a * b >= 0
  {
    if a > 0 {
      MulNatural(a - 1, b);
      assert a * b == (a - 1) * b + b;
    }
  }

  /** Scaling keeps order: i <= m gives 0 <= i * t <= m * t. */
  lemma ScaleBelow(i: nat, m: nat, t: nat)
    requires i <= m
    ensures 0 <= i * t <= m * t
  {
    MulNatural(i, t);
    MulNatural(m - i, t);
    assert m * t == i * t + (m - i) * t;
  }

  /** The end of the i-th slice, n - (d - 1 - i) * tau. */
  function Stop(n: nat, tau: nat, d: nat, i: nat): (e: nat)
    requires n > (d - 1) * tau && i < d
    ensures e == n - (d - 1) * tau + i * tau && n - (d - 1) * tau <= e <= n
  {
    ScaleBelow(d - 1 - i, d - 1, tau);
    assert (d - 1 - i) * tau == (d - 1) * tau - i * tau;
    n - (d - 1 - i) * tau
  }

  /** The d rows time_series[i : n - (d - 1 - i) * tau : tau] for i in range(d). */
  function DelayRows<T>(ts: seq<T>, tau: nat, d: nat): (rows: seq<seq<T>>)
    requires tau > 0 && |ts| > (d - 1) * tau
    ensures |rows| == d
  {
    seq(d, i requires 0 <= i < d => Slice(ts, i, Stop(|ts|, tau, d, i), tau))
  }

  /** The transpose (.T) of rows that all have length L. */
  function Transpose<T>(rows: seq<seq<T>>, L: nat): (cols: seq<seq<T>>)
    requires forall i :: 0 <= i < |rows| ==> |rows[i]| == L
    ensures |cols| == L && forall j :: 0 <= j < L ==> |cols[j]| == |rows|
    ensures forall j, i :: 0 <= j < L && 0 <= i < |rows| ==> cols[j][i] == rows[i][j]
  {
    seq(L, j requires 0 <= j < L => seq(|rows|, i requires 0 <= i < |rows| => rows[i][j]))
  }

  /** All rows have the length of the first one. */
  predicate Rectangular<T>(rows: seq<seq<T>>) {
    forall i :: 0 <= i < |rows| ==> |rows[i]| == |rows[0]|
  }

  /**
   * delay_coordinates_reconstruction(time_series, tau, d) as written: the
   * guard, then one strided slice per dimension, stacked by np.array and
   * transposed.
   */
  function DelayReconstruction<T>(ts: seq<T>, tau: nat, d: int): (r: DelayResult<T>)
    ensures r == TooShort <==> |ts| <= (d - 1) * tau
    ensures r == ZeroStep <==> d >= 1 && tau == 0 && |ts| > 0
    ensures r.Embedded? && d <= 0 ==> r.vectors == []
  {
    if |ts| <= (d - 1) * tau then TooShort
    else if d <= 0 then Embedded([])
    else if tau == 0 then ZeroStep
    else
      var rows := DelayRows(ts, tau, d);
      if Rectangular(rows) then Embedded(Transpose(rows, |rows[0]|)) else Ragged
  }

  /** Row i of the reconstruction holds ts[i], ts[i + tau], ts[i + 2 tau], ... up to its stop. */
  lemma DelayRowEntries<T>(ts: seq<T>, tau: nat, d: nat, i: nat)
    requires tau > 0 && |ts| > (d - 1) * tau && i < d
    ensures var row := DelayRows(ts, tau, d)[i];
            var e := Stop(|ts|, tau, d, i);
            |row| > 0 && i + |row| * tau >= e &&
            forall j :: 0 <= j < |row| ==> i + j * tau < e && row[j] == ts[i + j * tau]
  {
    var e := Stop(|ts|, tau, d, i);
    ScaleBelow(1, tau, i);
    assert i < e;
    SliceSpec(ts, i, e, tau);
  }

  /**
   * Whenever the reconstruction succeeds with d >= 1 and tau >= 1, entry i of
   * vector j is ts[i + j * tau].
   */
  lemma DelayEmbeddedEntries<T>(ts: seq<T>, tau: nat, d: int, j: nat, i: nat)
    requires DelayReconstruction(ts, tau, d).Embedded? && d >= 1
    requires j < |DelayReconstruction(ts, tau, d).vectors| && i < d
    ensures tau >= 1
    ensures |DelayReconstruction(ts, tau, d).vectors[j]| == d && i + j * tau < |ts|
    ensures DelayReconstruction(ts, tau, d).vectors[j][i] == ts[i + j * tau]
  {
    var rows := DelayRows(ts, tau, d);
    DelayRowEntries(ts, tau, d, i);
    assert |rows[i]| == |rows[0]|;
  }

  /**
   * With tau = 1 the reconstruction is the sliding window: n - d + 1 vectors,
   * the j-th being ts[j .. j + d].
   */
  lemma DelayUnitStep<T>(ts: seq<T>, d: nat)
    requires 1 <= d <= |ts|
    ensures var r := DelayReconstruction(ts, 1, d);
            r.Embedded? && |r.vectors| == |ts| - d + 1 &&
            forall j :: 0 <= j < |r.vectors| ==> r.vectors[j] == ts[j .. j + d]
  {
    var rows := DelayRows(ts, 1, d);
    forall i | 0 <= i < d ensures |rows[i]| == |ts| - d + 1 {
      DelayRowEntries(ts, 1, d, i);
      assert i + (|rows[i]| - 1) * 1 < Stop(|ts|, 1, d, i);
    }
    assert Rectangular(rows);
    var vs := Transpose(rows, |rows[0]|);
    forall j | 0 <= j < |vs| ensures vs[j] == ts[j .. j + d] {
      forall i | 0 <= i < d ensures vs[j][i] == ts[j + i] {
        DelayRowEntries(ts, 1, d, i);
        assert vs[j][i] == rows[i][j] && i + j * 1 == j + i;
      }
    }
  }

  /** The series 0, 1, ..., 9. */
  function TenSamples(): (s: seq<int>)
    ensures |s| == 10 && forall t :: 0 <= t < 10 ==> s[t] == t
  {
    [0, 1, 2, 3, 4, 5, 6, 7, 8, 9]
  }

  /**
   * As written, a delay of 2 in 3 dimensions on 10 samples gives rows of
   * lengths 3, 4 and 4, which np.array refuses to stack.
   */
  lemma DelayRaggedExample()
    ensures DelayReconstruction(TenSamples(), 2, 3) == Ragged
  {
    var rows := DelayRows(TenSamples(), 2, 3);
    DelayRowEntries(TenSamples(), 2, 3, 0);
    DelayRowEntries(TenSamples(), 2, 3, 1);
    assert |rows[0]| == 3 && |rows[1]| == 4;
  }

  /**
   * The reconstruction the docstring describes: row i is the unstrided slice
   * time_series[i * tau : n - (d - 1 - i) * tau], so that every row has
   * n - (d - 1) * tau entries and the transpose always exists.
   */
  function CorrectedDelayReconstruction<T>(ts: seq<T>, tau: nat, d: int): (r: DelayResult<T>)
    ensures r == TooShort <==> |ts| <= (d - 1) * tau
  {
    if |ts| <= (d - 1) * tau then TooShort
    else if d <= 0 then Embedded([])
    else
      var L := |ts| - (d - 1) * tau;
      var rows := seq(d, i requires 0 <= i < d => CorrectedRow(ts, tau, d, i));
      Embedded(Transpose(rows, L))
  }

  /** time_series[i * tau : n - (d - 1 - i) * tau]. */
  function CorrectedRow<T>(ts: seq<T>, tau: nat, d: nat, i: nat): (row: seq<T>)
    requires |ts| > (d - 1) * tau && i < d
    ensures |row| == |ts| - (d - 1) * tau
    ensures forall j :: 0 <= j < |row| ==> j + i * tau < |ts| && row[j] == ts[j + i * tau]
  {
    ScaleBelow(i, d - 1, tau);
    ts[i * tau .. Stop(|ts|, tau, d, i)]
  }

  /**
   * The corrected reconstruction always succeeds past the length guard and
   * gives n - (d - 1) * tau vectors, vector j being
   * (ts[j], ts[j + tau], ..., ts[j + (d - 1) * tau]).
   */
  lemma CorrectedDelaySpec<T>(ts: seq<T>, tau: nat, d: nat)
    requires 1 <= d && |ts| > (d - 1) * tau
    ensures var r := CorrectedDelayReconstruction(ts, tau, d);
            r.Embedded? && |r.vectors| == |ts| - (d - 1) * tau &&
            forall j, i :: 0 <= j < |r.vectors| && 0 <= i < d ==>
              |r.vectors[j]| == d && j + i * tau < |ts| && r.vectors[j][i] == ts[j + i * tau]
  {
    var L := |ts| - (d - 1) * tau;
    var rows := seq(d, i requires 0 <= i < d => CorrectedRow(ts, tau, d, i));
    var vs := Transpose(rows, L);
    assert CorrectedDelayReconstruction(ts, tau, d) == Embedded(vs);
    forall j, i | 0 <= j < L && 0 <= i < d ensures j + i * tau < |ts| && vs[j][i] == ts[j + i * tau] {
      assert vs[j][i] == rows[i][j] && rows[i] == CorrectedRow(ts, tau, d, i);
    }
  }

  /** For tau = 1 the code as written and the corrected one agree. */
  lemma CorrectedAgreesAtUnitDelay<T>(ts: seq<T>, d: nat)
    requires 1 <= d <= |ts|
    ensures DelayReconstruction(ts, 1, d) == CorrectedDelayReconstruction(ts, 1, d)
  {
    DelayUnitStep(ts, d);
    CorrectedDelaySpec(ts, 1, d);
    var a := DelayReconstruction(ts, 1, d).vectors;
    var b := CorrectedDelayReconstruction(ts, 1, d).vectors;
    forall j | 0 <= j < |a| ensures a[j] == b[j] {
      assert |b[j]| == d;
      forall i | 0 <= i < d ensures a[j][i] == b[j][i] {
        assert a[j][i] == ts[j + i];
      }
    }
  }

  /**
   * Ragged rows need a stride above 1 and at least two dimensions: with a
   * single row, or with tau = 1, every row has the same length.
   */
  lemma DelayRaggedNeedsStride<T>(ts: seq<T>, tau: nat, d: int)
    ensures DelayReconstruction(ts, tau, d) == Ragged ==> tau > 1 && d > 1
  {
    if DelayReconstruction(ts, tau, d) == Ragged {
      assert d >= 1 && tau >= 1;
      if tau == 1 {
        DelayUnitStep(ts, d);
      } else if d == 1 {
        assert Rectangular(DelayRows(ts, tau, d));
      }
    }
  }

  /**
   * As written, rows of equal length are stacked without complaint, but the
   * vectors are not delay vectors: three samples, tau = 2 and d = 2 give the
   * single vector (x0, x1) where the embedding is (x0, x2).
   */
  lemma DelayMisalignedExample()
    ensures DelayReconstruction([0, 1, 2], 2, 2) == Embedded([[0, 1]])
    ensures CorrectedDelayReconstruction([0, 1, 2], 2, 2) == Embedded([[0, 2]])
  {
    var ts := [0, 1, 2];
    var rows := DelayRows(ts, 2, 2);
    DelayRowEntries(ts, 2, 2, 0);
    DelayRowEntries(ts, 2, 2, 1);
    assert rows[0] == [0] && rows[1] == [1];
    assert Rectangular(rows);
    var v := Transpose(rows, 1);
    assert v[0][0] == rows[0][0] && v[0][1] == rows[1][0];
    assert v[0] == [0, 1];
    var fixed := seq(2, i requires 0 <= i < 2 => CorrectedRow(ts, 2, 2, i));
    assert fixed[0] == [0] && fixed[1] == [2];
    var w := Transpose(fixed, 1);
    assert w[0][0] == fixed[0][0] && w[0][1] == fixed[1][0];
    assert w[0] == [0, 2];
  }

  // ---------------------------------------------------------------------
  // cell_type_to_number and convert_matrix
  // ---------------------------------------------------------------------

  /** {'N': 0, 'C': 1, 'E': 2, 'D': 3}[cell_type]; None for the KeyError on any other key. */
  function CellTypeToNumber(ch: char): (r: Option<nat>)
    ensures r.Some? <==> ch in "NCED"
    ensures r.Some? ==> r.value < 4 && "NCED"[r.value] == ch
  {
    match ch
    case 'N' => Some(0)
    case 'C' => Some(1)
    case 'E' => Some(2)
    case 'D' => Some(3)
    case _ => None
  }

  /** Distinct cell letters get distinct numbers. */
  lemma CellTypeToNumberInjective(a: char, b: char)
    requires CellTypeToNumber(a).Some? && CellTypeToNumber(a) == CellTypeToNumber(b)
    ensures a == b
  {
    assert "NCED"[CellTypeToNumber(a).value] == a;
  }

  /** np.vectorize(cell_type_to_number) on one row. */
  function ConvertRow(row: seq<char>): (r: Option<seq<nat>>)
    ensures r.Some? <==> forall j :: 0 <= j < |row| ==> row[j] in "NCED"
    ensures r.Some? ==> (|r.value| == |row| &&
                         forall j :: 0 <= j < |row| ==> Some(r.value[j]) == CellTypeToNumber(row[j]))
  {
    if row == [] then Some([])
    else match (ConvertRow(row[..|row| - 1]), CellTypeToNumber(row[|row| - 1]))
      case (Some(front), Some(v)) => Some(front + [v])
      case _ => None
  }

  /** The vectorized conversion row by row; None as soon as one entry is not one of N, C, E, D. */
  function ConvertRows(m: seq<seq<char>>): (r: Option<seq<seq<nat>>>)
    ensures r.Some? <==> forall i, j :: 0 <= i < |m| && 0 <= j < |m[i]| ==> m[i][j] in "NCED"
    ensures r.Some? ==> |r.value| == |m| && forall i :: 0 <= i < |m| ==>
              |r.value[i]| == |m[i]| &&
              forall j :: 0 <= j < |m[i]| ==> Some(r.value[i][j]) == CellTypeToNumber(m[i][j])
  {
    if m == [] then Some([])
    else match (ConvertRows(m[..|m| - 1]), ConvertRow(m[|m| - 1]))
      case (Some(front), Some(row)) => Some(front + [row])
      case _ => None
  }

  /** The matrix holds at least one entry (its numpy size is not 0). */
  predicate HasEntry<T>(m: seq<seq<T>>) {
    exists i :: 0 <= i < |m| && |m[i]| > 0
  }

  /**
   * convert_matrix: the numeric matrix of the same shape. None stands for the
   * ValueError np.vectorize raises on a matrix without entries (it cannot
   * infer an output type) or with rows of different lengths (numpy cannot
   * make an array of it), and for the KeyError on an entry that is not one
   * of N, C, E, D.
   */
  function ConvertMatrix(m: seq<seq<char>>): (r: Option<seq<seq<nat>>>)
    ensures r.Some? <==> HasEntry(m) && Rectangular(m) &&
                         forall i, j :: 0 <= i < |m| && 0 <= j < |m[i]| ==> m[i][j] in "NCED"
    ensures r.Some? ==> |r.value| == |m| && forall i :: 0 <= i < |m| ==>
              |r.value[i]| == |m[i]| &&
              forall j :: 0 <= j < |m[i]| ==> Some(r.value[i][j]) == CellTypeToNumber(m[i][j])
  {
    if !HasEntry(m) || !Rectangular(m) then None else ConvertRows(m)
  }

  /** Rows of different lengths are an error even when every letter is valid. */
  lemma ConvertRaggedFails()
    ensures ConvertMatrix([['N'], ['N', 'C']]) == None
  {
    var m := [['N'], ['N', 'C']];
    assert |m[1]| != |m[0]|;
  }

  /** The letter numpy holds for a cell. */
  function Symbol(c: Cell): char {
    match c
    case Normal => 'N'
    case Cancerous => 'C'
    case Edge => 'E'
    case Dead => 'D'
  }

  /** The letters of a grid. */
  function Symbols(g: Grid): (m: seq<seq<char>>)
    ensures |m| == |g| && forall i :: 0 <= i < |g| ==> |m[i]| == |g[i]|
    ensures forall i, j :: 0 <= i < |g| && 0 <= j < |g[i]| ==> m[i][j] == Symbol(g[i][j])
  {
    seq(|g|, i requires 0 <= i < |g| => seq(|g[i]|, j requires 0 <= j < |g[i]| => Symbol(g[i][j])))
  }

  /**
   * A grid converts without an error exactly when it has a cell and its rows
   * have one width (the engine's grids are 101 x 101); the colour map reads
   * 0 white (N), 1 black (C), 2 red (E), 3 green (D).
   */
  lemma ConvertGrid(g: Grid)
    ensures var r := ConvertMatrix(Symbols(g));
            (r.Some? <==> HasEntry(g) && Rect(g)) && (r.Some? ==> |r.value| == |g|) &&
            forall i, j :: r.Some? && 0 <= i < |g| && 0 <= j < |g[i]| ==>
              |r.value[i]| == |g[i]| &&
              (r.value[i][j] == 0 <==> g[i][j] == Normal) &&
              (r.value[i][j] == 1 <==> g[i][j] == Cancerous) &&
              (r.value[i][j] == 2 <==> g[i][j] == Edge) &&
              (r.value[i][j] == 3 <==> g[i][j] == Dead)
  {
    var m := Symbols(g);
    var r := ConvertMatrix(m);
    forall i, j | 0 <= i < |g| && 0 <= j < |g[i]| ensures m[i][j] in "NCED" {
      assert m[i][j] == Symbol(g[i][j]);
    }
    forall i, j | 0 <= i < |g| && 0 <= j < |g[i]|
      ensures CellTypeToNumber(m[i][j]).value == match g[i][j]
                case Normal => 0 case Cancerous => 1 case Edge => 2 case Dead => 3
    {
      assert m[i][j] == Symbol(g[i][j]);
    }
  }

  // ---------------------------------------------------------------------
  // plot_simulate_tumor_growth
  // ---------------------------------------------------------------------

  /**
   * plot_simulate_tumor_growth without the drawing: the assert on
   * `generations` (ok false, no history), then the generations from
   * initialize_grid(), storing into a fresh history that is returned.
   */
  method PlotSimulateTumorGrowth(timeDelay: int, generations: int, k1: real, k2: real,
                                 root: real -> real, u: nat -> real)
    returns (ok: bool, history: CaHistory.HistoryStore?)
    ensures ok <==> generations > 0
    ensures ok ==> (history != null && fresh(history) &&
                    history.records == CaModel.Run(generations, CaModel.InitialState(), timeDelay, k1, k2, root, u).hist)
  {
    if generations <= 0 {
      return false, null;
    }
    var h := new CaHistory.HistoryStore();
    var M0 := CaModel.InitialArray();
    var M, grids := CaModel.RunGenerations(M0, h, timeDelay, generations, k1, k2, root, u);
    return true, h;
  }

  // ---------------------------------------------------------------------
  // simulate_and_find_metastasis
  // ---------------------------------------------------------------------

  /** ORIGIN = (cols // 2, rows // 2) and the five seeds around it. */
  function Seeds(rows: nat, cols: nat): (ps: seq<Pos>)
    ensures |ps| == 5
  {
    var o := (cols / 2, rows / 2);
    [(o.0, o.1), (o.0 + 1, o.1), (o.0 - 1, o.1), (o.0, o.1 - 1), (o.0, o.1 + 1)]
  }

  /** Placing at least one seed needs a grid with a row and a column. */
  lemma InitialGridNotEmpty(rows: nat, cols: nat, ps: seq<Pos>)
    requires ps != [] && InitialGrid(rows, cols, ps).Some?
    ensures rows > 0 && cols > 0
  {
    var g := AllNormal(rows, cols);
    assert Locate(g, ps[0]).Some?;
  }

  datatype Simulation = Simulation(grid: Grid, next: nat, grids: seq<Grid>)

  /** The grid, the next draw and the grid after each generation, for n metastasis steps from M0. */
  function MetastasisRun(n: nat, M0: Grid, rows: nat, cols: nat, k1: real, k2: real,
                         root: real -> real, u: nat -> real): (s: Simulation)
    requires Rect(M0) && rows <= |M0| && cols <= Width(M0)
    ensures |s.grids| == n && SameShape(M0, s.grid)
  {
    if n == 0 then Simulation(M0, 0, [])
    else
      var p := MetastasisRun(n - 1, M0, rows, cols, k1, k2, root, u);
      var t := CaModel.MetastasisStep(p.grid, rows, cols, k1, k2, root, u, p.next);
      Simulation(t.grid, t.next, p.grids + [t.grid])
  }

  /**
   * Tm: the first generation whose cluster count exceeds the bound. None
   * means no count is above it; otherwise it is the least such index.
   */
  function FirstAbove(counts: seq<nat>, bound: nat): (r: Option<nat>)
    ensures r.None? <==> forall t :: 0 <= t < |counts| ==> counts[t] <= bound
    ensures r.Some? ==> r.value < |counts| && counts[r.value] > bound &&
                        forall t :: 0 <= t < r.value ==> counts[t] <= bound
  {
    if counts == [] then None
    else
      var front := counts[..|counts| - 1];
      assert forall t :: 0 <= t < |front| ==> front[t] == counts[t];
      match FirstAbove(front, bound)
      case Some(t) => Some(t)
      case None => if counts[|counts| - 1] > bound then Some(|counts| - 1) else None
  }

  /**
   * simulate_and_find_metastasis: seed the rows x cols grid (ok false when
   * initialize_grid raises IndexError), then per generation one metastasis
   * step, find_clusters and the count; Tm is the first generation with more
   * than 50 clusters. `found` names the clusterings that were counted.
   */
  method SimulateAndFindMetastasis(generations: int, rows: nat, cols: nat, k1: real, k2: real,
                                   root: real -> real, u: nat -> real)
    returns (ok: bool, counts: seq<nat>, tm: Option<nat>, ghost found: seq<seq<set<Pos>>>)
    ensures ok <==> InitialGrid(rows, cols, Seeds(rows, cols)).Some?
    ensures ok ==>
              var s := MetastasisRun(CaModel.Generations(generations), InitialGrid(rows, cols, Seeds(rows, cols)).value,
                                     rows, cols, k1, k2, root, u);
              |counts| == |found| == CaModel.Generations(generations) &&
              (forall g :: 0 <= g < |counts| ==> IsClustering(s.grids[g], rows, cols, found[g]) && counts[g] == |found[g]|) &&
              tm == FirstAbove(counts, 50)
  {
    var origin := (cols / 2, rows / 2);
    var M;
    M, ok := InitializeGrid(rows, cols, Seeds(rows, cols));
    counts, tm, found := [], None, [];
    if !ok {
      return;
    }
    InitialGridNotEmpty(rows, cols, Seeds(rows, cols));
    counts, tm, found := MetastasisLoop(M, generations, rows, cols, origin, k1, k2, root, u);
  }

  /** The driver's `for g in range(generations)` loop, from the seeded grid M. */
  method MetastasisLoop(M0: array2<Cell>, generations: int, rows: nat, cols: nat, origin: Pos,
                        k1: real, k2: real, root: real -> real, u: nat -> real)
    returns (counts: seq<nat>, tm: Option<nat>, ghost found: seq<seq<set<Pos>>>)
    requires M0.Length0 == rows > 0 && M0.Length1 == cols
    ensures Counted(CaModel.Generations(generations), Cells(M0), rows, cols, k1, k2, root, u, MetastasisRun(CaModel.Generations(generations), Cells(M0), rows, cols, k1, k2, root, u).grid,
                    MetastasisRun(CaModel.Generations(generations), Cells(M0), rows, cols, k1, k2, root, u).next, counts, found)
    ensures tm == FirstAbove(counts, 50)
  {
    ghost var G0 := Cells(M0);
    var M := M0;
    counts, tm, found := [], None, [];
    var k := 0;
    var g := 0;
    while g < generations
      invariant 0 <= g <= CaModel.Generations(generations)
      invariant M.Length0 == rows && M.Length1 == cols
      invariant Counted(g, G0, rows, cols, k1, k2, root, u, Cells(M), k, counts, found)
      invariant tm == FirstAbove(counts, 50)
      decreases generations - g
    {
      M, k, counts, tm, found := MetastasisGeneration(G0, M, g, rows, cols, origin, k1, k2, root, u, k, counts, tm, found);
      g := g + 1;
    }
  }

  /** After g generations from G0: the grid, the draw index, and one counted clustering per generation. */
  ghost predicate Counted(g: nat, G0: Grid, rows: nat, cols: nat, k1: real, k2: real, root: real -> real, u: nat -> real,
                          grid: Grid, k: nat, counts: seq<nat>, found: seq<seq<set<Pos>>>)
  {
    Rect(G0) && rows <= |G0| && cols <= Width(G0) &&
    var s := MetastasisRun(g, G0, rows, cols, k1, k2, root, u);
    grid == s.grid && k == s.next && |counts| == |found| == g &&
    forall t :: 0 <= t < g ==> IsClustering(s.grids[t], rows, cols, found[t]) && counts[t] == |found[t]|
  }

  /** One pass of the driver's loop: step, find the clusters, record the count and maybe Tm. */
  method MetastasisGeneration(ghost G0: Grid, M: array2<Cell>, g: nat, rows: nat, cols: nat, origin: Pos,
                              k1: real, k2: real, root: real -> real, u: nat -> real, k: nat,
                              counts: seq<nat>, tm: Option<nat>, ghost found: seq<seq<set<Pos>>>)
    returns (M': array2<Cell>, k': nat, counts': seq<nat>, tm': Option<nat>, ghost found': seq<seq<set<Pos>>>)
    requires M.Length0 == rows > 0 && M.Length1 == cols
    requires Counted(g, G0, rows, cols, k1, k2, root, u, Cells(M), k, counts, found)
    requires tm == FirstAbove(counts, 50)
    ensures M'.Length0 == rows && M'.Length1 == cols
    ensures Counted(g + 1, G0, rows, cols, k1, k2, root, u, Cells(M'), k', counts', found')
    ensures tm' == FirstAbove(counts', 50)
  {
    M', k' := CaModel.SimulateTumorGrowthOneStepMetastasis(M, k1, k2, rows, cols, origin, root, u, k);
    var ok, clusters := FindClusters(M', rows, cols);
    counts' := counts + [|clusters|];
    found' := found + [clusters];
    tm' := tm;
    if |clusters| > 50 && tm.None? {
      tm' := Some(g);
    }
    FirstAboveExtend(counts, |clusters|, 50);
    CountedExtend(g, G0, rows, cols, k1, k2, root, u, Cells(M), k, counts, found, Cells(M'), k', clusters);
  }

  /** Appending one count moves Tm only when none was found yet and the new count is above the bound. */
  lemma FirstAboveExtend(counts: seq<nat>, x: nat, bound: nat)
    ensures FirstAbove(counts + [x], bound) ==
            if FirstAbove(counts, bound).None? && x > bound then Some(|counts|) else FirstAbove(counts, bound)
  {
    assert (counts + [x])[..|counts|] == counts;
  }

  /** One more metastasis step and its clustering extend a counted run by one generation. */
  lemma CountedExtend(g: nat, G0: Grid, rows: nat, cols: nat, k1: real, k2: real, root: real -> real, u: nat -> real,
                      grid: Grid, k: nat, counts: seq<nat>, found: seq<seq<set<Pos>>>,
                      grid': Grid, k': nat, clusters: seq<set<Pos>>)
    requires Counted(g, G0, rows, cols, k1, k2, root, u, grid, k, counts, found)
    requires var t := CaModel.MetastasisStep(grid, rows, cols, k1, k2, root, u, k);
             grid' == t.grid && k' == t.next
    requires IsClustering(grid', rows, cols, clusters)
    ensures Counted(g + 1, G0, rows, cols, k1, k2, root, u, grid', k', counts + [|clusters|], found + [clusters])
  {
    var s := MetastasisRun(g, G0, rows, cols, k1, k2, root, u);
    var s' := MetastasisRun(g + 1, G0, rows, cols, k1, k2, root, u);
    assert s'.grids == s.grids + [grid'];
  }
}
