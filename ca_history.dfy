/**
 * The history dictionary of the simulation (store_history) and the
 * time-delayed look-ups made in it (mitosis_probability and the delayed
 * 'dense' flag of simulate_tumor_growth_one_step).
 *
 * The dictionary maps a generation to the record {Nc, Ne, Nd, R, dense};
 * the record is a datatype, so every stored entry has all five keys.
 */
module CaHistory {
  import opened Grids
  import opened CaStatistics

  /** One history entry: the C, E and D counts, the mean radius R and the dense flag. */
  datatype Record = Record(nc: nat, ne: nat, nd: nat, r: real, dense: bool)

  /** The entry store_history computes for the grid `g`. */
  function RecordOf(g: Grid, root: real -> real): Record
    requires Rect(g)
  {
    Record(Count(g, Cancerous), Count(g, Edge), Count(g, Dead),
           MeanRadius(g, ORIGIN, root), IsDense(g, root))
  }

  /**
   * mitosis_probability: k1 * (1 - Nc / PHI), with Nc the count stored for
   * generation g - tau when that key is in the history, else the count n.
   */
  function MitosisProbability(k1: real, n: int, tau: int, g: int, hist: map<int, Record>): (r: real)
  {
    var delayed := g - tau;
    if delayed in hist then BasicMitosisProbability(k1, hist[delayed].nc)
    else BasicMitosisProbability(k1, n)
  }

  /**
   * The dense flag of the step: the flag stored for generation g - tau when
   * that key is present, else the flag stored for g itself.
   */
  function DelayedDense(hist: map<int, Record>, g: int, tau: int): bool
    requires g in hist
  {
    if (g - tau) in hist then hist[g - tau].dense else hist[g].dense
  }

  /** The counts of a stored record, with the grid's normal cells, fill the whole grid. */
  lemma RecordCountsFillGrid(g: Grid, rows: nat, cols: nat, root: real -> real)
    requires IsGrid(g, rows, cols) && Rect(g)
    ensures RecordOf(g, root).nc + RecordOf(g, root).ne + RecordOf(g, root).nd + Count(g, Normal) == rows * cols
  {
    CountsPartition(g, rows, cols);
  }

  /**
   * A probability read from a history whose counts never exceed PHI lies in
   * [0, k1]: the delayed count is one of the stored ones.
   */
  lemma DelayedProbabilityBounds(k1: real, n: int, tau: int, g: int, hist: map<int, Record>)
    requires 0.0 <= k1 && 0 <= n && n as real <= PHI
    requires forall key :: key in hist ==> hist[key].nc as real <= PHI
    ensures 0.0 <= MitosisProbability(k1, n, tau, g, hist) <= k1
  {
    if (g - tau) in hist {
      ProbabilityBounds(k1, hist[g - tau].nc);
    } else {
      ProbabilityBounds(k1, n);
    }
  }

  /**
   * With time_delay = 0 the look-ups hit the entry just stored for the
   * current generation, so they return the pre-step grid's own values.
   */
  lemma ZeroDelayUsesCurrentGrid(k1: real, hist: map<int, Record>, g: int, M: Grid, root: real -> real)
    requires Rect(M)
    ensures MitosisProbability(k1, 0, 0, g, hist[g := RecordOf(M, root)]) ==
            BasicMitosisProbability(k1, Count(M, Cancerous))
    ensures DelayedDense(hist[g := RecordOf(M, root)], g, 0) == IsDense(M, root)
  {
  }

  /**
   * A record stored for generation g - tau decides the probability, whatever
   * the current count n; without one, n decides it.
   */
  lemma DelayedLookup(k1: real, n: int, tau: int, g: int, hist: map<int, Record>, rec: Record)
    ensures MitosisProbability(k1, n, tau, g, hist[g - tau := rec]) == BasicMitosisProbability(k1, rec.nc)
    ensures (g - tau) !in hist ==> MitosisProbability(k1, n, tau, g, hist) == BasicMitosisProbability(k1, n)
  {
  }

  /** With an empty history the probability is never delayed. */
  lemma EmptyHistoryProbability(k1: real, n: int, tau: int, g: int)
    ensures MitosisProbability(k1, n, tau, g, map[]) == BasicMitosisProbability(k1, n)
  {
  }

  /** The history dictionary, updated in place by store_history. */
  class HistoryStore {
    var records: map<int, Record>

    constructor ()
      ensures records == map[]
    {
      records := map[];
    }

    /**
     * store_history: sets exactly key `generation` to the record of M,
     * overwriting an entry already stored there; every other key keeps its entry.
     */
    method Store(generation: int, M: array2<Cell>, root: real -> real)
      modifies this
      ensures records == old(records)[generation := RecordOf(Cells(M), root)]
      ensures generation in records && records[generation] == RecordOf(Cells(M), root)
      ensures forall key :: key != generation ==>
                (key in records <==> key in old(records)) &&
                (key in records ==> records[key] == old(records)[key])
    {
      var nc := Count(Cells(M), Cancerous);
      var ne := Count(Cells(M), Edge);
      var nd := Count(Cells(M), Dead);
      var R := OriginDistance(M, ORIGIN, root);
      var rho := DensityDevelopment(M, ORIGIN, root);
      records := records[generation := Record(nc, ne, nd, R, rho > RHO)];
    }
  }
}
