# Tumour growth cellular automaton

A Dafny model of a stochastic cellular automaton for tumour growth. Each
cell of a 101 x 101 grid is Normal ('N'), Cancerous ('C'), Edge ('E') or
Dead ('D'). The model covers one generation and the cell-by-cell scan
behind it:

* A 'C' cell divides with probability `k1 (1 - n / PHI)`. The daughter goes
  into a neighbour chosen by the cell's quadrant around ORIGIN, and by
  whether the tumour is *dense*: `n' / R^2 > RHO`, where R is the mean
  radius.
* Otherwise a 'C' cell becomes 'E' with probability `k2`.
* An 'E' cell becomes 'D' with probability K3.
* A 'D' cell becomes 'N' with probability K4.

Every generation first stores a record of counts, mean radius and dense
flag in a history dictionary. Later generations read that history back,
`time_delay` generations late.

Four versions of the engine are modelled:

* the main engine of `code/functions/ca_model.py` and its duplicate
  `code/ca_model.py`, with the metastasis step;
* the older single-generation engine of `code/cellular_automata.py`;
* the mean-field engine of `code/functions/mean_field.py`, where a
  dividing cell stays in place.

Also modelled are the analysis functions of `code/functions/analyze.py` and
`code/analyze.py`:

* cluster finding by depth-first flood fill;
* delay-coordinate reconstruction;
* the cell-code conversion;
* the two simulation drivers.

How the model is laid out:

* `Grids`: the cells, and grids as values (`seq<seq<Cell>>`). `array2<Cell>`
  holds them where the source mutates a numpy array. `Cells(a)` reads an
  array back as a value. Also cell counts, numpy's index rules and
  `initialize_grid`.
* `CaStatistics`: constants, `origin_distance`, `density_development` and
  `basic_mitosis_probability`.
* `CaHistory`: the history record, `store_history` (the `HistoryStore`
  class, whose map is updated in place) and the delayed `mitosis_probability`.
* `CaMitosis`: `get_quadrant` and `mitosis`.
* `CaScan`: the scan shared by every engine. A fold of the per-cell rule
  over the visited positions in row-major order. It reads the pre-step grid
  M and writes the next grid. The imperative loops over the arrays are
  proved equal to it.
* `CaModel`, `CellularAutomata`, `MeanField`: the three engines and their
  drivers.
* `Clusters`: `find_clusters`.
* `Analyze`: the rest of the analysis module.

Both random sources are parameters:

* `random.random()` is a draw sequence `u: nat -> real`. Every function and
  method reports the index of the next unused draw.
* `math.sqrt` is a parameter `root: real -> real`, applied to the exact
  integer squared distance.

Python exceptions (IndexError, KeyError, ValueError, AssertionError) are
`None`, `ok == false` or a `DelayResult` error case.

Points where the code's behaviour is easy to misread; the model follows
the code:

* `mitosis` tests whether a candidate is blocked on the *next* grid `newM`,
  not on the pre-step grid (`code/functions/ca_model.py:183`). A daughter
  placed earlier in the same scan is therefore seen.
* Border cells are not visited by the step, but a neighbour's division can
  turn them into 'C'. `CaModel.StepBorder` states exactly that: a border
  cell changes only into 'C', and never from 'E' or 'D'.
* `store_history` overwrites an existing key (`HistoryStore.Store`).
* `simulate_tumor_growth` with `generations <= 0` runs no step and returns
  an empty history; it does not fail. Only the opening asserts of
  `plot_simulate_tumor_growth` and the closing ones of
  `code/functions/ca_model.py`'s `simulate_tumor_growth_with_clusters` fail.
* The mean radius divides the sum of the 'C' cells' distances by
  n' = C + E + D, not by the number of 'C' cells.
* `density_development(M, ORIGIN)` ignores its ORIGIN argument: it calls
  `origin_distance(M)` with the module ORIGIN.
* In `simulate_and_find_metastasis`, ORIGIN is `(cols // 2, rows // 2)`,
  and it is used as (row, column), as everywhere else.
* Seed positions follow numpy indexing: a negative index counts from the
  end, and only an index outside `[-n, n)` raises IndexError.

## Model

| member | source | states |
|---|---|---|
| Grids.NpIndex | code/functions/ca_model.py:19-24 | One numpy axis accepts an index exactly when -n <= i < n. The accepted index names cell i, or i + n when i is negative. |
| Grids.Locate | code/functions/ca_model.py:19-24 | A position resolves only to a cell inside the grid. A non-negative position resolves exactly when it is inside the grid, and then to itself. |
| Grids.PlaceFails | code/functions/ca_model.py:19-21 | Setting the seeds to 'C' succeeds exactly when every seed position resolves in the grid. Otherwise it raises IndexError. |
| Grids.PlaceInRange | code/functions/ca_model.py:19-21 | With every seed inside the grid, placing succeeds. The result is 'C' at exactly the seed cells, and every other cell is unchanged. |
| Grids.InitialGridSpec | code/functions/ca_model.py:19-24 | initialize_grid succeeds exactly when every seed is within numpy's index range. With seeds in [0, rows) x [0, cols), the grid is 'C' exactly at the seeds and 'N' elsewhere. |
| Grids.InitialGrid | code/functions/ca_model.py:19-24 | A grid that initialize_grid returns has rows rows of cols cells each. |
| Grids.InitializeGrid | code/functions/ca_model.py:19-24 | The array version (also code/ca_model.py:17-21): a fresh rows x cols array. ok holds exactly when initialize_grid succeeds, and the array then holds that grid. |
| Grids.AllNormal | code/functions/ca_model.py:20 | np.full((rows, cols), 'N'): a rows x cols grid of 'N' cells. |
| Grids.CountsPartition | code/functions/ca_model.py:34-44 | The counts of the four cell types, as sum_cell_type gives them, add up to rows * cols. |
| Grids.CountZero | code/functions/ca_model.py:34-44 | sum_cell_type(M, t) is 0 exactly when no cell holds t. |
| Grids.CountMonotone | code/functions/ca_model.py:34-44 | Take grids of the same shape where every t cell of h is a t cell of g. Then h has no more t cells than g. |
| Grids.NPrimeComplement | code/functions/ca_model.py:46-59 | n' = C + E + D counts the cells that are not 'N': n' + count('N') = rows * cols. |
| Grids.NPrimeZero | code/functions/ca_model.py:46-59 | n' is 0 exactly when every cell is 'N'. |
| Grids.SetCell | code/functions/ca_model.py:227 | `newM[r, c] = v` changes that one cell to v and keeps every other cell. |
| Grids.CopyGrid | code/functions/ca_model.py:207 | np.copy returns a fresh array of the same shape, holding the same cells. |
| CaStatistics.MeanRadiusSpec | code/functions/ca_model.py:61-77 | origin_distance: R * n' equals the sum of the 'C' cells' distances from the origin, and R = 0 when n' = 0. |
| CaStatistics.OriginDistance | code/functions/ca_model.py:61-77 | The double loop that accumulates distances, followed by the guarded division, returns the mean radius of the grid. |
| CaStatistics.GuardedRatioSpec | code/functions/ca_model.py:90 | `n / R ** 2 if R else 0`: the result times R^2 is n when R != 0, and the result is 0 when R = 0. |
| CaStatistics.ZeroGuards | code/functions/ca_model.py:70-90 | A grid with n' = 0 has R = 0 and density 0, so it is never dense. |
| CaStatistics.DensityDevelopment | code/functions/ca_model.py:79-90 | density_development returns n' / R^2, guarded, with R taken about the module ORIGIN whatever origin is passed. |
| CaStatistics.ProbabilityBounds | code/functions/ca_model.py:92-94 | For 0 <= n <= PHI, the probability k (1 - n / PHI) lies between 0 and k. |
| CaStatistics.ProbabilityAntitone | code/functions/ca_model.py:92-94 | More cancer cells never raise the mitosis probability. |
| CaStatistics.ProbabilityEndpoints | code/functions/ca_model.py:92-94 | The probability is the full rate k with no cancer cells, and 0 with PHI of them. |
| CaHistory.RecordCountsFillGrid | code/functions/ca_model.py:117-132 | The stored counts satisfy Nc + Ne + Nd + count('N') = rows * cols. |
| CaHistory.DelayedProbabilityBounds | code/functions/ca_model.py:96-114 | Whether or not generation - time_delay is in the history, the probability lies in [0, k1] when the counts are within PHI. |
| CaHistory.ZeroDelayUsesCurrentGrid | code/functions/ca_model.py:207-214 | With time_delay 0, the step reads back the record it has just stored: the probability comes from the current count and the dense flag from the current grid. |
| CaHistory.EmptyHistoryProbability | code/functions/ca_model.py:109-114 | With an empty history, mitosis_probability is basic_mitosis_probability(k1, n). |
| CaHistory.DelayedLookup | code/functions/ca_model.py:96-114 | A record stored for generation - time_delay decides the probability, whatever the current count n is. Without such a record, n decides it. |
| CaHistory.HistoryStore.constructor | code/functions/ca_model.py:273 | A history starts empty. |
| CaHistory.HistoryStore.Store | code/functions/ca_model.py:117-132 | store_history sets key generation to the record of M, replacing any entry already there. Every other key keeps its entry. |
| CaMitosis.GetQuadrant | code/functions/ca_model.py:135-152 | Each of the quadrants I to IV is returned exactly when its two comparisons with ORIGIN hold. |
| CaMitosis.OppositeTables | code/functions/ca_model.py:173-174 | In every quadrant, each not-dense candidate is the opposite direction of the dense candidate at the same position in the list. |
| CaMitosis.DividedCases | code/functions/ca_model.py:169-186 | mitosis gives the daughter to the first candidate unless that cell is 'E' or 'D', and then to the second. When both are blocked, nothing changes. IndexError happens exactly when a candidate that is read is out of numpy's index range. |
| CaMitosis.DividedChangesOneNeighbour | code/functions/ca_model.py:169-186 | A division changes at most one cell. That cell becomes 'C', was neither 'E' nor 'D', and is one of the two candidates. For r, c >= 1 it is a 4-neighbour of (r, c). |
| CaMitosis.Divided | code/functions/ca_model.py:155-186 | A division that does not raise IndexError keeps the grid's shape. Its cases are stated by DividedCases. |
| CaMitosis.Mitosis | code/functions/ca_model.py:155-186 | The in-place loop over the candidates of newM: ok holds exactly when there is no IndexError, and newM becomes the divided grid. |
| CaScan.Scan | code/functions/ca_model.py:217-233 | The scan of the visited positions keeps the grid's shape. The index of the next draw counts the draws each visited cell consumes. |
| CaScan.InteriorSpec | code/functions/ca_model.py:217-218 | `range(1, R) x range(1, C)` visits exactly the positions 1 <= r < R and 1 <= c < C, each once. |
| CaScan.DrawsPerCell | code/functions/ca_model.py:219-233 | Each cell consumes its own draws: none for 'N', one for 'E' and 'D', and one or two for 'C'. |
| CaScan.ScanFrame | code/functions/ca_model.py:217-233 | A cell that is not visited, or that is 'N' in the pre-step grid, changes only through a division: only into 'C', and never from 'E' or 'D'. |
| CaScan.ScanInnerSucceeds | code/functions/ca_model.py:217-218 | A scan that visits only cells with all four neighbours inside the grid never raises IndexError. |
| CaScan.ScanSafeSucceeds | code/cellular_automata.py:80-90 | A scan in which the two candidates of every visited cell lie inside the grid never raises IndexError. |
| CaScan.ScanAllNormal | code/functions/ca_model.py:219-233 | Scanning only 'N' cells changes nothing and consumes no draw. |
| CaScan.CellRule | code/functions/ca_model.py:219-233 | The loop body for one visited cell keeps the shape of the next grid whenever it does not raise IndexError. |
| CaScan.ScanTransition | code/functions/ca_model.py:219-233 | The fate of each visited cell, whose draws start at index kt. A 'C' cell ends 'E' exactly when its division draw fails and its second draw is below k2; otherwise it stays 'C'. An 'E' cell ends 'D' exactly on a draw below K3. A 'D' cell ends 'N', or 'C' through a later division, on a draw below K4, and stays 'D' otherwise. An 'N' cell ends 'N' or 'C'. |
| CaScan.InPlaceNoNewCancer | code/functions/mean_field.py:24-31 | With in-place division, a cell ends 'C' only where the pre-step grid or the starting next grid was already 'C'. |
| CaScan.ScanCell | code/functions/ca_model.py:219-233 | One pass of the loop body on the arrays equals the per-cell rule on the grid values, draws included. |
| CaScan.ScanRow | code/functions/ca_model.py:218-233 | The inner loop over the columns equals the scan of that row. |
| CaScan.ScanInterior | code/functions/ca_model.py:217-233 | The outer loop over the rows equals the scan of all visited positions, including the stop at the first IndexError. |
| CaModel.StepPositionsInner | code/functions/ca_model.py:217-218 | The step visits exactly the cells 1 <= r < ROWS - 1 and 1 <= c < COLS - 1. |
| CaModel.StepDraws | code/functions/ca_model.py:219-233 | A step consumes exactly the draws its scan consumes: one or two per 'C' cell, one per 'E' or 'D' cell, none per 'N' cell. |
| CaModel.StepBorder | code/functions/ca_model.py:217-218 | Row 0, row ROWS - 1, column 0 and column COLS - 1 are never visited. A border cell changes only into 'C', through a neighbour's division. |
| CaModel.StepTransition | code/functions/ca_model.py:219-233 | The fate of the t-th visited cell of a step, as in CaScan.ScanTransition, with the step's own delayed probability p, k2, K3 and K4. |
| CaModel.Step | code/functions/ca_model.py:193-234 | A step never raises IndexError and keeps the 101 x 101 shape. Its cells are described by StepBorder and StepTransition. |
| CaModel.SimulateTumorGrowthOneStep | code/functions/ca_model.py:193-234 | The step on arrays (also code/ca_model.py:102-123). M is never written. The history gains exactly the record of M at key generation. The new array and the next draw index are those of Step. |
| CaModel.StepInto | code/functions/ca_model.py:216-233 | The loops of a step over a copy of M never fail, and leave the scan's grid in newM. |
| CaModel.MetastasisStepFrame | code/functions/ca_model.py:241-258 | In the metastasis step, a cell outside range(1, rows - 1) x range(1, cols - 1) changes only into 'C', through a division. |
| CaModel.MetastasisStep | code/functions/ca_model.py:241-258 | The metastasis step never raises IndexError on range(1, rows - 1) x range(1, cols - 1), and keeps the grid's shape. |
| CaModel.SimulateTumorGrowthOneStepMetastasis | code/functions/ca_model.py:241-258 | simulate_tumor_growth_one_step_metastasis on arrays: the current dense flag, the basic probability and no history. The result is MetastasisStep's grid and draw index. |
| CaModel.InitialGridSeeds | code/functions/ca_model.py:10-24 | initialize_grid() succeeds, and gives a 101 x 101 grid that is 'C' exactly at the five CANCER_INIT_POSITIONS. |
| CaModel.RunStores | code/functions/ca_model.py:277-278 | Generation n adds exactly the record of the grid it starts from, at key n. |
| CaModel.RunHistoryKeys | code/functions/ca_model.py:261-281 | After n generations, the history keys are exactly 0 .. n - 1. |
| CaModel.RunHistoryRecord | code/functions/ca_model.py:261-281 | history[g] is the record of the grid after g generations, that is, the pre-step grid of generation g. |
| CaModel.TrajectoryEntry | code/functions/ca_model.py:308-312 | cancer_cell_grid[i] is the grid after i + 1 generations. |
| CaModel.RunGenerations | code/functions/ca_model.py:277-278 | The `for g in range(generations)` loop leaves the history, the grid and the grid list of Run and Trajectory. |
| CaModel.SimulateTumorGrowth | code/functions/ca_model.py:261-281 | simulate_tumor_growth (also code/ca_model.py:126-133) returns the history of Generations(generations) steps from initialize_grid(). |
| CaModel.SimulateTumorGrowthWithClusters | code/functions/ca_model.py:288-323 | The history and the per-generation grids. ok holds exactly when generations > 0: otherwise the length assert or the history[0] lookup fails. The history and grids clauses do not depend on ok. They also describe code/ca_model.py:135-145, which has no asserts and always returns `(history, M_cluster)`, so ok does not apply there. |
| CellularAutomata.SameFormulaAsBasic | code/cellular_automata.py:29-31 | mitosis_probability(k, n, p) with p = 1000 is the basic formula of code/functions/ca_model.py. |
| CellularAutomata.ProbabilityBounds | code/cellular_automata.py:29-31 | For 0 <= n1 <= n2 <= p: 0 <= P(n2) <= P(n1) <= k. |
| CellularAutomata.ProbabilityEndpoints | code/cellular_automata.py:29-31 | The probability is k with no cancer cells, and 0 with p of them. |
| CellularAutomata.Generation | code/cellular_automata.py:77-92 | A generation that does not raise IndexError gives a 101 x 101 grid. |
| CellularAutomata.GenerationIsScan | code/cellular_automata.py:77-92 | A generation is the scan of range(1, ROWS) x range(1, COLS), with p from the current count, PHI = ROWS * COLS and the current dense flag. |
| CellularAutomata.NotDenseNeverFails | code/cellular_automata.py:77-92 | In the not-dense phase, a generation never raises IndexError. |
| CellularAutomata.CornerDivisionFails | code/cellular_automata.py:80-84 | Take a dense-phase generation of a 101 x 101 grid whose only 'C' cell is (100, 100), with every draw from index k on below p. It raises IndexError. |
| CellularAutomata.CorrectedNeverFails | code/cellular_automata.py:80-81 | The generation over range(1, ROWS - 1) x range(1, COLS - 1) never raises IndexError, dense or not. |
| CellularAutomata.SimulateTumorGrowthOneGeneration | code/cellular_automata.py:77-92 | simulate_tumor_growth_one_generation on arrays: ok holds exactly when Generation succeeds, and newM is then its grid. |
| CellularAutomata.GenerationInto | code/cellular_automata.py:79-90 | The loops over a copy of M: ok holds exactly when the scan of range(1, ROWS) x range(1, COLS) succeeds. newM then holds its grid, and next is its draw index. |
| MeanField.MeanFieldBounds | code/functions/mean_field.py:18-22 | For t among 'C', 'E' and 'D', the interaction lies in [0, 1]. It is 0 exactly when no cell holds t, and 0 when n' = 0. |
| MeanField.MeanFieldSum | code/functions/mean_field.py:18-22 | When n' != 0, the interactions of 'C', 'E' and 'D' sum to 1. |
| MeanField.FieldProbability | code/functions/mean_field.py:26 | The probability ignores the history: it is basic_mitosis_probability(K1, count('C')), and it does not rise with the count. |
| MeanField.InPlaceMitosis | code/functions/mean_field.py:24-31 | A 'C' cell becomes 'C' on a draw below p, 'E' on a second draw below K2, and otherwise is left as it is. It never fails and never touches a neighbour. |
| MeanField.FieldStepIgnoresDense | code/functions/mean_field.py:40 | The step's grid and draw index do not depend on the square root, so the dense flag passed to mitosis has no effect. |
| MeanField.FieldStepNoNewCancer | code/functions/mean_field.py:33-45 | A mean-field step creates no new 'C' cell, so the number of 'C' cells never grows. |
| MeanField.FieldStepBorder | code/functions/mean_field.py:37-38 | Border cells are never changed. |
| MeanField.FieldStepTransition | code/functions/mean_field.py:37-44 | The fate of the t-th visited cell. 'C' stays 'C' or becomes 'E'. 'E' becomes 'D' exactly on a draw below K3. 'D' becomes 'N' exactly on a draw below K4. 'N' stays 'N'. |
| MeanField.FieldStep | code/functions/mean_field.py:33-45 | A mean-field step never fails and keeps the 101 x 101 shape. Its cells are described by FieldStepBorder and FieldStepTransition. |
| MeanField.SimulateTumorGrowthOneStep | code/functions/mean_field.py:33-45 | The mean-field step on arrays: the record of M is stored, M is untouched, and the result is FieldStep. |
| MeanField.FieldStepInto | code/functions/mean_field.py:37-44 | The loops over a copy of M never fail, and leave the in-place scan's grid and draw index. |
| MeanField.FieldRunStores | code/functions/mean_field.py:51-52 | Mean-field generation n adds exactly the record of the grid it starts from, at key n. |
| MeanField.FieldRunHistoryKeys | code/functions/mean_field.py:47-54 | After n generations, the history keys are exactly 0 .. n - 1. |
| MeanField.FieldRunCancerNeverGrows | code/functions/mean_field.py:47-54 | Over a whole run, the number of 'C' cells never exceeds its initial value. |
| MeanField.SimulateTumorGrowth | code/functions/mean_field.py:47-54 | simulate_tumor_growth returns the history of the run, whose keys are 0 .. generations - 1. |
| MeanField.FieldRunGenerations | code/functions/mean_field.py:51-52 | The `for g in range(generations)` loop leaves the history of FieldRun, with max(0, generations) steps. |
| Clusters.NeighbourBack | code/functions/analyze.py:36 | Each of the four pushed neighbours is adjacent to the cell that pushed it. |
| Clusters.UnionMembers | code/functions/analyze.py:39-40 | A cell is in the union of the clusters exactly when it is in one of them. |
| Clusters.Explore | code/functions/analyze.py:25-36 | The depth-first search from (r, c) marks exactly the new cluster as visited. The cluster contains (r, c), is connected, consists of 'C' cells and is closed: every 'C' neighbour inside the bounds is in it. |
| Clusters.VisitCell | code/functions/analyze.py:24-40 | After cell (r, c) is considered, it is in a found cluster if it is a 'C' cell within the bounds. The clusters stay non-empty, disjoint, connected and closed sets of 'C' cells, and `visited` marks exactly their union. |
| Clusters.VisitRow | code/functions/analyze.py:22-40 | After the column loop of row r, every in-bounds 'C' cell of row r is in a found cluster, with the same invariants as VisitCell. |
| Clusters.FindClustersIn | code/functions/analyze.py:5-42 | find_clusters returns a clustering. The clusters are non-empty, disjoint, connected and closed sets of 'C' cells, and every 'C' cell in bounds is in one of them. |
| Clusters.FindClusters | code/functions/analyze.py:5-42 | With bounds beyond the grid, the first `grid[r, c]` raises IndexError (ok false). With empty bounds, the result is []. Otherwise the result is a clustering (also code/analyze.py:4-24). |
| Clusters.ClusterIsComponent | code/functions/analyze.py:28-40 | A non-empty, closed, connected set of 'C' cells is one of the clusters of any clustering. |
| Clusters.ClusteringUnique | code/functions/analyze.py:5-42 | Two clusterings of the same grid have the same clusters. |
| Clusters.ClusteringSameCount | code/functions/analyze.py:5-42 | Two clusterings of the same grid have the same number of clusters, so len(find_clusters(...)) is determined by the grid. |
| Clusters.ExampleClustering | code/functions/analyze.py:45 | The import-time example grid has the clustering [{(0, 1), (0, 2), (1, 1)}]. |
| Clusters.ExampleClusters | code/functions/analyze.py:45 | Every clustering of that grid is [{(0, 1), (0, 2), (1, 1)}], so the assert holds. |
| Analyze.SliceSpec | code/functions/analyze.py:64 | `s[start:stop:step]` is empty exactly when start >= stop. Entry j is s[start + j * step], and the entries are exactly the indices below stop. |
| Analyze.DelayReconstruction | code/functions/analyze.py:47-65 | TooShort, the guard's ValueError, happens exactly when n <= (d - 1) * tau. ZeroStep, the ValueError of a zero slice step, happens exactly when d >= 1, tau = 0 and n > 0. With d <= 0, the result is empty. |
| Analyze.DelayRaggedNeedsStride | code/functions/analyze.py:64-65 | Ragged rows happen only when tau > 1 and d > 1: a single row, or a delay of 1, always stacks. |
| Analyze.DelayEmbeddedEntries | code/functions/analyze.py:64-65 | When the rows are rectangular: tau >= 1, each vector has d entries, and vector j, entry i is ts[i + j * tau]. |
| Analyze.DelayUnitStep | code/functions/analyze.py:64-65 | With tau = 1, the result is the n - d + 1 sliding windows ts[j .. j + d]. |
| Analyze.DelayRaggedExample | code/functions/analyze.py:64 | With ten samples, tau = 2 and d = 3, the rows have lengths 3, 4 and 4, and cannot be stacked. |
| Analyze.DelayMisalignedExample | code/functions/analyze.py:64-65 | Rows of equal length can still be wrong: for [0, 1, 2], tau = 2 and d = 2, the code gives the vector (0, 1), where the corrected reconstruction gives the delay vector (0, 2). |
| Analyze.CorrectedDelaySpec | code/functions/analyze.py:64 | The corrected reconstruction always succeeds, with n - (d - 1) * tau vectors, where vector j, entry i is ts[j + i * tau]. |
| Analyze.CorrectedDelayReconstruction | code/functions/analyze.py:60-64 | The corrected version keeps the same length guard: TooShort exactly when n <= (d - 1) * tau. |
| Analyze.CorrectedAgreesAtUnitDelay | code/functions/analyze.py:64 | With tau = 1, the corrected and the original reconstruction agree. |
| Analyze.CellTypeToNumber | code/functions/analyze.py:68-77 | A code is defined exactly for 'N', 'C', 'E' and 'D' (otherwise KeyError). The code is below 4, and "NCED"[code] is the character (also code/analyze.py:37-38). |
| Analyze.CellTypeToNumberInjective | code/functions/analyze.py:77 | Different cell characters get different codes. |
| Analyze.ConvertRow | code/functions/analyze.py:89 | The vectorized conversion of one row succeeds exactly when every entry is one of 'N', 'C', 'E' and 'D'. The result has the row's length, and each entry is its character's code. |
| Analyze.ConvertRows | code/functions/analyze.py:89 | The same, row by row over the whole matrix, before the size check: success exactly when every entry is a cell letter. |
| Analyze.ConvertMatrix | code/functions/analyze.py:79-90 | Conversion succeeds exactly when the matrix has at least one entry, its rows have one length, and every entry is one of 'N', 'C', 'E' and 'D'. On a matrix without entries, or on a ragged one, np.vectorize raises ValueError. On success, the result has the same shape and each entry is the code of its character (also code/analyze.py:40-42). |
| Analyze.ConvertRaggedFails | code/functions/analyze.py:89 | A ragged matrix, such as [['N'], ['N', 'C']], is the ValueError of np.vectorize even though every entry is a valid letter. |
| Analyze.ConvertGrid | code/functions/analyze.py:79-90 | A grid converts exactly when it has a cell and all its rows have one width, as every 101 x 101 engine grid does. The codes 0, 1, 2 and 3 stand exactly for 'N', 'C', 'E' and 'D'. |
| Analyze.PlotSimulateTumorGrowth | code/functions/analyze.py:93-140 | ok holds exactly when generations > 0, because the assert fails otherwise. The history returned is that of the run from initialize_grid(). |
| Analyze.InitialGridNotEmpty | code/functions/analyze.py:149 | Seeding any position needs a grid with at least one row and one column. |
| Analyze.MetastasisRun | code/functions/analyze.py:153-154 | n metastasis steps keep the grid's shape and record one grid per generation. |
| Analyze.FirstAbove | code/functions/analyze.py:159-160 | Tm is None exactly when no count exceeds the bound. Otherwise Tm is the least generation whose count exceeds it. |
| Analyze.FirstAboveExtend | code/functions/analyze.py:159-160 | Appending a count changes Tm only when Tm is still None and the new count exceeds the bound. Tm then becomes that count's generation. Once set, Tm never changes. |
| Analyze.SimulateAndFindMetastasis | code/functions/analyze.py:142-162 | ok holds exactly when seeding the rows x cols grid succeeds. Then, for each generation g, counts[g] is the number of clusters of a clustering of the grid after g + 1 steps, and Tm is the first generation with more than 50 clusters. |
| Analyze.MetastasisLoop | code/functions/analyze.py:153-160 | After the `for g in range(generations)` loop, for each generation g, counts[g] is the size of a clustering of the grid after g + 1 metastasis steps. Tm is FirstAbove(counts, 50). |

## Left out

- Plotting with matplotlib: the figures, `imshow`, `show` and the colour map in `plot_simulate_tumor_growth`.
- Analyze.PlotSimulateTumorGrowth: the layout error that `plt.subplot(1, min(5, generations // 20), ...)` raises for some counts below 100 (zero columns, or more plots than columns) is not modelled, because it comes from the plotting library.
- `plot_simulate_tumor_growth` of `code/analyze.py:44-67` is not modelled. It calls a thirteen-argument `simulate_tumor_growth_one_step` that no file defines, so it cannot run.
- `random.random()` and its seed: the draws are a parameter sequence `u`. For each draw, the model records which index is read.
- `math.sqrt` and floating point: distances are `root` applied to the exact squared distance, and all arithmetic is on exact reals. Rounding does not appear in the model.
- CaModel.SimulateTumorGrowthOneStepMetastasis: requires an array with at least one row. The grid value of a 0-row array has width 0, so a positive `cols` could not be checked against it. The only caller never reaches the step with such a grid: seeding a grid without rows raises IndexError first (Analyze.InitialGridNotEmpty).
- numpy object and string arrays: a ragged list passed to `np.array` in delay reconstruction is reported as the `Ragged` error, not as an object array.
- Analyze.DelayReconstruction: `tau` is a natural number. Negative delays, which Python slicing would accept, are not modelled.
- Analyze.SimulateAndFindMetastasis: `rows` and `cols` are natural numbers. Negative sizes, which `np.full((ROWS, COLS), 'N')` in `initialize_grid` rejects with ValueError (`code/functions/ca_model.py:21`, reached from `code/functions/analyze.py:149`), are not modelled.
- CellularAutomata.MitosisProbability: requires p != 0.0, where Python would raise ZeroDivisionError. Every caller passes PHI.
- The unused `M` argument of `mitosis` and the unused `time_delay` of the mean-field step: neither can change a result, so neither appears in the model.
- The module constants `GENERATIONS` and `RANDOM_SEED` are not used by any modelled function.
- Import-time sample asserts of `code/functions/ca_model.py` (lines 189-190, 237-239, 284-285) only check the Python type of a result. The model's result types are fixed.
- MeanField.SimulateTumorGrowthOneStep: `density_development(M) > RHO` is evaluated once per step rather than once per 'C' cell. Its value cannot change within a step, and it does not affect the result.
- Clusters.FindClustersIn: the order of the clusters in the list is not fixed by the contract. Only the set of clusters and their number are (ClusteringUnique, ClusteringSameCount).
- CellularAutomata.CornerDivisionFails: the dense phase is a precondition, not a computed fact. With the true square root, a grid with that 'C' corner and at least 26 'E' cells elsewhere is dense: n' = 27 gives 27^3 / 5000 > 3.85. This is not proved, because `root` is abstract. The lemma also asks every draw from index k on to be below p. That is more than needed: only the corner's own division draw matters.

## Findings

| source | as written | input that shows it | evidently intended | confidence | as-written member | corrected member |
|---|---|---|---|---|---|---|
| code/cellular_automata.py:80-81 | The generation scans `range(1, ROWS) x range(1, COLS)`, which includes the last row and the last column. A 'C' cell there that divides in the dense phase tries `(r, c + 1)` or `(r + 1, c)`, which is index 101 of a 101-wide array, and raises IndexError. | A 101 x 101 grid whose only 'C' cell is (100, 100), in the dense phase (e.g. 26 'E' cells elsewhere), with the cell's division draw below p. Quadrant IV, dense: `rt` = (100, 101) is out of range. | Scan `range(1, ROWS - 1) x range(1, COLS - 1)`, as code/functions/ca_model.py does. | not executed | CellularAutomata.CornerDivisionFails | CellularAutomata.CorrectedNeverFails |
| code/functions/analyze.py:64 | Row i is `time_series[i : n - (d - 1 - i) * tau : tau]`, a slice with step tau that starts at i. For tau > 1 and d > 1 this fails in one of two ways. The rows can have different lengths, so `np.array(...).T` cannot stack them. Or the rows are rectangular, but vector j holds ts[i + j * tau] instead of ts[j + i * tau]. The same code is at code/analyze.py:32. | n = 10, tau = 2, d = 3: row lengths 3, 4 and 4 (ragged). n = 3, tau = 2, d = 2: the single vector (x0, x1), not (x0, x2) (Analyze.DelayMisalignedExample). | Row i is `time_series[i * tau : n - (d - 1 - i) * tau]`, so that vector j is (x[j], x[j + tau], ..., x[j + (d - 1) tau]). | not executed | Analyze.DelayRaggedExample | Analyze.CorrectedDelaySpec |
