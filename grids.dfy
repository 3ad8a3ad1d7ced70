/**
 * Cell states, grids, cell counts and grid initialisation of the tumour
 * cellular automaton (initialize_grid, sum_cell_type and calculate_n_prime).
 *
 * A grid is specified as a value (`Grid`, a sequence of rows) and stored by
 * the imperative code as an `array2<Cell>`; `Cells` reads an array as a value.
 */
module Grids {

  /** The four cell states; the program stores them as 'N', 'C', 'E' and 'D'. */
  datatype Cell = Normal | Cancerous | Edge | Dead

  datatype Option<T> = None | Some(value: T)

  /** A (row, column) coordinate. Coordinates outside a grid are values too. */
  type Pos = (int, int)

  /** A grid as a value: its rows, top to bottom. */
  type Grid = seq<seq<Cell>>

  function Width(g: Grid): nat {
    if |g| == 0 then 0 else |g[0]|
  }

  predicate IsGrid(g: Grid, rows: nat, cols: nat) {
    |g| == rows && forall i :: 0 <= i < rows ==> |g[i]| == cols
  }

  /** Every row has the width of the first one. */
  predicate Rect(g: Grid) {
    IsGrid(g, |g|, Width(g))
  }

  predicate SameShape(g: Grid, h: Grid) {
    Rect(g) && Rect(h) && |g| == |h| && Width(g) == Width(h)
  }

  predicate InGrid(g: Grid, p: Pos) {
    0 <= p.0 < |g| && 0 <= p.1 < Width(g)
  }

  /** The grid `g` with the cell at `p` set to `v`. */
  function Set(g: Grid, p: Pos, v: Cell): (h: Grid)
    requires Rect(g) && InGrid(g, p)
    ensures SameShape(g, h)
    ensures forall i, j :: 0 <= i < |g| && 0 <= j < Width(g) ==>
              h[i][j] == if (i, j) == p then v else g[i][j]
  {
    g[p.0 := g[p.0][p.1 := v]]
  }

  /**
   * How numpy reads index `i` on an axis of length `n`: a negative index
   * counts from the end; anything else out of range raises IndexError (None).
   */
  function NpIndex(i: int, n: nat): (r: Option<nat>)
    ensures r.Some? <==> -(n as int) <= i < n
    ensures r.Some? ==> r.value < n && (r.value == i || r.value == i + n)
    ensures 0 <= i ==> (r.Some? <==> i < n) && (r.Some? ==> r.value == i)
  {
    if 0 <= i < n then Some(i) else if -(n as int) <= i < 0 then Some(i + n) else None
  }

  /** The cell that `grid[p]` designates in numpy, or None for IndexError. */
  function Locate(g: Grid, p: Pos): (r: Option<Pos>)
    ensures r.Some? ==> InGrid(g, r.value)
    ensures 0 <= p.0 && 0 <= p.1 ==> (r.Some? <==> InGrid(g, p)) && (r.Some? ==> r.value == p)
  {
    match (NpIndex(p.0, |g|), NpIndex(p.1, Width(g)))
    case (Some(i), Some(j)) => Some((i, j))
    case _ => None
  }

  // ---------------------------------------------------------------------
  // Counting (sum_cell_type, calculate_n_prime)
  // ---------------------------------------------------------------------

  function CountRow(row: seq<Cell>, t: Cell): nat {
    if row == [] then 0
    else CountRow(row[..|row| - 1], t) + (if row[|row| - 1] == t then 1 else 0)
  }

  /** sum_cell_type: the number of cells in state `t`. */
  function Count(g: Grid, t: Cell): nat {
    if g == [] then 0 else Count(g[..|g| - 1], t) + CountRow(g[|g| - 1], t)
  }

  /** calculate_n_prime: the number of cancerous, edge and dead cells. */
  function NPrime(g: Grid): nat {
    Count(g, Cancerous) + Count(g, Edge) + Count(g, Dead)
  }

  lemma {:induction false} RowPartition(row: seq<Cell>)
    ensures CountRow(row, Normal) + CountRow(row, Cancerous) + CountRow(row, Edge)
            + CountRow(row, Dead) == |row|
  {
    if row != [] {
      RowPartition(row[..|row| - 1]);
    }
  }

  /** The four counts of a rows x cols grid add up to rows * cols. */
  lemma {:induction false} CountsPartition(g: Grid, rows: nat, cols: nat)
    requires IsGrid(g, rows, cols)
    ensures Count(g, Normal) + Count(g, Cancerous) + Count(g, Edge) + Count(g, Dead) == rows * cols
  {
    if g != [] {
      CountsPartition(g[..|g| - 1], rows - 1, cols);
      RowPartition(g[|g| - 1]);
      assert (rows - 1) * cols + cols == rows * cols;
    }
  }

  /** n' and the number of normal cells add up to the size of the grid. */
  lemma NPrimeComplement(g: Grid, rows: nat, cols: nat)
    requires IsGrid(g, rows, cols)
    ensures NPrime(g) + Count(g, Normal) == rows * cols
  {
    CountsPartition(g, rows, cols);
  }

  lemma {:induction false} CountRowZero(row: seq<Cell>, t: Cell)
    ensures CountRow(row, t) == 0 <==> forall j :: 0 <= j < |row| ==> row[j] != t
  {
    if row != [] {
      CountRowZero(row[..|row| - 1], t);
    }
  }

  /** A state has count zero exactly when no cell is in it. */
  lemma {:induction false} CountZero(g: Grid, t: Cell)
    ensures Count(g, t) == 0 <==>
            forall i, j :: 0 <= i < |g| && 0 <= j < |g[i]| ==> g[i][j] != t
  {
    if g != [] {
      var init := g[..|g| - 1];
      CountZero(init, t);
      CountRowZero(g[|g| - 1], t);
      forall i | 0 <= i < |init| ensures init[i] == g[i] {
      }
    }
  }

  /** n' is zero exactly when every cell is normal. */
  lemma NPrimeZero(g: Grid)
    ensures NPrime(g) == 0 <==>
            forall i, j :: 0 <= i < |g| && 0 <= j < |g[i]| ==> g[i][j] == Normal
  {
    CountZero(g, Cancerous);
    CountZero(g, Edge);
    CountZero(g, Dead);
  }

  lemma {:induction false} CountRowMonotone(a: seq<Cell>, b: seq<Cell>, t: Cell)
    requires |a| == |b|
    requires forall j :: 0 <= j < |b| && b[j] == t ==> a[j] == t
    ensures CountRow(b, t) <= CountRow(a, t)
  {
    if b != [] {
      CountRowMonotone(a[..|a| - 1], b[..|b| - 1], t);
    }
  }

  /** If every `t` cell of `h` is a `t` cell of `g`, then `h` has no more of them. */
  lemma {:induction false} CountMonotone(g: Grid, h: Grid, t: Cell)
    requires |g| == |h| && forall i :: 0 <= i < |g| ==> |g[i]| == |h[i]|
    requires forall i, j :: 0 <= i < |h| && 0 <= j < |h[i]| && h[i][j] == t ==> g[i][j] == t
    ensures Count(h, t) <= Count(g, t)
  {
    if h != [] {
      var n := |h| - 1;
      CountMonotone(g[..n], h[..n], t);
      CountRowMonotone(g[n], h[n], t);
    }
  }

  // ---------------------------------------------------------------------
  // Arrays as grid values
  // ---------------------------------------------------------------------

  /** The contents of an array grid, as a value. */
  function Cells(a: array2<Cell>): (g: Grid)
    reads a
    ensures IsGrid(g, a.Length0, a.Length1) && Rect(g)
    ensures forall i, j :: 0 <= i < a.Length0 && 0 <= j < a.Length1 ==> g[i][j] == a[i, j]
  {
    seq(a.Length0, i requires 0 <= i < a.Length0 reads a =>
      seq(a.Length1, j requires 0 <= j < a.Length1 reads a => a[i, j]))
  }

  /** The array holds exactly the grid value `g`. */
  ghost predicate Matches(a: array2<Cell>, g: Grid)
    reads a
  {
    IsGrid(g, a.Length0, a.Length1) &&
    forall i, j :: 0 <= i < a.Length0 && 0 <= j < a.Length1 ==> a[i, j] == g[i][j]
  }

  lemma MatchesCells(a: array2<Cell>, g: Grid)
    requires Matches(a, g)
    ensures Cells(a) == g
  {
    var h := Cells(a);
    forall i | 0 <= i < |g| ensures h[i] == g[i] {
    }
  }

  /** `a[i, j] = v` on an array grid, stated on its value. */
  method SetCell(a: array2<Cell>, i: nat, j: nat, v: Cell)
    requires i < a.Length0 && j < a.Length1
    modifies a
    ensures Cells(a) == Set(old(Cells(a)), (i, j), v)
  {
    ghost var g := Cells(a);
    a[i, j] := v;
    assert Matches(a, Set(g, (i, j), v));
    MatchesCells(a, Set(g, (i, j), v));
  }

  /** np.copy: a fresh array holding the same grid. */
  method CopyGrid(a: array2<Cell>) returns (b: array2<Cell>)
    ensures fresh(b) && b.Length0 == a.Length0 && b.Length1 == a.Length1
    ensures Cells(b) == Cells(a)
  {
    b := new Cell[a.Length0, a.Length1]((i, j) reads a => if 0 <= i < a.Length0 && 0 <= j < a.Length1 then a[i, j] else Normal);
    assert Matches(b, Cells(a));
    MatchesCells(b, Cells(a));
  }

  // ---------------------------------------------------------------------
  // initialize_grid
  // ---------------------------------------------------------------------

  function AllNormal(rows: nat, cols: nat): (g: Grid)
    ensures IsGrid(g, rows, cols) && Rect(g)
    ensures forall i, j :: 0 <= i < rows && 0 <= j < cols ==> g[i][j] == Normal
  {
    seq(rows, _ => seq(cols, _ => Normal))
  }

  /** Sets each position of `ps` in turn to 'C'; None when one raises IndexError. */
  function Place(g: Grid, ps: seq<Pos>): (r: Option<Grid>)
    requires Rect(g)
    ensures r.Some? ==> SameShape(g, r.value)
    decreases ps
  {
    if ps == [] then Some(g)
    else match Locate(g, ps[0])
      case None => None
      case Some(q) => Place(Set(g, q, Cancerous), ps[1..])
  }

  /** The grid initialize_grid builds: all 'N', then 'C' at each seed position. */
  function InitialGrid(rows: nat, cols: nat, ps: seq<Pos>): (r: Option<Grid>)
    ensures r.Some? ==> IsGrid(r.value, rows, cols) && Rect(r.value)
  {
    Place(AllNormal(rows, cols), ps)
  }

  lemma {:induction false} PlaceInRange(g: Grid, ps: seq<Pos>)
    requires Rect(g)
    requires forall p :: p in ps ==> InGrid(g, p)
    decreases ps
    ensures Place(g, ps).Some?
    ensures forall i, j :: 0 <= i < |g| && 0 <= j < Width(g) ==>
              Place(g, ps).value[i][j] == if (i, j) in ps then Cancerous else g[i][j]
  {
    if ps != [] {
      var h := Set(g, ps[0], Cancerous);
      assert forall p :: p in ps[1..] ==> p in ps;
      PlaceInRange(h, ps[1..]);
      forall i, j | 0 <= i < |g| && 0 <= j < Width(g)
        ensures Place(g, ps).value[i][j] == if (i, j) in ps then Cancerous else g[i][j]
      {
        assert (i, j) in ps <==> (i, j) == ps[0] || (i, j) in ps[1..];
      }
    }
  }

  lemma {:induction false} PlaceFails(g: Grid, ps: seq<Pos>)
    requires Rect(g)
    ensures Place(g, ps).Some? <==> forall p :: p in ps ==> Locate(g, p).Some?
    decreases ps
  {
    if ps != [] {
      match Locate(g, ps[0])
      case None =>
      case Some(q) =>
        var h := Set(g, q, Cancerous);
        PlaceFails(h, ps[1..]);
        assert forall p :: Locate(h, p) == Locate(g, p);
        assert forall p :: p in ps <==> p == ps[0] || p in ps[1..];
    }
  }

  /**
   * initialize_grid succeeds exactly when every seed position is a valid
   * numpy index, and with in-range seeds its grid is 'C' exactly at the seeds.
   */
  lemma InitialGridSpec(rows: nat, cols: nat, ps: seq<Pos>)
    ensures InitialGrid(rows, cols, ps).Some? <==>
            forall p :: p in ps ==> -(rows as int) <= p.0 < rows && -(cols as int) <= p.1 < cols
    ensures (forall p :: p in ps ==> 0 <= p.0 < rows && 0 <= p.1 < cols) ==>
              InitialGrid(rows, cols, ps).Some? &&
              IsGrid(InitialGrid(rows, cols, ps).value, rows, cols) &&
              forall i, j :: 0 <= i < rows && 0 <= j < cols ==>
                InitialGrid(rows, cols, ps).value[i][j] == if (i, j) in ps then Cancerous else Normal
  {
    var g := AllNormal(rows, cols);
    PlaceFails(g, ps);
    if rows > 0 {
      assert Width(g) == cols;
    }
    if forall p :: p in ps ==> 0 <= p.0 < rows && 0 <= p.1 < cols {
      PlaceInRange(g, ps);
    }
  }

  /** initialize_grid: a fresh rows x cols grid of 'N' with 'C' at each seed. */
  method InitializeGrid(rows: nat, cols: nat, positions: seq<Pos>) returns (M: array2<Cell>, ok: bool)
    ensures fresh(M) && M.Length0 == rows && M.Length1 == cols
    ensures ok == InitialGrid(rows, cols, positions).Some?
    ensures ok ==> Cells(M) == InitialGrid(rows, cols, positions).value
  {
    M := new Cell[rows, cols]((i, j) => Normal);
    ghost var G := AllNormal(rows, cols);
    ok := true;
    for t := 0 to |positions|
      invariant Rect(G) && Matches(M, G)
      invariant |G| == rows && (rows > 0 ==> Width(G) == cols)
      invariant Place(G, positions[t..]) == InitialGrid(rows, cols, positions)
    {
      assert positions[t..][1..] == positions[t + 1..];
      var p := positions[t];
      var i := NpIndex(p.0, rows);
      var j := NpIndex(p.1, cols);
      if i.None? || j.None? {
        assert Locate(G, p).None?;
        ok := false;
        return;
      }
      assert Locate(G, p) == Some((i.value, j.value));
      M[i.value, j.value] := Cancerous;
      G := Set(G, (i.value, j.value), Cancerous);
    }
    assert positions[|positions|..] == [];
    MatchesCells(M, G);
  }
}
