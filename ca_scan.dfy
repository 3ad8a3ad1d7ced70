/**
 * The per-step scan shared by every engine variant: the nested row/column
 * loops of simulate_tumor_growth_one_step (code/functions/ca_model.py,
 * code/ca_model.py), simulate_tumor_growth_one_step_metastasis,
 * simulate_tumor_growth_one_generation (code/cellular_automata.py) and the
 * mean-field step (code/functions/mean_field.py).
 *
 * The scan reads the pre-step grid M, writes the next grid newM, and reads
 * random.random() as the draws u(k), u(k + 1), ... Its meaning is `Scan`, a
 * fold of `CellRule` over the scanned positions in row-major order.
 */
module CaScan {
  import opened Grids
  import opened CaMitosis

  /**
   * What a cancer cell does when its division draw succeeds: divide into a
   * neighbour (mitosis of ca_model) or stay 'C' in place (mean_field's mitosis).
   */
  datatype Division = Directional | InPlace

  /** The thresholds of the four branches: mitosis, C -> E, E -> D and D -> N. */
  datatype Rates = Rates(p: real, k2: real, k3: real, k4: real)

  /** The next grid and the index of the next unused draw. */
  datatype ScanState = ScanState(grid: Grid, next: nat)

  /** 'E' and 'D' never change through division; other cells may only become 'C'. */
  predicate Stable(v: Cell, w: Cell) {
    w == v || (!Blocks(v) && w == Cancerous)
  }

  lemma StableTransitive(a: Cell, b: Cell, c: Cell)
    requires Stable(a, b) && Stable(b, c)
    ensures Stable(a, c)
  {
  }

  /**
   * The body of the scan loops for the cell at `pos`: the branch is chosen
   * by the pre-step grid M, the writes go to the next grid G. None is
   * IndexError raised by a division.
   */
  function CellRule(M: Grid, G: Grid, pos: Pos, u: nat -> real, k: nat, rates: Rates,
                    dense: bool, div: Division): (s: Option<ScanState>)
    requires SameShape(M, G) && InGrid(M, pos)
    ensures s.Some? ==> SameShape(M, s.value.grid)
  {
    match M[pos.0][pos.1]
    case Cancerous =>
      if u(k) < rates.p then
        if div == InPlace then Some(ScanState(Set(G, pos, Cancerous), k + 1))
        else match Divided(G, pos.0, pos.1, dense)
          case None => None
          case Some(h) => Some(ScanState(h, k + 1))
      else if u(k + 1) < rates.k2 then Some(ScanState(Set(G, pos, Edge), k + 2))
      else Some(ScanState(G, k + 2))
    case Edge =>
      if u(k) < rates.k3 then Some(ScanState(Set(G, pos, Dead), k + 1)) else Some(ScanState(G, k + 1))
    case Dead =>
      if u(k) < rates.k4 then Some(ScanState(Set(G, pos, Normal), k + 1)) else Some(ScanState(G, k + 1))
    case Normal =>
      Some(ScanState(G, k))
  }

  /** The draws a cell consumes: none for 'N', one for 'E' and 'D', one or two for 'C'. */
  function CellDraws(v: Cell, u: nat -> real, k: nat, p: real): nat {
    match v
    case Normal => 0
    case Edge => 1
    case Dead => 1
    case Cancerous => if u(k) < p then 1 else 2
  }

  predicate AllInGrid(M: Grid, ps: seq<Pos>) {
    Rect(M) && forall t :: 0 <= t < |ps| ==> InGrid(M, ps[t])
  }

  /** The index of the first draw after scanning `ps`; it depends on M only, not on newM. */
  function ScanDraws(M: Grid, ps: seq<Pos>, u: nat -> real, k: nat, p: real): nat
    requires AllInGrid(M, ps)
    decreases |ps|
  {
    if ps == [] then k
    else ScanDraws(M, ps[1..], u, k + CellDraws(M[ps[0].0][ps[0].1], u, k, p), p)
  }

  /** The scan over `ps`, in order, from next grid G and draw index k. */
  function Scan(M: Grid, G: Grid, ps: seq<Pos>, u: nat -> real, k: nat, rates: Rates,
                dense: bool, div: Division): (s: Option<ScanState>)
    requires SameShape(M, G) && AllInGrid(M, ps)
    ensures s.Some? ==> SameShape(M, s.value.grid)
    ensures s.Some? ==> s.value.next == ScanDraws(M, ps, u, k, rates.p)
    decreases |ps|
  {
    if ps == [] then Some(ScanState(G, k))
    else match CellRule(M, G, ps[0], u, k, rates, dense, div)
      case None => None
      case Some(s1) => Scan(M, s1.grid, ps[1..], u, s1.next, rates, dense, div)
  }

  // ---------------------------------------------------------------------
  // The scanned positions: range(1, rEnd) x range(1, cEnd), row by row
  // ---------------------------------------------------------------------

  function RowFrom(r: int, c: int, cEnd: int): seq<Pos>
    decreases cEnd - c
  {
    if c >= cEnd then [] else [(r, c)] + RowFrom(r, c + 1, cEnd)
  }

  function RowsFrom(r: int, rEnd: int, cEnd: int): seq<Pos>
    decreases rEnd - r
  {
    if r >= rEnd then [] else RowFrom(r, 1, cEnd) + RowsFrom(r + 1, rEnd, cEnd)
  }

  /** The positions `for r in range(1, rEnd): for c in range(1, cEnd)` visits. */
  function Interior(rEnd: int, cEnd: int): seq<Pos> {
    RowsFrom(1, rEnd, cEnd)
  }

  predicate Distinct(ps: seq<Pos>) {
    forall s, t :: 0 <= s < t < |ps| ==> ps[s] != ps[t]
  }

  lemma {:induction false} RowFromSpec(r: int, c: int, cEnd: int)
    ensures forall p :: p in RowFrom(r, c, cEnd) <==> p.0 == r && c <= p.1 < cEnd
    ensures Distinct(RowFrom(r, c, cEnd))
    decreases cEnd - c
  {
    if c < cEnd {
      RowFromSpec(r, c + 1, cEnd);
    }
  }

  lemma DistinctConcat(a: seq<Pos>, b: seq<Pos>)
    requires Distinct(a) && Distinct(b)
    requires forall p :: p in a ==> p !in b
    ensures Distinct(a + b)
  {
    forall s, t | 0 <= s < t < |a + b| ensures (a + b)[s] != (a + b)[t] {
      if s < |a| && t >= |a| {
        assert (a + b)[s] in a && (a + b)[t] == b[t - |a|];
      }
    }
  }

  lemma {:induction false} RowsFromSpec(r: int, rEnd: int, cEnd: int)
    ensures forall p :: p in RowsFrom(r, rEnd, cEnd) <==> r <= p.0 < rEnd && 1 <= p.1 < cEnd
    ensures Distinct(RowsFrom(r, rEnd, cEnd))
    decreases rEnd - r
  {
    if r < rEnd {
      RowFromSpec(r, 1, cEnd);
      RowsFromSpec(r + 1, rEnd, cEnd);
      DistinctConcat(RowFrom(r, 1, cEnd), RowsFrom(r + 1, rEnd, cEnd));
    }
  }

  /** The positions of row r lie in a grid with more than r rows and at least cEnd columns. */
  lemma RowFromInGrid(M: Grid, r: int, cEnd: int)
    requires Rect(M) && 0 <= r < |M| && cEnd <= Width(M)
    ensures AllInGrid(M, RowFrom(r, 1, cEnd))
  {
    RowFromSpec(r, 1, cEnd);
    var ps := RowFrom(r, 1, cEnd);
    assert forall t :: 0 <= t < |ps| ==> ps[t] in ps;
  }

  /** The scanned positions lie in a grid with at least rEnd rows and cEnd columns. */
  lemma InteriorInGrid(M: Grid, rEnd: int, cEnd: int)
    requires Rect(M) && rEnd <= |M| && cEnd <= Width(M)
    ensures AllInGrid(M, Interior(rEnd, cEnd))
  {
    InteriorSpec(rEnd, cEnd);
    var ps := Interior(rEnd, cEnd);
    assert forall t :: 0 <= t < |ps| ==> ps[t] in ps;
  }

  /** The scan visits each position of range(1, rEnd) x range(1, cEnd) exactly once. */
  lemma InteriorSpec(rEnd: int, cEnd: int)
    ensures forall p :: p in Interior(rEnd, cEnd) <==> 1 <= p.0 < rEnd && 1 <= p.1 < cEnd
    ensures Distinct(Interior(rEnd, cEnd))
  {
    RowsFromSpec(1, rEnd, cEnd);
  }

  // ---------------------------------------------------------------------
  // Properties of the scan
  // ---------------------------------------------------------------------

  /** Scanning a + b is scanning a, then scanning b from where a stopped. */
  lemma {:induction false} ScanConcat(M: Grid, G: Grid, a: seq<Pos>, b: seq<Pos>, u: nat -> real, k: nat,
                                      rates: Rates, dense: bool, div: Division)
    requires SameShape(M, G) && AllInGrid(M, a) && AllInGrid(M, b)
    ensures AllInGrid(M, a + b)
    ensures Scan(M, G, a + b, u, k, rates, dense, div) ==
            match Scan(M, G, a, u, k, rates, dense, div)
            case None => None
            case Some(s) => Scan(M, s.grid, b, u, s.next, rates, dense, div)
    decreases |a|
  {
    assert AllInGrid(M, a + b) by {
      forall t | 0 <= t < |a + b| ensures InGrid(M, (a + b)[t]) {
        if t < |a| { assert (a + b)[t] == a[t]; } else { assert (a + b)[t] == b[t - |a|]; }
      }
    }
    if a != [] {
      assert (a + b)[0] == a[0] && (a + b)[1..] == a[1..] + b;
      match CellRule(M, G, a[0], u, k, rates, dense, div)
      case None =>
      case Some(s1) =>
        ScanConcat(M, s1.grid, a[1..], b, u, s1.next, rates, dense, div);
    } else {
      assert a + b == b;
    }
  }

  /** Draw counting splits the same way. */
  lemma {:induction false} ScanDrawsConcat(M: Grid, a: seq<Pos>, b: seq<Pos>, u: nat -> real, k: nat, p: real)
    requires AllInGrid(M, a) && AllInGrid(M, b) && AllInGrid(M, a + b)
    ensures ScanDraws(M, a + b, u, k, p) == ScanDraws(M, b, u, ScanDraws(M, a, u, k, p), p)
    decreases |a|
  {
    if a != [] {
      assert (a + b)[0] == a[0] && (a + b)[1..] == a[1..] + b;
      ScanDrawsConcat(M, a[1..], b, u, k + CellDraws(M[a[0].0][a[0].1], u, k, p), p);
    } else {
      assert a + b == b;
    }
  }

  /**
   * The draws of the t-th scanned cell start where the cells before it
   * stopped, and the cell consumes CellDraws of them.
   */
  lemma DrawsPerCell(M: Grid, ps: seq<Pos>, t: nat, u: nat -> real, k: nat, p: real)
    requires AllInGrid(M, ps) && t < |ps|
    ensures AllInGrid(M, ps[..t]) && AllInGrid(M, ps[..t + 1])
    ensures ScanDraws(M, ps[..t + 1], u, k, p) ==
            ScanDraws(M, ps[..t], u, k, p) +
            CellDraws(M[ps[t].0][ps[t].1], u, ScanDraws(M, ps[..t], u, k, p), p)
  {
    assert ps[..t + 1] == ps[..t] + [ps[t]];
    assert AllInGrid(M, [ps[t]]);
    ScanDrawsConcat(M, ps[..t], [ps[t]], u, k, p);
    assert [ps[t]][1..] == [];
  }

  /**
   * One cell's update leaves every other cell stable: at most a division
   * into it, which turns a non-'E'/'D' cell into 'C'.
   */
  lemma CellRuleFrame(M: Grid, G: Grid, q: Pos, u: nat -> real, k: nat, rates: Rates, dense: bool, div: Division)
    requires SameShape(M, G) && InGrid(M, q) && 1 <= q.0 && 1 <= q.1
    requires CellRule(M, G, q, u, k, rates, dense, div).Some?
    ensures var h := CellRule(M, G, q, u, k, rates, dense, div).value.grid;
            forall i, j :: 0 <= i < |G| && 0 <= j < Width(G) && (i, j) != q ==> Stable(G[i][j], h[i][j])
    ensures M[q.0][q.1] == Normal ==> CellRule(M, G, q, u, k, rates, dense, div).value.grid == G
  {
    if M[q.0][q.1] == Cancerous && u(k) < rates.p && div == Directional {
      DividedChangesOneNeighbour(G, q.0, q.1, dense);
    }
  }

  predicate Positive(ps: seq<Pos>) {
    forall t :: 0 <= t < |ps| ==> 1 <= ps[t].0 && 1 <= ps[t].1
  }

  /**
   * A cell the scan does not visit, or a visited 'N' cell, changes only
   * through division: 'E' and 'D' stay, anything else may become 'C'.
   */
  lemma {:induction false} ScanFrame(M: Grid, G: Grid, ps: seq<Pos>, u: nat -> real, k: nat,
                                     rates: Rates, dense: bool, div: Division, i: int, j: int)
    requires SameShape(M, G) && AllInGrid(M, ps) && Positive(ps)
    requires Scan(M, G, ps, u, k, rates, dense, div).Some?
    requires 0 <= i < |G| && 0 <= j < Width(G) && ((i, j) !in ps || M[i][j] == Normal)
    ensures Stable(G[i][j], Scan(M, G, ps, u, k, rates, dense, div).value.grid[i][j])
    decreases |ps|
  {
    if ps != [] {
      var s1 := CellRule(M, G, ps[0], u, k, rates, dense, div).value;
      CellRuleFrame(M, G, ps[0], u, k, rates, dense, div);
      assert (i, j) !in ps ==> (i, j) !in ps[1..] && (i, j) != ps[0];
      ScanFrame(M, s1.grid, ps[1..], u, s1.next, rates, dense, div, i, j);
      StableTransitive(G[i][j], s1.grid[i][j], Scan(M, G, ps, u, k, rates, dense, div).value.grid[i][j]);
    }
  }

  /** Positions whose four neighbours all lie inside the grid. */
  predicate Inner(M: Grid, ps: seq<Pos>) {
    forall t :: 0 <= t < |ps| ==> 1 <= ps[t].0 < |M| - 1 && 1 <= ps[t].1 < Width(M) - 1
  }

  /** A cell away from the border never raises IndexError. */
  lemma CellRuleInnerSucceeds(M: Grid, G: Grid, q: Pos, u: nat -> real, k: nat,
                              rates: Rates, dense: bool, div: Division)
    requires SameShape(M, G) && 1 <= q.0 < |M| - 1 && 1 <= q.1 < Width(M) - 1
    ensures InGrid(M, q) && CellRule(M, G, q, u, k, rates, dense, div).Some?
  {
    if M[q.0][q.1] == Cancerous && u(k) < rates.p && div == Directional {
      DividedCases(G, q.0, q.1, dense);
    }
  }

  /** A scan of positions away from the border never raises IndexError. */
  lemma {:induction false} ScanInnerSucceeds(M: Grid, G: Grid, ps: seq<Pos>, u: nat -> real, k: nat,
                                             rates: Rates, dense: bool, div: Division)
    requires SameShape(M, G) && Inner(M, ps)
    ensures AllInGrid(M, ps)
    ensures Scan(M, G, ps, u, k, rates, dense, div).Some?
    decreases |ps|
  {
    if ps != [] {
      CellRuleInnerSucceeds(M, G, ps[0], u, k, rates, dense, div);
      var s1 := CellRule(M, G, ps[0], u, k, rates, dense, div).value;
      ScanInnerSucceeds(M, s1.grid, ps[1..], u, s1.next, rates, dense, div);
    }
  }

  /** Every division at `ps` finds both of its candidates inside the grid. */
  predicate SafeDivisions(M: Grid, ps: seq<Pos>, dense: bool) {
    forall t :: 0 <= t < |ps| ==>
      InGrid(M, ps[t]) &&
      Locate(M, Choices(ps[t].0, ps[t].1, dense)[0]).Some? &&
      Locate(M, Choices(ps[t].0, ps[t].1, dense)[1]).Some?
  }

  /** A cell whose two candidates are in range never raises IndexError. */
  lemma CellRuleSafeSucceeds(M: Grid, G: Grid, q: Pos, u: nat -> real, k: nat,
                             rates: Rates, dense: bool, div: Division)
    requires SameShape(M, G) && InGrid(M, q)
    requires Locate(M, Choices(q.0, q.1, dense)[0]).Some? && Locate(M, Choices(q.0, q.1, dense)[1]).Some?
    ensures CellRule(M, G, q, u, k, rates, dense, div).Some?
  {
    var cs := Choices(q.0, q.1, dense);
    assert Locate(G, cs[0]) == Locate(M, cs[0]) && Locate(G, cs[1]) == Locate(M, cs[1]);
    DividedCases(G, q.0, q.1, dense);
  }

  /** A scan whose every division has its candidates in range never raises IndexError. */
  lemma {:induction false} ScanSafeSucceeds(M: Grid, G: Grid, ps: seq<Pos>, u: nat -> real, k: nat,
                                            rates: Rates, dense: bool, div: Division)
    requires SameShape(M, G) && SafeDivisions(M, ps, dense)
    ensures AllInGrid(M, ps)
    ensures Scan(M, G, ps, u, k, rates, dense, div).Some?
    decreases |ps|
  {
    if ps != [] {
      CellRuleSafeSucceeds(M, G, ps[0], u, k, rates, dense, div);
      var s1 := CellRule(M, G, ps[0], u, k, rates, dense, div).value;
      assert forall t :: 0 <= t < |ps| - 1 ==> ps[1..][t] == ps[t + 1];
      ScanSafeSucceeds(M, s1.grid, ps[1..], u, s1.next, rates, dense, div);
    }
  }

  /** Scanning only 'N' cells changes nothing and consumes no draw. */
  lemma {:induction false} ScanAllNormal(M: Grid, G: Grid, ps: seq<Pos>, u: nat -> real, k: nat,
                                         rates: Rates, dense: bool, div: Division)
    requires SameShape(M, G) && AllInGrid(M, ps)
    requires forall t :: 0 <= t < |ps| ==> M[ps[t].0][ps[t].1] == Normal
    ensures Scan(M, G, ps, u, k, rates, dense, div) == Some(ScanState(G, k))
    decreases |ps|
  {
    if ps != [] {
      assert forall t :: 0 <= t < |ps| - 1 ==> ps[1..][t] == ps[t + 1];
      ScanAllNormal(M, G, ps[1..], u, k, rates, dense, div);
    }
  }

  lemma {:induction false} RowFromLast(r: int, c: int, cEnd: int)
    requires c < cEnd
    ensures |RowFrom(r, c, cEnd)| > 0 && RowFrom(r, c, cEnd)[|RowFrom(r, c, cEnd)| - 1] == (r, cEnd - 1)
    decreases cEnd - c
  {
    var rest := RowFrom(r, c + 1, cEnd);
    assert RowFrom(r, c, cEnd) == [(r, c)] + rest;
    if c + 1 < cEnd {
      RowFromLast(r, c + 1, cEnd);
      assert ([(r, c)] + rest)[|rest|] == rest[|rest| - 1];
    } else {
      assert rest == [];
    }
  }

  lemma {:induction false} RowsFromLast(r: int, rEnd: int, cEnd: int)
    requires r < rEnd && 1 < cEnd
    ensures |RowsFrom(r, rEnd, cEnd)| > 0
    ensures RowsFrom(r, rEnd, cEnd)[|RowsFrom(r, rEnd, cEnd)| - 1] == (rEnd - 1, cEnd - 1)
    decreases rEnd - r
  {
    var a, b := RowFrom(r, 1, cEnd), RowsFrom(r + 1, rEnd, cEnd);
    RowFromLast(r, 1, cEnd);
    if r + 1 < rEnd {
      RowsFromLast(r + 1, rEnd, cEnd);
      assert (a + b)[|a + b| - 1] == b[|b| - 1];
    } else {
      assert b == [];
      assert a + b == a;
    }
  }

  /** The last position the scan visits is (rEnd - 1, cEnd - 1). */
  lemma InteriorLast(rEnd: int, cEnd: int)
    requires 1 < rEnd && 1 < cEnd
    ensures |Interior(rEnd, cEnd)| > 0 && Interior(rEnd, cEnd)[|Interior(rEnd, cEnd)| - 1] == (rEnd - 1, cEnd - 1)
  {
    RowsFromLast(1, rEnd, cEnd);
  }

  /** What one cell's update does to that cell itself. */
  lemma CellRuleSelf(M: Grid, G: Grid, p: Pos, u: nat -> real, k: nat, rates: Rates, dense: bool, div: Division)
    requires SameShape(M, G) && InGrid(M, p) && 1 <= p.0 && 1 <= p.1
    requires CellRule(M, G, p, u, k, rates, dense, div).Some?
    ensures var v := G[p.0][p.1];
            var w := CellRule(M, G, p, u, k, rates, dense, div).value.grid[p.0][p.1];
            match M[p.0][p.1]
            case Cancerous => v == Cancerous ==>
                                (w == Cancerous || w == Edge) && (w == Edge <==> u(k) >= rates.p && u(k + 1) < rates.k2)
            case Edge => w == if u(k) < rates.k3 then Dead else v
            case Dead => w == if u(k) < rates.k4 then Normal else v
            case Normal => w == v
  {
    if M[p.0][p.1] == Cancerous && u(k) < rates.p && div == Directional {
      DividedChangesOneNeighbour(G, p.0, p.1, dense);
    }
  }

  /**
   * The scan of ps, cut at its t-th position: the scan of the positions
   * before it, the rule of the t-th cell, then the scan of the rest.
   */
  lemma ScanSplit(M: Grid, G: Grid, ps: seq<Pos>, t: nat, u: nat -> real, k: nat,
                  rates: Rates, dense: bool, div: Division)
    requires SameShape(M, G) && AllInGrid(M, ps) && t < |ps|
    requires Scan(M, G, ps, u, k, rates, dense, div).Some?
    ensures AllInGrid(M, ps[..t]) && AllInGrid(M, ps[t + 1..])
    ensures Scan(M, G, ps[..t], u, k, rates, dense, div).Some?
    ensures var s1 := Scan(M, G, ps[..t], u, k, rates, dense, div).value;
            && s1.next == ScanDraws(M, ps[..t], u, k, rates.p)
            && CellRule(M, s1.grid, ps[t], u, s1.next, rates, dense, div).Some?
            && var s2 := CellRule(M, s1.grid, ps[t], u, s1.next, rates, dense, div).value;
               Scan(M, G, ps, u, k, rates, dense, div) == Scan(M, s2.grid, ps[t + 1..], u, s2.next, rates, dense, div)
  {
    var p := ps[t];
    var pre, post := ps[..t], ps[t + 1..];
    assert AllInGrid(M, pre) && AllInGrid(M, [p] + post) && AllInGrid(M, post);
    assert ps == pre + ([p] + post);
    ScanConcat(M, G, pre, [p] + post, u, k, rates, dense, div);
    assert ([p] + post)[0] == p && ([p] + post)[1..] == post;
  }

  /** The case analysis behind ScanTransition, on the cell values alone. */
  lemma TransitionCases(m: Cell, v1: Cell, v2: Cell, w: Cell, a: real, b: real, rates: Rates)
    requires Stable(m, v1) && Stable(v2, w)
    requires match m
             case Cancerous => v1 == Cancerous ==>
                                 (v2 == Cancerous || v2 == Edge) && (v2 == Edge <==> a >= rates.p && b < rates.k2)
             case Edge => v2 == if a < rates.k3 then Dead else v1
             case Dead => v2 == if a < rates.k4 then Normal else v1
             case Normal => v2 == v1
    ensures match m
            case Cancerous => (w == Cancerous || w == Edge) && (w == Edge <==> a >= rates.p && b < rates.k2)
            case Edge => (w == Edge || w == Dead) && (w == Dead <==> a < rates.k3)
            case Dead => if a < rates.k4 then w == Normal || w == Cancerous else w == Dead
            case Normal => w == Normal || w == Cancerous
  {
  }

  /**
   * What becomes of the t-th scanned cell, whose draws start at index kt:
   * 'C' ends 'C', or 'E' exactly when its division draw fails and its second
   * draw is below k2; 'E' ends 'D' exactly on a draw below k3; 'D' ends 'N'
   * (or 'C' through a later division) on a draw below k4 and stays 'D'
   * otherwise; 'N' ends 'N' or 'C'.
   */
  lemma ScanTransition(M: Grid, G: Grid, ps: seq<Pos>, t: nat, u: nat -> real, k: nat,
                       rates: Rates, dense: bool, div: Division)
    requires SameShape(M, G) && AllInGrid(M, ps) && Positive(ps) && Distinct(ps) && t < |ps|
    requires G[ps[t].0][ps[t].1] == M[ps[t].0][ps[t].1]
    requires Scan(M, G, ps, u, k, rates, dense, div).Some?
    ensures AllInGrid(M, ps[..t])
    ensures var kt := ScanDraws(M, ps[..t], u, k, rates.p);
            var w := Scan(M, G, ps, u, k, rates, dense, div).value.grid[ps[t].0][ps[t].1];
            match M[ps[t].0][ps[t].1]
            case Cancerous => (w == Cancerous || w == Edge) && (w == Edge <==> u(kt) >= rates.p && u(kt + 1) < rates.k2)
            case Edge => (w == Edge || w == Dead) && (w == Dead <==> u(kt) < rates.k3)
            case Dead => if u(kt) < rates.k4 then w == Normal || w == Cancerous else w == Dead
            case Normal => w == Normal || w == Cancerous
  {
    var p := ps[t];
    var pre, post := ps[..t], ps[t + 1..];
    ScanSplit(M, G, ps, t, u, k, rates, dense, div);
    assert Positive(pre) && Positive(post);
    assert p !in pre && p !in post by {
      forall s | 0 <= s < |pre| ensures pre[s] != p { assert pre[s] == ps[s]; }
      forall s | 0 <= s < |post| ensures post[s] != p { assert post[s] == ps[t + 1 + s]; }
    }
    var s1 := Scan(M, G, pre, u, k, rates, dense, div).value;
    var s2 := CellRule(M, s1.grid, p, u, s1.next, rates, dense, div).value;
    var w := Scan(M, s2.grid, post, u, s2.next, rates, dense, div).value.grid[p.0][p.1];
    assert Stable(M[p.0][p.1], s1.grid[p.0][p.1]) by {
      ScanFrame(M, G, pre, u, k, rates, dense, div, p.0, p.1);
    }
    assert Stable(s2.grid[p.0][p.1], w) by {
      ScanFrame(M, s2.grid, post, u, s2.next, rates, dense, div, p.0, p.1);
    }
    CellThenStable(M, s1.grid, p, u, s1.next, rates, dense, div, w);
  }

  /** ScanTransition for one cell: a stable value before its rule, the rule, then a stable value after it. */
  lemma CellThenStable(M: Grid, G: Grid, p: Pos, u: nat -> real, k: nat, rates: Rates, dense: bool, div: Division,
                       w: Cell)
    requires SameShape(M, G) && InGrid(M, p) && 1 <= p.0 && 1 <= p.1
    requires CellRule(M, G, p, u, k, rates, dense, div).Some?
    requires Stable(M[p.0][p.1], G[p.0][p.1])
    requires Stable(CellRule(M, G, p, u, k, rates, dense, div).value.grid[p.0][p.1], w)
    ensures match M[p.0][p.1]
            case Cancerous => (w == Cancerous || w == Edge) && (w == Edge <==> u(k) >= rates.p && u(k + 1) < rates.k2)
            case Edge => (w == Edge || w == Dead) && (w == Dead <==> u(k) < rates.k3)
            case Dead => if u(k) < rates.k4 then w == Normal || w == Cancerous else w == Dead
            case Normal => w == Normal || w == Cancerous
  {
    CellRuleSelf(M, G, p, u, k, rates, dense, div);
    var v2 := CellRule(M, G, p, u, k, rates, dense, div).value.grid[p.0][p.1];
    TransitionCases(M[p.0][p.1], G[p.0][p.1], v2, w, u(k), u(k + 1), rates);
  }

  /**
   * In the mean-field variant a cell ends 'C' only where the pre-step grid
   * or the starting next grid already had 'C'.
   */
  lemma {:induction false} InPlaceNoNewCancer(M: Grid, G: Grid, ps: seq<Pos>, u: nat -> real, k: nat,
                                              rates: Rates, dense: bool)
    requires SameShape(M, G) && AllInGrid(M, ps)
    requires Scan(M, G, ps, u, k, rates, dense, InPlace).Some?
    ensures var h := Scan(M, G, ps, u, k, rates, dense, InPlace).value.grid;
            forall i, j :: 0 <= i < |G| && 0 <= j < Width(G) && h[i][j] == Cancerous ==>
              G[i][j] == Cancerous || M[i][j] == Cancerous
    decreases |ps|
  {
    if ps != [] {
      var s1 := CellRule(M, G, ps[0], u, k, rates, dense, InPlace).value;
      InPlaceNoNewCancer(M, s1.grid, ps[1..], u, s1.next, rates, dense);
    }
  }

  /**
   * One pass of the loop body at (r, c): branch on M[r, c], draw, write
   * newM. ok = false is the IndexError a division raises.
   */
  method ScanCell(M: array2<Cell>, newM: array2<Cell>, r: nat, c: nat, u: nat -> real, k: nat,
                  rates: Rates, dense: bool, div: Division) returns (next: nat, ok: bool)
    requires M != newM && M.Length0 == newM.Length0 && M.Length1 == newM.Length1
    requires r < M.Length0 && c < M.Length1
    modifies newM
    ensures InGrid(Cells(M), (r, c))
    ensures var s := CellRule(Cells(M), old(Cells(newM)), (r, c), u, k, rates, dense, div);
            ok == s.Some? && (ok ==> Cells(newM) == s.value.grid && next == s.value.next)
  {
    next := k;
    var cell := M[r, c];
    if cell == Cancerous {
      var draw := u(next);
      if draw < rates.p {
        if div == InPlace {
          SetCell(newM, r, c, Cancerous);
        } else {
          var divided := Mitosis(newM, r, c, dense);
          if !divided {
            return next, false;
          }
        }
        next := next + 1;
      } else {
        var second := u(next + 1);
        if second < rates.k2 {
          SetCell(newM, r, c, Edge);
        }
        next := next + 2;
      }
    } else if cell == Edge {
      var draw := u(next);
      if draw < rates.k3 {
        SetCell(newM, r, c, Dead);
      }
      next := next + 1;
    } else if cell == Dead {
      var draw := u(next);
      if draw < rates.k4 {
        SetCell(newM, r, c, Normal);
      }
      next := next + 1;
    }
    ok := true;
  }

  /** Scanning rows r .. rEnd - 1 is scanning row r, then the rows after it. */
  lemma RowsFromStep(M: Grid, G: Grid, r: int, rEnd: int, cEnd: int, u: nat -> real, k: nat,
                     rates: Rates, dense: bool, div: Division)
    requires SameShape(M, G) && AllInGrid(M, RowsFrom(r, rEnd, cEnd)) && r < rEnd
    ensures AllInGrid(M, RowFrom(r, 1, cEnd)) && AllInGrid(M, RowsFrom(r + 1, rEnd, cEnd))
    ensures Scan(M, G, RowsFrom(r, rEnd, cEnd), u, k, rates, dense, div) ==
            match Scan(M, G, RowFrom(r, 1, cEnd), u, k, rates, dense, div)
            case None => None
            case Some(s) => Scan(M, s.grid, RowsFrom(r + 1, rEnd, cEnd), u, s.next, rates, dense, div)
  {
    var a, b := RowFrom(r, 1, cEnd), RowsFrom(r + 1, rEnd, cEnd);
    assert RowsFrom(r, rEnd, cEnd) == a + b;
    assert AllInGrid(M, a) by {
      forall t | 0 <= t < |a| ensures InGrid(M, a[t]) { assert a[t] == (a + b)[t]; }
    }
    assert AllInGrid(M, b) by {
      forall t | 0 <= t < |b| ensures InGrid(M, b[t]) { assert b[t] == (a + b)[|a| + t]; }
    }
    ScanConcat(M, G, a, b, u, k, rates, dense, div);
  }

  /** Scanning (r, c) .. (r, cEnd - 1) is the rule at (r, c), then the rest of the row. */
  lemma RowFromStep(M: Grid, G: Grid, r: int, c: int, cEnd: int, u: nat -> real, k: nat,
                    rates: Rates, dense: bool, div: Division)
    requires SameShape(M, G) && AllInGrid(M, RowFrom(r, c, cEnd)) && c < cEnd
    ensures InGrid(M, (r, c)) && AllInGrid(M, RowFrom(r, c + 1, cEnd))
    ensures Scan(M, G, RowFrom(r, c, cEnd), u, k, rates, dense, div) ==
            match CellRule(M, G, (r, c), u, k, rates, dense, div)
            case None => None
            case Some(s) => Scan(M, s.grid, RowFrom(r, c + 1, cEnd), u, s.next, rates, dense, div)
  {
    var ps := RowFrom(r, c, cEnd);
    assert ps[0] == (r, c) && ps[1..] == RowFrom(r, c + 1, cEnd);
    assert forall t :: 0 <= t < |ps| - 1 ==> ps[1..][t] == ps[t + 1];
  }

  /** The inner loop of the scan: `for c in range(1, cEnd)` on row r. */
  method ScanRow(M: array2<Cell>, newM: array2<Cell>, r: nat, cEnd: int, u: nat -> real, k: nat,
                 rates: Rates, dense: bool, div: Division) returns (next: nat, ok: bool)
    requires M != newM && M.Length0 == newM.Length0 && M.Length1 == newM.Length1
    requires r < M.Length0 && cEnd <= M.Length1
    modifies newM
    ensures AllInGrid(Cells(M), RowFrom(r, 1, cEnd))
    ensures var s := Scan(Cells(M), old(Cells(newM)), RowFrom(r, 1, cEnd), u, k, rates, dense, div);
            ok == s.Some? && (ok ==> Cells(newM) == s.value.grid && next == s.value.next)
  {
    ghost var Mv := Cells(M);
    if 0 < M.Length0 {
      assert Width(Mv) == M.Length1;
    }
    RowFromInGrid(Mv, r, cEnd);
    ghost var result := Scan(Mv, Cells(newM), RowFrom(r, 1, cEnd), u, k, rates, dense, div);
    next := k;
    var c := 1;
    while c < cEnd
      invariant 1 <= c && Cells(M) == Mv
      invariant SameShape(Mv, Cells(newM))
      invariant AllInGrid(Mv, RowFrom(r, c, cEnd))
      invariant Scan(Mv, Cells(newM), RowFrom(r, c, cEnd), u, next, rates, dense, div) == result
      decreases cEnd - c
    {
      ghost var G := Cells(newM);
      ghost var cell := CellRule(Mv, G, (r, c), u, next, rates, dense, div);
      RowFromStep(Mv, G, r, c, cEnd, u, next, rates, dense, div);
      var ok1;
      next, ok1 := ScanCell(M, newM, r, c, u, next, rates, dense, div);
      if !ok1 {
        assert result == None;
        return next, false;
      }
      assert Cells(newM) == cell.value.grid && next == cell.value.next;
      c := c + 1;
    }
    assert RowFrom(r, c, cEnd) == [];
    return next, true;
  }

  /**
   * The scan loops: `for r in range(1, rEnd): for c in range(1, cEnd)`,
   * branching on M[r, c] and writing newM. ok = false is the IndexError a
   * division raises.
   */
  method ScanInterior(M: array2<Cell>, newM: array2<Cell>, rEnd: int, cEnd: int, u: nat -> real, k: nat,
                      rates: Rates, dense: bool, div: Division) returns (next: nat, ok: bool)
    requires M != newM && M.Length0 == newM.Length0 && M.Length1 == newM.Length1
    requires rEnd <= M.Length0 && cEnd <= M.Length1
    modifies newM
    ensures AllInGrid(Cells(M), Interior(rEnd, cEnd))
    ensures var s := Scan(Cells(M), old(Cells(newM)), Interior(rEnd, cEnd), u, k, rates, dense, div);
            ok == s.Some? && (ok ==> Cells(newM) == s.value.grid && next == s.value.next)
  {
    ghost var Mv := Cells(M);
    if 0 < M.Length0 {
      assert Width(Mv) == M.Length1;
      InteriorInGrid(Mv, rEnd, cEnd);
    } else {
      InteriorSpec(rEnd, cEnd);
    }
    ghost var result := Scan(Mv, Cells(newM), Interior(rEnd, cEnd), u, k, rates, dense, div);
    next := k;
    var r := 1;
    while r < rEnd
      invariant 1 <= r && Cells(M) == Mv
      invariant SameShape(Mv, Cells(newM))
      invariant AllInGrid(Mv, RowsFrom(r, rEnd, cEnd))
      invariant Scan(Mv, Cells(newM), RowsFrom(r, rEnd, cEnd), u, next, rates, dense, div) == result
      decreases rEnd - r
    {
      RowsFromStep(Mv, Cells(newM), r, rEnd, cEnd, u, next, rates, dense, div);
      var ok1;
      next, ok1 := ScanRow(M, newM, r, cEnd, u, next, rates, dense, div);
      if !ok1 {
        return next, false;
      }
      r := r + 1;
    }
    assert RowsFrom(r, rEnd, cEnd) == [];
    return next, true;
  }
}
