/**
 * Directional cell division (get_quadrant and mitosis of
 * code/functions/ca_model.py, with the same code in code/ca_model.py and
 * code/cellular_automata.py).
 *
 * A dividing cell at (r, c) tries two of its four neighbours, in an order
 * fixed by its quadrant about ORIGIN and by the dense flag; the first one
 * that is not 'E' or 'D' in the next grid becomes 'C'.
 */
module CaMitosis {
  import opened Grids
  import opened CaStatistics

  datatype Quadrant = I | II | III | IV

  /** get_quadrant: the quadrant of (r, c) relative to the module ORIGIN. */
  function GetQuadrant(r: int, c: int): (q: Quadrant)
    ensures q == I <==> r <= ORIGIN.0 && c > ORIGIN.1
    ensures q == II <==> r <= ORIGIN.0 && c <= ORIGIN.1
    ensures q == III <==> r > ORIGIN.0 && c <= ORIGIN.1
    ensures q == IV <==> r > ORIGIN.0 && c > ORIGIN.1
  {
    if r <= ORIGIN.0 && c > ORIGIN.1 then I
    else if r <= ORIGIN.0 && c <= ORIGIN.1 then II
    else if r > ORIGIN.0 && c <= ORIGIN.1 then III
    else IV
  }

  /** The four division directions up, rt, dn and lt. */
  datatype Direction = Up | Right | Down | Left

  function Neighbour(r: int, c: int, d: Direction): Pos {
    match d
    case Up => (r - 1, c)
    case Right => (r, c + 1)
    case Down => (r + 1, c)
    case Left => (r, c - 1)
  }

  function Opposite(d: Direction): Direction {
    match d
    case Up => Down
    case Right => Left
    case Down => Up
    case Left => Right
  }

  /** dense_map and not_dense_map: the two directions tried, in order. */
  function DivisionDirections(q: Quadrant, dense: bool): seq<Direction> {
    if dense then
      match q
      case I => [Up, Right]
      case II => [Left, Up]
      case III => [Down, Left]
      case IV => [Right, Down]
    else
      match q
      case I => [Down, Left]
      case II => [Right, Down]
      case III => [Up, Right]
      case IV => [Left, Up]
  }

  /** The candidate cells of a division at (r, c): `choices` in mitosis. */
  function Choices(r: int, c: int, dense: bool): (cs: seq<Pos>)
    ensures |cs| == 2
  {
    var ds := DivisionDirections(GetQuadrant(r, c), dense);
    [Neighbour(r, c, ds[0]), Neighbour(r, c, ds[1])]
  }

  /** 'E' and 'D' cells (not_normal) cannot receive a daughter cell. */
  predicate Blocks(v: Cell) {
    v == Edge || v == Dead
  }

  /**
   * The loop of mitosis over the candidates: the first candidate that does
   * not block becomes 'C' and the loop stops; None when reading a
   * candidate raises IndexError.
   */
  function PlaceFirst(g: Grid, cands: seq<Pos>): (r: Option<Grid>)
    requires Rect(g)
    ensures r.Some? ==> SameShape(g, r.value)
    decreases cands
  {
    if cands == [] then Some(g)
    else match Locate(g, cands[0])
      case None => None
      case Some(q) =>
        if !Blocks(g[q.0][q.1]) then Some(Set(g, q, Cancerous)) else PlaceFirst(g, cands[1..])
  }

  /** mitosis(M, newM, r, c, dense) as a function of newM; M is not read. */
  function Divided(g: Grid, r: int, c: int, dense: bool): (h: Option<Grid>)
    requires Rect(g)
    ensures h.Some? ==> SameShape(g, h.value)
  {
    PlaceFirst(g, Choices(r, c, dense))
  }

  /** Each entry of not_dense_map is the opposite direction of the entry of dense_map. */
  lemma OppositeTables(q: Quadrant)
    ensures forall i :: 0 <= i < 2 ==>
              DivisionDirections(q, false)[i] == Opposite(DivisionDirections(q, true)[i])
  {
  }

  /**
   * The outcome of a division, case by case: the first candidate takes the
   * daughter unless it blocks, then the second; when both block nothing
   * changes; IndexError exactly when a candidate that is read is out of range.
   */
  lemma DividedCases(g: Grid, r: int, c: int, dense: bool)
    requires Rect(g)
    ensures var cs := Choices(r, c, dense);
            var a := Locate(g, cs[0]);
            var b := Locate(g, cs[1]);
            && (Divided(g, r, c, dense).None? <==>
                  a.None? || (Blocks(g[a.value.0][a.value.1]) && b.None?))
            && (a.Some? && !Blocks(g[a.value.0][a.value.1]) ==>
                  Divided(g, r, c, dense) == Some(Set(g, a.value, Cancerous)))
            && (a.Some? && Blocks(g[a.value.0][a.value.1]) && b.Some? && !Blocks(g[b.value.0][b.value.1]) ==>
                  Divided(g, r, c, dense) == Some(Set(g, b.value, Cancerous)))
            && (a.Some? && Blocks(g[a.value.0][a.value.1]) && b.Some? && Blocks(g[b.value.0][b.value.1]) ==>
                  Divided(g, r, c, dense) == Some(g))
  {
    var cs := Choices(r, c, dense);
    var rest := cs[1..];
    assert rest == [cs[1]] && rest[1..] == [];
    match Locate(g, cs[0])
    case None =>
    case Some(qa) =>
      if Blocks(g[qa.0][qa.1]) {
        assert Divided(g, r, c, dense) == PlaceFirst(g, rest);
        match Locate(g, cs[1])
        case None =>
        case Some(qb) =>
          if Blocks(g[qb.0][qb.1]) {
            assert PlaceFirst(g, rest) == PlaceFirst(g, rest[1..]);
          }
      }
  }

  /**
   * A division changes at most one cell, to 'C'; the changed cell is one of
   * the two candidates, so for r, c >= 1 a 4-neighbour of (r, c) and never
   * (r, c) itself.
   */
  lemma DividedChangesOneNeighbour(g: Grid, r: int, c: int, dense: bool)
    requires Rect(g) && Divided(g, r, c, dense).Some?
    ensures var h := Divided(g, r, c, dense).value;
            SameShape(g, h) &&
            forall i, j :: 0 <= i < |g| && 0 <= j < Width(g) && h[i][j] != g[i][j] ==>
              && h[i][j] == Cancerous && !Blocks(g[i][j])
              && (Locate(g, Choices(r, c, dense)[0]) == Some((i, j)) ||
                  Locate(g, Choices(r, c, dense)[1]) == Some((i, j)))
              && (forall i', j' :: 0 <= i' < |g| && 0 <= j' < Width(g) && h[i'][j'] != g[i'][j'] ==>
                    i' == i && j' == j)
              && (1 <= r && 1 <= c ==> (i == r && (j == c - 1 || j == c + 1)) ||
                                       (j == c && (i == r - 1 || i == r + 1)))
  {
    DividedCases(g, r, c, dense);
  }

  /**
   * mitosis: tries the candidates in order on newM in place; on IndexError
   * (ok = false) newM is left as it was.
   */
  method Mitosis(newM: array2<Cell>, r: int, c: int, dense: bool) returns (ok: bool)
    modifies newM
    ensures ok == Divided(old(Cells(newM)), r, c, dense).Some?
    ensures ok ==> Cells(newM) == Divided(old(Cells(newM)), r, c, dense).value
    ensures !ok ==> Cells(newM) == old(Cells(newM))
  {
    ghost var G := Cells(newM);
    var choices := Choices(r, c, dense);
    for t := 0 to |choices|
      invariant Cells(newM) == G
      invariant PlaceFirst(G, choices[t..]) == Divided(G, r, c, dense)
    {
      assert choices[t..][1..] == choices[t + 1..];
      var choice := choices[t];
      var i := NpIndex(choice.0, newM.Length0);
      var j := NpIndex(choice.1, newM.Length1);
      if i.None? || j.None? {
        assert Locate(G, choice).None?;
        return false;
      }
      assert Locate(G, choice) == Some((i.value, j.value));
      if !Blocks(newM[i.value, j.value]) {
        newM[i.value, j.value] := Cancerous;
        assert Matches(newM, Set(G, (i.value, j.value), Cancerous));
        MatchesCells(newM, Set(G, (i.value, j.value), Cancerous));
        return true;
      }
    }
    assert choices[|choices|..] == [];
    return true;
  }
}
