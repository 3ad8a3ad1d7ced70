/**
 * find_clusters (code/functions/analyze.py, with the same code in
 * code/analyze.py): a stack-based flood fill over the 'C' cells of the
 * window rows x cols of a grid, marking a `visited` array, that returns
 * the list of 4-connected clusters of 'C' cells.
 */
module Clusters {
  import opened Grids

  /** The four neighbours in the order the flood fill pushes them: up, down, left, right. */
  function Neighbours(p: Pos): (ns: seq<Pos>)
    ensures |ns| == 4
  {
    [(p.0 - 1, p.1), (p.0 + 1, p.1), (p.0, p.1 - 1), (p.0, p.1 + 1)]
  }

  /** p and q are 4-neighbours. */
  predicate Adjacent(p: Pos, q: Pos) {
    q in Neighbours(p)
  }

  /** The neighbour relation is symmetric: the d-th neighbour has p among its own neighbours. */
  lemma NeighbourBack(p: Pos, d: int)
    requires 0 <= d < 4
    ensures Adjacent(Neighbours(p)[d], p)
  {
    var q := Neighbours(p)[d];
    if d == 0 { assert Neighbours(q)[1] == p; }
    else if d == 1 { assert Neighbours(q)[0] == p; }
    else if d == 2 { assert Neighbours(q)[3] == p; }
    else { assert Neighbours(q)[2] == p; }
  }

  /** q is a 'C' cell of the window rows x cols of g. */
  predicate IsCancer(g: Grid, rows: nat, cols: nat, q: Pos) {
    0 <= q.0 < rows && 0 <= q.1 < cols && q.0 < |g| && q.1 < |g[q.0]| && g[q.0][q.1] == Cancerous
  }

  /** Every 'C' 4-neighbour of a member of s is a member of s. */
  predicate Closed(g: Grid, rows: nat, cols: nat, s: set<Pos>) {
    forall p, d :: p in s && 0 <= d < 4 && IsCancer(g, rows, cols, Neighbours(p)[d]) ==> Neighbours(p)[d] in s
  }

  /** Every position after the first is a 4-neighbour of an earlier one. */
  predicate Chain(order: seq<Pos>) {
    forall k :: 0 < k < |order| ==> Touches(order[..k], order[k])
  }

  /** x is a 4-neighbour of some entry of `order`. */
  predicate Touches(order: seq<Pos>, x: Pos) {
    exists m :: 0 <= m < |order| && Adjacent(order[m], x)
  }

  /** s is 4-connected: its members can be listed so that each one after the first touches an earlier one. */
  ghost predicate Connected(s: set<Pos>) {
    exists order: seq<Pos> :: Chain(order) && forall p :: p in s <==> p in order
  }

  ghost function Union(cs: seq<set<Pos>>): set<Pos> {
    if cs == [] then {} else Union(cs[..|cs| - 1]) + cs[|cs| - 1]
  }

  lemma {:induction false} UnionMembers(cs: seq<set<Pos>>)
    ensures forall p :: p in Union(cs) <==> exists t :: 0 <= t < |cs| && p in cs[t]
  {
    if cs != [] {
      var init := cs[..|cs| - 1];
      UnionMembers(init);
      forall p | p in Union(cs) ensures exists t :: 0 <= t < |cs| && p in cs[t] {
        if p !in cs[|cs| - 1] {
          assert p in Union(init);
          var t :| 0 <= t < |init| && p in init[t];
          assert cs[t] == init[t];
        }
      }
      forall p, t | 0 <= t < |cs| && p in cs[t] ensures p in Union(cs) {
        if t < |init| { assert init[t] == cs[t]; }
      }
    }
  }

  /**
   * The clusters found so far: each is a non-empty, closed, 4-connected set
   * of 'C' cells of the window, and no two overlap.
   */
  ghost predicate Partial(g: Grid, rows: nat, cols: nat, cs: seq<set<Pos>>) {
    && (forall t :: 0 <= t < |cs| ==>
          cs[t] != {} && Closed(g, rows, cols, cs[t]) && Connected(cs[t]) &&
          forall p :: p in cs[t] ==> IsCancer(g, rows, cols, p))
    && (forall s, t :: 0 <= s < t < |cs| ==> cs[s] !! cs[t])
  }

  /**
   * What find_clusters returns: disjoint, non-empty, closed and 4-connected
   * clusters of 'C' cells that together hold every 'C' cell of the window.
   */
  ghost predicate IsClustering(g: Grid, rows: nat, cols: nat, cs: seq<set<Pos>>) {
    Partial(g, rows, cols, cs) && forall p :: IsCancer(g, rows, cols, p) ==> p in Union(cs)
  }

  /** Appending a new closed, connected cluster disjoint from the earlier ones keeps them a partial clustering. */
  lemma AddCluster(g: Grid, rows: nat, cols: nat, cs: seq<set<Pos>>, x: set<Pos>)
    requires Partial(g, rows, cols, cs) && x !! Union(cs)
    requires x != {} && Closed(g, rows, cols, x) && Connected(x)
    requires forall p :: p in x ==> IsCancer(g, rows, cols, p)
    ensures Partial(g, rows, cols, cs + [x]) && Union(cs + [x]) == Union(cs) + x
  {
    var cs' := cs + [x];
    assert cs'[..|cs|] == cs;
    UnionMembers(cs);
    forall s, t | 0 <= s < t < |cs'| ensures cs'[s] !! cs'[t] {
      if t == |cs| {
        forall p | p in cs[s] ensures p !in x { assert p in Union(cs); }
      }
    }
  }

  ghost function CancerCells(g: Grid, rows: nat, cols: nat): (s: set<Pos>)
    ensures forall q :: q in s <==> IsCancer(g, rows, cols, q)
  {
    set i, j | 0 <= i < rows && 0 <= j < cols && IsCancer(g, rows, cols, (i, j)) :: (i, j)
  }

  ghost predicate VisitedIs(visited: array2<bool>, s: set<Pos>)
    reads visited
  {
    forall i, j :: 0 <= i < visited.Length0 && 0 <= j < visited.Length1 ==> (visited[i, j] <==> (i, j) in s)
  }

  /**
   * Every 'C' neighbour of a member is already a member, still on the
   * stack, or in an earlier cluster.
   */
  ghost predicate Frontier(g: Grid, rows: nat, cols: nat, cluster: set<Pos>, stack: seq<Pos>, vis: set<Pos>) {
    forall p, d :: p in cluster && 0 <= d < 4 && IsCancer(g, rows, cols, Neighbours(p)[d]) ==>
      Neighbours(p)[d] in cluster || Neighbours(p)[d] in stack || Neighbours(p)[d] in vis
  }

  /** Every stack entry touches a member already listed in `order`. */
  ghost predicate Pushed(order: seq<Pos>, stack: seq<Pos>) {
    forall t :: 0 <= t < |stack| ==> Touches(order, stack[t])
  }

  /**
   * The state of the search from (r, c) that the loop keeps: the cluster
   * holds 'C' cells only, `order` lists it as a chain that starts at
   * (r, c), every stack entry touches a listed member, and every 'C'
   * neighbour of a member is a member, on the stack or in an earlier cluster.
   */
  ghost predicate Searching(g: Grid, rows: nat, cols: nat, vis: set<Pos>, U: set<Pos>,
                            stack: seq<Pos>, cluster: set<Pos>, order: seq<Pos>, r: int, c: int) {
    && vis !! cluster
    && (forall p :: p in cluster ==> p in U)
    && (forall p :: p in cluster <==> p in order) && Chain(order)
    && (order == [] ==> stack == [(r, c)] && (r, c) in U && (r, c) !in vis)
    && (order != [] ==> (r, c) in cluster && Pushed(order, stack))
    && Frontier(g, rows, cols, cluster, stack, vis)
  }

  /**
   * The depth-first search from (r, c): pop a position; if it is a 'C'
   * cell of the window not yet visited, mark it, add it to the cluster and
   * push its four neighbours. `order` lists the members in visiting order.
   */
  method Explore(M: array2<Cell>, visited: array2<bool>, rows: nat, cols: nat, r: nat, c: nat,
                 ghost g: Grid, ghost vis: set<Pos>) returns (cluster: set<Pos>, ghost order: seq<Pos>)
    requires visited.Length0 == M.Length0 && visited.Length1 == M.Length1
    requires rows <= M.Length0 && cols <= M.Length1 && r < rows && c < cols
    requires g == Cells(M) && M[r, c] == Cancerous && (r, c) !in vis
    requires VisitedIs(visited, vis) && Closed(g, rows, cols, vis)
    modifies visited
    ensures VisitedIs(visited, vis + cluster) && vis !! cluster
    ensures (r, c) in cluster && Closed(g, rows, cols, cluster)
    ensures forall p :: p in cluster ==> IsCancer(g, rows, cols, p)
    ensures Chain(order) && forall p :: p in cluster <==> p in order
  {
    ghost var U := CancerCells(g, rows, cols);
    cluster := {};
    order := [];
    var stack: seq<Pos> := [(r, c)];
    assert g[r][c] == M[r, c];
    SearchStarts(g, rows, cols, vis, U, r, c);
    while stack != []
      invariant VisitedIs(visited, vis + cluster)
      invariant Searching(g, rows, cols, vis, U, stack, cluster, order, r, c)
      decreases |U - cluster|, |stack|
    {
      ghost var cluster0, stack0 := cluster, stack;
      stack, cluster, order := ExploreStep(M, visited, rows, cols, r, c, g, vis, U, stack, cluster, order);
      assert |U - cluster| < |U - cluster0| || (cluster == cluster0 && |stack| < |stack0|);
    }
    SearchDone(g, rows, cols, vis, U, cluster, order, r, c);
  }

  /** One pass of the search loop: pop the top of the stack and visit it if it is an unvisited 'C' cell. */
  method ExploreStep(M: array2<Cell>, visited: array2<bool>, rows: nat, cols: nat, r: nat, c: nat,
                     ghost g: Grid, ghost vis: set<Pos>, ghost U: set<Pos>,
                     stack: seq<Pos>, cluster: set<Pos>, ghost order: seq<Pos>)
    returns (stack': seq<Pos>, cluster': set<Pos>, ghost order': seq<Pos>)
    requires visited.Length0 == M.Length0 && visited.Length1 == M.Length1
    requires rows <= M.Length0 && cols <= M.Length1
    requires g == Cells(M) && U == CancerCells(g, rows, cols) && stack != []
    requires VisitedIs(visited, vis + cluster)
    requires Searching(g, rows, cols, vis, U, stack, cluster, order, r, c)
    modifies visited
    ensures VisitedIs(visited, vis + cluster')
    ensures Searching(g, rows, cols, vis, U, stack', cluster', order', r, c)
    ensures |U - cluster'| < |U - cluster| || (cluster' == cluster && |stack'| < |stack|)
  {
    var q := stack[|stack| - 1];
    stack' := stack[..|stack| - 1];
    if 0 <= q.0 < rows && 0 <= q.1 < cols && M[q.0, q.1] == Cancerous && !visited[q.0, q.1] {
      assert g[q.0][q.1] == M[q.0, q.1];
      assert q in U && q !in vis + cluster;
      Mark(visited, q, vis + cluster);
      cluster' := cluster + {q};
      order' := order + [q];
      stack' := stack' + Neighbours(q);
      ExploreAdds(g, rows, cols, vis, U, stack, cluster, order, q, r, c);
    } else {
      cluster', order' := cluster, order;
      if 0 <= q.0 < rows && 0 <= q.1 < cols {
        assert g[q.0][q.1] == M[q.0, q.1];
      }
      assert q in cluster || q in vis || !IsCancer(g, rows, cols, q);
      assert order != [];
      ExploreSkips(g, rows, cols, vis, U, stack, cluster, order, q, r, c);
    }
  }

  /**
   * find_clusters on a window that fits the grid: a row-major scan that
   * starts a search at every 'C' cell not yet visited and appends the
   * cluster it finds.
   */
  method FindClustersIn(M: array2<Cell>, rows: nat, cols: nat) returns (clusters: seq<set<Pos>>)
    requires rows <= M.Length0 && cols <= M.Length1
    ensures IsClustering(Cells(M), rows, cols, clusters)
  {
    ghost var g := Cells(M);
    var visited := new bool[M.Length0, M.Length1]((i, j) => false);
    ghost var vis: set<Pos> := {};
    clusters := [];
    for r := 0 to rows
      invariant VisitedIs(visited, vis) && vis == Union(clusters)
      invariant Partial(g, rows, cols, clusters) && Closed(g, rows, cols, vis)
      invariant forall p :: IsCancer(g, rows, cols, p) && p.0 < r ==> p in vis
    {
      clusters, vis := VisitRow(M, visited, rows, cols, r, g, clusters, vis);
    }
  }

  /** One row of the scan: visit (r, 0), ..., (r, cols - 1) in turn. */
  method VisitRow(M: array2<Cell>, visited: array2<bool>, rows: nat, cols: nat, r: nat,
                  ghost g: Grid, clusters: seq<set<Pos>>, ghost vis: set<Pos>)
    returns (clusters': seq<set<Pos>>, ghost vis': set<Pos>)
    requires visited.Length0 == M.Length0 && visited.Length1 == M.Length1
    requires rows <= M.Length0 && cols <= M.Length1 && r < rows && g == Cells(M)
    requires VisitedIs(visited, vis) && vis == Union(clusters)
    requires Partial(g, rows, cols, clusters) && Closed(g, rows, cols, vis)
    modifies visited
    ensures VisitedIs(visited, vis') && vis' == Union(clusters') && vis <= vis'
    ensures Partial(g, rows, cols, clusters') && Closed(g, rows, cols, vis')
    ensures forall j :: 0 <= j < cols && IsCancer(g, rows, cols, (r, j)) ==> (r, j) in vis'
  {
    clusters', vis' := clusters, vis;
    for c := 0 to cols
      invariant VisitedIs(visited, vis') && vis' == Union(clusters') && vis <= vis'
      invariant Partial(g, rows, cols, clusters') && Closed(g, rows, cols, vis')
      invariant forall j :: 0 <= j < c && IsCancer(g, rows, cols, (r, j)) ==> (r, j) in vis'
    {
      clusters', vis' := VisitCell(M, visited, rows, cols, r, c, g, clusters', vis');
    }
  }

  /** The body of the scan at (r, c): search from it when it is an unvisited 'C' cell. */
  method VisitCell(M: array2<Cell>, visited: array2<bool>, rows: nat, cols: nat, r: nat, c: nat,
                   ghost g: Grid, clusters: seq<set<Pos>>, ghost vis: set<Pos>)
    returns (clusters': seq<set<Pos>>, ghost vis': set<Pos>)
    requires visited.Length0 == M.Length0 && visited.Length1 == M.Length1
    requires rows <= M.Length0 && cols <= M.Length1 && r < rows && c < cols && g == Cells(M)
    requires VisitedIs(visited, vis) && vis == Union(clusters)
    requires Partial(g, rows, cols, clusters) && Closed(g, rows, cols, vis)
    modifies visited
    ensures VisitedIs(visited, vis') && vis' == Union(clusters') && vis <= vis'
    ensures Partial(g, rows, cols, clusters') && Closed(g, rows, cols, vis')
    ensures IsCancer(g, rows, cols, (r, c)) ==> (r, c) in vis'
  {
    clusters', vis' := clusters, vis;
    assert g[r][c] == M[r, c];
    if M[r, c] == Cancerous && !visited[r, c] {
      var cluster;
      ghost var order;
      cluster, order := Explore(M, visited, rows, cols, r, c, g, vis);
      if cluster != {} {
        assert Connected(cluster);
        AddCluster(g, rows, cols, clusters, cluster);
        clusters' := clusters + [cluster];
      }
      ClosedUnion(g, rows, cols, vis, cluster);
      vis' := vis + cluster;
    }
  }

  /** The union of two closed sets is closed. */
  lemma ClosedUnion(g: Grid, rows: nat, cols: nat, s: set<Pos>, t: set<Pos>)
    requires Closed(g, rows, cols, s) && Closed(g, rows, cols, t)
    ensures Closed(g, rows, cols, s + t)
  {
  }

  /**
   * find_clusters(grid, ROWS, COLS): an empty range when either bound is
   * not positive, an IndexError (ok false) when the window is larger than
   * the grid, and otherwise the clustering of the window.
   */
  method FindClusters(M: array2<Cell>, rows: int, cols: int) returns (ok: bool, clusters: seq<set<Pos>>)
    ensures ok <==> rows <= 0 || cols <= 0 || (rows <= M.Length0 && cols <= M.Length1)
    ensures ok && (rows <= 0 || cols <= 0) ==> clusters == []
    ensures ok && rows > 0 && cols > 0 ==> IsClustering(Cells(M), rows, cols, clusters)
  {
    if rows <= 0 || cols <= 0 {
      return true, [];
    }
    if rows > M.Length0 || cols > M.Length1 {
      return false, [];
    }
    clusters := FindClustersIn(M, rows, cols);
    ok := true;
  }

  /** Going back along a chain: if order[k] lies in a closed set of 'C' cells, so does order[0]. */
  lemma {:induction false} ChainRootIn(g: Grid, rows: nat, cols: nat, order: seq<Pos>, y: set<Pos>, k: nat)
    requires Chain(order) && k < |order| && order[k] in y && Closed(g, rows, cols, y)
    requires forall i :: 0 <= i < |order| ==> IsCancer(g, rows, cols, order[i])
    ensures order[0] in y
    decreases k
  {
    if k > 0 {
      assert Touches(order[..k], order[k]);
      var m :| 0 <= m < k && Adjacent(order[..k][m], order[k]);
      assert order[..k][m] == order[m];
      var d :| 0 <= d < 4 && Neighbours(order[m])[d] == order[k];
      NeighbourBack(order[m], d);
      var e :| 0 <= e < 4 && Neighbours(order[k])[e] == order[m];
      assert order[m] in y;
      ChainRootIn(g, rows, cols, order, y, m);
    }
  }

  /** Going forward along a chain: if order[0] lies in a closed set, so does every order[k] that is a 'C' cell. */
  lemma {:induction false} ChainAllIn(g: Grid, rows: nat, cols: nat, order: seq<Pos>, y: set<Pos>, k: nat)
    requires Chain(order) && k < |order| && order[0] in y && Closed(g, rows, cols, y)
    requires forall i :: 0 <= i < |order| ==> IsCancer(g, rows, cols, order[i])
    ensures order[k] in y
    decreases k
  {
    if k > 0 {
      assert Touches(order[..k], order[k]);
      var m :| 0 <= m < k && Adjacent(order[..k][m], order[k]);
      assert order[..k][m] == order[m];
      ChainAllIn(g, rows, cols, order, y, m);
      var d :| 0 <= d < 4 && Neighbours(order[m])[d] == order[k];
    }
  }

  /** A connected set of 'C' cells that meets a closed set lies inside it. */
  lemma ConnectedInClosed(g: Grid, rows: nat, cols: nat, x: set<Pos>, y: set<Pos>, p: Pos)
    requires Connected(x) && p in x && p in y && Closed(g, rows, cols, y)
    requires forall q :: q in x ==> IsCancer(g, rows, cols, q)
    ensures x <= y
  {
    var order :| Chain(order) && forall q :: q in x <==> q in order;
    var k :| 0 <= k < |order| && order[k] == p;
    ChainRootIn(g, rows, cols, order, y, k);
    forall q | q in x ensures q in y {
      var i :| 0 <= i < |order| && order[i] == q;
      ChainAllIn(g, rows, cols, order, y, i);
    }
  }

  /**
   * The clusters are the connected components of the 'C' cells: any two
   * clusterings of the same window hold the same clusters, whatever their
   * order in the list.
   */
  lemma ClusteringUnique(g: Grid, rows: nat, cols: nat, cs: seq<set<Pos>>, ds: seq<set<Pos>>)
    requires IsClustering(g, rows, cols, cs) && IsClustering(g, rows, cols, ds)
    ensures forall t :: 0 <= t < |cs| ==> cs[t] in ds
  {
    forall t | 0 <= t < |cs| ensures cs[t] in ds {
      ClusterIsComponent(g, rows, cols, cs[t], ds);
    }
  }

  /** Any two clusterings of the same window have the same number of clusters. */
  lemma ClusteringSameCount(g: Grid, rows: nat, cols: nat, cs: seq<set<Pos>>, ds: seq<set<Pos>>)
    requires IsClustering(g, rows, cols, cs) && IsClustering(g, rows, cols, ds)
    ensures |cs| == |ds|
  {
    ClusteringUnique(g, rows, cols, cs, ds);
    ClusteringUnique(g, rows, cols, ds, cs);
    PartialDistinct(g, rows, cols, cs);
    PartialDistinct(g, rows, cols, ds);
    DistinctCard(cs);
    DistinctCard(ds);
    assert Members(cs) == Members(ds);
  }

  /** The clusters of a list, as a set. */
  ghost function Members(cs: seq<set<Pos>>): set<set<Pos>> {
    set x | x in cs
  }

  /** Disjoint non-empty clusters are pairwise different. */
  lemma PartialDistinct(g: Grid, rows: nat, cols: nat, cs: seq<set<Pos>>)
    requires Partial(g, rows, cols, cs)
    ensures forall s, t :: 0 <= s < t < |cs| ==> cs[s] != cs[t]
  {
    forall s, t | 0 <= s < t < |cs| ensures cs[s] != cs[t] {
      assert cs[s] != {} && cs[s] !! cs[t];
    }
  }

  /** A list without repeats has as many members as entries. */
  lemma {:induction false} DistinctCard(cs: seq<set<Pos>>)
    requires forall s, t :: 0 <= s < t < |cs| ==> cs[s] != cs[t]
    ensures |Members(cs)| == |cs|
  {
    if cs != [] {
      var init := cs[..|cs| - 1];
      DistinctCard(init);
      assert Members(cs) == Members(init) + {cs[|cs| - 1]};
      assert cs[|cs| - 1] !in Members(init);
    }
  }

  /** A non-empty, closed, connected set of 'C' cells is one of the clusters of every clustering. */
  lemma ClusterIsComponent(g: Grid, rows: nat, cols: nat, x: set<Pos>, ds: seq<set<Pos>>)
    requires x != {} && Closed(g, rows, cols, x) && Connected(x)
    requires forall p :: p in x ==> IsCancer(g, rows, cols, p)
    requires IsClustering(g, rows, cols, ds)
    ensures x in ds
  {
    UnionMembers(ds);
    var p :| p in x;
    assert p in Union(ds);
    var u :| 0 <= u < |ds| && p in ds[u];
    var y := ds[u];
    ConnectedInClosed(g, rows, cols, x, y, p);
    ConnectedInClosed(g, rows, cols, y, x, p);
    assert x == y;
  }

  /** The grid that find_clusters is checked against right after its definition. */
  function ExampleGrid(): (g: Grid)
    ensures IsGrid(g, 3, 3)
  {
    [[Normal, Cancerous, Cancerous], [Normal, Cancerous, Normal], [Normal, Normal, Normal]]
  }

  /** The one cluster of ExampleGrid: the three 'C' cells. */
  lemma ExampleClustering()
    ensures IsClustering(ExampleGrid(), 3, 3, [{(0, 1), (0, 2), (1, 1)}])
  {
    ExampleConnected();
    ExampleClosed();
    ExampleCovered();
    SingleCluster(ExampleGrid(), 3, 3, {(0, 1), (0, 2), (1, 1)});
  }

  /** A closed, connected set holding exactly the 'C' cells of the window is a clustering on its own. */
  lemma SingleCluster(g: Grid, rows: nat, cols: nat, x: set<Pos>)
    requires x != {} && Closed(g, rows, cols, x) && Connected(x)
    requires forall p :: p in x <==> IsCancer(g, rows, cols, p)
    ensures IsClustering(g, rows, cols, [x])
  {
    assert [x][..0] == [];
  }

  /** When one set makes a clustering on its own, no other list of clusters is a clustering. */
  lemma SingleClusterOnly(g: Grid, rows: nat, cols: nat, x: set<Pos>, cs: seq<set<Pos>>)
    requires IsClustering(g, rows, cols, [x]) && IsClustering(g, rows, cols, cs)
    ensures cs == [x]
  {
    ClusteringUnique(g, rows, cols, cs, [x]);
    UnionMembers(cs);
    assert [x][0] == x;
    var p :| p in x;
    assert IsCancer(g, rows, cols, p);
    assert p in cs[0] && p in cs[|cs| - 1];
  }

  lemma ExampleConnected()
    ensures Connected({(0, 1), (0, 2), (1, 1)})
  {
    var order: seq<Pos> := [(0, 1), (0, 2), (1, 1)];
    assert Adjacent(order[..1][0], order[1]);
    assert Adjacent(order[..2][0], order[2]);
    assert Chain(order);
  }

  lemma ExampleClosed()
    ensures Closed(ExampleGrid(), 3, 3, {(0, 1), (0, 2), (1, 1)})
  {
    var g := ExampleGrid();
    var x: set<Pos> := {(0, 1), (0, 2), (1, 1)};
    forall p, d | p in x && 0 <= d < 4 && IsCancer(g, 3, 3, Neighbours(p)[d]) ensures Neighbours(p)[d] in x {
      var q := Neighbours(p)[d];
      assert q.0 == 0 || q.0 == 1;
      if q.0 == 0 { assert q.1 != 0; } else { assert q.1 == 1; }
    }
  }

  lemma ExampleCovered()
    ensures forall p :: IsCancer(ExampleGrid(), 3, 3, p) ==> p in {(0, 1), (0, 2), (1, 1)}
  {
    var g := ExampleGrid();
    forall p | IsCancer(g, 3, 3, p) ensures p in {(0, 1), (0, 2), (1, 1)} {
      if p.0 == 0 { assert p.1 != 0; }
      else if p.0 == 1 { assert p.1 == 1; }
    }
  }

  /** find_clusters on ExampleGrid with a 3 x 3 window can only return that one cluster. */
  lemma ExampleClusters(cs: seq<set<Pos>>)
    requires IsClustering(ExampleGrid(), 3, 3, cs)
    ensures cs == [{(0, 1), (0, 2), (1, 1)}]
  {
    ExampleClustering();
    SingleClusterOnly(ExampleGrid(), 3, 3, {(0, 1), (0, 2), (1, 1)}, cs);
  }

  /** The search starts with (r, c) alone on the stack. */
  lemma SearchStarts(g: Grid, rows: nat, cols: nat, vis: set<Pos>, U: set<Pos>, r: int, c: int)
    requires (r, c) in U && (r, c) !in vis
    ensures Searching(g, rows, cols, vis, U, [(r, c)], {}, [], r, c)
  {
  }

  /**
   * When the stack is empty, the cluster is closed: a 'C' neighbour of a
   * member cannot lie in an earlier cluster, which is closed itself and
   * would then hold the member.
   */
  lemma SearchDone(g: Grid, rows: nat, cols: nat, vis: set<Pos>, U: set<Pos>,
                   cluster: set<Pos>, order: seq<Pos>, r: int, c: int)
    requires U == CancerCells(g, rows, cols) && Closed(g, rows, cols, vis)
    requires Searching(g, rows, cols, vis, U, [], cluster, order, r, c)
    ensures (r, c) in cluster && Closed(g, rows, cols, cluster)
    ensures forall p :: p in cluster ==> IsCancer(g, rows, cols, p)
    ensures Chain(order) && forall p :: p in cluster <==> p in order
  {
    assert order != [];
    forall p, d | p in cluster && 0 <= d < 4 && IsCancer(g, rows, cols, Neighbours(p)[d])
      ensures Neighbours(p)[d] in cluster
    {
      NeighbourBack(p, d);
    }
  }

  /** Marks q visited: the visited positions go from s to s + {q}. */
  method Mark(visited: array2<bool>, q: Pos, ghost s: set<Pos>)
    requires 0 <= q.0 < visited.Length0 && 0 <= q.1 < visited.Length1
    requires VisitedIs(visited, s)
    modifies visited
    ensures VisitedIs(visited, s + {q})
  {
    label Before:
    visited[q.0, q.1] := true;
    forall i, j | 0 <= i < visited.Length0 && 0 <= j < visited.Length1
      ensures visited[i, j] <==> (i, j) in s + {q}
    {
      if (i, j) != q {
        assert visited[i, j] == old@Before(visited[i, j]);
      }
    }
  }

  /** The invariants of the search after visiting the popped position q. */
  lemma ExploreAdds(g: Grid, rows: nat, cols: nat, vis: set<Pos>, U: set<Pos>,
                    stack: seq<Pos>, cluster: set<Pos>, order: seq<Pos>, q: Pos, r: int, c: int)
    requires stack != [] && q == stack[|stack| - 1] && q in U && q !in cluster && q !in vis
    requires Searching(g, rows, cols, vis, U, stack, cluster, order, r, c)
    ensures Searching(g, rows, cols, vis, U, stack[..|stack| - 1] + Neighbours(q), cluster + {q}, order + [q], r, c)
    ensures |U - (cluster + {q})| < |U - cluster|
  {
    ChainExtends(order, stack, q);
    PushedExtends(order, stack, q);
    FrontierExtends(g, rows, cols, vis, stack, cluster, q);
    assert U - (cluster + {q}) == (U - cluster) - {q};
  }

  lemma ChainExtends(order: seq<Pos>, stack: seq<Pos>, q: Pos)
    requires stack != [] && q == stack[|stack| - 1] && Chain(order)
    requires order != [] ==> Pushed(order, stack)
    ensures Chain(order + [q])
  {
    var order' := order + [q];
    forall k | 0 < k < |order'| ensures Touches(order'[..k], order'[k]) {
      if k < |order| {
        assert order'[..k] == order[..k] && order'[k] == order[k];
      } else {
        assert order'[..k] == order && order'[k] == stack[|stack| - 1];
      }
    }
  }

  lemma PushedExtends(order: seq<Pos>, stack: seq<Pos>, q: Pos)
    requires stack != [] && q == stack[|stack| - 1]
    requires order != [] ==> Pushed(order, stack)
    requires order == [] ==> |stack| == 1
    ensures Pushed(order + [q], stack[..|stack| - 1] + Neighbours(q))
  {
    var rest := stack[..|stack| - 1];
    var stack' := rest + Neighbours(q);
    var order' := order + [q];
    forall t | 0 <= t < |stack'| ensures Touches(order', stack'[t]) {
      if t < |rest| {
        assert stack'[t] == stack[t];
        TouchesExtends(order, q, stack[t]);
      } else {
        assert stack'[t] == Neighbours(q)[t - |rest|];
        assert order'[|order|] == q;
        assert Adjacent(order'[|order|], stack'[t]);
      }
    }
  }

  lemma TouchesExtends(order: seq<Pos>, q: Pos, x: Pos)
    requires Touches(order, x)
    ensures Touches(order + [q], x)
  {
    var m :| 0 <= m < |order| && Adjacent(order[m], x);
    assert (order + [q])[m] == order[m];
  }

  lemma FrontierExtends(g: Grid, rows: nat, cols: nat, vis: set<Pos>, stack: seq<Pos>, cluster: set<Pos>, q: Pos)
    requires stack != [] && q == stack[|stack| - 1]
    requires Frontier(g, rows, cols, cluster, stack, vis)
    ensures Frontier(g, rows, cols, cluster + {q}, stack[..|stack| - 1] + Neighbours(q), vis)
  {
    var rest := stack[..|stack| - 1];
    var stack' := rest + Neighbours(q);
    var cluster' := cluster + {q};
    forall p, d | p in cluster' && 0 <= d < 4 && IsCancer(g, rows, cols, Neighbours(p)[d])
      ensures Neighbours(p)[d] in cluster' || Neighbours(p)[d] in stack' || Neighbours(p)[d] in vis
    {
      var x := Neighbours(p)[d];
      if p == q {
        assert stack'[|rest| + d] == x;
      } else if x in stack && x != q {
        var t :| 0 <= t < |stack| && stack[t] == x;
        assert stack'[t] == x;
      }
    }
  }

  /** The invariants of the search after discarding the popped position q. */
  lemma ExploreSkips(g: Grid, rows: nat, cols: nat, vis: set<Pos>, U: set<Pos>, stack: seq<Pos>,
                     cluster: set<Pos>, order: seq<Pos>, q: Pos, r: int, c: int)
    requires stack != [] && q == stack[|stack| - 1] && order != []
    requires q in cluster || q in vis || !IsCancer(g, rows, cols, q)
    requires Searching(g, rows, cols, vis, U, stack, cluster, order, r, c)
    ensures Searching(g, rows, cols, vis, U, stack[..|stack| - 1], cluster, order, r, c)
  {
    PushedDrops(order, stack);
    FrontierDrops(g, rows, cols, vis, stack, cluster, q);
  }

  lemma PushedDrops(order: seq<Pos>, stack: seq<Pos>)
    requires stack != [] && Pushed(order, stack)
    ensures Pushed(order, stack[..|stack| - 1])
  {
    var rest := stack[..|stack| - 1];
    forall t | 0 <= t < |rest| ensures Touches(order, rest[t]) {
      assert rest[t] == stack[t];
    }
  }

  lemma FrontierDrops(g: Grid, rows: nat, cols: nat, vis: set<Pos>, stack: seq<Pos>, cluster: set<Pos>, q: Pos)
    requires stack != [] && q == stack[|stack| - 1]
    requires q in cluster || q in vis || !IsCancer(g, rows, cols, q)
    requires Frontier(g, rows, cols, cluster, stack, vis)
    ensures Frontier(g, rows, cols, cluster, stack[..|stack| - 1], vis)
  {
    var rest := stack[..|stack| - 1];
    forall p, d | p in cluster && 0 <= d < 4 && IsCancer(g, rows, cols, Neighbours(p)[d])
      ensures Neighbours(p)[d] in cluster || Neighbours(p)[d] in rest || Neighbours(p)[d] in vis
    {
      var x := Neighbours(p)[d];
      if x in stack && x != q {
        var t :| 0 <= t < |stack| && stack[t] == x;
        assert t != |stack| - 1;
        assert rest[t] == x;
      }
    }
  }
}
