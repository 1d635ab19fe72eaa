/**
 The in-memory graph store and path-query front end of src/astar.rs
 (`AStarPathFinder`).

 Points are stored in an append-only list whose index is the node id;
 connections are an append-only list of undirected id pairs. A query
 resolves the start and goal coordinates to their nearest stored points
 and rebuilds the per-node cost table, putting the start node's record into
 the open set as it goes. The expansion loop of the source breaks out in its first iteration,
 so a query on a non-empty store answers with the single point nearest the
 start.

 Distances are the squared distances of module Points; the source stores
 the square roots of these values in `g_cost` and `h_cost`, and their sum
 in `f_cost`, where the model stores the sum of the squares.
 */
module AStar {
  import opened Wrappers
  import opened Points

  /** An undirected connection between two node ids (`AStarConnection`). */
  datatype Connection = Connection(nodeA: nat, nodeB: nat)

  /** The per-query record of one node (`AStarPathNode`). */
  datatype PathNode = PathNode(nodeId: nat, gCost: real, hCost: real, fCost: real, cameFrom: Option<nat>)
  {
    function GetId(): nat
    {
      nodeId
    }
  }

  // ---------------------------------------------------------------------
  // Graph store: the connection invariant and neighbour lookup

  /** Every connection refers to points that exist among the first `bound`. */
  ghost predicate ConnectionsInRange(conns: seq<Connection>, bound: nat)
  {
    forall k :: 0 <= k < |conns| ==> conns[k].nodeA < bound && conns[k].nodeB < bound
  }

  /** Connection `c` links `n` to `m`, in either orientation. */
  predicate Joins(c: Connection, n: nat, m: nat)
  {
    (c.nodeA == n && c.nodeB == m) || (c.nodeB == n && c.nodeA == m)
  }

  /**
   What one connection adds to the neighbour list of `n`: its second
   endpoint when `n` is its first, then its first endpoint when `n` is its
   second. A self-loop on `n` therefore adds `n` twice.
   */
  function Contribution(c: Connection, n: nat): seq<nat>
  {
    (if c.nodeA == n then [c.nodeB] else []) + (if c.nodeB == n then [c.nodeA] else [])
  }

  /** The neighbour list of `n`: the contributions of all connections, in connection order. */
  function Neighbours(conns: seq<Connection>, n: nat): seq<nat>
    decreases |conns|
  {
    if conns == [] then []
    else Neighbours(conns[..|conns| - 1], n) + Contribution(conns[|conns| - 1], n)
  }

  /** Appending a connection appends exactly its contribution to every neighbour list. */
  lemma NeighboursAppend(conns: seq<Connection>, c: Connection, n: nat)
    ensures Neighbours(conns + [c], n) == Neighbours(conns, n) + Contribution(c, n)
  {
  }

  /** A self-loop on `n` adds `n` to its own neighbour list twice. */
  lemma SelfLoopCountsTwice(conns: seq<Connection>, n: nat)
    ensures Neighbours(conns + [Connection(n, n)], n) == Neighbours(conns, n) + [n, n]
  {
    NeighboursAppend(conns, Connection(n, n), n);
  }

  /**
   Adjacency is symmetric, counting duplicates: `m` occurs among the
   neighbours of `n` exactly as often as `n` occurs among those of `m`.
   */
  lemma {:induction false} NeighboursSymmetric(conns: seq<Connection>, n: nat, m: nat)
    ensures multiset(Neighbours(conns, n))[m] == multiset(Neighbours(conns, m))[n]
    decreases |conns|
  {
    if conns != [] {
      var init, last := conns[..|conns| - 1], conns[|conns| - 1];
      NeighboursSymmetric(init, n, m);
      ContributionSymmetric(last, n, m);
      assert multiset(Neighbours(conns, n)) == multiset(Neighbours(init, n)) + multiset(Contribution(last, n));
      assert multiset(Neighbours(conns, m)) == multiset(Neighbours(init, m)) + multiset(Contribution(last, m));
    }
  }

  /** One connection links `n` to `m` as often as it links `m` to `n`. */
  lemma ContributionSymmetric(c: Connection, n: nat, m: nat)
    ensures multiset(Contribution(c, n))[m] == multiset(Contribution(c, m))[n]
  {
  }

  /** `m` is a neighbour of `n` exactly when some connection joins them. */
  lemma {:induction false} NeighboursMembership(conns: seq<Connection>, n: nat, m: nat)
    ensures m in Neighbours(conns, n) <==> exists k :: 0 <= k < |conns| && Joins(conns[k], n, m)
    decreases |conns|
  {
    if conns != [] {
      var init, last := conns[..|conns| - 1], conns[|conns| - 1];
      NeighboursMembership(init, n, m);
      assert Neighbours(conns, n) == Neighbours(init, n) + Contribution(last, n);
      assert m in Contribution(last, n) <==> Joins(last, n, m);
      if exists k :: 0 <= k < |conns| && Joins(conns[k], n, m) {
        var k :| 0 <= k < |conns| && Joins(conns[k], n, m);
        if k < |init| {
          assert Joins(init[k], n, m);
        }
      }
      if exists k :: 0 <= k < |init| && Joins(init[k], n, m) {
        var k :| 0 <= k < |init| && Joins(init[k], n, m);
        assert Joins(conns[k], n, m);
      }
    }
  }

  /** When every connection is in range, so is every neighbour. */
  lemma {:induction false} NeighboursInRange(conns: seq<Connection>, bound: nat, n: nat)
    requires ConnectionsInRange(conns, bound)
    ensures forall k :: 0 <= k < |Neighbours(conns, n)| ==> Neighbours(conns, n)[k] < bound
    decreases |conns|
  {
    if conns != [] {
      var init := conns[..|conns| - 1];
      assert ConnectionsInRange(init, bound) by {
        forall k | 0 <= k < |init|
          ensures init[k].nodeA < bound && init[k].nodeB < bound
        {
          assert init[k] == conns[k];
        }
      }
      NeighboursInRange(init, bound, n);
    }
  }

  // ---------------------------------------------------------------------
  // Nearest-point resolver

  /**
   Among the first `n` points, index `i` is at minimal distance from `q`,
   and every earlier index is strictly farther: `i` is the first minimum.
   */
  ghost predicate IsFirstClosest(pts: seq<Point>, q: Point, n: nat, i: nat)
    requires n <= |pts|
  {
    && i < n
    && (forall j :: 0 <= j < n ==> SqDistance(q, pts[i]) <= SqDistance(q, pts[j]))
    && (forall j :: 0 <= j < i ==> SqDistance(q, pts[i]) < SqDistance(q, pts[j]))
  }

  /**
   The index the resolver's scan holds after visiting the first `n` points:
   a later point replaces the current one only when it is strictly closer.
   */
  function ClosestIn(pts: seq<Point>, q: Point, n: nat): (i: nat)
    requires 0 < n <= |pts|
    ensures IsFirstClosest(pts, q, n, i)
    decreases n
  {
    if n == 1 then 0
    else
      var best := ClosestIn(pts, q, n - 1);
      if SqDistance(q, pts[n - 1]) < SqDistance(q, pts[best]) then n - 1 else best
  }

  /** The first minimum is unique, so the resolver's answer is determined by the points and the query. */
  lemma FirstClosestUnique(pts: seq<Point>, q: Point, n: nat, i: nat, i': nat)
    requires n <= |pts|
    requires IsFirstClosest(pts, q, n, i) && IsFirstClosest(pts, q, n, i')
    ensures i == i'
  {
    // Each is at most as far as the other, so neither can come strictly before the other.
    assert SqDistance(q, pts[i]) == SqDistance(q, pts[i']);
  }

  /** The resolver's scan over any list of distances: a later entry wins only when strictly smaller. */
  function ClosestBy(ds: seq<real>, n: nat): (i: nat)
    requires 0 < n <= |ds|
    ensures i < n
    ensures forall j :: 0 <= j < n ==> ds[i] <= ds[j]
    decreases n
  {
    if n == 1 then 0
    else
      var best := ClosestBy(ds, n - 1);
      if ds[n - 1] < ds[best] then n - 1 else best
  }

  /** The squared distances from `q` to each point, in id order. */
  function SqDistances(pts: seq<Point>, q: Point): (ds: seq<real>)
    ensures |ds| == |pts|
    ensures forall j :: 0 <= j < |pts| ==> ds[j] == SqDistance(q, pts[j])
  {
    seq(|pts|, j requires 0 <= j < |pts| => SqDistance(q, pts[j]))
  }

  /** `ClosestIn` is the scan run over the squared distances. */
  lemma {:induction false} ClosestInIsBy(pts: seq<Point>, q: Point, n: nat)
    requires 0 < n <= |pts|
    ensures ClosestIn(pts, q, n) == ClosestBy(SqDistances(pts, q), n)
  {
    if n > 1 {
      ClosestInIsBy(pts, q, n - 1);
    }
  }

  /** Each entry of `rs` is the non-negative square root of the matching entry of `ds`. */
  ghost predicate RootsOf(rs: seq<real>, ds: seq<real>)
  {
    |rs| == |ds| && forall j :: 0 <= j < |ds| ==> rs[j] >= 0.0 && rs[j] * rs[j] == ds[j]
  }

  /** Scanning non-negative roots keeps the same index as scanning their squares. */
  lemma {:induction false} RootsAgree(rs: seq<real>, ds: seq<real>, n: nat)
    requires RootsOf(rs, ds) && 0 < n <= |ds|
    ensures ClosestBy(rs, n) == ClosestBy(ds, n)
  {
    if n > 1 {
      RootsAgree(rs, ds, n - 1);
      var best := ClosestBy(ds, n - 1);
      RootComparisonAgrees(rs[n - 1], rs[best], ds[n - 1], ds[best]);
    }
  }

  /**
   If `rs` holds the distances the source computes from `q` (the non-negative
   roots of the squared distances), the source's scan over `rs` returns the
   index `ClosestIn` does.
   */
  lemma RootedScanAgrees(pts: seq<Point>, q: Point, rs: seq<real>)
    requires 0 < |pts| == |rs|
    requires forall j :: 0 <= j < |rs| ==> rs[j] >= 0.0 && rs[j] * rs[j] == SqDistance(q, pts[j])
    ensures ClosestBy(rs, |pts|) == ClosestIn(pts, q, |pts|)
  {
    ClosestInIsBy(pts, q, |pts|);
    assert RootsOf(rs, SqDistances(pts, q));
    RootsAgree(rs, SqDistances(pts, q), |pts|);
  }

  // ---------------------------------------------------------------------
  // Per-query node table

  /** The record solve_path builds for node `id` at `p`: costs to the resolved start and goal, no predecessor. */
  function NodeFor(id: nat, p: Point, startPt: Point, goalPt: Point): PathNode
  {
    var g := SqDistance(p, startPt);
    var h := SqDistance(p, goalPt);
    PathNode(id, g, h, g + h, None)
  }

  /** The node table solve_path rebuilds: one record per stored point, in id order. */
  function NodeTable(pts: seq<Point>, startPt: Point, goalPt: Point): seq<PathNode>
  {
    seq(|pts|, i requires 0 <= i < |pts| => NodeFor(i, pts[i], startPt, goalPt))
  }

  /**
   The rebuilt table has one record per point; record `i` carries the
   distance of point `i` to the start as `g`, its distance to the goal as
   `h`, `f = g + h`, and no predecessor.
   */
  lemma NodeTableShape(pts: seq<Point>, startPt: Point, goalPt: Point)
    ensures |NodeTable(pts, startPt, goalPt)| == |pts|
    ensures forall i :: 0 <= i < |pts| ==>
      var node := NodeTable(pts, startPt, goalPt)[i];
      && node.gCost == SqDistance(pts[i], startPt)
      && node.hCost == SqDistance(pts[i], goalPt)
      && node.fCost == node.gCost + node.hCost
      && node.cameFrom == None
  {
  }

  /** `GetId` of each record of the rebuilt table returns its position, the id of its point. */
  lemma NodeTableIds(pts: seq<Point>, startPt: Point, goalPt: Point)
    ensures forall i :: 0 <= i < |pts| ==> NodeTable(pts, startPt, goalPt)[i].GetId() == i
  {
  }

  /**
   All costs in the table are non-negative, the resolved start node has
   `g = 0` and the resolved goal node has `h = 0`.
   */
  lemma NodeTableCosts(pts: seq<Point>, startId: nat, goalId: nat)
    requires startId < |pts| && goalId < |pts|
    ensures forall i :: 0 <= i < |pts| ==>
      var node := NodeTable(pts, pts[startId], pts[goalId])[i];
      node.gCost >= 0.0 && node.hCost >= 0.0
    ensures NodeTable(pts, pts[startId], pts[goalId])[startId].gCost == 0.0
    ensures NodeTable(pts, pts[startId], pts[goalId])[goalId].hCost == 0.0
  {
  }

  // ---------------------------------------------------------------------
  // The path finder

  /** `AStarPathFinder`: the node table of the last query, the points and the connections. */
  class PathFinder {
    var pathNodes: seq<PathNode>
    var points: seq<Point>
    var connections: seq<Connection>

    /** Every stored connection refers to stored points. */
    ghost predicate Valid()
      reads this
    {
      ConnectionsInRange(connections, |points|)
    }

    /** The empty store (`Default`). */
    constructor ()
      ensures Valid()
      ensures pathNodes == [] && points == [] && connections == []
    {
      pathNodes := [];
      points := [];
      connections := [];
    }

    /** `add_point`: appends the point, whose id is the old number of points; always reports `true`. */
    method AddPoint(point: Point) returns (ok: bool)
      modifies this
      ensures ok
      ensures points == old(points) + [point]
      ensures connections == old(connections) && pathNodes == old(pathNodes)
      ensures old(Valid()) ==> Valid()
    {
      points := points + [point];
      ok := true;
    }

    /**
     `add_connection`: when both ids name stored points, appends the
     connection; otherwise changes nothing. Reports `false` in both cases.
     */
    method AddConnection(nodeAId: nat, nodeBId: nat) returns (ok: bool)
      modifies this
      ensures !ok
      ensures connections ==
        if nodeAId < |points| && nodeBId < |points| then old(connections) + [Connection(nodeAId, nodeBId)]
        else old(connections)
      ensures points == old(points) && pathNodes == old(pathNodes)
      ensures old(Valid()) ==> Valid()
    {
      if nodeAId >= |points| || nodeBId >= |points| {
        return false;
      }
      connections := connections + [Connection(nodeAId, nodeBId)];
      ok := false;
    }

    /**
     `get_connections`: the other endpoint of every connection touching
     `nodeId`, in connection order; all of them are stored ids.
     */
    method GetConnections(nodeId: nat) returns (ns: seq<nat>)
      ensures ns == Neighbours(connections, nodeId)
      ensures Valid() ==> forall k :: 0 <= k < |ns| ==> ns[k] < |points|
    {
      ns := [];
      for i := 0 to |connections|
        invariant ns == Neighbours(connections[..i], nodeId)
      {
        var connection := connections[i];
        if connection.nodeA == nodeId {
          ns := ns + [connection.nodeB];
        }
        if connection.nodeB == nodeId {
          ns := ns + [connection.nodeA];
        }
        assert ns == Neighbours(connections[..i], nodeId) + Contribution(connection, nodeId);
        NeighboursAppend(connections[..i], connection, nodeId);
        assert connections[..i + 1] == connections[..i] + [connection];
      }
      assert connections[..|connections|] == connections;
      if Valid() {
        NeighboursInRange(connections, |points|, nodeId);
      }
    }

    /**
     `get_closest_point`: `None` exactly when there are no points; otherwise
     the first stored point at minimal distance from `currentPoint`, with
     its id.
     */
    method GetClosestPoint(currentPoint: Point) returns (closest: Option<(nat, Point)>)
      ensures closest.None? <==> |points| == 0
      ensures closest.Some? ==>
        && IsFirstClosest(points, currentPoint, |points|, closest.value.0)
        && closest.value.1 == points[closest.value.0]
      ensures |points| > 0 ==>
        closest.value.0 == ClosestIn(points, currentPoint, |points|)
    {
      closest := None;
      var closestDistance: real := 0.0;
      for i := 0 to |points|
        invariant i == 0 ==> closest.None?
        invariant i > 0 ==>
          && closest.Some?
          && closest.value.0 == ClosestIn(points, currentPoint, i)
          && closest.value.1 == points[closest.value.0]
          && closestDistance == SqDistance(currentPoint, closest.value.1)
      {
        var distance := SqDistance(currentPoint, points[i]);
        if closest.None? || distance < closestDistance {
          closest := Some((i, points[i]));
          closestDistance := distance;
        }
      }
    }

    /**
     Lines 119-134 of `solve_path`: clears the node table and refills it
     with one record per point, and returns the open set, which holds the
     record of the start node alone.
     */
    method InitialiseSearch(startId: nat, startPt: Point, goalPt: Point) returns (openSet: seq<PathNode>)
      modifies this
      ensures pathNodes == NodeTable(points, startPt, goalPt)
      ensures openSet == if startId < |points| then [pathNodes[startId]] else []
      ensures points == old(points) && connections == old(connections)
    {
      openSet := [];
      pathNodes := [];
      for id := 0 to |points|
        invariant points == old(points) && connections == old(connections)
        invariant |pathNodes| == id
        invariant forall k :: 0 <= k < id ==> pathNodes[k] == NodeFor(k, points[k], startPt, goalPt)
        invariant openSet == if startId < id then [pathNodes[startId]] else []
      {
        var point := points[id];
        var gCost := SqDistance(point, startPt);
        var hCost := SqDistance(point, goalPt);
        var pathNode := PathNode(id, gCost, hCost, gCost + hCost, None);
        if id == startId {
          openSet := openSet + [pathNode];
        }
        pathNodes := pathNodes + [pathNode];
      }
    }

    /**
     `solve_path`: on an empty store, answers with the empty list and leaves
     the node table alone. Otherwise rebuilds the node table for the points
     nearest `start` and `goal` and answers with the single point nearest
     `start`. The graph itself is never changed.
     */
    method SolvePath(start: Point, goal: Point) returns (route: seq<Point>)
      modifies this
      ensures points == old(points) && connections == old(connections)
      ensures |points| == 0 ==> route == [] && pathNodes == old(pathNodes)
      ensures |points| > 0 ==>
        var s := ClosestIn(points, start, |points|);
        var g := ClosestIn(points, goal, |points|);
        route == [points[s]] && pathNodes == NodeTable(points, points[s], points[g])
    {
      var startPoint := GetClosestPoint(start);
      var goalPoint: Option<(nat, Point)> := None;
      if startPoint.Some? {
        goalPoint := GetClosestPoint(goal);
      }
      if startPoint.None? || goalPoint.None? {
        return [];
      }

      var openSet := InitialiseSearch(startPoint.value.0, startPoint.value.1, goalPoint.value.1);

      // The source's search loop breaks out in its first iteration without
      // touching any state, so it has nothing to model.

      route := [startPoint.value.1];
    }
  }
}
