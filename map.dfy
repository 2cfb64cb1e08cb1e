/**
 * The tile map and its path field (src/resources/map.rs).
 *
 * The map is a sparse coordinate -> tile dictionary whose unset cells read as
 * `Wall`, plus a lazily recomputed multi-source shortest-path cost field
 * seeded from every `Core` tile.
 *
 * The cost field is specified by breadth-first layers: `InReach(tiles, p, k)`
 * says `p` is at most `k` steps from a Core, where a step may only leave a
 * tile that is on the map and passable. The step's target needs no such
 * property: the source inserts a cost before it looks at the tile, so a wall
 * or an unset coordinate next to an expanded tile gets a cost as well (see
 * `ImpassableNeighbourGetsCost`).
 */
module TileMap {
  import opened Wrappers

  datatype Tile = Open | Wall | Spawn | Core

  /** The tile read for any coordinate never set. */
  const DefaultTile: Tile := Wall

  /** `i32::MAX`, the cost read for a coordinate with no path. */
  const NoPathCost: int := 0x7fff_ffff

  type Coord = (int, int)

  function TileAt(tiles: map<Coord, Tile>, p: Coord): Tile
  {
    if p in tiles then tiles[p] else DefaultTile
  }

  function IsPassable(t: Tile): (b: bool)
    ensures b <==> t != Wall
  {
    match t
    case Open => true
    case Wall => false
    case Spawn => true
    case Core => true
  }

  /** Coordinates one step apart horizontally or vertically. */
  predicate Adjacent(p: Coord, q: Coord)
  {
    (p.1 == q.1 && (p.0 - q.0 == 1 || q.0 - p.0 == 1)) ||
    (p.0 == q.0 && (p.1 - q.1 == 1 || q.1 - p.1 == 1))
  }

  /** The four neighbours, in the order left, right, up, down. */
  function Neighbors(x: int, y: int): (ns: seq<Coord>)
    ensures |ns| == 4
  {
    [(x - 1, y), (x + 1, y), (x, y - 1), (x, y + 1)]
  }

  /** The neighbours are exactly the adjacent coordinates, and adjacency is symmetric. */
  lemma NeighborsAreAdjacent(p: Coord, n: Coord)
    ensures n in Neighbors(p.0, p.1) <==> Adjacent(p, n)
    ensures n in Neighbors(p.0, p.1) <==> p in Neighbors(n.0, n.1)
  {
  }

  // ---------------------------------------------------------------------------
  // Specification of the path field
  // ---------------------------------------------------------------------------

  predicate IsCore(tiles: map<Coord, Tile>, p: Coord)
  {
    p in tiles && tiles[p] == Core
  }

  /** A coordinate the search spreads from: it is on the map and passable. */
  predicate Expands(tiles: map<Coord, Tile>, p: Coord)
  {
    p in tiles && IsPassable(tiles[p])
  }

  /** `p` is at most `k` steps from some Core tile. */
  ghost predicate InReach(tiles: map<Coord, Tile>, p: Coord, k: nat)
    decreases k, 0
  {
    if k == 0 then IsCore(tiles, p) else InReach(tiles, p, k - 1) || FedBy(tiles, p, k - 1)
  }

  /** Some expanding neighbour of `p` is at most `k` steps from a Core. */
  ghost predicate FedBy(tiles: map<Coord, Tile>, p: Coord, k: nat)
    decreases k, 1
  {
    var (x, y) := p;
    || (InReach(tiles, (x - 1, y), k) && Expands(tiles, (x - 1, y)))
    || (InReach(tiles, (x + 1, y), k) && Expands(tiles, (x + 1, y)))
    || (InReach(tiles, (x, y - 1), k) && Expands(tiles, (x, y - 1)))
    || (InReach(tiles, (x, y + 1), k) && Expands(tiles, (x, y + 1)))
  }

  ghost predicate Reachable(tiles: map<Coord, Tile>, p: Coord)
  {
    exists k: nat :: InReach(tiles, p, k)
  }

  /** `d` is the fewest steps from a Core to `p`. */
  ghost predicate IsDistance(tiles: map<Coord, Tile>, p: Coord, d: int)
  {
    d >= 0 && InReach(tiles, p, d) && (d == 0 || !InReach(tiles, p, d - 1))
  }

  /** `costs` holds exactly the reachable coordinates, each with its distance. */
  ghost predicate PathField(tiles: map<Coord, Tile>, costs: map<Coord, int>)
  {
    && (forall p :: p in costs ==> IsDistance(tiles, p, costs[p]))
    && (forall p :: Reachable(tiles, p) ==> p in costs)
  }

  /** Every Spawn tile has a path to some Core. */
  ghost predicate SpawnsConnected(tiles: map<Coord, Tile>)
  {
    forall p :: p in tiles && tiles[p] == Spawn ==> Reachable(tiles, p)
  }

  lemma {:induction false} ReachGrows(tiles: map<Coord, Tile>, p: Coord, j: nat, k: nat)
    requires j <= k && InReach(tiles, p, j)
    ensures InReach(tiles, p, k)
    decreases k - j
  {
    if j < k {
      ReachGrows(tiles, p, j, k - 1);
    }
  }

  /** One step of spreading: a neighbour of an expanding tile within `k` is within `k + 1`. */
  lemma SpreadStep(tiles: map<Coord, Tile>, k: nat, q: Coord, n: Coord)
    requires InReach(tiles, q, k) && Expands(tiles, q) && n in Neighbors(q.0, q.1)
    ensures InReach(tiles, n, k + 1)
  {
    assert FedBy(tiles, n, k);
  }

  /** A witness for `FedBy`. */
  lemma Feeder(tiles: map<Coord, Tile>, p: Coord, k: nat) returns (q: Coord)
    requires FedBy(tiles, p, k)
    ensures InReach(tiles, q, k) && Expands(tiles, q)
    ensures Adjacent(q, p) && p in Neighbors(q.0, q.1)
  {
    var (x, y) := p;
    if InReach(tiles, (x - 1, y), k) && Expands(tiles, (x - 1, y)) {
      q := (x - 1, y);
    } else if InReach(tiles, (x + 1, y), k) && Expands(tiles, (x + 1, y)) {
      q := (x + 1, y);
    } else if InReach(tiles, (x, y - 1), k) && Expands(tiles, (x, y - 1)) {
      q := (x, y - 1);
    } else {
      q := (x, y + 1);
    }
  }

  /** A cost in a path field is the least number of layers containing the coordinate. */
  lemma CostIsLeast(tiles: map<Coord, Tile>, costs: map<Coord, int>, p: Coord, k: nat)
    requires PathField(tiles, costs)
    requires InReach(tiles, p, k)
    ensures p in costs && costs[p] <= k
  {
    assert Reachable(tiles, p);
    if costs[p] > k {
      ReachGrows(tiles, p, k, costs[p] - 1);
    }
  }

  /** The path field of a map is unique. */
  lemma PathFieldUnique(tiles: map<Coord, Tile>, c1: map<Coord, int>, c2: map<Coord, int>)
    requires PathField(tiles, c1) && PathField(tiles, c2)
    ensures c1 == c2
  {
    forall p | p in c1
      ensures p in c2 && c2[p] == c1[p]
    {
      CostIsLeast(tiles, c2, p, c1[p]);
      CostIsLeast(tiles, c1, p, c2[p]);
    }
    forall p | p in c2
      ensures p in c1
    {
      CostIsLeast(tiles, c1, p, c2[p]);
    }
  }

  /** A coordinate has a cost exactly when it is reachable from a Core. */
  lemma CostIffReachable(tiles: map<Coord, Tile>, costs: map<Coord, int>, p: Coord)
    requires PathField(tiles, costs)
    ensures p in costs <==> Reachable(tiles, p)
  {
    if p in costs {
      assert InReach(tiles, p, costs[p]);
    }
  }

  /** Every Core tile has cost 0. */
  lemma CoreCostIsZero(tiles: map<Coord, Tile>, costs: map<Coord, int>, p: Coord)
    requires PathField(tiles, costs)
    requires IsCore(tiles, p)
    ensures p in costs && costs[p] == 0
  {
    CostIsLeast(tiles, costs, p, 0);
  }

  /** Only Core tiles have cost 0. */
  lemma ZeroCostIsCore(tiles: map<Coord, Tile>, costs: map<Coord, int>, p: Coord)
    requires PathField(tiles, costs)
    requires p in costs && costs[p] == 0
    ensures IsCore(tiles, p)
  {
    assert InReach(tiles, p, 0);
  }

  /**
   * Shortest-path consistency: every neighbour of an expanding tile with a
   * cost has a cost at most one more, whatever that neighbour's own tile is
   * (a wall or unset coordinate included).
   */
  lemma NeighbourCostBound(tiles: map<Coord, Tile>, costs: map<Coord, int>, q: Coord, n: Coord)
    requires PathField(tiles, costs)
    requires q in costs && Expands(tiles, q) && n in Neighbors(q.0, q.1)
    ensures n in costs && costs[n] <= costs[q] + 1
  {
    SpreadStep(tiles, costs[q], q, n);
    CostIsLeast(tiles, costs, n, costs[q] + 1);
  }

  /** Every positive cost is reached from an expanding neighbour one cheaper. */
  lemma HasPredecessor(tiles: map<Coord, Tile>, costs: map<Coord, int>, p: Coord) returns (q: Coord)
    requires PathField(tiles, costs)
    requires p in costs && costs[p] > 0
    ensures q in costs && Expands(tiles, q) && Adjacent(q, p) && costs[q] == costs[p] - 1
  {
    var d := costs[p];
    q := Feeder(tiles, p, d - 1);
    CostIsLeast(tiles, costs, q, d - 1);
    if costs[q] < d - 1 {
      SpreadStep(tiles, costs[q], q, p);
      ReachGrows(tiles, p, costs[q] + 1, d - 1);
    }
  }

  /**
   * The path-field search inserts a cost before checking passability, so a
   * coordinate never set (a `Wall` by default) next to a Core gets cost 1.
   */
  lemma ImpassableNeighbourGetsCost(costs: map<Coord, int>)
    requires PathField(map[(0, 0) := Core], costs)
    ensures TileAt(map[(0, 0) := Core], (1, 0)) == Wall
    ensures (1, 0) in costs && costs[(1, 0)] == 1
  {
    var tiles := map[(0, 0) := Core];
    CoreCostIsZero(tiles, costs, (0, 0));
    NeighbourCostBound(tiles, costs, (0, 0), (1, 0));
    if costs[(1, 0)] == 0 {
      ZeroCostIsCore(tiles, costs, (1, 0));
    }
  }

  lemma {:induction false} EmptyMapReachesNothing(p: Coord, k: nat)
    ensures !InReach(map[], p, k)
  {
    if k > 0 {
      EmptyMapReachesNothing(p, k - 1);
    }
  }

  // ---------------------------------------------------------------------------
  // DijkstraMap::recompute
  // ---------------------------------------------------------------------------

  datatype NodeWeight = NodeWeight(cost: int, pos: Coord)

  /** The coordinates the search can ever touch: the map's keys and their neighbours. */
  ghost function Universe(tiles: map<Coord, Tile>): set<Coord>
  {
    tiles.Keys + set q, n | q in tiles && n in Neighbors(q.0, q.1) :: n
  }

  predicate IsMin(w: NodeWeight, heap: multiset<NodeWeight>)
  {
    w in heap && forall x :: x in heap ==> w.cost <= x.cost
  }

  /** The weights pushed for the neighbours `ns`, each at cost `cost`. */
  function PushAll(cost: int, ns: seq<Coord>): multiset<NodeWeight>
  {
    if ns == [] then multiset{} else PushAll(cost, ns[..|ns| - 1]) + multiset{NodeWeight(cost, ns[|ns| - 1])}
  }

  /** The four neighbours of `p`, each at cost `cost`. */
  function NeighbourWeights(cost: int, p: Coord): multiset<NodeWeight>
  {
    var (x, y) := p;
    multiset{NodeWeight(cost, (x - 1, y)), NodeWeight(cost, (x + 1, y)),
             NodeWeight(cost, (x, y - 1)), NodeWeight(cost, (x, y + 1))}
  }

  lemma NeighbourWeightsMembers(cost: int, p: Coord, w: NodeWeight)
    ensures w in NeighbourWeights(cost, p) <==> w.cost == cost && w.pos in Neighbors(p.0, p.1)
  {
  }

  lemma PushAllNeighbours(cost: int, p: Coord)
    ensures PushAll(cost, Neighbors(p.0, p.1)) == NeighbourWeights(cost, p)
  {
    var ns := Neighbors(p.0, p.1);
    var w := seq(4, i requires 0 <= i < 4 => NodeWeight(cost, ns[i]));
    assert ns[..1][..0] == [];
    assert PushAll(cost, ns[..1]) == multiset{w[0]};
    assert ns[..2][..1] == ns[..1];
    assert PushAll(cost, ns[..2]) == multiset{w[0], w[1]};
    assert ns[..3][..2] == ns[..2];
    assert PushAll(cost, ns[..3]) == multiset{w[0], w[1], w[2]};
    assert ns[..3] == ns[..|ns| - 1];
  }

  /** A queued weight: its coordinate can be touched and is within its cost of a Core. */
  ghost predicate Queued(tiles: map<Coord, Tile>, w: NodeWeight, lo: int)
  {
    lo <= w.cost && w.pos in Universe(tiles) && w.cost >= 0 && InReach(tiles, w.pos, w.cost)
  }

  /** A neighbour `n` reached at cost `c` is costed already or queued at `c`. */
  predicate Handled(costs: map<Coord, int>, heap: multiset<NodeWeight>, n: Coord, c: int)
  {
    n in costs || NodeWeight(c, n) in heap
  }

  /** A coordinate `q` whose spreading is accounted for: each neighbour is handled. */
  predicate Spreads(costs: map<Coord, int>, heap: multiset<NodeWeight>, q: Coord)
    requires q in costs
  {
    var (x, y), c := q, costs[q] + 1;
    && Handled(costs, heap, (x - 1, y), c) && Handled(costs, heap, (x + 1, y), c)
    && Handled(costs, heap, (x, y - 1), c) && Handled(costs, heap, (x, y + 1), c)
  }

  lemma SpreadsNeighbor(costs: map<Coord, int>, heap: multiset<NodeWeight>, q: Coord, n: Coord)
    requires q in costs && Spreads(costs, heap, q) && n in Neighbors(q.0, q.1)
    ensures Handled(costs, heap, n, costs[q] + 1)
  {
  }

  /**
   * The loop invariant of the search; `lo` is the cost last popped, so all
   * costs set so far are at most `lo` and all queued weights at least `lo`.
   */
  ghost predicate SearchState(tiles: map<Coord, Tile>, costs: map<Coord, int>, heap: multiset<NodeWeight>, lo: int)
  {
    && lo >= 0
    && (forall w {:trigger Queued(tiles, w, lo)} :: w in heap ==> Queued(tiles, w, lo))
    && (forall p :: p in costs ==> p in Universe(tiles) && costs[p] <= lo && IsDistance(tiles, p, costs[p]))
    && (forall c :: IsCore(tiles, c) ==> c in costs || NodeWeight(0, c) in heap)
    && (forall q :: q in costs && Expands(tiles, q) ==> Spreads(costs, heap, q))
  }

  /** A coordinate within `d` steps but not yet costed has a queued weight at most `d`. */
  lemma {:induction false} Frontier(tiles: map<Coord, Tile>, costs: map<Coord, int>, heap: multiset<NodeWeight>,
                                    lo: int, d: nat, q: Coord)
    requires SearchState(tiles, costs, heap, lo)
    requires InReach(tiles, q, d) && q !in costs
    ensures exists w :: w in heap && w.cost <= d
    decreases d
  {
    if d == 0 {
      assert NodeWeight(0, q) in heap;
    } else if InReach(tiles, q, d - 1) {
      Frontier(tiles, costs, heap, lo, d - 1, q);
    } else {
      var r := Feeder(tiles, q, d - 1);
      if r in costs {
        if costs[r] > d - 1 {
          ReachGrows(tiles, r, d - 1, costs[r] - 1);
        }
        assert Spreads(costs, heap, r);
        assert NodeWeight(costs[r] + 1, q) in heap;
      } else {
        Frontier(tiles, costs, heap, lo, d - 1, r);
      }
    }
  }

  lemma {:induction false} MinExists(heap: multiset<NodeWeight>)
    requires heap != multiset{}
    ensures exists w :: IsMin(w, heap)
    decreases |heap|
  {
    var x :| x in heap;
    var rest := heap - multiset{x};
    assert heap == rest + multiset{x};
    if rest == multiset{} {
      assert IsMin(x, heap);
    } else {
      MinExists(rest);
      var m :| IsMin(m, rest);
      if x.cost < m.cost {
        assert IsMin(x, heap);
      } else {
        assert IsMin(m, heap);
      }
    }
  }

  /** What the search knows of a queued weight when it pops it. */
  lemma PopFacts(tiles: map<Coord, Tile>, costs: map<Coord, int>, heap: multiset<NodeWeight>, lo: int, w: NodeWeight)
    requires SearchState(tiles, costs, heap, lo) && w in heap
    ensures w.pos in Universe(tiles)
    ensures w.pos in costs ==> costs[w.pos] <= w.cost
  {
    assert Queued(tiles, w, lo);
  }

  /** The Core tiles, queued at cost 0, start the search. */
  lemma SeedState(tiles: map<Coord, Tile>, heap: multiset<NodeWeight>)
    requires forall w :: w in heap ==> w.cost == 0 && IsCore(tiles, w.pos)
    requires forall c :: IsCore(tiles, c) ==> NodeWeight(0, c) in heap
    ensures SearchState(tiles, map[], heap, 0)
  {
  }

  /** A popped weight already matched by a cost is dropped. */
  lemma SkipStep(tiles: map<Coord, Tile>, costs: map<Coord, int>, heap: multiset<NodeWeight>, lo: int, w: NodeWeight)
    requires SearchState(tiles, costs, heap, lo) && IsMin(w, heap)
    requires w.pos in costs
    ensures SearchState(tiles, costs, heap - multiset{w}, w.cost)
  {
    var heap' := heap - multiset{w};
    assert Queued(tiles, w, lo);
    forall x | x in heap'
      ensures Queued(tiles, x, w.cost)
    {
      assert x in heap && Queued(tiles, x, lo);
    }
    forall c | IsCore(tiles, c)
      ensures c in costs || NodeWeight(0, c) in heap'
    {
      if c !in costs {
        assert NodeWeight(0, c) in heap;
      }
    }
    forall q | q in costs && Expands(tiles, q)
      ensures Spreads(costs, heap', q)
    {
      assert Spreads(costs, heap, q);
      var (x, y) := q;
      var d := costs[q] + 1;
      HandledDropped(costs, heap, w, (x - 1, y), d);
      HandledDropped(costs, heap, w, (x + 1, y), d);
      HandledDropped(costs, heap, w, (x, y - 1), d);
      HandledDropped(costs, heap, w, (x, y + 1), d);
    }
  }

  lemma HandledDropped(costs: map<Coord, int>, heap: multiset<NodeWeight>, w: NodeWeight, n: Coord, c: int)
    requires w.pos in costs && Handled(costs, heap, n, c)
    ensures Handled(costs, heap - multiset{w}, n, c)
  {
    if n !in costs {
      assert NodeWeight(c, n) in heap - multiset{w};
    }
  }

  /** A popped weight for a coordinate without a cost is its distance. */
  lemma PoppedIsDistance(tiles: map<Coord, Tile>, costs: map<Coord, int>, heap: multiset<NodeWeight>, lo: int, w: NodeWeight)
    requires SearchState(tiles, costs, heap, lo) && IsMin(w, heap)
    requires w.pos !in costs
    ensures IsDistance(tiles, w.pos, w.cost)
  {
    assert Queued(tiles, w, lo);
    if w.cost > 0 && InReach(tiles, w.pos, w.cost - 1) {
      Frontier(tiles, costs, heap, lo, w.cost - 1, w.pos);
    }
  }

  /**
   * `heap'` is the queue after popping `w` and costing its coordinate: the
   * rest of `heap`, plus the neighbours one step dearer when `w.pos` expands.
   */
  ghost predicate QueueAfter(tiles: map<Coord, Tile>, heap: multiset<NodeWeight>, w: NodeWeight, heap': multiset<NodeWeight>)
  {
    forall x :: x in heap' <==>
      (x in heap - multiset{w} || (Expands(tiles, w.pos) && x in NeighbourWeights(w.cost + 1, w.pos)))
  }

  lemma QueueAfterPush(tiles: map<Coord, Tile>, heap: multiset<NodeWeight>, w: NodeWeight, heap': multiset<NodeWeight>)
    requires Expands(tiles, w.pos) && heap' == heap - multiset{w} + NeighbourWeights(w.cost + 1, w.pos)
    ensures QueueAfter(tiles, heap, w, heap')
  {
  }

  lemma QueueAfterDrop(tiles: map<Coord, Tile>, heap: multiset<NodeWeight>, w: NodeWeight, heap': multiset<NodeWeight>)
    requires !Expands(tiles, w.pos) && heap' == heap - multiset{w}
    ensures QueueAfter(tiles, heap, w, heap')
  {
  }

  lemma InsertQueued(tiles: map<Coord, Tile>, costs: map<Coord, int>, heap: multiset<NodeWeight>, lo: int, w: NodeWeight,
                     heap': multiset<NodeWeight>)
    requires SearchState(tiles, costs, heap, lo) && IsMin(w, heap)
    requires QueueAfter(tiles, heap, w, heap')
    ensures forall x :: x in heap' ==> Queued(tiles, x, w.cost)
  {
    var p, c := w.pos, w.cost;
    forall x | x in heap'
      ensures Queued(tiles, x, c)
    {
      if x in heap - multiset{w} {
        assert x in heap;
        assert Queued(tiles, x, lo);
      } else {
        NeighbourWeightsMembers(c + 1, p, x);
        assert Queued(tiles, w, lo);
        SpreadStep(tiles, c, p, x.pos);
      }
    }
  }

  /** Costing the popped coordinate and dropping its weight keeps every neighbour handled. */
  lemma HandledKept(tiles: map<Coord, Tile>, costs: map<Coord, int>, heap: multiset<NodeWeight>, w: NodeWeight,
                    heap': multiset<NodeWeight>, n: Coord, c: int)
    requires QueueAfter(tiles, heap, w, heap')
    requires Handled(costs, heap, n, c)
    ensures Handled(costs[w.pos := w.cost], heap', n, c)
  {
    if n !in costs && n != w.pos {
      assert NodeWeight(c, n) in heap - multiset{w};
    }
  }

  lemma NeighbourQueued(tiles: map<Coord, Tile>, heap: multiset<NodeWeight>, w: NodeWeight,
                        heap': multiset<NodeWeight>, n: Coord)
    requires QueueAfter(tiles, heap, w, heap') && Expands(tiles, w.pos)
    requires n in Neighbors(w.pos.0, w.pos.1)
    ensures NodeWeight(w.cost + 1, n) in heap'
  {
    NeighbourWeightsMembers(w.cost + 1, w.pos, NodeWeight(w.cost + 1, n));
  }

  /** A coordinate costed before keeps its neighbours handled. */
  lemma SpreadsKept(tiles: map<Coord, Tile>, costs: map<Coord, int>, heap: multiset<NodeWeight>, w: NodeWeight,
                    heap': multiset<NodeWeight>, q: Coord)
    requires QueueAfter(tiles, heap, w, heap')
    requires q in costs && Spreads(costs, heap, q) && q != w.pos
    ensures q in costs[w.pos := w.cost] && Spreads(costs[w.pos := w.cost], heap', q)
  {
    var (x, y) := q;
    var d := costs[q] + 1;
    HandledKept(tiles, costs, heap, w, heap', (x - 1, y), d);
    HandledKept(tiles, costs, heap, w, heap', (x + 1, y), d);
    HandledKept(tiles, costs, heap, w, heap', (x, y - 1), d);
    HandledKept(tiles, costs, heap, w, heap', (x, y + 1), d);
  }

  /** The coordinate just costed has all four neighbours queued when it expands. */
  lemma SpreadsPopped(tiles: map<Coord, Tile>, costs: map<Coord, int>, heap: multiset<NodeWeight>, w: NodeWeight,
                      heap': multiset<NodeWeight>)
    requires QueueAfter(tiles, heap, w, heap') && Expands(tiles, w.pos)
    ensures Spreads(costs[w.pos := w.cost], heap', w.pos)
  {
    var (x, y) := w.pos;
    NeighbourQueued(tiles, heap, w, heap', (x - 1, y));
    NeighbourQueued(tiles, heap, w, heap', (x + 1, y));
    NeighbourQueued(tiles, heap, w, heap', (x, y - 1));
    NeighbourQueued(tiles, heap, w, heap', (x, y + 1));
  }

  /** Inserting the popped weight's cost and pushing its neighbours keeps the invariant. */
  lemma InsertStep(tiles: map<Coord, Tile>, costs: map<Coord, int>, heap: multiset<NodeWeight>, lo: int, w: NodeWeight,
                   heap': multiset<NodeWeight>)
    requires SearchState(tiles, costs, heap, lo) && IsMin(w, heap)
    requires w.pos !in costs
    requires QueueAfter(tiles, heap, w, heap')
    ensures SearchState(tiles, costs[w.pos := w.cost], heap', w.cost)
  {
    PoppedIsDistance(tiles, costs, heap, lo, w);
    InsertQueued(tiles, costs, heap, lo, w, heap');
    forall q | q in costs[w.pos := w.cost] && Expands(tiles, q)
      ensures Spreads(costs[w.pos := w.cost], heap', q)
    {
      if q == w.pos {
        SpreadsPopped(tiles, costs, heap, w, heap');
      } else {
        SpreadsKept(tiles, costs, heap, w, heap', q);
      }
    }
    assert Queued(tiles, w, lo);
    forall c | IsCore(tiles, c)
      ensures c in costs[w.pos := w.cost] || NodeWeight(0, c) in heap'
    {
      if c !in costs && c != w.pos {
        assert NodeWeight(0, c) in heap - multiset{w};
      }
    }
  }

  /** Costing a touchable coordinate shrinks the set of touchable coordinates without a cost. */
  lemma CostedShrinks(tiles: map<Coord, Tile>, costs: map<Coord, int>, p: Coord, c: int)
    requires p in Universe(tiles) && p !in costs
    ensures |Universe(tiles) - costs[p := c].Keys| < |Universe(tiles) - costs.Keys|
  {
    assert Universe(tiles) - costs[p := c].Keys == (Universe(tiles) - costs.Keys) - {p};
  }

  lemma FinalState(tiles: map<Coord, Tile>, costs: map<Coord, int>, lo: int)
    requires SearchState(tiles, costs, multiset{}, lo)
    ensures PathField(tiles, costs)
  {
    forall p | Reachable(tiles, p)
      ensures p in costs
    {
      var k: nat :| InReach(tiles, p, k);
      if p !in costs {
        Frontier(tiles, costs, multiset{}, lo, k, p);
      }
    }
  }

  /** A queue holding exactly the Core tiles, each at cost 0. */
  method QueueCores(tiles: map<Coord, Tile>) returns (heap: multiset<NodeWeight>)
    ensures forall w :: w in heap ==> w.cost == 0 && IsCore(tiles, w.pos)
    ensures forall c :: IsCore(tiles, c) ==> NodeWeight(0, c) in heap
  {
    heap := multiset{};
    var unseen := tiles.Keys;
    while unseen != {}
      invariant unseen <= tiles.Keys
      invariant forall w :: w in heap ==> w.cost == 0 && IsCore(tiles, w.pos)
      invariant forall c :: IsCore(tiles, c) && c !in unseen ==> NodeWeight(0, c) in heap
      decreases unseen
    {
      var pos :| pos in unseen;
      if tiles[pos] == Core {
        heap := heap + multiset{NodeWeight(0, pos)};
      }
      unseen := unseen - {pos};
    }
  }

  /** Queue each of the four neighbours of `pos` at `cost`. */
  method PushNeighbours(heap: multiset<NodeWeight>, pos: Coord, cost: int) returns (heap': multiset<NodeWeight>)
    ensures heap' == heap + NeighbourWeights(cost, pos)
  {
    var ns := Neighbors(pos.0, pos.1);
    heap' := heap;
    for i := 0 to 4
      invariant heap' == heap + PushAll(cost, ns[..i])
    {
      assert ns[..i + 1][..i] == ns[..i];
      heap' := heap' + multiset{NodeWeight(cost, ns[i])};
    }
    assert ns[..4] == ns;
    PushAllNeighbours(cost, pos);
  }

  /**
   * One turn of the search loop: pop a cheapest weight; drop it if its
   * coordinate already has a cost no larger, else record its cost and, if the
   * tile is on the map and passable, queue its neighbours one step dearer.
   */
  method ProcessCheapest(tiles: map<Coord, Tile>, costs: map<Coord, int>, toProcess: multiset<NodeWeight>, ghost lo: int)
    returns (costs': map<Coord, int>, toProcess': multiset<NodeWeight>, ghost lo': int)
    requires toProcess != multiset{} && SearchState(tiles, costs, toProcess, lo)
    ensures SearchState(tiles, costs', toProcess', lo')
    ensures costs'.Keys >= costs.Keys
    ensures |Universe(tiles) - costs'.Keys| < |Universe(tiles) - costs.Keys| ||
            (costs' == costs && |toProcess'| < |toProcess|)
  {
    MinExists(toProcess);
    var w :| w in toProcess && IsMin(w, toProcess);
    var cost, pos := w.cost, w.pos;
    PopFacts(tiles, costs, toProcess, lo, w);

    if pos in costs && costs[pos] <= cost {
      // a redundant entry: the coordinate already has a cost no larger
      SkipStep(tiles, costs, toProcess, lo, w);
      return costs, toProcess - multiset{w}, cost;
    }

    CostedShrinks(tiles, costs, pos, cost);
    toProcess' := toProcess - multiset{w};
    if pos in tiles && IsPassable(tiles[pos]) {
      toProcess' := PushNeighbours(toProcess', pos, cost + 1);
      QueueAfterPush(tiles, toProcess, w, toProcess');
    } else {
      QueueAfterDrop(tiles, toProcess, w, toProcess');
    }
    costs', lo' := costs[pos := cost], cost;
    InsertStep(tiles, costs, toProcess, lo, w, toProcess');
  }

  /**
   * Recompute the cost of every coordinate: a uniform-cost search from all
   * Core tiles at once over a priority queue, spreading only from tiles that
   * are on the map and passable.
   */
  method Recompute(tiles: map<Coord, Tile>) returns (costs: map<Coord, int>)
    ensures PathField(tiles, costs)
  {
    costs := map[];
    // first, every Core tile is a source at cost 0
    var toProcess := QueueCores(tiles);
    SeedState(tiles, toProcess);

    ghost var lo := 0;
    while toProcess != multiset{}
      invariant SearchState(tiles, costs, toProcess, lo)
      decreases |Universe(tiles) - costs.Keys|, |toProcess|
    {
      costs, toProcess, lo := ProcessCheapest(tiles, costs, toProcess, lo);
    }
    FinalState(tiles, costs, lo);
  }

  // ---------------------------------------------------------------------------
  // Map::move_toward_spawn, specified over the cost field
  // ---------------------------------------------------------------------------

  /** A coordinate's cost, reading a missing cost as `i32::MAX`. */
  function CostOf(costs: map<Coord, int>, p: Coord): int
  {
    if p in costs then costs[p] else NoPathCost
  }

  /**
   * The greedy scan over `ns`: a passable candidate replaces the current best
   * only when it is strictly cheaper.
   */
  function StepToward(tiles: map<Coord, Tile>, costs: map<Coord, int>, ns: seq<Coord>, best: Coord): Coord
    decreases |ns|
  {
    if ns == [] then best
    else
      var n := ns[0];
      var next := if IsPassable(TileAt(tiles, n)) && CostOf(costs, n) < CostOf(costs, best) then n else best;
      StepToward(tiles, costs, ns[1..], next)
  }

  /** The tile `move_toward_spawn` returns from `start`. */
  function BestStep(tiles: map<Coord, Tile>, costs: map<Coord, int>, start: Coord): Coord
  {
    StepToward(tiles, costs, Neighbors(start.0, start.1), start)
  }

  /**
   * The scan returns the starting best or a passable candidate strictly
   * cheaper than it, and nothing passable in `ns` is cheaper than the result.
   */
  lemma {:induction false} StepTowardChoice(tiles: map<Coord, Tile>, costs: map<Coord, int>, ns: seq<Coord>, best: Coord)
    ensures var r := StepToward(tiles, costs, ns, best);
      && (r == best || (r in ns && IsPassable(TileAt(tiles, r)) && CostOf(costs, r) < CostOf(costs, best)))
      && CostOf(costs, r) <= CostOf(costs, best)
      && (forall n :: n in ns && IsPassable(TileAt(tiles, n)) ==> CostOf(costs, r) <= CostOf(costs, n))
    decreases |ns|
  {
    if ns != [] {
      var n := ns[0];
      var next := if IsPassable(TileAt(tiles, n)) && CostOf(costs, n) < CostOf(costs, best) then n else best;
      StepTowardChoice(tiles, costs, ns[1..], next);
      assert ns == [n] + ns[1..];
    }
  }

  /**
   * Ties go to the earliest candidate: a result other than the starting best
   * sits at an index before which no passable candidate was as cheap.
   */
  /** No candidate before index `i` is passable and at most as cheap as `r`. */
  ghost predicate NoEarlierTie(tiles: map<Coord, Tile>, costs: map<Coord, int>, ns: seq<Coord>, i: int, r: Coord)
    requires 0 <= i <= |ns|
  {
    forall j :: 0 <= j < i ==> !(IsPassable(TileAt(tiles, ns[j])) && CostOf(costs, ns[j]) <= CostOf(costs, r))
  }

  lemma {:induction false} StepTowardFirst(tiles: map<Coord, Tile>, costs: map<Coord, int>, ns: seq<Coord>, best: Coord)
    ensures var r := StepToward(tiles, costs, ns, best);
      r != best ==> exists i :: 0 <= i < |ns| && ns[i] == r && NoEarlierTie(tiles, costs, ns, i, r)
    decreases |ns|
  {
    var r := StepToward(tiles, costs, ns, best);
    if ns != [] && r != best {
      var n := ns[0];
      var next := if IsPassable(TileAt(tiles, n)) && CostOf(costs, n) < CostOf(costs, best) then n else best;
      if r == next {
        assert ns[0] == r;
      } else {
        StepTowardFirst(tiles, costs, ns[1..], next);
        StepTowardChoice(tiles, costs, ns[1..], next);
        var i :| 0 <= i < |ns[1..]| && ns[1..][i] == r && NoEarlierTie(tiles, costs, ns[1..], i, r);
        assert ns[i + 1] == r;
        forall j | 0 <= j < i + 1
          ensures !(IsPassable(TileAt(tiles, ns[j])) && CostOf(costs, ns[j]) <= CostOf(costs, r))
        {
          if j > 0 {
            assert ns[j] == ns[1..][j - 1];
          }
        }
      }
    }
  }

  /** From a tile with a positive cost, the step goes to a neighbour one cheaper. */
  lemma MoveDescends(tiles: map<Coord, Tile>, costs: map<Coord, int>, p: Coord)
    requires PathField(tiles, costs)
    requires p in costs && 0 < costs[p] <= NoPathCost
    ensures var r := BestStep(tiles, costs, p);
      r in costs && costs[r] == costs[p] - 1 && Adjacent(p, r) && Expands(tiles, r)
  {
    var d := costs[p];
    var ns := Neighbors(p.0, p.1);
    var r := BestStep(tiles, costs, p);
    var q := HasPredecessor(tiles, costs, p);
    assert q in ns;
    StepTowardChoice(tiles, costs, ns, p);
    assert r in costs;
    assert Expands(tiles, r);
    NeighbourCostBound(tiles, costs, r, p);
  }

  /** A Core tile (cost 0) is a fixpoint of the step. */
  lemma CoreIsFixpoint(tiles: map<Coord, Tile>, costs: map<Coord, int>, p: Coord)
    requires PathField(tiles, costs)
    requires p in costs && costs[p] == 0
    ensures BestStep(tiles, costs, p) == p
  {
    StepTowardChoice(tiles, costs, Neighbors(p.0, p.1), p);
  }

  /** A tile with no path does not move. */
  lemma UnreachableIsFixpoint(tiles: map<Coord, Tile>, costs: map<Coord, int>, p: Coord)
    requires PathField(tiles, costs)
    requires p !in costs
    ensures BestStep(tiles, costs, p) == p
  {
    var r := BestStep(tiles, costs, p);
    StepTowardChoice(tiles, costs, Neighbors(p.0, p.1), p);
    if r != p {
      assert Expands(tiles, r);
      assert p in Neighbors(r.0, r.1);
      NeighbourCostBound(tiles, costs, r, p);
    }
  }

  /** `n` successive steps from `p`. */
  function Walk(tiles: map<Coord, Tile>, costs: map<Coord, int>, p: Coord, n: nat): Coord
    decreases n
  {
    if n == 0 then p else Walk(tiles, costs, BestStep(tiles, costs, p), n - 1)
  }

  /**
   * Greedy descent terminates at a Core: from a tile of cost `d`, `d` steps
   * reach a Core tile, and every further step stays there.
   */
  lemma {:induction false} WalkReachesCore(tiles: map<Coord, Tile>, costs: map<Coord, int>, p: Coord, extra: nat)
    requires PathField(tiles, costs)
    requires p in costs && costs[p] <= NoPathCost
    ensures var goal := Walk(tiles, costs, p, costs[p]);
      IsCore(tiles, goal) && Walk(tiles, costs, p, costs[p] + extra) == goal
    decreases costs[p]
  {
    if costs[p] == 0 {
      StayAtCore(tiles, costs, p, extra);
      ZeroCostIsCore(tiles, costs, p);
    } else {
      MoveDescends(tiles, costs, p);
      WalkReachesCore(tiles, costs, BestStep(tiles, costs, p), extra);
    }
  }

  lemma {:induction false} StayAtCore(tiles: map<Coord, Tile>, costs: map<Coord, int>, p: Coord, n: nat)
    requires PathField(tiles, costs)
    requires p in costs && costs[p] == 0
    ensures Walk(tiles, costs, p, n) == p
  {
    if n > 0 {
      CoreIsFixpoint(tiles, costs, p);
      StayAtCore(tiles, costs, p, n - 1);
    }
  }

  // ---------------------------------------------------------------------------
  // Map
  // ---------------------------------------------------------------------------

  class Map {
    var tiles: map<Coord, Tile>
    var dijkstraMapsDirty: bool
    /** `DijkstraMap::costs`: coordinate -> cost; no key means no path. */
    var corePaths: map<Coord, int>

    /** When the map is clean, the cost field is the path field of the tiles. */
    ghost predicate Valid()
      reads this
    {
      !dijkstraMapsDirty ==> PathField(tiles, corePaths)
    }

    constructor ()
      ensures Valid()
      ensures tiles == map[] && !dijkstraMapsDirty && corePaths == map[]
    {
      tiles := map[];
      dijkstraMapsDirty := false;
      corePaths := map[];
      new;
      forall p | Reachable(map[], p)
        ensures false
      {
        var k: nat :| InReach(map[], p, k);
        EmptyMapReachesNothing(p, k);
      }
    }

    /** The derived `Clone`. */
    constructor Copy(other: Map)
      ensures tiles == other.tiles && dijkstraMapsDirty == other.dijkstraMapsDirty
      ensures corePaths == other.corePaths
    {
      tiles := other.tiles;
      dijkstraMapsDirty := other.dijkstraMapsDirty;
      corePaths := other.corePaths;
    }

    function GetTile(x: int, y: int): (t: Tile)
      reads this
      ensures (x, y) in tiles ==> t == tiles[(x, y)]
      ensures (x, y) !in tiles ==> t == Wall
    {
      TileAt(tiles, (x, y))
    }

    method SetTile(x: int, y: int, tile: Tile)
      modifies this
      ensures tiles == old(tiles)[(x, y) := tile]
      ensures dijkstraMapsDirty && corePaths == old(corePaths)
      ensures Valid()
    {
      dijkstraMapsDirty := true;
      tiles := tiles[(x, y) := tile];
    }

    /**
     * Would every Spawn tile still have a path to a Core if (x, y) were set
     * to `tile`? Answered on a copy; the map itself is not modified.
     */
    method CanSetTile(x: int, y: int, tile: Tile) returns (ok: bool)
      ensures ok <==> SpawnsConnected(tiles[(x, y) := tile])
    {
      var test := new Map.Copy(this);
      test.SetTile(x, y, tile);
      test.RecomputeDijkstraMaps();

      var spawns := set p | p in test.tiles && test.tiles[p] == Spawn;
      while spawns != {}
        invariant spawns <= set p | p in test.tiles && test.tiles[p] == Spawn
        invariant forall p :: p in test.tiles && test.tiles[p] == Spawn && p !in spawns ==> p in test.corePaths
        decreases spawns
      {
        var pos :| pos in spawns;
        if pos !in test.corePaths {
          CostIffReachable(test.tiles, test.corePaths, pos);
          return false;
        }
        spawns := spawns - {pos};
      }
      forall p | p in test.tiles && test.tiles[p] == Spawn
        ensures Reachable(test.tiles, p)
      {
        CostIffReachable(test.tiles, test.corePaths, p);
      }
      return true;
    }

    method RecomputeDijkstraMaps()
      requires Valid()
      modifies this
      ensures Valid() && !dijkstraMapsDirty && tiles == old(tiles)
      ensures PathField(tiles, corePaths)
      ensures !old(dijkstraMapsDirty) ==> corePaths == old(corePaths)
    {
      if !dijkstraMapsDirty {
        return;
      }
      corePaths := Recompute(tiles);
      dijkstraMapsDirty := false;
    }

    /**
     * The tile to move to from (startX, startY): the cheapest passable
     * neighbour if it is strictly cheaper than the start, else the start.
     */
    method MoveTowardSpawn(startX: int, startY: int) returns (r: Coord)
      requires Valid()
      modifies this
      ensures Valid() && !dijkstraMapsDirty && tiles == old(tiles)
      ensures PathField(tiles, corePaths)
      ensures !old(dijkstraMapsDirty) ==> corePaths == old(corePaths)
      ensures r == BestStep(tiles, corePaths, (startX, startY))
    {
      RecomputeDijkstraMaps();

      var leastCost := CostOf(corePaths, (startX, startY));
      var winningCoords := (startX, startY);
      var ns := Neighbors(startX, startY);
      for i := 0 to 4
        invariant leastCost == CostOf(corePaths, winningCoords)
        invariant StepToward(tiles, corePaths, ns[i..], winningCoords) == BestStep(tiles, corePaths, (startX, startY))
      {
        var (x, y) := ns[i];
        assert ns[i..] == [ns[i]] + ns[i + 1..];
        if IsPassable(GetTile(x, y)) {
          var cost := CostOf(corePaths, (x, y));
          if cost < leastCost {
            leastCost := cost;
            winningCoords := (x, y);
          }
        }
      }
      r := winningCoords;
    }

    /** Every coordinate holding a Spawn tile, once each (in no particular order). */
    method AllSpawns() returns (spawns: seq<Coord>)
      ensures forall p :: p in spawns <==> p in tiles && tiles[p] == Spawn
      ensures forall i, j :: 0 <= i < j < |spawns| ==> spawns[i] != spawns[j]
    {
      spawns := [];
      var unseen := tiles.Keys;
      while unseen != {}
        invariant unseen <= tiles.Keys
        invariant forall p :: p in spawns <==> p in tiles && tiles[p] == Spawn && p !in unseen
        invariant forall i, j :: 0 <= i < j < |spawns| ==> spawns[i] != spawns[j]
        decreases unseen
      {
        var pos :| pos in unseen;
        if tiles[pos] == Spawn {
          spawns := spawns + [pos];
        }
        unseen := unseen - {pos};
      }
    }
  }
}
