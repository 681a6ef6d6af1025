/**
  `grow_region_by_hsv`: a breadth-first flood fill that starts from the
  seed mask and adds every neighbour (4- or 8-connected) that is not fully
  transparent and whose HSV form is similar to the target colour.

  The region it returns is specified by reachability: a cell is in the
  region exactly when some path of adjacent cells leads to it from a seed,
  every cell on the path being a seed or an admissible pixel.
*/
module RegionGrowth {
  import opened ColorSpace
  import opened Imaging

  /** The neighbour offsets `(dx, dy)` in the order the loop visits them.
      Any connectivity other than 4 selects the eight-neighbour list. */
  function Directions(connectivity: int): (ds: seq<(int, int)>)
    ensures connectivity == 4 ==> |ds| == 4
    ensures connectivity != 4 ==> |ds| == 8
    ensures forall k :: 0 <= k < |ds| ==> ds[k] != (0, 0)
  {
    if connectivity == 4 then [(0, 1), (1, 0), (0, -1), (-1, 0)]
    else [(0, 1), (1, 1), (1, 0), (1, -1), (0, -1), (-1, -1), (-1, 0), (-1, 1)]
  }

  /** `b` is one step from `a` along one of the directions. */
  predicate Adjacent(connectivity: int, a: Cell, b: Cell)
  {
    (b.x - a.x, b.y - a.y) in Directions(connectivity)
  }

  /** Four-connectivity joins the cells at Manhattan distance one;
      every other setting joins the cells at Chebyshev distance one. */
  lemma AdjacentIff(connectivity: int, a: Cell, b: Cell)
    ensures connectivity == 4 ==>
      (Adjacent(connectivity, a, b) <==> Abs((b.x - a.x) as real) + Abs((b.y - a.y) as real) == 1.0)
    ensures connectivity != 4 ==>
      (Adjacent(connectivity, a, b) <==> a != b && -1 <= b.x - a.x <= 1 && -1 <= b.y - a.y <= 1)
  {
  }

  /** Adjacency is symmetric for both neighbour lists. */
  lemma AdjacentSymmetric(connectivity: int, a: Cell, b: Cell)
    ensures Adjacent(connectivity, a, b) <==> Adjacent(connectivity, b, a)
  {
  }

  /** The inputs of one growth: the image, its seed mask, the HSV form of
      every pixel (`hsv_array`, computed once before the loop), the target
      colour, the tolerances and the connectivity. */
  datatype Growth = Growth(img: Image, start: seq<seq<bool>>, hsv: seq<seq<Hsv>>,
                           target: Hsv, tol: Tolerance, connectivity: int)

  predicate ValidGrowth(g: Growth)
  {
    WellFormed(g.img) && IsGrid(g.start, g.img.height, g.img.width) && IsGrid(g.hsv, g.img.height, g.img.width)
  }

  /** `hsv_array`: the HSV form of every pixel of the image. */
  function HsvImage(img: Image): (hsv: seq<seq<Hsv>>)
    requires WellFormed(img)
    ensures IsGrid(hsv, img.height, img.width)
    ensures forall y, x :: 0 <= y < img.height && 0 <= x < img.width ==>
      hsv[y][x] == PixelHsv(img.rgb[y][x]) && IsValidHsv(hsv[y][x])
  {
    seq(img.height, y requires 0 <= y < img.height =>
      seq(img.width, x requires 0 <= x < img.width => PixelHsv(PixelAt(img, Cell(y, x)))))
  }

  predicate IsSeed(g: Growth, c: Cell)
    requires ValidGrowth(g)
  {
    InBounds(g.img, c) && g.start[c.y][c.x]
  }

  /** A pixel the loop accepts when it reaches it: not fully transparent
      and similar to the target in hue, saturation and value. */
  predicate Admissible(g: Growth, c: Cell)
    requires ValidGrowth(g) && InBounds(g.img, c)
  {
    !Transparent(g.img, c) && HsvSimilar(g.hsv[c.y][c.x], g.target, g.tol)
  }

  /** When the HSV grid is that of the image, a pixel is admissible exactly
      when it is not fully transparent and its colour is similar to the target. */
  lemma AdmissibleIff(g: Growth, c: Cell)
    requires ValidGrowth(g) && g.hsv == HsvImage(g.img) && InBounds(g.img, c)
    ensures Admissible(g, c) <==>
      !Transparent(g.img, c) && HsvSimilar(PixelHsv(PixelAt(g.img, c)), g.target, g.tol)
  {
  }

  /** A cell that may lie on a growth path. */
  predicate Joinable(g: Growth, c: Cell)
    requires ValidGrowth(g)
  {
    InBounds(g.img, c) && (g.start[c.y][c.x] || Admissible(g, c))
  }

  /** A path from a seed through joinable cells, each adjacent to the one before. */
  predicate IsGrowthPath(g: Growth, p: seq<Cell>)
    requires ValidGrowth(g)
  {
    && |p| > 0
    && IsSeed(g, p[0])
    && (forall i :: 0 <= i < |p| ==> Joinable(g, p[i]))
    && (forall i :: 0 < i < |p| ==> Adjacent(g.connectivity, p[i - 1], p[i]))
  }

  /** The region: the cells some growth path ends at. */
  ghost predicate InRegion(g: Growth, c: Cell)
    requires ValidGrowth(g)
  {
    exists p :: IsGrowthPath(g, p) && p[|p| - 1] == c
  }

  /** Every seed is in the region. */
  lemma SeedInRegion(g: Growth, c: Cell)
    requires ValidGrowth(g) && IsSeed(g, c)
    ensures InRegion(g, c)
  {
    assert IsGrowthPath(g, [c]);
  }

  /** A joinable neighbour of a region cell is in the region. */
  lemma ExtendRegion(g: Growth, a: Cell, b: Cell)
    requires ValidGrowth(g) && InRegion(g, a)
    requires Adjacent(g.connectivity, a, b) && Joinable(g, b)
    ensures InRegion(g, b)
  {
    var p :| IsGrowthPath(g, p) && p[|p| - 1] == a;
    var q := p + [b];
    assert IsGrowthPath(g, q);
  }

  /** Only seeds and admissible pixels are in the region: in particular a
      fully transparent or dissimilar pixel is never added. */
  lemma RegionIsJoinable(g: Growth, c: Cell)
    requires ValidGrowth(g) && InRegion(g, c)
    ensures InBounds(g.img, c)
    ensures IsSeed(g, c) || Admissible(g, c)
  {
    var p :| IsGrowthPath(g, p) && p[|p| - 1] == c;
    assert Joinable(g, p[|p| - 1]);
  }

  /** A set of cells that holds every seed and every joinable neighbour of its members. */
  ghost predicate Closed(g: Growth, s: set<Cell>)
    requires ValidGrowth(g)
  {
    && (forall c :: IsSeed(g, c) ==> c in s)
    && (forall a, b :: a in s && Adjacent(g.connectivity, a, b) && Joinable(g, b) ==> b in s)
  }

  /** A closed set contains the last cell of every growth path. */
  lemma {:induction false} PathInsideClosed(g: Growth, s: set<Cell>, p: seq<Cell>)
    requires ValidGrowth(g) && Closed(g, s) && IsGrowthPath(g, p)
    ensures p[|p| - 1] in s
    decreases |p|
  {
    if |p| > 1 {
      var q := p[..|p| - 1];
      assert IsGrowthPath(g, q);
      PathInsideClosed(g, s, q);
      assert Adjacent(g.connectivity, q[|q| - 1], p[|p| - 1]);
    }
  }

  /** The region lies inside every closed set. */
  lemma RegionInsideClosed(g: Growth, s: set<Cell>, c: Cell)
    requires ValidGrowth(g) && Closed(g, s) && InRegion(g, c)
    ensures c in s
  {
    var p :| IsGrowthPath(g, p) && p[|p| - 1] == c;
    PathInsideClosed(g, s, p);
  }

  /** The neighbour of `c` along direction `k`. */
  function Neighbour(g: Growth, c: Cell, k: int): Cell
    requires 0 <= k < |Directions(g.connectivity)|
  {
    var d := Directions(g.connectivity)[k];
    Cell(c.y + d.1, c.x + d.0)
  }

  /** Every in-bounds neighbour of `c` along the first `k` directions has
      been visited (written by recursion on `k`, one direction at a time). */
  ghost predicate NeighboursSeen(g: Growth, seen: set<Cell>, c: Cell, k: int)
    requires ValidGrowth(g) && 0 <= k <= |Directions(g.connectivity)|
  {
    k == 0 ||
    (NeighboursSeen(g, seen, c, k - 1) &&
     (InBounds(g.img, Neighbour(g, c, k - 1)) ==> Neighbour(g, c, k - 1) in seen))
  }

  lemma {:induction false} NeighbourSeen(g: Growth, seen: set<Cell>, c: Cell, k: int, j: int)
    requires ValidGrowth(g) && 0 <= j < k <= |Directions(g.connectivity)|
    requires NeighboursSeen(g, seen, c, k) && InBounds(g.img, Neighbour(g, c, j))
    ensures Neighbour(g, c, j) in seen
  {
    if j < k - 1 {
      NeighbourSeen(g, seen, c, k - 1, j);
    }
  }

  lemma NeighbourAdjacent(g: Growth, c: Cell, k: int)
    requires 0 <= k < |Directions(g.connectivity)|
    ensures Adjacent(g.connectivity, c, Neighbour(g, c, k))
  {
    var ds := Directions(g.connectivity);
    assert ds[k] in ds;
  }

  lemma {:induction false} NeighboursSeenMono(g: Growth, seen: set<Cell>, seen': set<Cell>, c: Cell, k: int)
    requires ValidGrowth(g) && 0 <= k <= |Directions(g.connectivity)|
    requires NeighboursSeen(g, seen, c, k) && seen <= seen'
    ensures NeighboursSeen(g, seen', c, k)
  {
    if k > 0 {
      NeighboursSeenMono(g, seen, seen', c, k - 1);
    }
  }

  ghost function AllCells(h: nat, w: nat): set<Cell>
  {
    set y, x | 0 <= y < h && 0 <= x < w :: Cell(y, x)
  }

  /** What the flood fill keeps true between steps, on the visited set
      `seen` and the region set `members`: the region lies inside the
      visited cells and holds every seed; a visited cell outside the region
      is not joinable; every member is reachable; the queue holds members. */
  ghost predicate Inv(g: Growth, seen: set<Cell>, members: set<Cell>, queue: seq<Cell>)
    requires ValidGrowth(g)
  {
    && members <= seen
    && (forall c :: c in seen ==> InBounds(g.img, c))
    && (forall c :: IsSeed(g, c) ==> c in members)
    && (forall c {:trigger Joinable(g, c)} :: c in seen && c !in members ==> !Joinable(g, c))
    && (forall c {:trigger InRegion(g, c)} :: c in members ==> InRegion(g, c))
    && (forall i :: 0 <= i < |queue| ==> queue[i] in members)
  }

  /** Every member outside `pending` has all its neighbours visited. */
  ghost predicate Expanded(g: Growth, seen: set<Cell>, members: set<Cell>, pending: seq<Cell>)
    requires ValidGrowth(g)
  {
    forall c :: c in members && c !in pending ==> NeighboursSeen(g, seen, c, |Directions(g.connectivity)|)
  }

  /** The array `a` holds exactly the cells of `s`. */
  ghost predicate Mirrors(g: Growth, a: array2<bool>, s: set<Cell>)
    requires ValidGrowth(g)
    reads a
  {
    && a.Length0 == g.img.height && a.Length1 == g.img.width
    && forall y, x {:trigger a[y, x]} :: 0 <= y < g.img.height && 0 <= x < g.img.width ==> (a[y, x] <==> Cell(y, x) in s)
  }

  lemma InAllCells(g: Growth, s: set<Cell>)
    requires ValidGrowth(g) && forall c :: c in s ==> InBounds(g.img, c)
    ensures s <= AllCells(g.img.height, g.img.width)
  {
    forall c | c in s ensures c in AllCells(g.img.height, g.img.width) {
      assert c == Cell(c.y, c.x);
    }
  }

  lemma InitialInv(g: Growth, queue: seq<Cell>)
    requires ValidGrowth(g) && queue == MaskCells(g.start)
    ensures var s := set c | c in queue; Inv(g, s, s, queue) && Expanded(g, s, s, queue)
  {
    var s := set c | c in queue;
    forall c | c in s ensures InRegion(g, c) {
      SeedInRegion(g, c);
    }
  }

  /** Accepting the unvisited cell `n`, adjacent to the member `cur`, keeps the invariant. */
  lemma AcceptKeepsInv(g: Growth, seen: set<Cell>, members: set<Cell>, queue: seq<Cell>, cur: Cell, n: Cell)
    requires ValidGrowth(g) && Inv(g, seen, members, queue)
    requires cur in members && Adjacent(g.connectivity, cur, n)
    requires InBounds(g.img, n) && n !in seen && Admissible(g, n)
    ensures Inv(g, seen + {n}, members + {n}, queue + [n])
  {
    AcceptReachable(g, members, cur, n);
    var seen', members', queue' := seen + {n}, members + {n}, queue + [n];
    assert forall i :: 0 <= i < |queue'| ==> queue'[i] in members' by {
      forall i | 0 <= i < |queue'| ensures queue'[i] in members' {
        if i < |queue| { assert queue'[i] == queue[i]; }
      }
    }
  }

  lemma AcceptReachable(g: Growth, members: set<Cell>, cur: Cell, n: Cell)
    requires ValidGrowth(g) && forall c :: c in members ==> InRegion(g, c)
    requires cur in members && Adjacent(g.connectivity, cur, n)
    requires InBounds(g.img, n) && Admissible(g, n)
    ensures forall c :: c in members + {n} ==> InRegion(g, c)
  {
    ExtendRegion(g, cur, n);
  }

  /** Rejecting the unvisited cell `n` that is transparent or dissimilar keeps the invariant. */
  lemma RejectKeepsInv(g: Growth, seen: set<Cell>, members: set<Cell>, queue: seq<Cell>, n: Cell)
    requires ValidGrowth(g) && Inv(g, seen, members, queue)
    requires InBounds(g.img, n) && n !in seen && !Admissible(g, n)
    ensures Inv(g, seen + {n}, members, queue)
  {
  }

  /** More visited cells keep every expansion fact. */
  lemma ExpandedGrows(g: Growth, seen: set<Cell>, seen': set<Cell>, members: set<Cell>, members': set<Cell>,
                      pending: seq<Cell>, pending': seq<Cell>)
    requires ValidGrowth(g) && Expanded(g, seen, members, pending)
    requires seen <= seen' && (forall c :: c in members' - members ==> c in pending')
    requires forall c :: c in pending ==> c in pending'
    ensures Expanded(g, seen', members', pending')
  {
    forall c | c in members' && c !in pending'
      ensures NeighboursSeen(g, seen', c, |Directions(g.connectivity)|)
    {
      NeighboursSeenMono(g, seen, seen', c, |Directions(g.connectivity)|);
    }
  }

  /** When nothing is pending, the region set is closed. */
  lemma FinalClosed(g: Growth, seen: set<Cell>, members: set<Cell>)
    requires ValidGrowth(g) && Inv(g, seen, members, []) && Expanded(g, seen, members, [])
    ensures Closed(g, members)
  {
    forall a, b | a in members && Adjacent(g.connectivity, a, b) && Joinable(g, b) ensures b in members {
      var ds := Directions(g.connectivity);
      var j :| 0 <= j < |ds| && ds[j] == (b.x - a.x, b.y - a.y);
      assert Neighbour(g, a, j) == b;
      NeighbourSeen(g, seen, a, |ds|, j);
    }
  }

  /** `grow_region_by_hsv`: convert the image to HSV once, then flood from
      the seeds. The returned mask holds exactly the cells of the region. */
  method GrowRegion(img: Image, start: seq<seq<bool>>, target: Hsv, tol: Tolerance, connectivity: int)
    returns (region: array2<bool>)
    requires WellFormed(img) && IsGrid(start, img.height, img.width)
    ensures region.Length0 == img.height && region.Length1 == img.width
    ensures forall y, x :: 0 <= y < img.height && 0 <= x < img.width ==>
      (region[y, x] <==> InRegion(Growth(img, start, HsvImage(img), target, tol, connectivity), Cell(y, x)))
  {
    region := Flood(Growth(img, start, HsvImage(img), target, tol, connectivity));
  }

  /** The contents of a two-dimensional boolean array as a grid. */
  function MaskOf(a: array2<bool>): (mask: seq<seq<bool>>)
    reads a
    ensures IsGrid(mask, a.Length0, a.Length1)
    ensures forall y, x :: 0 <= y < a.Length0 && 0 <= x < a.Length1 ==> mask[y][x] == a[y, x]
  {
    seq(a.Length0, y requires 0 <= y < a.Length0 reads a =>
      seq(a.Length1, x requires 0 <= x < a.Length1 reads a => a[y, x]))
  }

  /** The breadth-first loop over a prepared growth. */
  method Flood(g: Growth) returns (region: array2<bool>)
    requires ValidGrowth(g)
    ensures region.Length0 == g.img.height && region.Length1 == g.img.width
    ensures forall y, x :: 0 <= y < g.img.height && 0 <= x < g.img.width ==>
      (region[y, x] <==> InRegion(g, Cell(y, x)))
  {
    var h, w := g.img.height, g.img.width;
    var start := g.start;
    var visited := new bool[h, w]((y: nat, x: nat) => y < |start| && x < |start[y]| && start[y][x]);
    region := new bool[h, w]((y: nat, x: nat) => y < |start| && x < |start[y]| && start[y][x]);
    var queue := MaskCells(g.start);
    ghost var seen := set c | c in queue;
    ghost var members := seen;
    forall y, x | 0 <= y < h && 0 <= x < w ensures visited[y, x] == region[y, x] == start[y][x] {
      assert |start[y]| == w;
    }
    InitialState(g, queue, visited, region);
    while |queue| > 0
      invariant visited != region
      invariant Mirrors(g, visited, seen) && Mirrors(g, region, members)
      invariant Inv(g, seen, members, queue) && seen <= AllCells(h, w)
      invariant Expanded(g, seen, members, queue)
      decreases AllCells(h, w) - seen, |queue|
    {
      ghost var seen0, queue0 := seen, queue;
      queue, seen, members := ExpandCell(g, visited, region, queue, seen, members);
      InAllCells(g, seen);
      if seen != seen0 {
        Shrinks(AllCells(h, w), seen0, seen);
      }
    }
    FinalRegion(g, region, seen, members);
  }

  /** After the loop the region array holds exactly the region. */
  lemma FinalRegion(g: Growth, region: array2<bool>, seen: set<Cell>, members: set<Cell>)
    requires ValidGrowth(g) && Mirrors(g, region, members)
    requires Inv(g, seen, members, []) && Expanded(g, seen, members, [])
    ensures forall y, x :: 0 <= y < g.img.height && 0 <= x < g.img.width ==>
      (region[y, x] <==> InRegion(g, Cell(y, x)))
  {
    FinalClosed(g, seen, members);
    forall y, x | 0 <= y < g.img.height && 0 <= x < g.img.width
      ensures region[y, x] <==> InRegion(g, Cell(y, x))
    {
      if InRegion(g, Cell(y, x)) {
        RegionInsideClosed(g, members, Cell(y, x));
      }
    }
  }

  /** Before the loop both arrays are copies of the seed mask and the invariant holds. */
  lemma InitialState(g: Growth, queue: seq<Cell>, visited: array2<bool>, region: array2<bool>)
    requires ValidGrowth(g) && queue == MaskCells(g.start)
    requires visited.Length0 == region.Length0 == g.img.height
    requires visited.Length1 == region.Length1 == g.img.width
    requires forall y, x :: 0 <= y < g.img.height && 0 <= x < g.img.width ==>
      visited[y, x] == region[y, x] == g.start[y][x]
    ensures var s := set c | c in queue;
      && Mirrors(g, visited, s) && Mirrors(g, region, s)
      && Inv(g, s, s, queue) && Expanded(g, s, s, queue)
      && s <= AllCells(g.img.height, g.img.width)
  {
    InitialInv(g, queue);
    InAllCells(g, set c | c in queue);
    InitialMirrors(g, queue, visited, region);
  }

  /** Before the loop both arrays are copies of the seed mask. */
  lemma InitialMirrors(g: Growth, queue: seq<Cell>, visited: array2<bool>, region: array2<bool>)
    requires ValidGrowth(g) && queue == MaskCells(g.start)
    requires visited.Length0 == region.Length0 == g.img.height
    requires visited.Length1 == region.Length1 == g.img.width
    requires forall y, x :: 0 <= y < g.img.height && 0 <= x < g.img.width ==>
      visited[y, x] == region[y, x] == g.start[y][x]
    ensures Mirrors(g, visited, set c | c in queue) && Mirrors(g, region, set c | c in queue)
  {
  }

  lemma Shrinks(all: set<Cell>, s: set<Cell>, s': set<Cell>)
    requires s <= s' <= all && s != s'
    ensures all - s' < all - s
  {
    var c :| c in s' && c !in s;
    assert c in all - s && c !in all - s';
  }

  lemma InvPop(g: Growth, seen: set<Cell>, members: set<Cell>, queue: seq<Cell>)
    requires ValidGrowth(g) && Inv(g, seen, members, queue) && |queue| > 0
    ensures Inv(g, seen, members, queue[1..]) && queue[0] in members
  {
  }

  lemma ExpandedClose(g: Growth, seen: set<Cell>, members: set<Cell>, rest: seq<Cell>, cur: Cell)
    requires ValidGrowth(g) && Expanded(g, seen, members, rest + [cur])
    requires NeighboursSeen(g, seen, cur, |Directions(g.connectivity)|)
    ensures Expanded(g, seen, members, rest)
  {
  }

  lemma ExpandedPop(g: Growth, seen: set<Cell>, members: set<Cell>, rest: seq<Cell>, cur: Cell)
    requires ValidGrowth(g) && Expanded(g, seen, members, [cur] + rest)
    ensures Expanded(g, seen, members, rest + [cur])
  {
  }

  /** The state of the inner loop after `k` directions of the cell `cur`,
      which was taken off the queue when the visited set was `seen0` and the
      rest of the queue was `queue0`. */
  ghost predicate Scan(g: Growth, visited: array2<bool>, region: array2<bool>, queue: seq<Cell>,
                       seen: set<Cell>, members: set<Cell>, cur: Cell, k: int,
                       queue0: seq<Cell>, seen0: set<Cell>)
    requires ValidGrowth(g)
    reads visited, region
  {
    && 0 <= k <= |Directions(g.connectivity)|
    && Mirrors(g, visited, seen) && Mirrors(g, region, members)
    && Inv(g, seen, members, queue)
    && cur in members && NeighboursSeen(g, seen, cur, k)
    && Expanded(g, seen, members, queue + [cur])
    && seen0 <= seen && (seen == seen0 ==> queue == queue0)
  }

  /** One turn of the outer loop: take the first cell off the queue and
      run the inner loop over its directions. */
  method ExpandCell(g: Growth, visited: array2<bool>, region: array2<bool>, queue: seq<Cell>,
                    ghost seen: set<Cell>, ghost members: set<Cell>)
    returns (queue': seq<Cell>, ghost seen': set<Cell>, ghost members': set<Cell>)
    requires ValidGrowth(g) && visited != region && |queue| > 0
    requires Mirrors(g, visited, seen) && Mirrors(g, region, members)
    requires Inv(g, seen, members, queue) && Expanded(g, seen, members, queue)
    modifies visited, region
    ensures Mirrors(g, visited, seen') && Mirrors(g, region, members')
    ensures Inv(g, seen', members', queue')
    ensures Expanded(g, seen', members', queue')
    ensures seen <= seen' && (seen' == seen ==> |queue'| < |queue|)
  {
    var cur := queue[0];
    ScanStart(g, visited, region, queue, seen, members);
    var ds := Directions(g.connectivity);
    queue', seen', members' := queue[1..], seen, members;
    var k := 0;
    while k < |ds|
      invariant 0 <= k <= |ds|
      invariant Scan(g, visited, region, queue', seen', members', cur, k, queue[1..], seen)
    {
      queue', seen', members' := ScanStep(g, visited, region, queue', seen', members', cur, k, queue[1..], seen);
      k := k + 1;
    }
    ScanEnd(g, visited, region, queue', seen', members', cur, queue, seen);
  }

  lemma ScanStart(g: Growth, visited: array2<bool>, region: array2<bool>, queue: seq<Cell>,
                  seen: set<Cell>, members: set<Cell>)
    requires ValidGrowth(g) && |queue| > 0
    requires Mirrors(g, visited, seen) && Mirrors(g, region, members)
    requires Inv(g, seen, members, queue) && Expanded(g, seen, members, queue)
    ensures Scan(g, visited, region, queue[1..], seen, members, queue[0], 0, queue[1..], seen)
  {
    assert [queue[0]] + queue[1..] == queue;
    ExpandedPop(g, seen, members, queue[1..], queue[0]);
    InvPop(g, seen, members, queue);
  }

  lemma ScanEnd(g: Growth, visited: array2<bool>, region: array2<bool>, queue': seq<Cell>,
                seen': set<Cell>, members': set<Cell>, cur: Cell, queue: seq<Cell>, seen: set<Cell>)
    requires ValidGrowth(g) && |queue| > 0
    requires Scan(g, visited, region, queue', seen', members', cur, |Directions(g.connectivity)|, queue[1..], seen)
    ensures Mirrors(g, visited, seen') && Mirrors(g, region, members')
    ensures Inv(g, seen', members', queue') && Expanded(g, seen', members', queue')
    ensures seen <= seen' && (seen' == seen ==> |queue'| < |queue|)
  {
    ExpandedClose(g, seen', members', queue', cur);
  }

  /** One turn of the inner loop: look at the neighbour of `cur` along direction `k`. */
  method ScanStep(g: Growth, visited: array2<bool>, region: array2<bool>, queue: seq<Cell>,
                  ghost seen: set<Cell>, ghost members: set<Cell>, cur: Cell, k: int,
                  ghost queue0: seq<Cell>, ghost seen0: set<Cell>)
    returns (queue': seq<Cell>, ghost seen': set<Cell>, ghost members': set<Cell>)
    requires ValidGrowth(g) && visited != region && 0 <= k < |Directions(g.connectivity)|
    requires Scan(g, visited, region, queue, seen, members, cur, k, queue0, seen0)
    modifies visited, region
    ensures Scan(g, visited, region, queue', seen', members', cur, k + 1, queue0, seen0)
  {
    var n := Neighbour(g, cur, k);
    if 0 <= n.x < g.img.width && 0 <= n.y < g.img.height && !visited[n.y, n.x] {
      NeighbourAdjacent(g, cur, k);
      queue', seen', members' := Visit(g, visited, region, queue, seen, members, cur, n);
    } else {
      queue', seen', members' := queue, seen, members;
      if InBounds(g.img, n) {
        assert visited[n.y, n.x] && Cell(n.y, n.x) == n;
      }
    }
    NeighboursSeenMono(g, seen, seen', cur, k);
    ExpandedGrows(g, seen, seen', members, members', queue + [cur], queue' + [cur]);
  }

  /** The body of the inner loop for a neighbour `n` that is in bounds and
      not yet visited: mark it visited, and add it to the region and the
      queue when it is not transparent and similar to the target. */
  method Visit(g: Growth, visited: array2<bool>, region: array2<bool>, queue: seq<Cell>,
               ghost seen: set<Cell>, ghost members: set<Cell>, cur: Cell, n: Cell)
    returns (queue': seq<Cell>, ghost seen': set<Cell>, ghost members': set<Cell>)
    requires ValidGrowth(g) && visited != region
    requires Mirrors(g, visited, seen) && Mirrors(g, region, members)
    requires Inv(g, seen, members, queue) && cur in members
    requires Adjacent(g.connectivity, cur, n) && InBounds(g.img, n) && n !in seen
    modifies visited, region
    ensures Mirrors(g, visited, seen') && Mirrors(g, region, members')
    ensures Inv(g, seen', members', queue')
    ensures seen' == seen + {n}
    ensures (members' == members + {n} && queue' == queue + [n]) || (members' == members && queue' == queue)
  {
    seen' := seen + {n};
    var accept := Admissible(g, n);
    visited[n.y, n.x] := true;
    if accept {
      region[n.y, n.x] := true;
      AcceptKeepsInv(g, seen, members, queue, cur, n);
      queue', members' := queue + [n], members + {n};
    } else {
      RejectKeepsInv(g, seen, members, queue, n);
      queue', members' := queue, members;
    }
  }
}
