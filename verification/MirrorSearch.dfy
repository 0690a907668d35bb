/** The breadth-first search that paints the reflections of one piece onto a grid. The original
    writes this loop twice, painting colour 4 or the piece itself; it is one method here. */
module MirrorSearch {
  import opened Mirrors

  type Item = (Cell, nat)

  // ---------- The search against the balls of radius 0 to 13 ----------

  ghost function Balls(p: Piece, axes: seq<Axis>, seeds: set<Cell>): (balls: seq<set<Cell>>)
    ensures |balls| == MAX_DEPTH + 2
  {
    seq(MAX_DEPTH + 2, n requires 0 <= n => Ball(p, axes, seeds, n))
  }

  /** One permitted reflection leads from every inner cell to an outer one ... */
  ghost predicate LeadsTo(p: Piece, axes: seq<Axis>, inner: set<Cell>, outer: set<Cell>) {
    forall c, k :: c in inner && 0 <= k < |axes| && Permits(p, axes[k]) ==> Reflect(axes[k], c) in outer
  }

  /** ... and every cell new in the outer set is such an image. */
  ghost predicate ComesFrom(p: Piece, axes: seq<Axis>, inner: set<Cell>, outer: set<Cell>) {
    forall c :: c in outer && c !in inner ==>
      exists b, k :: b in inner && 0 <= k < |axes| && Permits(p, axes[k]) && c == Reflect(axes[k], b)
  }

  /** What the search needs of the balls. */
  ghost predicate Layered(p: Piece, axes: seq<Axis>, balls: seq<set<Cell>>) {
    && |balls| == MAX_DEPTH + 2
    && (forall m, n :: 0 <= m <= n < |balls| ==> balls[m] <= balls[n])
    && (forall m, n :: 0 <= m < |balls| && 0 <= n < |balls| && n == m + 1 ==>
          LeadsTo(p, axes, balls[m], balls[n]))
  }

  ghost predicate Grounded(p: Piece, axes: seq<Axis>, balls: seq<set<Cell>>) {
    && |balls| == MAX_DEPTH + 2
    && forall m, n :: 0 <= m < |balls| && 0 <= n < |balls| && n == m + 1 ==>
         ComesFrom(p, axes, balls[m], balls[n])
  }

  lemma BallsLayered(p: Piece, axes: seq<Axis>, seeds: set<Cell>)
    ensures Layered(p, axes, Balls(p, axes, seeds)) && Grounded(p, axes, Balls(p, axes, seeds))
  {
    var balls := Balls(p, axes, seeds);
    forall m, n | 0 <= m <= n < |balls| ensures balls[m] <= balls[n] { BallGrows(p, axes, seeds, m, n); }
    forall m, n | 0 <= m < |balls| && 0 <= n < |balls| && n == m + 1
      ensures LeadsTo(p, axes, balls[m], balls[n]) && ComesFrom(p, axes, balls[m], balls[n])
    {
      NextBall(p, axes, seeds, m);
    }
  }

  lemma NextBall(p: Piece, axes: seq<Axis>, seeds: set<Cell>, n: nat)
    ensures LeadsTo(p, axes, Ball(p, axes, seeds, n), Ball(p, axes, seeds, n + 1))
    ensures ComesFrom(p, axes, Ball(p, axes, seeds, n), Ball(p, axes, seeds, n + 1))
  {
    forall c | c in Ball(p, axes, seeds, n + 1) && c !in Ball(p, axes, seeds, n)
      ensures exists b, k :: b in Ball(p, axes, seeds, n) && 0 <= k < |axes| && Permits(p, axes[k]) && c == Reflect(axes[k], b)
    {
      var b, k := LastStep(p, axes, seeds, n, c);
    }
  }

  ghost predicate Queued(queue: seq<Item>, c: Cell) {
    exists q :: 0 <= q < |queue| && queue[q].0 == c
  }

  /** Every permitted image of c in the first k axes has been visited. */
  ghost predicate Expanded(p: Piece, axes: seq<Axis>, visited: set<Cell>, c: Cell, k: nat) {
    k <= |axes| && forall l :: 0 <= l < k && Permits(p, axes[l]) ==> Reflect(axes[l], c) in visited
  }

  /** Depths in the queue never fall and spread over at most two levels. */
  ghost predicate Levels(queue: seq<Item>) {
    && (forall i, j :: 0 <= i <= j < |queue| ==> queue[i].1 <= queue[j].1)
    && (queue != [] ==> queue[|queue| - 1].1 <= queue[0].1 + 1)
  }

  /** An item's depth is its distance from the seeds. */
  ghost predicate AtDistance(balls: seq<set<Cell>>, item: Item) {
    && item.1 < |balls| && item.0 in balls[item.1]
    && (item.1 > 0 ==> item.0 !in balls[item.1 - 1])
  }

  ghost predicate Frontier(balls: seq<set<Cell>>, visited: set<Cell>, queue: seq<Item>) {
    && |balls| == MAX_DEPTH + 2
    && balls[0] <= visited <= balls[MAX_DEPTH + 1]
    && Levels(queue)
    && forall q :: 0 <= q < |queue| ==> queue[q].0 in visited && AtDistance(balls, queue[q])
  }

  /** Whatever is visited, off the queue and within the cap has all its images visited. */
  ghost predicate Settled(p: Piece, axes: seq<Axis>, balls: seq<set<Cell>>, visited: set<Cell>, queue: seq<Item>)
    requires |balls| == MAX_DEPTH + 2
  {
    forall c :: c in visited && c in balls[MAX_DEPTH] && !Queued(queue, c) ==>
      Expanded(p, axes, visited, c, |axes|)
  }

  /** When the front of the queue has depth d, the whole ball of radius d is visited. */
  lemma {:induction false} FrontCovers(p: Piece, axes: seq<Axis>, balls: seq<set<Cell>>, visited: set<Cell>,
                                       queue: seq<Item>, n: nat)
    requires Layered(p, axes, balls) && Grounded(p, axes, balls)
    requires Frontier(balls, visited, queue) && Settled(p, axes, balls, visited, queue)
    requires n <= MAX_DEPTH + 1 && (queue != [] ==> n <= queue[0].1)
    ensures balls[n] <= visited
  {
    if n != 0 {
      FrontCovers(p, axes, balls, visited, queue, n - 1);
      assert ComesFrom(p, axes, balls[n - 1], balls[n]);
      forall c | c in balls[n] && c !in balls[n - 1] ensures c in visited {
        var b, k :| b in balls[n - 1] && 0 <= k < |axes| && Permits(p, axes[k]) && c == Reflect(axes[k], b);
        NotQueued(p, axes, balls, visited, queue, n - 1, b);
        assert balls[n - 1] <= balls[MAX_DEPTH];
        assert Expanded(p, axes, visited, b, |axes|);
      }
    }
  }

  lemma NotQueued(p: Piece, axes: seq<Axis>, balls: seq<set<Cell>>, visited: set<Cell>,
                  queue: seq<Item>, n: nat, c: Cell)
    requires Layered(p, axes, balls) && Frontier(balls, visited, queue)
    requires n <= MAX_DEPTH && (queue != [] ==> n < queue[0].1)
    requires c in balls[n]
    ensures !Queued(queue, c)
  {
    forall q | 0 <= q < |queue|
      ensures queue[q].0 != c
    {
      assert queue[0].1 <= queue[q].1 && AtDistance(balls, queue[q]);
      assert balls[n] <= balls[queue[q].1 - 1];
    }
  }

  // ---------- One image of a popped cell ----------

  ghost predicate Painted<T>(grid: array2<T>, before: (int, int) -> T, blank: T, mark: T, cells: set<Cell>)
    reads grid
  {
    forall y, x :: 0 <= y < grid.Length0 && 0 <= x < grid.Length1 ==>
      grid[y, x] == if before(y, x) == blank && Cell(x, y) in cells then mark else before(y, x)
  }

  /** The loop over the axes so far: cells added since the pop wait on the queue, one level on. */
  ghost predicate Growth(visited0: set<Cell>, queue0: seq<Item>, visited: set<Cell>, queue: seq<Item>, depth: nat) {
    && visited0 <= visited && queue0 <= queue
    && (visited == visited0 ==> queue == queue0)
    && (forall q :: 0 <= q < |queue| ==> depth <= queue[q].1 <= depth + 1)
    && forall c :: c in visited && c !in visited0 ==> Queued(queue, c)
  }

  lemma QueuedStays(q1: seq<Item>, q2: seq<Item>, c: Cell)
    requires q1 <= q2 && Queued(q1, c)
    ensures Queued(q2, c)
  {
    var i :| 0 <= i < |q1| && q1[i].0 == c;
    assert q2[i].0 == c;
  }

  lemma GrowthChains(v0: set<Cell>, q0: seq<Item>, v1: set<Cell>, q1: seq<Item>, v2: set<Cell>, q2: seq<Item>, depth: nat)
    requires Growth(v0, q0, v1, q1, depth) && Growth(v1, q1, v2, q2, depth)
    ensures Growth(v0, q0, v2, q2, depth)
  {
    forall c | c in v2 && c !in v0 ensures Queued(q2, c) {
      if c in v1 { QueuedStays(q1, q2, c); }
    }
  }

  /** A popped cell whose images in the first k axes have been visited. */
  ghost predicate Popped(p: Piece, axes: seq<Axis>, balls: seq<set<Cell>>, visited: set<Cell>, item: Item, k: nat)
    requires |balls| == MAX_DEPTH + 2
  {
    && item.1 <= MAX_DEPTH && item.0 in balls[item.1] && balls[item.1] <= visited
    && Expanded(p, axes, visited, item.0, k)
  }

  lemma PushKeepsFrontier(balls: seq<set<Cell>>, visited: set<Cell>, queue: seq<Item>, item: Item)
    requires Frontier(balls, visited, queue) && item.0 in balls[MAX_DEPTH + 1] && AtDistance(balls, item)
    requires forall q :: 0 <= q < |queue| ==> queue[q].1 <= item.1 <= queue[q].1 + 1
    ensures Frontier(balls, visited + {item.0}, queue + [item])
  {
  }

  /** Mark the image, queue it, and paint it if it falls on a blank cell of the grid. */
  method Visit<T(==)>(grid: array2<T>, blank: T, mark: T, p: Piece, axes: seq<Axis>, ghost balls: seq<set<Cell>>,
                      k: nat, item: Item, visited: set<Cell>, queue: seq<Item>, ghost before: (int, int) -> T)
    returns (visited': set<Cell>, queue': seq<Item>)
    requires Layered(p, axes, balls) && Frontier(balls, visited, queue)
    requires k < |axes| && Popped(p, axes, balls, visited, item, k)
    requires forall q :: 0 <= q < |queue| ==> item.1 <= queue[q].1 <= item.1 + 1
    requires Painted(grid, before, blank, mark, visited - balls[0])
    modifies grid
    ensures Frontier(balls, visited', queue')
    ensures Growth(visited, queue, visited', queue', item.1)
    ensures Popped(p, axes, balls, visited', item, k + 1)
    ensures Painted(grid, before, blank, mark, visited' - balls[0])
  {
    visited', queue' := visited, queue;
    if !Permits(p, axes[k]) { return; }
    var image := Reflect(axes[k], item.0);
    assert LeadsTo(p, axes, balls[item.1], balls[item.1 + 1]);
    if image in visited { return; }
    visited', queue' := visited + {image}, queue + [(image, item.1 + 1)];
    assert queue'[|queue|].0 == image;
    assert balls[item.1 + 1] <= balls[MAX_DEPTH + 1];
    PushKeepsFrontier(balls, visited, queue, (image, item.1 + 1));
    if InGrid(image, grid.Length1, grid.Length0) && grid[image.y, image.x] == blank {
      grid[image.y, image.x] := mark;
    }
  }

  // ---------- One pop ----------

  lemma PopFront(balls: seq<set<Cell>>, visited: set<Cell>, queue: seq<Item>)
    requires queue != [] && Frontier(balls, visited, queue)
    ensures Frontier(balls, visited, queue[1..])
    ensures forall q :: 0 <= q < |queue| - 1 ==> queue[0].1 <= queue[1..][q].1 <= queue[0].1 + 1
  {
  }

  lemma NotQueuedBefore(queue: seq<Item>, c: Cell)
    requires queue != [] && !Queued(queue[1..], c) && c != queue[0].0
    ensures !Queued(queue, c)
  {
    forall q | 0 <= q < |queue| ensures queue[q].0 != c {
      if q > 0 { assert queue[1..][q - 1] == queue[q]; }
    }
  }

  lemma DropFront(p: Piece, axes: seq<Axis>, balls: seq<set<Cell>>, visited: set<Cell>, queue: seq<Item>)
    requires queue != [] && queue[0].1 > MAX_DEPTH
    requires Frontier(balls, visited, queue) && Settled(p, axes, balls, visited, queue)
    ensures Settled(p, axes, balls, visited, queue[1..])
  {
    assert AtDistance(balls, queue[0]);
    forall c | c in visited && c in balls[MAX_DEPTH] && !Queued(queue[1..], c)
      ensures Expanded(p, axes, visited, c, |axes|)
    {
      NotQueuedBefore(queue, c);
    }
  }

  lemma StillSettled(p: Piece, axes: seq<Axis>, balls: seq<set<Cell>>, visited: set<Cell>, queue: seq<Item>,
                     visited': set<Cell>, queue': seq<Item>)
    requires |balls| == MAX_DEPTH + 2 && queue != [] && Settled(p, axes, balls, visited, queue)
    requires Growth(visited, queue[1..], visited', queue', queue[0].1)
    requires Expanded(p, axes, visited', queue[0].0, |axes|)
    ensures Settled(p, axes, balls, visited', queue')
  {
    forall c | c in visited' && c in balls[MAX_DEPTH] && !Queued(queue', c)
      ensures Expanded(p, axes, visited', c, |axes|)
    {
      if c != queue[0].0 {
        if Queued(queue[1..], c) { QueuedStays(queue[1..], queue', c); }
        NotQueuedBefore(queue, c);
        assert Expanded(p, axes, visited, c, |axes|);
      }
    }
  }

  /** Pop one item and visit its images; an item beyond the cap is dropped unexpanded. */
  method Expand<T(==)>(grid: array2<T>, blank: T, mark: T, p: Piece, axes: seq<Axis>, ghost balls: seq<set<Cell>>,
                       visited: set<Cell>, queue: seq<Item>, ghost before: (int, int) -> T)
    returns (visited': set<Cell>, queue': seq<Item>)
    requires Layered(p, axes, balls) && Grounded(p, axes, balls)
    requires Frontier(balls, visited, queue) && Settled(p, axes, balls, visited, queue)
    requires queue != [] && Painted(grid, before, blank, mark, visited - balls[0])
    modifies grid
    ensures Frontier(balls, visited', queue') && Settled(p, axes, balls, visited', queue')
    ensures Painted(grid, before, blank, mark, visited' - balls[0])
    ensures visited < visited' || (visited' == visited && queue' == queue[1..])
  {
    var item := queue[0];
    visited', queue' := visited, queue[1..];
    PopFront(balls, visited, queue);
    if item.1 > MAX_DEPTH {
      DropFront(p, axes, balls, visited, queue);
      return;
    }
    FrontCovers(p, axes, balls, visited, queue, item.1);
    assert AtDistance(balls, item);
    for k := 0 to |axes|
      invariant Frontier(balls, visited', queue')
      invariant Growth(visited, queue[1..], visited', queue', item.1)
      invariant Popped(p, axes, balls, visited', item, k)
      invariant Painted(grid, before, blank, mark, visited' - balls[0])
    {
      ghost var v, q := visited', queue';
      visited', queue' := Visit(grid, blank, mark, p, axes, balls, k, item, visited', queue', before);
      GrowthChains(visited, queue[1..], v, q, visited', queue', item.1);
    }
    StillSettled(p, axes, balls, visited, queue, visited', queue');
  }

  // ---------- The whole search ----------

  /** Every opaque in-grid pixel of the piece, queued once at depth 0. */
  method CollectSeeds(p: Piece, width: nat, height: nat) returns (visited: set<Cell>, queue: seq<Item>)
    ensures visited == Seeds(p, width, height)
    ensures forall q :: 0 <= q < |queue| ==> queue[q].0 in visited && queue[q].1 == 0
    ensures forall c :: c in visited ==> Queued(queue, c)
  {
    visited, queue := {}, [];
    for r := 0 to |p.pixels|
      invariant forall c :: c in visited <==> c in Seeds(p, width, height) && c.y < p.y + r
      invariant forall q :: 0 <= q < |queue| ==> queue[q].0 in visited && queue[q].1 == 0
      invariant forall c :: c in visited ==> Queued(queue, c)
    {
      for k := 0 to |p.pixels[r]|
        invariant forall c :: c in visited <==>
          c in Seeds(p, width, height) && (c.y < p.y + r || (c.y == p.y + r && c.x < p.x + k))
        invariant forall q :: 0 <= q < |queue| ==> queue[q].0 in visited && queue[q].1 == 0
        invariant forall c :: c in visited ==> Queued(queue, c)
      {
        var cell := Cell(p.x + k, p.y + r);
        if p.pixels[r][k] != -1 && InGrid(cell, width, height) && cell !in visited {
          ghost var q := queue;
          visited, queue := visited + {cell}, queue + [(cell, 0)];
          assert queue[|q|].0 == cell;
          forall c | c in visited ensures Queued(queue, c) {
            if c != cell { QueuedStays(q, queue, c); }
          }
        }
      }
    }
  }

  /** The cells the search paints: reached by 1 to 13 permitted reflections, and not seeds. */
  ghost predicate Reached(p: Piece, axes: seq<Axis>, width: nat, height: nat, c: Cell) {
    && c in Ball(p, axes, Seeds(p, width, height), MAX_DEPTH + 1)
    && c !in Seeds(p, width, height)
  }

  /** Paint the reflections of one piece over the blank cells of the grid. */
  method Spread<T(==)>(grid: array2<T>, blank: T, mark: T, p: Piece, axes: seq<Axis>)
    modifies grid
    ensures forall y, x :: 0 <= y < grid.Length0 && 0 <= x < grid.Length1 ==>
      grid[y, x] == if old(grid[y, x]) == blank && Reached(p, axes, grid.Length1, grid.Length0, Cell(x, y))
                    then mark else old(grid[y, x])
  {
    ghost var before := (y: int, x: int) =>
      if 0 <= y < grid.Length0 && 0 <= x < grid.Length1 then old(grid[y, x]) else blank;
    var visited, queue := CollectSeeds(p, grid.Length1, grid.Length0);
    ghost var balls := Balls(p, axes, visited);
    BallsLayered(p, axes, visited);
    assert balls[0] == visited <= balls[MAX_DEPTH + 1];
    while queue != []
      invariant Frontier(balls, visited, queue) && Settled(p, axes, balls, visited, queue)
      invariant Painted(grid, before, blank, mark, visited - balls[0])
      decreases balls[MAX_DEPTH + 1] - visited, |queue|
    {
      visited, queue := Expand(grid, blank, mark, p, axes, balls, visited, queue, before);
    }
    FrontCovers(p, axes, balls, visited, queue, MAX_DEPTH + 1);
    assert visited == balls[MAX_DEPTH + 1];
  }
}
