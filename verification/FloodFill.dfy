/** The component search of _locate: explicit-stack flood fill over a colour palette. */
module FloodFill {
  import opened Lists
  import opened Wrappers

  datatype Cell = Cell(row: int, col: int)

  datatype Grid = Grid(rows: seq<seq<int>>, height: nat, width: nat) {
    predicate Valid() {
      height == |rows| > 0 && forall y :: 0 <= y < height ==> |rows[y]| == width
    }

    predicate In(palette: set<int>, c: Cell)
      requires Valid()
    {
      0 <= c.row < height && 0 <= c.col < width && rows[c.row][c.col] in palette
    }
  }

  predicate Adjacent(a: Cell, b: Cell) {
    (a.row == b.row && (a.col == b.col + 1 || b.col == a.col + 1)) || (a.col == b.col && (a.row == b.row + 1 || b.row == a.row + 1))
  }

  function Neighbours(c: Cell): (n: seq<Cell>)
    ensures |n| == 4 && forall b :: b in n <==> Adjacent(b, c)
  {
    [Cell(c.row - 1, c.col), Cell(c.row + 1, c.col), Cell(c.row, c.col - 1), Cell(c.row, c.col + 1)]
  }

  // ---------- Connected components of the palette cells ----------

  ghost predicate IsPath(g: Grid, palette: set<int>, path: seq<Cell>)
    requires g.Valid()
  {
    && path != []
    && (forall i :: 0 <= i < |path| ==> g.In(palette, path[i]))
    && forall i, j :: 0 <= i && j == i + 1 && j < |path| ==> Adjacent(path[i], path[j])
  }

  ghost predicate Connected(g: Grid, palette: set<int>, a: Cell, b: Cell)
    requires g.Valid()
  {
    exists path :: IsPath(g, palette, path) && path[0] == a && path[|path| - 1] == b
  }

  ghost function Component(g: Grid, palette: set<int>, a: Cell): set<Cell>
    requires g.Valid()
  {
    set y: int, x: int | 0 <= y < g.height && 0 <= x < g.width && Connected(g, palette, a, Cell(y, x)) :: Cell(y, x)
  }

  lemma ConnectedSelf(g: Grid, palette: set<int>, a: Cell)
    requires g.Valid() && g.In(palette, a)
    ensures Connected(g, palette, a, a)
  {
    assert IsPath(g, palette, [a]);
  }

  lemma ConnectedStep(g: Grid, palette: set<int>, a: Cell, b: Cell, c: Cell)
    requires g.Valid() && Connected(g, palette, a, b) && g.In(palette, c) && Adjacent(b, c)
    ensures Connected(g, palette, a, c)
  {
    var path :| IsPath(g, palette, path) && path[0] == a && path[|path| - 1] == b;
    assert IsPath(g, palette, path + [c]);
  }

  lemma ConnectedBack(g: Grid, palette: set<int>, a: Cell, b: Cell)
    requires g.Valid() && Connected(g, palette, a, b)
    ensures Connected(g, palette, b, a)
  {
    var path :| IsPath(g, palette, path) && path[0] == a && path[|path| - 1] == b;
    var back := seq(|path|, i requires 0 <= i < |path| => path[|path| - 1 - i]);
    assert IsPath(g, palette, back);
  }

  ghost predicate Closed(g: Grid, palette: set<int>, cells: set<Cell>)
    requires g.Valid()
  {
    forall a, b :: a in cells && g.In(palette, b) && Adjacent(b, a) ==> b in cells
  }

  /** A closed set that holds one cell of a path holds all of it. */
  lemma {:induction false} ClosedHoldsPath(g: Grid, palette: set<int>, cells: set<Cell>, path: seq<Cell>, i: nat)
    requires g.Valid() && Closed(g, palette, cells) && IsPath(g, palette, path)
    requires i < |path| && path[i] in cells
    ensures path[0] in cells && path[|path| - 1] in cells
  {
    for k := i downto 0
      invariant path[k] in cells
    {
    }
    for k := i + 1 to |path|
      invariant path[k - 1] in cells
    {
    }
  }

  lemma ClosedHoldsConnected(g: Grid, palette: set<int>, cells: set<Cell>, a: Cell, b: Cell)
    requires g.Valid() && Closed(g, palette, cells) && Connected(g, palette, a, b)
    ensures a in cells <==> b in cells
  {
    var path :| IsPath(g, palette, path) && path[0] == a && path[|path| - 1] == b;
    if a in cells { ClosedHoldsPath(g, palette, cells, path, 0); }
    if b in cells { ClosedHoldsPath(g, palette, cells, path, |path| - 1); }
  }

  // ---------- Exploring one component ----------

  ghost function Seen(seen: array2<bool>): set<Cell>
    reads seen
  {
    set y: int, x: int | 0 <= y < seen.Length0 && 0 <= x < seen.Length1 && seen[y, x] :: Cell(y, x)
  }

  ghost function AllCells(h: nat, w: nat): set<Cell> {
    set y: int, x: int | 0 <= y < h && 0 <= x < w :: Cell(y, x)
  }

  /** The cells popped and waiting are those seen since the start, each once. */
  ghost predicate Exploring(g: Grid, palette: set<int>, start: Cell, before: set<Cell>, now: set<Cell>, comp: seq<Cell>, stack: seq<Cell>)
    requires g.Valid()
  {
    && Distinct(comp + stack)
    && (forall c :: c in now <==> c in before || c in comp + stack)
    && (forall c :: c in comp + stack ==> c !in before && g.In(palette, c) && Connected(g, palette, start, c))
  }

  ghost predicate Surrounded(g: Grid, palette: set<int>, cells: set<Cell>, c: Cell)
    requires g.Valid()
  {
    forall b :: b in Neighbours(c) && g.In(palette, b) ==> b in cells
  }

  lemma PopKeeps(g: Grid, palette: set<int>, start: Cell, before: set<Cell>, now: set<Cell>, comp: seq<Cell>, stack: seq<Cell>)
    requires g.Valid() && stack != [] && Exploring(g, palette, start, before, now, comp, stack)
    ensures Exploring(g, palette, start, before, now, comp + [stack[|stack| - 1]], stack[..|stack| - 1])
  {
    var top, rest := stack[|stack| - 1], stack[..|stack| - 1];
    assert stack == rest + [top];
    var a, b := comp + stack, (comp + [top]) + rest;
    forall i, j | 0 <= i < j < |b| ensures b[i] != b[j] {
      assert b[i] == a[if i < |comp| then i else if i == |comp| then |a| - 1 else i - 1];
      assert b[j] == a[if j < |comp| then j else if j == |comp| then |a| - 1 else j - 1];
    }
    assert forall c :: c in b <==> c in a;
  }

  lemma PushKeeps(g: Grid, palette: set<int>, start: Cell, before: set<Cell>, now: set<Cell>, comp: seq<Cell>,
                  stack: seq<Cell>, from: Cell, c: Cell)
    requires g.Valid() && Exploring(g, palette, start, before, now, comp, stack)
    requires c !in now && g.In(palette, c) && from in comp && Adjacent(from, c)
    ensures Exploring(g, palette, start, before, now + {c}, comp, stack + [c])
  {
    assert from in comp + stack;
    ConnectedStep(g, palette, start, from, c);
    assert comp + (stack + [c]) == (comp + stack) + [c];
  }

  /** Mark and push one neighbour of the cell just popped, if it is an unseen palette cell of the grid. */
  method PushNeighbour(g: Grid, palette: set<int>, seen: array2<bool>, ghost start: Cell, ghost before: set<Cell>,
                       ghost comp: seq<Cell>, stack: seq<Cell>, ghost from: Cell, n: Cell)
    returns (stack': seq<Cell>)
    requires g.Valid() && seen.Length0 == g.height && seen.Length1 == g.width
    requires Exploring(g, palette, start, before, Seen(seen), comp, stack) && from in comp && Adjacent(from, n)
    modifies seen
    ensures Exploring(g, palette, start, before, Seen(seen), comp, stack')
    ensures if g.In(palette, n) && n !in old(Seen(seen))
            then Seen(seen) == old(Seen(seen)) + {n} && stack' == stack + [n]
            else Seen(seen) == old(Seen(seen)) && stack' == stack
  {
    stack' := stack;
    if 0 <= n.row < g.height && 0 <= n.col < g.width && !seen[n.row, n.col] && g.rows[n.row][n.col] in palette {
      ghost var now := Seen(seen);
      PushKeeps(g, palette, start, before, now, comp, stack, from, n);
      seen[n.row, n.col] := true;
      assert Seen(seen) == now + {n};
      stack' := stack' + [n];
    }
  }

  /** Push the unseen palette neighbours of the cell just popped. */
  method PushNeighbours(g: Grid, palette: set<int>, seen: array2<bool>, ghost start: Cell, ghost before: set<Cell>,
                        comp: seq<Cell>, stack: seq<Cell>)
    returns (stack': seq<Cell>)
    requires g.Valid() && seen.Length0 == g.height && seen.Length1 == g.width
    requires comp != [] && Exploring(g, palette, start, before, Seen(seen), comp, stack)
    modifies seen
    ensures Exploring(g, palette, start, before, Seen(seen), comp, stack')
    ensures Surrounded(g, palette, Seen(seen), comp[|comp| - 1])
    ensures old(Seen(seen)) < Seen(seen) || (old(Seen(seen)) == Seen(seen) && stack' == stack)
  {
    var c := comp[|comp| - 1];
    var ns := Neighbours(c);
    stack' := stack;
    for i := 0 to 4
      invariant Exploring(g, palette, start, before, Seen(seen), comp, stack')
      invariant forall k :: 0 <= k < i && g.In(palette, ns[k]) ==> ns[k] in Seen(seen)
      invariant old(Seen(seen)) < Seen(seen) || (old(Seen(seen)) == Seen(seen) && stack' == stack)
    {
      assert ns[i] in ns;
      stack' := PushNeighbour(g, palette, seen, start, before, comp, stack', c, ns[i]);
    }
  }

  lemma Finished(g: Grid, palette: set<int>, start: Cell, before: set<Cell>, now: set<Cell>, comp: seq<Cell>)
    requires g.Valid() && Closed(g, palette, before) && Exploring(g, palette, start, before, now, comp, [])
    requires start in now && start !in before
    requires forall c :: c in comp ==> Surrounded(g, palette, now, c)
    ensures Distinct(comp) && forall c :: c in comp <==> c in Component(g, palette, start)
    ensures now == before + Component(g, palette, start) && before !! Component(g, palette, start)
    ensures Closed(g, palette, now)
  {
    assert comp + [] == comp;
    forall a, b | a in now && g.In(palette, b) && Adjacent(b, a) ensures b in now {
      if a in comp { assert Surrounded(g, palette, now, a) && b in Neighbours(a); }
    }
    forall c | c in Component(g, palette, start) ensures c in comp {
      ClosedHoldsConnected(g, palette, now, start, c);
      ClosedHoldsConnected(g, palette, before, start, c);
    }
  }

  ghost predicate AllSurrounded(g: Grid, palette: set<int>, cells: set<Cell>, comp: seq<Cell>)
    requires g.Valid()
  {
    forall c :: c in comp ==> Surrounded(g, palette, cells, c)
  }

  /** Pop the top of the stack into the component and push its unseen palette neighbours. */
  method Advance(g: Grid, palette: set<int>, seen: array2<bool>, ghost start: Cell, ghost before: set<Cell>,
                 comp: seq<Cell>, stack: seq<Cell>)
    returns (comp': seq<Cell>, stack': seq<Cell>)
    requires g.Valid() && seen.Length0 == g.height && seen.Length1 == g.width
    requires stack != [] && Exploring(g, palette, start, before, Seen(seen), comp, stack)
    requires AllSurrounded(g, palette, Seen(seen), comp)
    modifies seen
    ensures Exploring(g, palette, start, before, Seen(seen), comp', stack')
    ensures AllSurrounded(g, palette, Seen(seen), comp')
    ensures old(Seen(seen)) <= Seen(seen)
    ensures old(Seen(seen)) == Seen(seen) ==> |stack'| < |stack|
  {
    PopKeeps(g, palette, start, before, Seen(seen), comp, stack);
    comp' := comp + [stack[|stack| - 1]];
    stack' := PushNeighbours(g, palette, seen, start, before, comp', stack[..|stack| - 1]);
  }

  /** Every cell of the component of an unseen palette cell, once each; all of it becomes seen. */
  method Explore(g: Grid, palette: set<int>, seen: array2<bool>, y: nat, x: nat) returns (comp: seq<Cell>)
    requires g.Valid() && seen.Length0 == g.height && seen.Length1 == g.width
    requires g.In(palette, Cell(y, x)) && !seen[y, x] && Closed(g, palette, Seen(seen))
    modifies seen
    ensures Distinct(comp) && (forall c :: c in comp <==> c in Component(g, palette, Cell(y, x)))
    ensures Seen(seen) == old(Seen(seen)) + Component(g, palette, Cell(y, x))
    ensures old(Seen(seen)) !! Component(g, palette, Cell(y, x))
    ensures Closed(g, palette, Seen(seen))
  {
    ghost var before := Seen(seen);
    ghost var start := Cell(y, x);
    var stack := [Cell(y, x)];
    comp := [];
    seen[y, x] := true;
    ConnectedSelf(g, palette, start);
    assert Seen(seen) == before + {start};
    while stack != []
      invariant Exploring(g, palette, start, before, Seen(seen), comp, stack)
      invariant start in Seen(seen)
      invariant AllSurrounded(g, palette, Seen(seen), comp)
      decreases AllCells(g.height, g.width) - Seen(seen), |stack|
    {
      ghost var now := Seen(seen);
      comp, stack := Advance(g, palette, seen, start, before, comp, stack);
      assert now != Seen(seen) ==> now < Seen(seen);
    }
    Finished(g, palette, start, before, Seen(seen), comp);
  }

  // ---------- Choosing the component ----------

  function Colours(g: Grid, cells: set<Cell>): set<int>
    requires g.Valid() && forall c :: c in cells ==> 0 <= c.row < g.height && 0 <= c.col < g.width
  {
    set c | c in cells :: g.rows[c.row][c.col]
  }

  /** Row-major order, in which the grid is scanned. */
  predicate Before(a: Cell, b: Cell) {
    a.row < b.row || (a.row == b.row && a.col < b.col)
  }

  /** The first cell, in scanning order, of a component with every palette colour. */
  ghost predicate FullRoot(g: Grid, palette: set<int>, r: Cell)
    requires g.Valid()
  {
    && g.In(palette, r)
    && (forall c :: c in Component(g, palette, r) ==> !Before(c, r))
    && Colours(g, Component(g, palette, r)) == palette
  }

  /** The corner of the bounding box: the least row and the least column of the cells. */
  ghost predicate TopLeft(cells: set<Cell>, corner: Cell) {
    && (forall c :: c in cells ==> corner.row <= c.row && corner.col <= c.col)
    && (exists c :: c in cells && c.row == corner.row) && (exists c :: c in cells && c.col == corner.col)
  }

  /** r is the first among the largest full components that start before the limit. */
  ghost predicate BestBefore(g: Grid, palette: set<int>, limit: Cell, r: Cell)
    requires g.Valid()
  {
    && FullRoot(g, palette, r) && Before(r, limit)
    && forall q {:trigger FullRoot(g, palette, q)} :: FullRoot(g, palette, q) && Before(q, limit) ==>
         && |Component(g, palette, q)| <= |Component(g, palette, r)|
         && (Before(q, r) ==> |Component(g, palette, q)| < |Component(g, palette, r)|)
  }

  /** The best component so far: its size and the corner of its bounding box. */
  datatype Best = Nothing | Best(size: nat, corner: Cell)

  /** best holds the size and corner of the component that starts at root, if there is one. */
  ghost predicate Tracks(g: Grid, palette: set<int>, limit: Cell, best: Best, root: Cell)
    requires g.Valid()
  {
    match best
    case Nothing => forall q {:trigger FullRoot(g, palette, q)} :: FullRoot(g, palette, q) ==> !Before(q, limit)
    case Best(size, corner) =>
      && BestBefore(g, palette, limit, root)
      && size == |Component(g, palette, root)| && TopLeft(Component(g, palette, root), corner)
  }

  ghost predicate StartedEarlier(g: Grid, palette: set<int>, limit: Cell, c: Cell)
    requires g.Valid()
  {
    exists b :: g.In(palette, b) && Before(b, limit) && Connected(g, palette, b, c)
  }

  /** Everything seen belongs to the component of an earlier palette cell, and conversely. */
  ghost predicate Scanned(g: Grid, palette: set<int>, limit: Cell, cells: set<Cell>)
    requires g.Valid()
  {
    && Closed(g, palette, cells)
    && (forall c :: g.In(palette, c) && Before(c, limit) ==> c in cells)
    && (forall c :: c in cells ==> StartedEarlier(g, palette, limit, c))
  }

  method MinCorner(comp: seq<Cell>, ghost cells: set<Cell>) returns (corner: Cell)
    requires comp != [] && forall c :: c in comp <==> c in cells
    ensures TopLeft(cells, corner)
  {
    var top, left := comp[0].row, comp[0].col;
    for i := 1 to |comp|
      invariant forall k :: 0 <= k < i ==> top <= comp[k].row && left <= comp[k].col
      invariant (exists c :: c in comp && c.row == top) && (exists c :: c in comp && c.col == left)
    {
      if comp[i].row < top { top := comp[i].row; assert comp[i] in comp; }
      if comp[i].col < left { left := comp[i].col; assert comp[i] in comp; }
    }
    corner := Cell(top, left);
  }

  lemma ComponentInPalette(g: Grid, palette: set<int>, a: Cell, b: Cell)
    requires g.Valid() && b in Component(g, palette, a)
    ensures g.In(palette, b) && Connected(g, palette, a, b)
  {
  }

  lemma EarlierCell(g: Grid, palette: set<int>, c: Cell) returns (b: Cell)
    requires g.Valid() && StartedEarlier(g, palette, c, c)
    ensures b in Component(g, palette, c) && Before(b, c)
  {
    b :| g.In(palette, b) && Before(b, c) && Connected(g, palette, b, c);
    ConnectedBack(g, palette, b, c);
  }

  /** A seen palette cell does not start its component ... */
  lemma SeenIsNoRoot(g: Grid, palette: set<int>, c: Cell, cells: set<Cell>)
    requires g.Valid() && Scanned(g, palette, c, cells) && c in cells
    ensures !FullRoot(g, palette, c)
  {
    var b := EarlierCell(g, palette, c);
  }

  /** ... and an unseen one does. */
  lemma UnseenStarts(g: Grid, palette: set<int>, c: Cell, cells: set<Cell>, b: Cell)
    requires g.Valid() && Scanned(g, palette, c, cells) && c !in cells && b in Component(g, palette, c)
    ensures !Before(b, c)
  {
    ComponentInPalette(g, palette, c, b);
    ClosedHoldsConnected(g, palette, cells, c, b);
  }

  ghost predicate Follows(c: Cell, next: Cell) {
    forall q: Cell :: Before(q, next) <==> Before(q, c) || q == c
  }

  function Better(best: Best, full: bool, size: nat, corner: Cell): Best {
    if full && (best.Nothing? || size > best.size) then Best(size, corner) else best
  }

  /** What a scanned cell that starts a component does to the best one so far. */
  lemma BetterTracks(g: Grid, palette: set<int>, c: Cell, next: Cell, best: Best, root: Cell, size: nat, corner: Cell)
    requires g.Valid() && Tracks(g, palette, c, best, root) && Follows(c, next)
    requires FullRoot(g, palette, c) ==> size == |Component(g, palette, c)| && TopLeft(Component(g, palette, c), corner)
    ensures var after := Better(best, FullRoot(g, palette, c), size, corner);
            Tracks(g, palette, next, after, if after == best then root else c)
  {
  }

  lemma StartedStays(g: Grid, palette: set<int>, c: Cell, next: Cell, d: Cell)
    requires g.Valid() && StartedEarlier(g, palette, c, d) && forall q: Cell :: Before(q, c) ==> Before(q, next)
    ensures StartedEarlier(g, palette, next, d)
  {
    var b: Cell :| g.In(palette, b) && Before(b, c) && Connected(g, palette, b, d);
    assert Before(b, next);
  }

  lemma StartsNow(g: Grid, palette: set<int>, c: Cell, next: Cell, d: Cell)
    requires g.Valid() && g.In(palette, c) && Before(c, next) && d in Component(g, palette, c)
    ensures StartedEarlier(g, palette, next, d)
  {
    ComponentInPalette(g, palette, c, d);
  }

  lemma ScanSkips(g: Grid, palette: set<int>, c: Cell, next: Cell, cells: set<Cell>)
    requires g.Valid() && Scanned(g, palette, c, cells) && Follows(c, next)
    requires g.In(palette, c) ==> c in cells
    ensures Scanned(g, palette, next, cells)
  {
    forall d | d in cells ensures StartedEarlier(g, palette, next, d) { StartedStays(g, palette, c, next, d); }
  }

  lemma ScanAdds(g: Grid, palette: set<int>, c: Cell, next: Cell, before: set<Cell>, cells: set<Cell>)
    requires g.Valid() && Scanned(g, palette, c, before) && Closed(g, palette, cells) && Follows(c, next)
    requires g.In(palette, c) && cells == before + Component(g, palette, c)
    ensures Scanned(g, palette, next, cells)
  {
    ConnectedSelf(g, palette, c);
    InComponent(g, palette, c, c);
    forall d | d in cells ensures StartedEarlier(g, palette, next, d) {
      if d in before { StartedStays(g, palette, c, next, d); } else { StartsNow(g, palette, c, next, d); }
    }
  }

  /** Judge a component just explored. */
  method Judge(g: Grid, palette: set<int>, comp: seq<Cell>, ghost cells: set<Cell>, best: Best)
    returns (best': Best, ghost corner: Cell)
    requires g.Valid() && Distinct(comp) && comp != [] && forall d :: d in comp <==> d in cells
    requires forall c :: c in cells ==> 0 <= c.row < g.height && 0 <= c.col < g.width
    ensures Judged(g, palette, cells, best, best', corner)
  {
    best', corner := best, Cell(0, 0);
    SizeOfDistinct(comp, cells);
    var colours := ColoursOf(g, comp, cells);
    if colours == palette {
      var topLeft := MinCorner(comp, cells);
      corner := topLeft;
      if best == Nothing || |comp| > best.size {
        best' := Best(|comp|, topLeft);
      }
    }
  }

  method ColoursOf(g: Grid, comp: seq<Cell>, ghost cells: set<Cell>) returns (colours: set<int>)
    requires g.Valid() && forall c :: c in cells ==> 0 <= c.row < g.height && 0 <= c.col < g.width
    requires forall c :: c in comp <==> c in cells
    ensures colours == Colours(g, cells)
  {
    colours := set k | 0 <= k < |comp| :: g.rows[comp[k].row][comp[k].col];
    SameColours(g, comp, cells, colours);
  }

  lemma SameColours(g: Grid, comp: seq<Cell>, cells: set<Cell>, colours: set<int>)
    requires g.Valid() && forall c :: c in cells ==> 0 <= c.row < g.height && 0 <= c.col < g.width
    requires forall c :: c in comp <==> c in cells
    requires colours == set k | 0 <= k < |comp| :: g.rows[comp[k].row][comp[k].col]
    ensures colours == Colours(g, cells)
  {
    forall c | c in cells ensures g.rows[c.row][c.col] in colours {
      assert c in comp;
      var k :| 0 <= k < |comp| && comp[k] == c;
    }
  }

  lemma FollowsInRow(y: nat, x: nat)
    ensures Follows(Cell(y, x), Cell(y, x + 1))
  {
  }

  lemma SeenAt(seen: array2<bool>, y: nat, x: nat)
    requires y < seen.Length0 && x < seen.Length1
    ensures Cell(y, x) in Seen(seen) <==> seen[y, x]
  {
  }

  method ScanCell(g: Grid, palette: set<int>, seen: array2<bool>, y: nat, x: nat, best: Best, ghost root: Cell,
                  ghost c: Cell, ghost next: Cell)
    returns (best': Best, ghost root': Cell)
    requires g.Valid() && seen.Length0 == g.height && seen.Length1 == g.width && y < g.height && x < g.width
    requires c == Cell(y, x) && next == Cell(y, x + 1)
    requires Scanned(g, palette, c, Seen(seen)) && Tracks(g, palette, c, best, root)
    modifies seen
    ensures Scanned(g, palette, next, Seen(seen)) && Tracks(g, palette, next, best', root')
  {
    best', root' := best, root;
    FollowsInRow(y, x);
    SeenAt(seen, y, x);
    if seen[y, x] || g.rows[y][x] !in palette {
      SkipCell(g, palette, c, next, Seen(seen), best, root);
      return;
    }
    ghost var before, corner := Seen(seen), c;
    best', corner := ScanComponent(g, palette, seen, y, x, best);
    root' := ComponentScanned(g, palette, c, next, before, Seen(seen), best, root, best', corner);
  }

  /** Explore and judge the component of an unseen palette cell. */
  method ScanComponent(g: Grid, palette: set<int>, seen: array2<bool>, y: nat, x: nat, best: Best)
    returns (best': Best, ghost corner: Cell)
    requires g.Valid() && seen.Length0 == g.height && seen.Length1 == g.width
    requires g.In(palette, Cell(y, x)) && !seen[y, x] && Closed(g, palette, Seen(seen))
    modifies seen
    ensures Closed(g, palette, Seen(seen)) && Seen(seen) == old(Seen(seen)) + Component(g, palette, Cell(y, x))
    ensures Judged(g, palette, Component(g, palette, Cell(y, x)), best, best', corner)
  {
    ghost var c := Cell(y, x);
    ConnectedSelf(g, palette, c);
    assert c in Component(g, palette, c);
    var comp := Explore(g, palette, seen, y, x);
    best', corner := Judge(g, palette, comp, Component(g, palette, c), best);
  }

  ghost predicate Judged(g: Grid, palette: set<int>, cells: set<Cell>, best: Best, after: Best, corner: Cell)
    requires g.Valid() && forall c :: c in cells ==> 0 <= c.row < g.height && 0 <= c.col < g.width
  {
    && after == Better(best, Colours(g, cells) == palette, |cells|, corner)
    && (Colours(g, cells) == palette ==> TopLeft(cells, corner))
  }

  lemma ComponentScanned(g: Grid, palette: set<int>, c: Cell, next: Cell, before: set<Cell>, now: set<Cell>,
                         best: Best, root: Cell, after: Best, corner: Cell) returns (root': Cell)
    requires g.Valid() && Scanned(g, palette, c, before) && Tracks(g, palette, c, best, root) && Follows(c, next)
    requires c !in before && g.In(palette, c) && Closed(g, palette, now) && now == before + Component(g, palette, c)
    requires Judged(g, palette, Component(g, palette, c), best, after, corner)
    ensures Scanned(g, palette, next, now) && Tracks(g, palette, next, after, root')
  {
    UnseenRoot(g, palette, c, before);
    ScanAdds(g, palette, c, next, before, now);
    BetterTracks(g, palette, c, next, best, root, |Component(g, palette, c)|, corner);
    root' := if after == best then root else c;
  }

  lemma SkipCell(g: Grid, palette: set<int>, c: Cell, next: Cell, cells: set<Cell>, best: Best, root: Cell)
    requires g.Valid() && Scanned(g, palette, c, cells) && Tracks(g, palette, c, best, root) && Follows(c, next)
    requires c in cells || !g.In(palette, c)
    ensures Scanned(g, palette, next, cells) && Tracks(g, palette, next, best, root)
  {
    if c in cells { SeenIsNoRoot(g, palette, c, cells); }
    ScanSkips(g, palette, c, next, cells);
    BetterTracks(g, palette, c, next, best, root, 0, c);
  }

  /** An unseen palette cell is the first of its component. */
  lemma UnseenRoot(g: Grid, palette: set<int>, c: Cell, cells: set<Cell>)
    requires g.Valid() && Scanned(g, palette, c, cells) && c !in cells && g.In(palette, c)
    ensures c in Component(g, palette, c)
    ensures FullRoot(g, palette, c) <==> Colours(g, Component(g, palette, c)) == palette
  {
    ConnectedSelf(g, palette, c);
    forall b | b in Component(g, palette, c) ensures !Before(b, c) { UnseenStarts(g, palette, c, cells, b); }
  }

  ghost predicate RowEnd(g: Grid, end: Cell, next: Cell) {
    end.col == g.width && next == Cell(end.row + 1, 0)
  }

  lemma RowEndOrder(g: Grid, palette: set<int>, end: Cell, next: Cell, q: Cell)
    requires g.Valid() && RowEnd(g, end, next)
    ensures Before(q, end) ==> Before(q, next)
    ensures g.In(palette, q) && Before(q, next) ==> Before(q, end)
  {
  }

  lemma NextRowStarted(g: Grid, palette: set<int>, end: Cell, next: Cell, cells: set<Cell>, d: Cell)
    requires g.Valid() && RowEnd(g, end, next) && Scanned(g, palette, end, cells) && d in cells
    ensures StartedEarlier(g, palette, next, d)
  {
    StartedStays(g, palette, end, next, d);
  }

  lemma NextRowSeen(g: Grid, palette: set<int>, end: Cell, next: Cell, cells: set<Cell>, c: Cell)
    requires g.Valid() && RowEnd(g, end, next) && Scanned(g, palette, end, cells)
    requires g.In(palette, c) && Before(c, next)
    ensures c in cells
  {
    RowEndOrder(g, palette, end, next, c);
  }

  lemma NextRowScanned(g: Grid, palette: set<int>, end: Cell, next: Cell, cells: set<Cell>)
    requires g.Valid() && RowEnd(g, end, next) && Scanned(g, palette, end, cells)
    ensures Scanned(g, palette, next, cells)
  {
    forall d | d in cells ensures StartedEarlier(g, palette, next, d) {
      NextRowStarted(g, palette, end, next, cells, d);
    }
    forall c | g.In(palette, c) && Before(c, next) ensures c in cells {
      NextRowSeen(g, palette, end, next, cells, c);
    }
  }

  lemma NextRowTracks(g: Grid, palette: set<int>, end: Cell, next: Cell, best: Best, root: Cell)
    requires g.Valid() && RowEnd(g, end, next) && Tracks(g, palette, end, best, root)
    ensures Tracks(g, palette, next, best, root)
  {
    forall q | FullRoot(g, palette, q) ensures Before(q, next) <==> Before(q, end) {
      RowEndOrder(g, palette, end, next, q);
    }
  }

  /** The first, in scanning order, among the largest full components. */
  ghost predicate FirstLargest(g: Grid, palette: set<int>, r: Cell)
    requires g.Valid()
  {
    && FullRoot(g, palette, r)
    && forall q {:trigger FullRoot(g, palette, q)} :: FullRoot(g, palette, q) ==>
         && |Component(g, palette, q)| <= |Component(g, palette, r)|
         && (Before(q, r) ==> |Component(g, palette, q)| < |Component(g, palette, r)|)
  }

  // ---------- Components as least closed sets ----------

  predicate Painted(g: Grid, palette: set<int>, c: Cell) {
    0 <= c.row < |g.rows| && 0 <= c.col < |g.rows[c.row]| && g.rows[c.row][c.col] in palette
  }

  function Gap(x: int, y: int): nat {
    if x < y then y - x else x - y
  }

  /** Sharing a side: one step apart in all. */
  predicate Touch(a: Cell, b: Cell) {
    Gap(a.row, b.row) + Gap(a.col, b.col) == 1
  }

  /** No cell outside the part, among the given ones, shares a side with one inside. */
  ghost predicate Sealed(part: set<Cell>, among: iset<Cell>) {
    forall a, b :: a in part && b in among && Touch(a, b) ==> b in part
  }

  /** Some palette cells that are sealed, and that no smaller part seals. */
  ghost predicate IsBlob(g: Grid, palette: set<int>, cells: set<Cell>) {
    && cells != {} && (forall c :: c in cells ==> Painted(g, palette, c))
    && Sealed(cells, iset c | Painted(g, palette, c))
    && forall part: set<Cell> :: part != {} && part <= cells && Sealed(part, iset c | c in cells) ==> part == cells
  }

  ghost predicate IsFullBlob(g: Grid, palette: set<int>, cells: set<Cell>) {
    && IsBlob(g, palette, cells)
    && forall v :: v in palette ==> exists c :: c in cells && Painted(g, palette, c) && g.rows[c.row][c.col] == v
  }

  /** The first cell of s is read before all of t. */
  ghost predicate Leads(s: set<Cell>, t: set<Cell>) {
    exists c :: c in s && forall d :: d in t ==> c.row < d.row || (c.row == d.row && c.col < d.col)
  }

  /** The largest of the blobs with every palette colour, the first to be read among equally large ones. */
  ghost predicate Wins(g: Grid, palette: set<int>, cells: set<Cell>) {
    && IsFullBlob(g, palette, cells)
    && forall other :: IsFullBlob(g, palette, other) && other != cells ==>
         |other| < |cells| || (|other| == |cells| && Leads(cells, other))
  }

  lemma TouchIsAdjacent(a: Cell, b: Cell)
    ensures Touch(a, b) <==> Adjacent(a, b)
    ensures Touch(a, b) <==> Adjacent(b, a)
  {
  }

  lemma BlobIsClosed(g: Grid, palette: set<int>, cells: set<Cell>)
    requires g.Valid() && Sealed(cells, iset c | Painted(g, palette, c))
    ensures Closed(g, palette, cells)
  {
    forall a, b | a in cells && g.In(palette, b) && Adjacent(b, a) ensures b in cells {
      TouchIsAdjacent(a, b);
      assert b in iset c | Painted(g, palette, c);
    }
  }

  lemma InComponent(g: Grid, palette: set<int>, a: Cell, c: Cell)
    requires g.Valid() && Connected(g, palette, a, c)
    ensures c in Component(g, palette, a) && Painted(g, palette, c)
  {
    assert c == Cell(c.row, c.col);
  }

  lemma BlobIsComponent(g: Grid, palette: set<int>, cells: set<Cell>, a: Cell)
    requires g.Valid() && IsBlob(g, palette, cells) && a in cells
    ensures cells == Component(g, palette, a)
  {
    var reached := set c | c in cells && c in Component(g, palette, a);
    ConnectedSelf(g, palette, a);
    InComponent(g, palette, a, a);
    assert a in reached;
    forall x, b | x in reached && b in (iset c | c in cells) && Touch(x, b) ensures b in reached {
      TouchIsAdjacent(x, b);
      ConnectedStep(g, palette, a, x, b);
      InComponent(g, palette, a, b);
    }
    assert reached != {} && reached <= cells && Sealed(reached, iset c | c in cells);
    assert reached == cells;
    BlobIsClosed(g, palette, cells);
    forall c | c in Component(g, palette, a) ensures c in cells {
      ClosedHoldsConnected(g, palette, cells, a, c);
    }
  }

  lemma ComponentIsSealed(g: Grid, palette: set<int>, a: Cell)
    requires g.Valid() && g.In(palette, a)
    ensures Sealed(Component(g, palette, a), iset c | Painted(g, palette, c))
  {
    forall x, b | x in Component(g, palette, a) && b in (iset c | Painted(g, palette, c)) && Touch(x, b)
      ensures b in Component(g, palette, a)
    {
      TouchIsAdjacent(x, b);
      ConnectedStep(g, palette, a, x, b);
      InComponent(g, palette, a, b);
    }
  }

  lemma SealedPartIsAll(g: Grid, palette: set<int>, a: Cell, part: set<Cell>)
    requires g.Valid() && g.In(palette, a) && part != {} && part <= Component(g, palette, a)
    requires Sealed(part, iset c | c in Component(g, palette, a))
    ensures part == Component(g, palette, a)
  {
    ComponentIsSealed(g, palette, a);
    BlobIsClosed(g, palette, Component(g, palette, a));
    forall x, b | x in part && g.In(palette, b) && Adjacent(b, x) ensures b in part {
      TouchIsAdjacent(x, b);
      assert b in Component(g, palette, a);
      assert b in iset c | c in Component(g, palette, a);
    }
    var x :| x in part;
    forall c | c in Component(g, palette, a) ensures c in part {
      ClosedHoldsConnected(g, palette, part, a, x);
      ClosedHoldsConnected(g, palette, part, a, c);
    }
  }

  /** The component of a palette cell is a blob. */
  lemma ComponentIsBlob(g: Grid, palette: set<int>, a: Cell)
    requires g.Valid() && g.In(palette, a)
    ensures IsBlob(g, palette, Component(g, palette, a)) && a in Component(g, palette, a)
  {
    ConnectedSelf(g, palette, a);
    InComponent(g, palette, a, a);
    ComponentIsSealed(g, palette, a);
    forall c | c in Component(g, palette, a) ensures Painted(g, palette, c) { InComponent(g, palette, a, c); }
    forall part: set<Cell> | part != {} && part <= Component(g, palette, a) && Sealed(part, iset c | c in Component(g, palette, a))
      ensures part == Component(g, palette, a)
    {
      SealedPartIsAll(g, palette, a, part);
    }
  }

  lemma BeforeOrdered(a: Cell, b: Cell, c: Cell)
    requires !Before(a, b) && !Before(b, c)
    ensures !Before(a, c)
  {
  }

  lemma {:induction false} FirstCell(cells: set<Cell>) returns (r: Cell)
    requires cells != {}
    ensures r in cells && forall c :: c in cells ==> !Before(c, r)
    decreases |cells|
  {
    var other :| other in cells;
    var rest := cells - {other};
    if rest == {} {
      r := other;
      assert forall c :: c in cells ==> c == other || c in rest;
    } else {
      var first := FirstCell(rest);
      r := if Before(first, other) then first else other;
      forall c | c in cells ensures !Before(c, r) {
        if c in rest { BeforeOrdered(c, first, r); } else { assert c == other; }
      }
    }
  }

  /** A blob with every colour is the component of its first cell. */
  lemma FullBlobRoot(g: Grid, palette: set<int>, cells: set<Cell>) returns (r: Cell)
    requires g.Valid() && IsFullBlob(g, palette, cells)
    ensures FullRoot(g, palette, r) && cells == Component(g, palette, r)
  {
    r := FirstCell(cells);
    BlobIsComponent(g, palette, cells, r);
    forall v | v in palette ensures v in Colours(g, cells) {
      var c :| c in cells && Painted(g, palette, c) && g.rows[c.row][c.col] == v;
    }
    assert Colours(g, cells) == palette;
  }

  lemma RootIsFullBlob(g: Grid, palette: set<int>, r: Cell)
    requires g.Valid() && FullRoot(g, palette, r)
    ensures IsFullBlob(g, palette, Component(g, palette, r))
  {
    ComponentIsBlob(g, palette, r);
    forall v | v in palette
      ensures exists c :: c in Component(g, palette, r) && Painted(g, palette, c) && g.rows[c.row][c.col] == v
    {
      assert v in Colours(g, Component(g, palette, r));
    }
  }

  lemma FirstLargestBeats(g: Grid, palette: set<int>, r: Cell, q: Cell)
    requires g.Valid() && FirstLargest(g, palette, r) && FullRoot(g, palette, q) && q != r
    ensures var cells, other := Component(g, palette, r), Component(g, palette, q);
            |other| < |cells| || (|other| == |cells| && Leads(cells, other))
  {
    ConnectedSelf(g, palette, r);
    InComponent(g, palette, r, r);
    if !Before(q, r) {
      forall d | d in Component(g, palette, q) ensures Before(r, d) {
        assert !Before(d, q) && Before(r, q);
      }
    }
  }

  lemma FirstLargestWins(g: Grid, palette: set<int>, r: Cell)
    requires g.Valid() && FirstLargest(g, palette, r)
    ensures Wins(g, palette, Component(g, palette, r))
  {
    RootIsFullBlob(g, palette, r);
    forall other | IsFullBlob(g, palette, other) && other != Component(g, palette, r)
      ensures var cells := Component(g, palette, r);
              |other| < |cells| || (|other| == |cells| && Leads(cells, other))
    {
      var q := FullBlobRoot(g, palette, other);
      FirstLargestBeats(g, palette, r, q);
    }
  }

  /** The corner of the blob that wins, or None when no blob has every colour of the palette. */
  method Locate(g: Grid, palette: set<int>) returns (corner: Option<Cell>)
    requires g.Valid()
    ensures corner.None? <==> forall cells :: !IsFullBlob(g, palette, cells)
    ensures corner.Some? ==> exists cells :: Wins(g, palette, cells) && TopLeft(cells, corner.value)
  {
    var seen := new bool[g.height, g.width]((_, _) => false);
    var best := Nothing;
    ghost var root, at := Cell(0, 0), Cell(0, 0);
    assert Seen(seen) == {};
    for y := 0 to g.height
      invariant at == Cell(y, 0)
      invariant Scanned(g, palette, at, Seen(seen)) && Tracks(g, palette, at, best, root)
    {
      for x := 0 to g.width
        invariant at == Cell(y, x)
        invariant Scanned(g, palette, at, Seen(seen)) && Tracks(g, palette, at, best, root)
      {
        ghost var next := Cell(y, x + 1);
        best, root := ScanCell(g, palette, seen, y, x, best, root, at, next);
        at := next;
      }
      ghost var next := Cell(y + 1, 0);
      NextRowScanned(g, palette, at, next, Seen(seen));
      NextRowTracks(g, palette, at, next, best, root);
      at := next;
    }
    AllScanned(g, palette, at, best, root);
    if best.Best? { RootWins(g, palette, root, best.corner); } else { NoneFull(g, palette); }
    corner := if best.Best? then Some(best.corner) else None;
  }

  lemma AllScanned(g: Grid, palette: set<int>, end: Cell, best: Best, root: Cell)
    requires g.Valid() && end.row == g.height && Tracks(g, palette, end, best, root)
    ensures best.Nothing? <==> forall r {:trigger FullRoot(g, palette, r)} :: !FullRoot(g, palette, r)
    ensures best.Best? ==> FirstLargest(g, palette, root) && TopLeft(Component(g, palette, root), best.corner)
  {
    forall q | FullRoot(g, palette, q) ensures Before(q, end) { }
  }

  lemma NoFullBlob(g: Grid, palette: set<int>, cells: set<Cell>)
    requires g.Valid() && forall r {:trigger FullRoot(g, palette, r)} :: !FullRoot(g, palette, r)
    ensures !IsFullBlob(g, palette, cells)
  {
    if IsFullBlob(g, palette, cells) {
      var r := FullBlobRoot(g, palette, cells);
      assert false;
    }
  }

  lemma NoneFull(g: Grid, palette: set<int>)
    requires g.Valid() && forall r {:trigger FullRoot(g, palette, r)} :: !FullRoot(g, palette, r)
    ensures forall cells :: !IsFullBlob(g, palette, cells)
  {
    forall cells ensures !IsFullBlob(g, palette, cells) { NoFullBlob(g, palette, cells); }
  }

  lemma RootWins(g: Grid, palette: set<int>, root: Cell, corner: Cell)
    requires g.Valid() && FirstLargest(g, palette, root) && TopLeft(Component(g, palette, root), corner)
    ensures Wins(g, palette, Component(g, palette, root)) && TopLeft(Component(g, palette, root), corner)
    ensures IsFullBlob(g, palette, Component(g, palette, root))
  {
    FirstLargestWins(g, palette, root);
  }

  // ---------- Components partition the palette cells ----------

  lemma ConnectedTrans(g: Grid, palette: set<int>, a: Cell, b: Cell, c: Cell)
    requires g.Valid() && Connected(g, palette, a, b) && Connected(g, palette, b, c)
    ensures Connected(g, palette, a, c)
  {
    var p :| IsPath(g, palette, p) && p[0] == a && p[|p| - 1] == b;
    var q :| IsPath(g, palette, q) && q[0] == b && q[|q| - 1] == c;
    assert IsPath(g, palette, p + q[1..]);
    assert (p + q[1..])[|p| + |q| - 2] == c;
  }

  /** Two components are the same or have no cell in common. */
  lemma ComponentsPartition(g: Grid, palette: set<int>, a: Cell, b: Cell)
    requires g.Valid()
    ensures Component(g, palette, a) == Component(g, palette, b) || Component(g, palette, a) !! Component(g, palette, b)
  {
    if c :| c in Component(g, palette, a) && c in Component(g, palette, b) {
      ComponentInPalette(g, palette, a, c);
      ComponentInPalette(g, palette, b, c);
      ConnectedBack(g, palette, b, c);
      ConnectedBack(g, palette, a, c);
      ConnectedTrans(g, palette, a, c, b);
      ConnectedTrans(g, palette, b, c, a);
      ComponentWithin(g, palette, a, b);
      ComponentWithin(g, palette, b, a);
    }
  }

  lemma ComponentWithin(g: Grid, palette: set<int>, a: Cell, b: Cell)
    requires g.Valid() && Connected(g, palette, a, b)
    ensures Component(g, palette, b) <= Component(g, palette, a)
  {
    forall c | c in Component(g, palette, b) ensures c in Component(g, palette, a) {
      ComponentInPalette(g, palette, b, c);
      ConnectedTrans(g, palette, a, b, c);
    }
  }
}
