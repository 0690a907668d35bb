/** The pixel maps, the merged map, the owner map and the win test built on the search. */
module MirrorMaps {
  import opened Wrappers
  import opened Mirrors
  import opened MirrorSearch

  /** The colour of a reflected pixel. */
  const REFLECTION := 4

  datatype Kind = Free | OnlyVertical | OnlyHorizontal

  predicate InGroup(p: Piece, kind: Kind) {
    match kind
    case Free => !p.onlyVertical && !p.onlyHorizontal
    case OnlyVertical => p.onlyVertical
    case OnlyHorizontal => p.onlyHorizontal
  }

  function Select(ps: seq<Piece>, kind: Kind): (r: seq<Piece>)
    ensures forall q :: q in r <==> q in ps && InGroup(q, kind)
  {
    if ps == [] then []
    else
      assert ps == ps[..|ps| - 1] + [ps[|ps| - 1]];
      Select(ps[..|ps| - 1], kind) + if InGroup(ps[|ps| - 1], kind) then [ps[|ps| - 1]] else []
  }

  /** picks lists, in order, the indices of the pieces of the kind. */
  ghost predicate PicksKind(ps: seq<Piece>, picks: seq<nat>, kind: Kind) {
    && (forall a, b :: 0 <= a < b < |picks| ==> picks[a] < picks[b])
    && forall i: nat :: i in picks <==>
         i < |ps| && match kind
                     case Free => !ps[i].onlyVertical && !ps[i].onlyHorizontal
                     case OnlyVertical => ps[i].onlyVertical
                     case OnlyHorizontal => ps[i].onlyHorizontal
  }

  ghost predicate Picked(ps: seq<Piece>, group: seq<Piece>, picks: seq<nat>) {
    |picks| == |group| && forall k :: 0 <= k < |picks| ==> picks[k] < |ps| && group[k] == ps[picks[k]]
  }

  /** A group holds the pieces of its kind in their own order. */
  lemma {:induction false} SelectKeepsOrder(ps: seq<Piece>, kind: Kind) returns (picks: seq<nat>)
    ensures PicksKind(ps, picks, kind) && Picked(ps, Select(ps, kind), picks)
  {
    if ps == [] {
      picks := [];
    } else {
      var init, last := ps[..|ps| - 1], ps[|ps| - 1];
      var before := SelectKeepsOrder(init, kind);
      assert ps == init + [last];
      picks := SelectStep(init, last, kind, before);
    }
  }

  lemma SelectLast(init: seq<Piece>, last: Piece, kind: Kind)
    ensures Select(init + [last], kind) == Select(init, kind) + if InGroup(last, kind) then [last] else []
  {
    assert (init + [last])[..|init|] == init;
  }

  lemma SelectStep(init: seq<Piece>, last: Piece, kind: Kind, before: seq<nat>) returns (picks: seq<nat>)
    requires PicksKind(init, before, kind) && Picked(init, Select(init, kind), before)
    ensures PicksKind(init + [last], picks, kind) && Picked(init + [last], Select(init + [last], kind), picks)
  {
    var group := Select(init, kind);
    SelectLast(init, last, kind);
    PickLast(init, before, last, kind);
    PickedLast(init, group, before, last, InGroup(last, kind));
    picks := if InGroup(last, kind) then before + [|init|] else before;
  }

  lemma PickedLast(init: seq<Piece>, group: seq<Piece>, picks: seq<nat>, last: Piece, takes: bool)
    requires Picked(init, group, picks)
    ensures Picked(init + [last], group + if takes then [last] else [], if takes then picks + [|init|] else picks)
  {
  }

  lemma PickLast(init: seq<Piece>, picks: seq<nat>, last: Piece, kind: Kind)
    requires PicksKind(init, picks, kind)
    ensures PicksKind(init + [last], if InGroup(last, kind) then picks + [|init|] else picks, kind)
  {
    var ps, more := init + [last], if InGroup(last, kind) then picks + [|init|] else picks;
    forall a | 0 <= a < |picks| ensures picks[a] < |init| { assert picks[a] in picks; }
    forall i: nat ensures i in more <==> i in picks || (InGroup(last, kind) && i == |init|) { }
    forall i: nat | i < |init| ensures ps[i] == init[i] { }
  }

  // ---------- What each map should hold at a cell ----------

  /** The last of the first n pieces that covers c with a pixel of its own. */
  ghost function TopDirect(ps: seq<Piece>, n: nat, c: Cell): (o: Option<nat>)
    requires n <= |ps|
    ensures o.Some? ==> o.value < n && Covers(ps[o.value], c)
    ensures o.Some? ==> forall i :: o.value < i < n ==> !Covers(ps[i], c)
    ensures o.None? ==> forall i :: 0 <= i < n ==> !Covers(ps[i], c)
  {
    if n == 0 then None
    else if Covers(ps[n - 1], c) then Some(n - 1)
    else TopDirect(ps, n - 1, c)
  }

  /** The last of the first n pieces with a reflection on c. */
  ghost function TopReached(ps: seq<Piece>, axes: seq<Axis>, width: nat, height: nat, n: nat, c: Cell): (o: Option<nat>)
    requires n <= |ps|
    ensures o.Some? ==> o.value < n && Reached(ps[o.value], axes, width, height, c)
    ensures o.Some? ==> forall i :: o.value < i < n ==> !Reached(ps[i], axes, width, height, c)
    ensures o.None? ==> forall i :: 0 <= i < n ==> !Reached(ps[i], axes, width, height, c)
  {
    if n == 0 then None
    else if Reached(ps[n - 1], axes, width, height, c) then Some(n - 1)
    else TopReached(ps, axes, width, height, n - 1, c)
  }

  ghost function GroupCell(ps: seq<Piece>, axes: seq<Axis>, width: nat, height: nat, c: Cell): int {
    match TopDirect(ps, |ps|, c)
    case Some(i) => PixelAt(ps[i], c)
    case None => if TopReached(ps, axes, width, height, |ps|, c).Some? then REFLECTION else -1
  }

  /** The last piece that covers the cell, or else the last one with a reflection on it. */
  ghost function OwnerCell(ps: seq<Piece>, axes: seq<Axis>, width: nat, height: nat, c: Cell): Option<nat> {
    match TopDirect(ps, |ps|, c)
    case Some(i) => Some(i)
    case None => TopReached(ps, axes, width, height, |ps|, c)
  }

  /** Piece i is the last one with an entry other than -1 at (x, y). */
  ghost predicate OnTop(ps: seq<Piece>, i: nat, x: int, y: int) {
    i < |ps| && Opaque(ps[i], x, y) && forall j :: i < j < |ps| ==> !Opaque(ps[j], x, y)
  }

  ghost predicate SomeReflection(ps: seq<Piece>, axes: seq<Axis>, width: nat, height: nat, x: int, y: int) {
    exists i :: 0 <= i < |ps| && Reached(ps[i], axes, width, height, Cell(x, y))
  }

  /** A cell shows the entry of the last piece on it, else 4 where some piece is reflected, else -1. */
  ghost predicate Paints(ps: seq<Piece>, axes: seq<Axis>, width: nat, height: nat, x: int, y: int, v: int) {
    && (forall i: nat :: OnTop(ps, i, x, y) ==> Has(ps[i], x, y, v))
    && ((forall i: nat :: !OnTop(ps, i, x, y)) ==> v == if SomeReflection(ps, axes, width, height, x, y) then 4 else -1)
  }

  lemma TopDirectMeans(ps: seq<Piece>, x: int, y: int, i: nat)
    ensures TopDirect(ps, |ps|, Cell(x, y)) == Some(i) <==> OnTop(ps, i, x, y)
  {
    forall j | 0 <= j < |ps| ensures Covers(ps[j], Cell(x, y)) <==> Opaque(ps[j], x, y) { CoversMeans(ps[j], x, y); }
  }

  lemma GroupCellPaints(ps: seq<Piece>, axes: seq<Axis>, width: nat, height: nat, x: int, y: int)
    ensures Paints(ps, axes, width, height, x, y, GroupCell(ps, axes, width, height, Cell(x, y)))
  {
    var top := TopDirect(ps, |ps|, Cell(x, y));
    forall i: nat ensures top == Some(i) <==> OnTop(ps, i, x, y) { TopDirectMeans(ps, x, y, i); }
    if top.Some? { CoversMeans(ps[top.value], x, y); }
  }

  /** The owner of a cell: the last piece on it, else the last one reflected onto it. */
  ghost predicate Owns(ps: seq<Piece>, axes: seq<Axis>, width: nat, height: nat, x: int, y: int, o: Option<nat>) {
    && (forall i: nat :: OnTop(ps, i, x, y) ==> o == Some(i))
    && ((forall i: nat :: !OnTop(ps, i, x, y)) ==>
          match o
          case Some(i) => i < |ps| && Reached(ps[i], axes, width, height, Cell(x, y))
                          && forall j :: i < j < |ps| ==> !Reached(ps[j], axes, width, height, Cell(x, y))
          case None => !SomeReflection(ps, axes, width, height, x, y))
  }

  lemma OwnerCellOwns(ps: seq<Piece>, axes: seq<Axis>, width: nat, height: nat, x: int, y: int)
    ensures Owns(ps, axes, width, height, x, y, OwnerCell(ps, axes, width, height, Cell(x, y)))
  {
    var top := TopDirect(ps, |ps|, Cell(x, y));
    forall i: nat ensures top == Some(i) <==> OnTop(ps, i, x, y) { TopDirectMeans(ps, x, y, i); }
  }

  /** Where groups overlap the unrestricted one is shown before the upright-only one, and that before the
      level-only one; only values above -1 count. */
  ghost predicate Merges(ps: seq<Piece>, axes: seq<Axis>, width: nat, height: nat, x: int, y: int, v: int) {
    exists free, upright, level ::
      && Paints(Select(ps, Free), axes, width, height, x, y, free)
      && Paints(Select(ps, OnlyVertical), axes, width, height, x, y, upright)
      && Paints(Select(ps, OnlyHorizontal), axes, width, height, x, y, level)
      && (free > -1 ==> v == free) && (free <= -1 && upright > -1 ==> v == upright)
      && (free <= -1 && upright <= -1 ==> v == if level > -1 then level else -1)
  }

  lemma MergedCellMerges(ps: seq<Piece>, axes: seq<Axis>, width: nat, height: nat, x: int, y: int)
    ensures Merges(ps, axes, width, height, x, y, MergedCell(ps, axes, width, height, Cell(x, y)))
  {
    GroupCellPaints(Select(ps, Free), axes, width, height, x, y);
    GroupCellPaints(Select(ps, OnlyVertical), axes, width, height, x, y);
    GroupCellPaints(Select(ps, OnlyHorizontal), axes, width, height, x, y);
  }

  ghost function MergedCell(ps: seq<Piece>, axes: seq<Axis>, width: nat, height: nat, c: Cell): int {
    var free := GroupCell(Select(ps, Free), axes, width, height, c);
    var vertical := GroupCell(Select(ps, OnlyVertical), axes, width, height, c);
    var horizontal := GroupCell(Select(ps, OnlyHorizontal), axes, width, height, c);
    if free > -1 then free else if vertical > -1 then vertical else if horizontal > -1 then horizontal else -1
  }

  // ---------- The maps as they are filled ----------

  method Stamp<T>(grid: array2<T>, p: Piece, paint: int -> T)
    modifies grid
    ensures forall y, x :: 0 <= y < grid.Length0 && 0 <= x < grid.Length1 ==>
      grid[y, x] == if Covers(p, Cell(x, y)) then paint(PixelAt(p, Cell(x, y))) else old(grid[y, x])
  {
    for r := 0 to |p.pixels|
      invariant forall y, x :: 0 <= y < grid.Length0 && 0 <= x < grid.Length1 ==>
        grid[y, x] == if Covers(p, Cell(x, y)) && y < p.y + r then paint(PixelAt(p, Cell(x, y))) else old(grid[y, x])
    {
      for k := 0 to |p.pixels[r]|
        invariant forall y, x :: 0 <= y < grid.Length0 && 0 <= x < grid.Length1 ==>
          grid[y, x] == if Covers(p, Cell(x, y)) && (y < p.y + r || (y == p.y + r && x < p.x + k))
                        then paint(PixelAt(p, Cell(x, y))) else old(grid[y, x])
      {
        var x, y := p.x + k, p.y + r;
        if p.pixels[r][k] != -1 && 0 <= x < grid.Length1 && 0 <= y < grid.Length0 {
          grid[y, x] := paint(p.pixels[r][k]);
        }
      }
    }
  }

  method GroupMap(ps: seq<Piece>, axes: seq<Axis>, width: nat, height: nat) returns (grid: array2<int>)
    ensures fresh(grid) && grid.Length0 == height && grid.Length1 == width
    ensures forall y, x :: 0 <= y < height && 0 <= x < width ==>
      grid[y, x] == GroupCell(ps, axes, width, height, Cell(x, y))
    ensures forall y, x :: 0 <= y < height && 0 <= x < width ==> Paints(ps, axes, width, height, x, y, grid[y, x])
  {
    grid := FillGroup(ps, axes, width, height);
    forall y, x | 0 <= y < height && 0 <= x < width ensures Paints(ps, axes, width, height, x, y, grid[y, x]) {
      GroupCellPaints(ps, axes, width, height, x, y);
    }
  }

  /** Reflections from the last piece to the first, then the pieces themselves from first to last. */
  method FillGroup(ps: seq<Piece>, axes: seq<Axis>, width: nat, height: nat) returns (grid: array2<int>)
    ensures fresh(grid) && grid.Length0 == height && grid.Length1 == width
    ensures forall y, x :: 0 <= y < height && 0 <= x < width ==>
      grid[y, x] == GroupCell(ps, axes, width, height, Cell(x, y))
  {
    grid := new int[height, width]((_, _) => -1);
    for i := |ps| downto 0
      invariant forall y, x :: 0 <= y < height && 0 <= x < width ==>
        var top := TopReached(ps, axes, width, height, |ps|, Cell(x, y));
        grid[y, x] == if top.Some? && top.value >= i then REFLECTION else -1
    {
      Spread(grid, -1, REFLECTION, ps[i], axes);
    }
    for i := 0 to |ps|
      invariant forall y, x :: 0 <= y < height && 0 <= x < width ==>
        grid[y, x] == match TopDirect(ps, i, Cell(x, y))
                      case Some(j) => PixelAt(ps[j], Cell(x, y))
                      case None => if TopReached(ps, axes, width, height, |ps|, Cell(x, y)).Some? then REFLECTION else -1
    {
      Stamp(grid, ps[i], pixel => pixel);
    }
  }

  method OwnerMap(ps: seq<Piece>, axes: seq<Axis>, width: nat, height: nat) returns (grid: array2<Option<nat>>)
    ensures fresh(grid) && grid.Length0 == height && grid.Length1 == width
    ensures forall y, x :: 0 <= y < height && 0 <= x < width ==>
      grid[y, x] == OwnerCell(ps, axes, width, height, Cell(x, y))
    ensures forall y, x :: 0 <= y < height && 0 <= x < width ==> Owns(ps, axes, width, height, x, y, grid[y, x])
  {
    grid := FillOwners(ps, axes, width, height);
    forall y, x | 0 <= y < height && 0 <= x < width ensures Owns(ps, axes, width, height, x, y, grid[y, x]) {
      OwnerCellOwns(ps, axes, width, height, x, y);
    }
  }

  method FillOwners(ps: seq<Piece>, axes: seq<Axis>, width: nat, height: nat) returns (grid: array2<Option<nat>>)
    ensures fresh(grid) && grid.Length0 == height && grid.Length1 == width
    ensures forall y, x :: 0 <= y < height && 0 <= x < width ==>
      grid[y, x] == OwnerCell(ps, axes, width, height, Cell(x, y))
  {
    grid := new Option<nat>[height, width]((_, _) => None);
    for i := |ps| downto 0
      invariant forall y, x :: 0 <= y < height && 0 <= x < width ==>
        var top := TopReached(ps, axes, width, height, |ps|, Cell(x, y));
        grid[y, x] == if top.Some? && top.value >= i then top else None
    {
      Spread(grid, None, Some(i), ps[i], axes);
    }
    for i := 0 to |ps|
      invariant forall y, x :: 0 <= y < height && 0 <= x < width ==>
        var direct := TopDirect(ps, i, Cell(x, y));
        grid[y, x] == if direct.Some? then direct else TopReached(ps, axes, width, height, |ps|, Cell(x, y))
    {
      Stamp(grid, ps[i], _ => Some(i));
    }
  }

  method Overlay(merged: array2<int>, layer: array2<int>)
    requires merged != layer && merged.Length0 == layer.Length0 && merged.Length1 == layer.Length1
    modifies merged
    ensures forall y, x :: 0 <= y < merged.Length0 && 0 <= x < merged.Length1 ==>
      merged[y, x] == if layer[y, x] > -1 then layer[y, x] else old(merged[y, x])
  {
    forall y, x | 0 <= y < merged.Length0 && 0 <= x < merged.Length1 && layer[y, x] > -1 {
      merged[y, x] := layer[y, x];
    }
  }

  method MergedMap(ps: seq<Piece>, axes: seq<Axis>, width: nat, height: nat) returns (merged: array2<int>)
    ensures fresh(merged) && merged.Length0 == height && merged.Length1 == width
    ensures forall y, x :: 0 <= y < height && 0 <= x < width ==>
      merged[y, x] == MergedCell(ps, axes, width, height, Cell(x, y))
  {
    var free := GroupMap(Select(ps, Free), axes, width, height);
    var vertical := GroupMap(Select(ps, OnlyVertical), axes, width, height);
    var horizontal := GroupMap(Select(ps, OnlyHorizontal), axes, width, height);
    merged := new int[height, width]((_, _) => -1);
    Overlay(merged, horizontal);
    Overlay(merged, vertical);
    Overlay(merged, free);
  }

  // ---------- The merged map and the owner map agree ----------

  ghost predicate Touches(p: Piece, axes: seq<Axis>, width: nat, height: nat, c: Cell) {
    Covers(p, c) || Reached(p, axes, width, height, c)
  }

  ghost predicate VisiblePixels(ps: seq<Piece>) {
    forall p, c :: p in ps && Covers(p, c) ==> PixelAt(p, c) >= -1
  }

  lemma OwnedIffTouched(ps: seq<Piece>, axes: seq<Axis>, width: nat, height: nat, c: Cell)
    ensures OwnerCell(ps, axes, width, height, c).Some? <==> exists p :: p in ps && Touches(p, axes, width, height, c)
  {
    if p :| p in ps && Touches(p, axes, width, height, c) {
      var i :| 0 <= i < |ps| && ps[i] == p;
      assert Covers(ps[i], c) || Reached(ps[i], axes, width, height, c);
    }
    if OwnerCell(ps, axes, width, height, c).Some? {
      assert Touches(ps[OwnerCell(ps, axes, width, height, c).value], axes, width, height, c);
    }
  }

  /** The last piece that covers the cell shows a pixel below -1 there. */
  ghost predicate Sunk(ps: seq<Piece>, c: Cell) {
    var top := TopDirect(ps, |ps|, c);
    top.Some? && PixelAt(ps[top.value], c) < -1
  }

  ghost predicate GroupOwns(ps: seq<Piece>, kind: Kind, axes: seq<Axis>, width: nat, height: nat, c: Cell) {
    OwnerCell(Select(ps, kind), axes, width, height, c).Some?
  }

  /** The group owns the cell and is not sunk there. */
  ghost predicate GroupShows(ps: seq<Piece>, kind: Kind, axes: seq<Axis>, width: nat, height: nat, c: Cell) {
    GroupOwns(ps, kind, axes, width, height, c) && !Sunk(Select(ps, kind), c)
  }

  lemma LitUnlessSunk(ps: seq<Piece>, axes: seq<Axis>, width: nat, height: nat, c: Cell)
    ensures GroupCell(ps, axes, width, height, c) >= 0 <==> OwnerCell(ps, axes, width, height, c).Some? && !Sunk(ps, c)
  {
    var top := TopDirect(ps, |ps|, c);
    if top.Some? { assert PixelAt(ps[top.value], c) != -1; }
  }

  /** The merged map lights a cell iff one of the three groups shows it. */
  lemma LitIffShown(ps: seq<Piece>, axes: seq<Axis>, width: nat, height: nat, c: Cell)
    ensures MergedCell(ps, axes, width, height, c) >= 0 <==> exists kind :: GroupShows(ps, kind, axes, width, height, c)
  {
    LitUnlessSunk(Select(ps, Free), axes, width, height, c);
    LitUnlessSunk(Select(ps, OnlyVertical), axes, width, height, c);
    LitUnlessSunk(Select(ps, OnlyHorizontal), axes, width, height, c);
    var shown := GroupShows(ps, Free, axes, width, height, c) || GroupShows(ps, OnlyVertical, axes, width, height, c)
                 || GroupShows(ps, OnlyHorizontal, axes, width, height, c);
    assert MergedCell(ps, axes, width, height, c) >= 0 <==> shown;
    forall kind: Kind | GroupShows(ps, kind, axes, width, height, c) ensures shown {
      assert kind == Free || kind == OnlyVertical || kind == OnlyHorizontal;
    }
  }

  /** A cell has an owner iff one of the groups owns it. */
  lemma OwnedIffGroupOwns(ps: seq<Piece>, axes: seq<Axis>, width: nat, height: nat, c: Cell)
    ensures OwnerCell(ps, axes, width, height, c).Some? <==> exists kind :: GroupOwns(ps, kind, axes, width, height, c)
  {
    OwnedIffTouched(ps, axes, width, height, c);
    if p :| p in ps && Touches(p, axes, width, height, c) {
      var kind := if p.onlyVertical then OnlyVertical else if p.onlyHorizontal then OnlyHorizontal else Free;
      assert p in Select(ps, kind);
      OwnedIffTouched(Select(ps, kind), axes, width, height, c);
      assert GroupOwns(ps, kind, axes, width, height, c);
    } else {
      forall kind: Kind ensures !GroupOwns(ps, kind, axes, width, height, c) {
        OwnedIffTouched(Select(ps, kind), axes, width, height, c);
      }
    }
  }

  ghost predicate Agree(ps: seq<Piece>, axes: seq<Axis>, width: nat, height: nat, c: Cell) {
    MergedCell(ps, axes, width, height, c) >= 0 <==> OwnerCell(ps, axes, width, height, c).Some?
  }

  /** The last piece of the group that covers the cell shows a pixel of at least 0 there. */
  ghost predicate PixelShows(ps: seq<Piece>, kind: Kind, c: Cell) {
    var group := Select(ps, kind);
    var top := TopDirect(group, |group|, c);
    top.Some? && PixelAt(group[top.value], c) >= 0
  }

  lemma UncoveredAgrees(ps: seq<Piece>, axes: seq<Axis>, width: nat, height: nat, c: Cell)
    requires forall p :: p in ps ==> !Covers(p, c)
    ensures Agree(ps, axes, width, height, c)
  {
    LitIffShown(ps, axes, width, height, c);
    OwnedIffGroupOwns(ps, axes, width, height, c);
    forall kind: Kind
      ensures GroupShows(ps, kind, axes, width, height, c) <==> GroupOwns(ps, kind, axes, width, height, c)
    {
      UncoveredGroup(Select(ps, kind), c);
    }
  }

  lemma UncoveredGroup(ps: seq<Piece>, c: Cell)
    requires forall p :: p in ps ==> !Covers(p, c)
    ensures !Sunk(ps, c)
  {
    forall i | 0 <= i < |ps| ensures !Covers(ps[i], c) { assert ps[i] in ps; }
  }

  lemma ShownAgrees(ps: seq<Piece>, axes: seq<Axis>, width: nat, height: nat, c: Cell, kind: Kind)
    requires PixelShows(ps, kind, c)
    ensures Agree(ps, axes, width, height, c)
  {
    assert GroupShows(ps, kind, axes, width, height, c);
    assert GroupOwns(ps, kind, axes, width, height, c);
    LitIffShown(ps, axes, width, height, c);
    OwnedIffGroupOwns(ps, axes, width, height, c);
  }

  /** Without any axis nothing is reflected, so only covering pixels can light the cell. */
  lemma CoveredDisagrees(ps: seq<Piece>, width: nat, height: nat, c: Cell)
    requires (exists p :: p in ps && Covers(p, c)) && forall kind :: !PixelShows(ps, kind, c)
    ensures !Agree(ps, [], width, height, c)
  {
    LitIffShown(ps, [], width, height, c);
    forall kind: Kind ensures !GroupShows(ps, kind, [], width, height, c) { HiddenGroup(ps, width, height, c, kind); }
    var p :| p in ps && Covers(p, c);
    CoveredIsOwned(ps, [], width, height, c, p);
  }

  lemma HiddenGroup(ps: seq<Piece>, width: nat, height: nat, c: Cell, kind: Kind)
    requires !PixelShows(ps, kind, c)
    ensures !GroupShows(ps, kind, [], width, height, c)
  {
    UnreachedGroup(Select(ps, kind), width, height, c);
    var group := Select(ps, kind);
    var top := TopDirect(group, |group|, c);
    if top.Some? { assert PixelAt(group[top.value], c) != -1; }
  }

  lemma CoveredIsOwned(ps: seq<Piece>, axes: seq<Axis>, width: nat, height: nat, c: Cell, p: Piece)
    requires p in ps && Covers(p, c)
    ensures OwnerCell(ps, axes, width, height, c).Some?
  {
    OwnedIffTouched(ps, axes, width, height, c);
    assert Touches(p, axes, width, height, c);
  }

  lemma UnreachedGroup(ps: seq<Piece>, width: nat, height: nat, c: Cell)
    ensures TopReached(ps, [], width, height, |ps|, c) == None
  {
    var top := TopReached(ps, [], width, height, |ps|, c);
    if top.Some? {
      var seeds := Seeds(ps[top.value], width, height);
      BallInClosed(ps[top.value], [], seeds, seeds, MAX_DEPTH + 1);
    }
  }

  /** The maps agree at a cell whatever the axes exactly when no piece covers it or the last covering
      piece of some group shows a pixel of at least 0 there. */
  lemma MapsAgreeIff(ps: seq<Piece>, width: nat, height: nat, c: Cell)
    ensures (forall axes: seq<Axis> :: Agree(ps, axes, width, height, c))
       <==> (forall p :: p in ps ==> !Covers(p, c)) || exists kind :: PixelShows(ps, kind, c)
  {
    if forall p :: p in ps ==> !Covers(p, c) {
      forall axes: seq<Axis> ensures Agree(ps, axes, width, height, c) { UncoveredAgrees(ps, axes, width, height, c); }
    } else if kind :| PixelShows(ps, kind, c) {
      forall axes: seq<Axis> ensures Agree(ps, axes, width, height, c) { ShownAgrees(ps, axes, width, height, c, kind); }
    } else {
      CoveredDisagrees(ps, width, height, c);
    }
  }

  /** A piece with a pixel -2 owns its cell, which the merged map leaves dark. */
  lemma DarkPixelIsOwned()
    ensures var ps, c := [Piece(1, 1, [[-2]], false, false, false)], Cell(1, 1);
            && OwnerCell(ps, [], 4, 4, c) == Some(0) && MergedCell(ps, [], 4, 4, c) < 0
  {
    var p, c := Piece(1, 1, [[-2]], false, false, false), Cell(1, 1);
    assert Covers(p, c) && PixelAt(p, c) == -2;
    assert [p][..0] == [];
    assert Select([p], Free) == [p] && Select([p], OnlyVertical) == [] && Select([p], OnlyHorizontal) == [];
    assert TopDirect([p], 1, c) == Some(0);
  }

  /** Without pixels below -1 a cell is lit in the merged map iff some piece owns it. */
  lemma MapsAgree(ps: seq<Piece>, axes: seq<Axis>, width: nat, height: nat, c: Cell)
    requires VisiblePixels(ps)
    ensures Agree(ps, axes, width, height, c)
  {
    LitIffShown(ps, axes, width, height, c);
    OwnedIffGroupOwns(ps, axes, width, height, c);
    if kind :| GroupOwns(ps, kind, axes, width, height, c) {
      NeverSunk(ps, kind, c);
      assert GroupShows(ps, kind, axes, width, height, c);
    }
  }

  lemma NeverSunk(ps: seq<Piece>, kind: Kind, c: Cell)
    requires VisiblePixels(ps)
    ensures !Sunk(Select(ps, kind), c)
  {
    var group := Select(ps, kind);
    var top := TopDirect(group, |group|, c);
    if top.Some? { assert group[top.value] in group; }
  }

  // ---------- The win test ----------

  /** An index below zero counts from the far end; one beyond either end raises. */
  predicate Indexable(t: Cell, width: nat, height: nat) {
    -1 * width <= t.x < width && -1 * height <= t.y < height
  }

  function Indexed(t: Cell, width: nat, height: nat): Cell {
    Cell(if t.x < 0 then t.x + width else t.x, if t.y < 0 then t.y + height else t.y)
  }

  lemma WrapIsRemainder(x: int, n: nat)
    requires n > 0 && -1 * n <= x < n
    ensures x % n == if x < 0 then x + n else x
  {
    if x < 0 { assert (x + n) / n == 0 && x / n == -1; }
  }

  /** An index is taken modulo the size of the grid. */
  lemma IndexedIsRemainder(t: Cell, width: nat, height: nat)
    requires width > 0 && height > 0 && t.x < width && t.x + width >= 0 && t.y < height && t.y + height >= 0
    ensures Indexable(t, width, height) && Indexed(t, width, height) == Cell(t.x % width, t.y % height)
  {
    WrapIsRemainder(t.x, width);
    WrapIsRemainder(t.y, height);
  }

  ghost predicate AllLit(ps: seq<Piece>, axes: seq<Axis>, width: nat, height: nat, targets: seq<Cell>) {
    forall t :: t in targets ==> MergedCell(ps, axes, width, height, Indexed(t, width, height)) >= 0
  }

  /** The level is won iff every target cell is lit. None stands for the IndexError. */
  method Wins(ps: seq<Piece>, axes: seq<Axis>, width: nat, height: nat, targets: seq<Cell>) returns (won: Option<bool>)
    ensures won.Some? <==>
      forall t :: t in targets ==> t.x < width && t.x + width >= 0 && t.y < height && t.y + height >= 0
    ensures won.Some? ==> (won.value <==> AllLit(ps, axes, width, height, targets))
  {
    var merged := MergedMap(ps, axes, width, height);
    var lit := true;
    for i := 0 to |targets|
      invariant forall j :: 0 <= j < i ==> Indexable(targets[j], width, height)
      invariant lit <==>
        forall j :: 0 <= j < i ==> MergedCell(ps, axes, width, height, Indexed(targets[j], width, height)) >= 0
    {
      assert targets[i] in targets;
      if !Indexable(targets[i], width, height) { return None; }
      var at := Indexed(targets[i], width, height);
      if merged[at.y, at.x] < 0 {
        lit := false;
      }
    }
    won := Some(lit);
  }

  /** With visible pixels only, winning means that every target has an owner. */
  lemma WonIffOwned(ps: seq<Piece>, axes: seq<Axis>, width: nat, height: nat, targets: seq<Cell>)
    requires VisiblePixels(ps)
    ensures AllLit(ps, axes, width, height, targets) <==>
      forall t :: t in targets ==> OwnerCell(ps, axes, width, height, Indexed(t, width, height)).Some?
  {
    forall t | t in targets ensures Agree(ps, axes, width, height, Indexed(t, width, height)) {
      MapsAgree(ps, axes, width, height, Indexed(t, width, height));
    }
  }
}
