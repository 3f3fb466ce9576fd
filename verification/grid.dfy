/** The grid of squares laid over the visible map (`computeGrid` in
    app/assets/scripts/components/map.js). */
module Grid {
  import opened Values
  import opened Tiles

  /** How many zoom levels finer than the displayed map the grid squares are. */
  const ZoomOffset: int := 2

  /** Column and row of a corner tile of the visible bounds, as `pointToTile`
      returns them at the grid's zoom. */
  datatype Corner = Corner(x: int, y: int)

  /** A grid square: a GeoJSON feature whose properties are its quadkey, its
      position in the grid, its "x/y/z" label and, once the footprints have
      been counted, its count (unset on a freshly computed grid). */
  datatype Cell<G> = Cell(quadKey: string, id: nat, tile: string, geometry: G, count: Option<nat>)

  /** Emission order: `a` comes before `b` when it lies in a column further
      west, or in the same column further south. */
  ghost predicate Before(a: Tile, b: Tile)
  {
    a.x < b.x || (a.x == b.x && a.y > b.y)
  }

  /** Every tile of `tiles` comes before every later one. */
  ghost predicate Ordered(tiles: seq<Tile>)
  {
    forall i, j :: 0 <= i < j < |tiles| ==> Before(tiles[i], tiles[j])
  }

  /** One column of the grid: the tiles of column `x` from row `fromY`
      northward to row `toY`, as the inner loop emits them. */
  function ColumnTiles(x: int, fromY: int, toY: int, z: int): seq<Tile>
    decreases fromY - toY
  {
    if fromY < toY then [] else ColumnTiles(x, fromY, toY + 1, z) + [Tile(x, toY, z)]
  }

  /** The tiles of columns `fromX` to `toX`, each from row `llY` northward to
      row `urY`, as the two loops emit them. */
  function GridTiles(fromX: int, toX: int, llY: int, urY: int, z: int): seq<Tile>
    decreases toX - fromX
  {
    if toX < fromX then [] else GridTiles(fromX, toX - 1, llY, urY, z) + ColumnTiles(toX, llY, urY, z)
  }

  /** A column holds one tile per row between its ends. */
  lemma {:induction false} ColumnSize(x: int, fromY: int, toY: int, z: int)
    ensures |ColumnTiles(x, fromY, toY, z)| == if toY <= fromY then fromY - toY + 1 else 0
    decreases fromY - toY
  {
    if fromY >= toY {
      ColumnSize(x, fromY, toY + 1, z);
    }
  }

  /** A column's tiles all lie in column `x` between its ends, every row
      between them appears, and they run southernmost first. */
  lemma {:induction false} ColumnShape(x: int, fromY: int, toY: int, z: int)
    ensures forall t :: t in ColumnTiles(x, fromY, toY, z) ==> t.x == x && toY <= t.y <= fromY && t.z == z
    ensures forall y :: toY <= y <= fromY ==> Tile(x, y, z) in ColumnTiles(x, fromY, toY, z)
    ensures Ordered(ColumnTiles(x, fromY, toY, z))
    decreases fromY - toY
  {
    if fromY >= toY {
      ColumnShape(x, fromY, toY + 1, z);
      var south := ColumnTiles(x, fromY, toY + 1, z);
      var north := Tile(x, toY, z);
      assert ColumnTiles(x, fromY, toY, z) == south + [north];
      forall i, j | 0 <= i < j < |south + [north]|
        ensures Before((south + [north])[i], (south + [north])[j])
      {
        if j == |south| {
          assert (south + [north])[i] in south;
        } else {
          assert (south + [north])[i] == south[i] && (south + [north])[j] == south[j];
        }
      }
    }
  }

  /** The grid has one tile per column and row of the box; inverted bounds give none. */
  lemma {:induction false} GridSize(fromX: int, toX: int, llY: int, urY: int, z: int)
    ensures |GridTiles(fromX, toX, llY, urY, z)|
            == if fromX <= toX && urY <= llY then (toX - fromX + 1) * (llY - urY + 1) else 0
    decreases toX - fromX
  {
    if fromX <= toX {
      GridSize(fromX, toX - 1, llY, urY, z);
      ColumnSize(toX, llY, urY, z);
      if urY <= llY {
        assert (toX - fromX + 1) * (llY - urY + 1) == (toX - fromX) * (llY - urY + 1) + (llY - urY + 1);
      }
    }
  }

  /** Every tile of the grid lies inside the box between the corners, at the grid's zoom. */
  lemma {:induction false} GridInside(fromX: int, toX: int, llY: int, urY: int, z: int)
    ensures forall t :: t in GridTiles(fromX, toX, llY, urY, z) ==>
      fromX <= t.x <= toX && urY <= t.y <= llY && t.z == z
    decreases toX - fromX
  {
    if fromX <= toX {
      GridInside(fromX, toX - 1, llY, urY, z);
      ColumnShape(toX, llY, urY, z);
      var west := GridTiles(fromX, toX - 1, llY, urY, z);
      var east := ColumnTiles(toX, llY, urY, z);
      assert GridTiles(fromX, toX, llY, urY, z) == west + east;
      forall t: Tile | t in west + east
        ensures fromX <= t.x <= toX && urY <= t.y <= llY && t.z == z
      {
        if t !in west {
          assert t in east;
        }
      }
    }
  }

  /** Every tile of the box between the corners is in the grid. */
  lemma {:induction false} GridCoverage(fromX: int, toX: int, llY: int, urY: int, z: int)
    ensures forall x, y :: fromX <= x <= toX && urY <= y <= llY ==> Tile(x, y, z) in GridTiles(fromX, toX, llY, urY, z)
    decreases toX - fromX
  {
    if fromX <= toX {
      GridCoverage(fromX, toX - 1, llY, urY, z);
      ColumnShape(toX, llY, urY, z);
      var west := GridTiles(fromX, toX - 1, llY, urY, z);
      var east := ColumnTiles(toX, llY, urY, z);
      assert GridTiles(fromX, toX, llY, urY, z) == west + east;
      forall x, y | fromX <= x <= toX && urY <= y <= llY
        ensures Tile(x, y, z) in west + east
      {
        if x < toX {
          assert Tile(x, y, z) in west;
        } else {
          assert Tile(x, y, z) in east;
        }
      }
    }
  }

  /** The grid's tiles come in the loops' order: columns west to east, each
      from south to north. */
  lemma {:induction false} GridOrdered(fromX: int, toX: int, llY: int, urY: int, z: int)
    ensures Ordered(GridTiles(fromX, toX, llY, urY, z))
    decreases toX - fromX
  {
    if fromX <= toX {
      GridOrdered(fromX, toX - 1, llY, urY, z);
      GridInside(fromX, toX - 1, llY, urY, z);
      ColumnShape(toX, llY, urY, z);
      var west := GridTiles(fromX, toX - 1, llY, urY, z);
      var east := ColumnTiles(toX, llY, urY, z);
      assert GridTiles(fromX, toX, llY, urY, z) == west + east;
      OrderedConcat(west, east);
    }
  }

  /** The grid covers the box between the corners exactly, nothing outside
      it and every tile inside it, in the loops' order. */
  lemma GridShape(fromX: int, toX: int, llY: int, urY: int, z: int)
    ensures forall t :: t in GridTiles(fromX, toX, llY, urY, z) ==>
      fromX <= t.x <= toX && urY <= t.y <= llY && t.z == z
    ensures forall x, y :: fromX <= x <= toX && urY <= y <= llY ==> Tile(x, y, z) in GridTiles(fromX, toX, llY, urY, z)
    ensures Ordered(GridTiles(fromX, toX, llY, urY, z))
  {
    GridInside(fromX, toX, llY, urY, z);
    GridCoverage(fromX, toX, llY, urY, z);
    GridOrdered(fromX, toX, llY, urY, z);
  }

  /** Two ordered runs, the first entirely before the second, make an ordered run. */
  lemma OrderedConcat(west: seq<Tile>, east: seq<Tile>)
    requires Ordered(west) && Ordered(east)
    requires forall s, t :: s in west && t in east ==> s.x < t.x
    ensures Ordered(west + east)
  {
    var all := west + east;
    forall i, j | 0 <= i < j < |all|
      ensures Before(all[i], all[j])
    {
      if j < |west| {
        assert all[i] == west[i] && all[j] == west[j];
      } else if i >= |west| {
        assert all[i] == east[i - |west|] && all[j] == east[j - |west|];
      } else {
        assert all[i] in west && all[j] in east;
      }
    }
  }

  /** In an ordered run no (x, y) pair appears twice. */
  lemma OrderedDistinct(tiles: seq<Tile>, i: nat, j: nat)
    requires Ordered(tiles)
    requires i < |tiles| && j < |tiles| && i != j
    ensures (tiles[i].x, tiles[i].y) != (tiles[j].x, tiles[j].y)
  {
    if i < j {
      assert Before(tiles[i], tiles[j]);
    } else {
      assert Before(tiles[j], tiles[i]);
    }
  }

  /** The tiles of the grid for these corners, at the raised zoom. */
  function GridTilesFor(zoom: int, ll: Corner, ur: Corner): seq<Tile>
  {
    GridTiles(ll.x, ur.x, ll.y, ur.y, zoom + ZoomOffset)
  }

  /** The square built for tile `t` as the `id`-th of the grid; the quadkey
      and the polygon come from the tile library. */
  function NewCell<G>(id: nat, t: Tile, quadkeyOf: Tile -> string, geometryOf: Tile -> G): Cell<G>
  {
    Cell(quadkeyOf(t), id, TileString(t), geometryOf(t), None)
  }

  /** The `k`-th square was built for the `k`-th tile and numbered `k`. */
  ghost predicate Numbered<G>(cells: seq<Cell<G>>, tiles: seq<Tile>, quadkeyOf: Tile -> string, geometryOf: Tile -> G)
  {
    && |cells| == |tiles|
    && forall k :: 0 <= k < |cells| ==> cells[k] == NewCell(k, tiles[k], quadkeyOf, geometryOf)
  }

  /** `cells` is the grid for these corners: one square per tile, numbered by position. */
  ghost predicate IsGrid<G>(cells: seq<Cell<G>>, zoom: int, ll: Corner, ur: Corner,
                            quadkeyOf: Tile -> string, geometryOf: Tile -> G)
  {
    Numbered(cells, GridTilesFor(zoom, ll, ur), quadkeyOf, geometryOf)
  }

  /** Appending the square of the next tile keeps a numbered grid numbered. */
  lemma NumberedSnoc<G>(cells: seq<Cell<G>>, tiles: seq<Tile>, t: Tile, quadkeyOf: Tile -> string, geometryOf: Tile -> G)
    requires Numbered(cells, tiles, quadkeyOf, geometryOf)
    ensures Numbered(cells + [NewCell(|cells|, t, quadkeyOf, geometryOf)], tiles + [t], quadkeyOf, geometryOf)
  {
    var c, ts := cells + [NewCell(|cells|, t, quadkeyOf, geometryOf)], tiles + [t];
    forall k | 0 <= k < |c|
      ensures c[k] == NewCell(k, ts[k], quadkeyOf, geometryOf)
    {
      if k < |cells| {
        assert c[k] == cells[k] && ts[k] == tiles[k];
      }
    }
  }

  /** The inner loop of `computeGrid`: appends one square per tile of column
      `x`, from row `fromY` down to row `toY`, numbering each by its position. */
  method AppendColumn<G>(boxes: seq<Cell<G>>, ghost emitted: seq<Tile>, x: int, fromY: int, toY: int, z: int,
                         quadkeyOf: Tile -> string, geometryOf: Tile -> G)
    returns (out: seq<Cell<G>>)
    requires Numbered(boxes, emitted, quadkeyOf, geometryOf)
    ensures Numbered(out, emitted + ColumnTiles(x, fromY, toY, z), quadkeyOf, geometryOf)
  {
    out := boxes;
    var y := fromY;
    while y >= toY
      invariant y <= fromY && (toY - 1 <= y || y == fromY)
      invariant Numbered(out, emitted + ColumnTiles(x, fromY, y + 1, z), quadkeyOf, geometryOf)
    {
      var tile := Tile(x, y, z);
      ghost var done := emitted + ColumnTiles(x, fromY, y + 1, z);
      assert emitted + ColumnTiles(x, fromY, y, z) == done + [tile];
      NumberedSnoc(out, done, tile, quadkeyOf, geometryOf);
      out := out + [Cell(quadkeyOf(tile), |out|, TileString(tile), geometryOf(tile), None)];
      y := y - 1;
    }
    assert ColumnTiles(x, fromY, y + 1, z) == ColumnTiles(x, fromY, toY, z);
  }

  /** `computeGrid`: the zoom is raised by `ZoomOffset`, then every tile from
      the lower-left to the upper-right corner gets one square, `x` ascending
      in the outer loop and `y` descending in the inner loop, each square
      numbered by its position. The corners are passed in rather than
      computed, as are the tile library's quadkey and polygon functions. */
  method ComputeGrid<G>(zoom: int, ll: Corner, ur: Corner, quadkeyOf: Tile -> string, geometryOf: Tile -> G)
    returns (boxes: seq<Cell<G>>)
    ensures IsGrid(boxes, zoom, ll, ur, quadkeyOf, geometryOf)
    ensures ll.x <= ur.x && ur.y <= ll.y ==> |boxes| == (ur.x - ll.x + 1) * (ll.y - ur.y + 1)
    ensures !(ll.x <= ur.x && ur.y <= ll.y) ==> boxes == []
    ensures forall k :: 0 <= k < |boxes| ==> boxes[k].id == k && boxes[k].count == None
  {
    var z := zoom + ZoomOffset;
    boxes := [];
    var x := ll.x;
    while x <= ur.x
      invariant ll.x <= x && (x <= ur.x + 1 || x == ll.x)
      invariant Numbered(boxes, GridTiles(ll.x, x - 1, ll.y, ur.y, z), quadkeyOf, geometryOf)
    {
      boxes := AppendColumn(boxes, GridTiles(ll.x, x - 1, ll.y, ur.y, z), x, ll.y, ur.y, z, quadkeyOf, geometryOf);
      assert GridTiles(ll.x, x, ll.y, ur.y, z) == GridTiles(ll.x, x - 1, ll.y, ur.y, z) + ColumnTiles(x, ll.y, ur.y, z);
      x := x + 1;
    }
    assert GridTiles(ll.x, x - 1, ll.y, ur.y, z) == GridTilesFor(zoom, ll, ur);
    GridSize(ll.x, ur.x, ll.y, ur.y, z);
  }

  // ---------------------------------------------------------------------------
  // Shape of the grid.

  /** Every square's tile is at the raised zoom and inside the box spanned by the corners. */
  lemma GridInBox<G>(cells: seq<Cell<G>>, zoom: int, ll: Corner, ur: Corner,
                     quadkeyOf: Tile -> string, geometryOf: Tile -> G, k: nat)
    requires IsGrid(cells, zoom, ll, ur, quadkeyOf, geometryOf)
    requires k < |cells|
    ensures var t := GridTilesFor(zoom, ll, ur)[k];
            && cells[k].tile == TileString(t)
            && t.z == zoom + 2 && ll.x <= t.x <= ur.x && ur.y <= t.y <= ll.y
  {
    var tiles := GridTilesFor(zoom, ll, ur);
    GridShape(ll.x, ur.x, ll.y, ur.y, zoom + ZoomOffset);
    assert tiles[k] in tiles;
  }

  /** Every tile of the box between the corners has a square, carrying that
      tile's quadkey, label and polygon: the grid leaves no gap. */
  lemma {:induction false} GridCovers<G>(cells: seq<Cell<G>>, zoom: int, ll: Corner, ur: Corner,
                      quadkeyOf: Tile -> string, geometryOf: Tile -> G, x: int, y: int) returns (k: nat)
    requires IsGrid(cells, zoom, ll, ur, quadkeyOf, geometryOf)
    requires ll.x <= x <= ur.x && ur.y <= y <= ll.y
    ensures k < |cells| && cells[k] == NewCell(k, Tile(x, y, zoom + 2), quadkeyOf, geometryOf)
  {
    var tiles := GridTilesFor(zoom, ll, ur);
    GridShape(ll.x, ur.x, ll.y, ur.y, zoom + ZoomOffset);
    assert Tile(x, y, zoom + 2) in tiles;
    k :| 0 <= k < |tiles| && tiles[k] == Tile(x, y, zoom + 2);
  }

  /** Emission order: a later square lies in a column further east, or in
      the same column further north. */
  lemma GridOrder<G>(cells: seq<Cell<G>>, zoom: int, ll: Corner, ur: Corner,
                     quadkeyOf: Tile -> string, geometryOf: Tile -> G, i: nat, j: nat)
    requires IsGrid(cells, zoom, ll, ur, quadkeyOf, geometryOf)
    requires i < j < |cells|
    ensures var a, b := GridTilesFor(zoom, ll, ur)[i], GridTilesFor(zoom, ll, ur)[j];
            && cells[i].tile == TileString(a) && cells[j].tile == TileString(b)
            && (a.x < b.x || (a.x == b.x && a.y > b.y))
  {
    GridShape(ll.x, ur.x, ll.y, ur.y, zoom + ZoomOffset);
    assert Before(GridTilesFor(zoom, ll, ur)[i], GridTilesFor(zoom, ll, ur)[j]);
  }

  /** No (x, y) pair appears twice in a grid, so its "x/y/z" labels are pairwise distinct. */
  lemma GridLabelsDistinct<G>(cells: seq<Cell<G>>, zoom: int, ll: Corner, ur: Corner,
                              quadkeyOf: Tile -> string, geometryOf: Tile -> G, i: nat, j: nat)
    requires IsGrid(cells, zoom, ll, ur, quadkeyOf, geometryOf)
    requires i < |cells| && j < |cells| && i != j
    ensures cells[i].tile != cells[j].tile
  {
    var tiles := GridTilesFor(zoom, ll, ur);
    GridShape(ll.x, ur.x, ll.y, ur.y, zoom + ZoomOffset);
    OrderedDistinct(tiles, i, j);
    if cells[i].tile == cells[j].tile {
      TileStringInjective(tiles[i], tiles[j]);
    }
  }

  /** With a quadkey encoding that tells the tiles of the grid apart, the
      quadkeys of a grid are pairwise distinct. */
  lemma GridQuadkeysDistinct<G>(cells: seq<Cell<G>>, zoom: int, ll: Corner, ur: Corner,
                                quadkeyOf: Tile -> string, geometryOf: Tile -> G, i: nat, j: nat)
    requires IsGrid(cells, zoom, ll, ur, quadkeyOf, geometryOf)
    requires forall s, t ::
               s in GridTilesFor(zoom, ll, ur) && t in GridTilesFor(zoom, ll, ur) && quadkeyOf(s) == quadkeyOf(t)
               ==> s == t
    requires i < |cells| && j < |cells| && i != j
    ensures cells[i].quadKey != cells[j].quadKey
  {
    var tiles := GridTilesFor(zoom, ll, ur);
    GridShape(ll.x, ur.x, ll.y, ur.y, zoom + ZoomOffset);
    OrderedDistinct(tiles, i, j);
    assert tiles[i] in tiles && tiles[j] in tiles;
  }
}
