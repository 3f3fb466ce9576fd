/** One refresh of the grid (`updateGrid` in app/assets/scripts/components/map.js):
    compute the grid, count each square's footprints, then pick each
    square's CSS classes. */
module MapUpdate {
  import opened Values
  import opened Tiles
  import opened Grid
  import opened Footprints
  import opened Density

  /** The count of one square: its candidates come from the store's spatial
      index, asked with the square as the grid computed it. */
  function CountOf<G, P>(cell: Cell<G>, lookup: Cell<G> -> seq<Footprint<G>>, f: FilterParams, cutoff: int,
                         ops: GeoOps<G, P>): nat
  {
    SquareCount(f, cutoff, ops, cell.geometry, lookup(cell))
  }

  /** The counting pass: every square gets its count and nothing else about it
      changes; each count is at most the number of candidates and depends on
      that square alone. */
  function Aggregate<G, P>(cells: seq<Cell<G>>, lookup: Cell<G> -> seq<Footprint<G>>, f: FilterParams,
                           cutoff: int, ops: GeoOps<G, P>): (counted: seq<Cell<G>>)
    ensures |counted| == |cells|
    ensures forall k :: 0 <= k < |cells| ==> counted[k] == cells[k].(count := counted[k].count)
    ensures forall k :: 0 <= k < |cells| ==> counted[k].count == Some(CountOf(cells[k], lookup, f, cutoff, ops))
    ensures forall k :: 0 <= k < |cells| ==> counted[k].count.value <= |lookup(cells[k])|
    decreases |cells|
  {
    if |cells| == 0 then []
    else
      SquareCountIsSurvivors(f, cutoff, ops, cells[0].geometry, lookup(cells[0]));
      [cells[0].(count := Some(CountOf(cells[0], lookup, f, cutoff, ops)))]
      + Aggregate(cells[1..], lookup, f, cutoff, ops)
  }

  /** The whole refresh. The grid is the one `ComputeGrid` emits with every
      square counted, and each square is drawn with the classes its count
      and the selection give it. */
  method UpdateGrid<G, P>(zoom: int, ll: Corner, ur: Corner, quadkeyOf: Tile -> string, geometryOf: Tile -> G,
                          lookup: Cell<G> -> seq<Footprint<G>>, f: FilterParams, cutoff: int,
                          ops: GeoOps<G, P>, selected: Option<string>)
    returns (grid: seq<Cell<G>>, classes: seq<seq<string>>)
    ensures |classes| == |grid|
    ensures IsGrid(seq(|grid|, k requires 0 <= k < |grid| => grid[k].(count := None)), zoom, ll, ur, quadkeyOf, geometryOf)
    ensures forall k :: 0 <= k < |grid| ==>
      grid[k].count == Some(CountOf(grid[k].(count := None), lookup, f, cutoff, ops))
    ensures forall k :: 0 <= k < |grid| ==> grid[k].count.value <= |lookup(grid[k].(count := None))|
    ensures forall k :: 0 <= k < |grid| ==> classes[k] == ClassList(selected, grid[k].count.value)
    ensures Truthy(selected) ==> forall k :: 0 <= k < |classes| ==> classes[k] == ["gs", "gs-inactive"]
  {
    var cells := ComputeGrid(zoom, ll, ur, quadkeyOf, geometryOf);
    grid := Aggregate(cells, lookup, f, cutoff, ops);
    assert seq(|grid|, k requires 0 <= k < |grid| => grid[k].(count := None)) == cells;
    classes := seq(|grid|, k requires 0 <= k < |grid| => ClassList(selected, grid[k].count.value));
  }

  /** Squares are counted independently: a square gets the same count in any
      grid it appears in, whatever the other squares are. */
  lemma CountsIndependentOfNeighbours<G, P>(a: seq<Cell<G>>, b: seq<Cell<G>>, i: nat, j: nat,
                                            lookup: Cell<G> -> seq<Footprint<G>>, f: FilterParams,
                                            cutoff: int, ops: GeoOps<G, P>)
    requires i < |a| && j < |b| && a[i] == b[j]
    ensures Aggregate(a, lookup, f, cutoff, ops)[i].count == Aggregate(b, lookup, f, cutoff, ops)[j].count
  {
  }
}
