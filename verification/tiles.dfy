/** Slippy-map tiles and the "x/y/z" label a grid square carries. */
module Tiles {
  import opened Values
  import opened Text

  /** A tile of the standard map-tile pyramid: column `x`, row `y` (growing
      southward) at zoom level `z`. */
  datatype Tile = Tile(x: int, y: int, z: int)

  /** `[x, y, z].join('/')`: the label of a tile. */
  function TileString(t: Tile): string
  {
    IntToDecimal(t.x) + "/" + IntToDecimal(t.y) + "/" + IntToDecimal(t.z)
  }

  /** Reads a tile back from its label; None when the label has not three parts. */
  function ParseTileString(s: string): Option<Tile>
  {
    var parts := Split(s, '/');
    if |parts| == 3 then Some(Tile(DecimalToInt(parts[0]), DecimalToInt(parts[1]), DecimalToInt(parts[2])))
    else None
  }

  /** The label of a tile determines the tile. */
  lemma TileStringRoundTrip(t: Tile)
    ensures ParseTileString(TileString(t)) == Some(t)
  {
    var parts := [IntToDecimal(t.x), IntToDecimal(t.y), IntToDecimal(t.z)];
    JoinThree(IntToDecimal(t.x), IntToDecimal(t.y), IntToDecimal(t.z), '/');
    SplitJoin(parts, '/');
    IntDecimalRoundTrip(t.x);
    IntDecimalRoundTrip(t.y);
    IntDecimalRoundTrip(t.z);
  }

  /** Distinct tiles carry distinct labels. */
  lemma TileStringInjective(a: Tile, b: Tile)
    requires TileString(a) == TileString(b)
    ensures a == b
  {
    TileStringRoundTrip(a);
    TileStringRoundTrip(b);
  }
}
