# Density grid of the OpenAerialMap browser map, in Dafny

This project models the computations inside the browser's map component
(`app/assets/scripts/components/map.js`). The component lays a grid of
squares over the visible map and counts, for each square, the imagery
footprints that survive the user's filters. It colours each square by that
count and keeps the map view and the selected square in the route path.

The modules follow the component's steps:

- `Values`: optional properties and JavaScript truthiness of strings.
- `Text`: `split` and `join` on a one-character separator, and the decimal
  printing of integers.
- `Seqs`: `filter` on sequences.
- `Tiles`: map tiles and their `x/y/z` labels.
- `Grid`: `computeGrid`, the enumeration of squares over the visible bounds.
- `Footprints`: the two-stage footprint filter and the per-square count.
- `Density`: the CSS classes a square gets from its count and the selection.
- `Routes`: `stringToMapView`, the path written on `moveend`, and the
  navigation chosen when a grid square is clicked.
- `MapUpdate`: one grid refresh, with the grid computed, then counted, then coloured.

The library calls are parameters of the model. These are the tile library's
`tileToQuadkey` and `tileToGeoJSON`, turf's `centroid`, `inside` and
`overlaps`, and the store's `getFootprintsInSquare`. The corner tiles that
`pointToTile` returns are inputs too. So are the date cutoff and the view
strings that the utility module's `getMapViewString` builds.

Facts about the code that the model keeps:

- The grid is two zoom levels finer than the map (`zoom += 2` at map.js:451),
  so each map tile holds 16 squares. The comment at map.js:448-450 speaks of
  three levels and 64 squares, and the model follows the code.
- A footprint whose `gsd` is undefined, or whose `acquisition_end` is undefined
  or not a date, passes the resolution and date tests. Every JavaScript
  comparison with such a value is false, so those tests keep it
  (map.js:303-315, 332). The data-type test (map.js:295) can still reject it. Null values behave
  differently: a null `gsd` compares as 0 and a null `acquisition_end` is the
  epoch, so the model represents them as `Some(0.0)` and `Some(0)`.
- `stringToMapView` does not fail on a string with fewer than three fields.
  The missing fields are simply `undefined`, and the fields stay strings.
- Squares are emitted column by column: `x` ascends in the outer loop, and
  within a column `y` descends.
- Inverted bounds give an empty grid, and no wrapping happens. When the
  lower-left tile lies east of the upper-right one (`ll.x > ur.x`, as across
  the antimeridian), the outer loop at map.js:456 never runs. When it lies
  north of it (`ll.y < ur.y`), every run of the inner loop at map.js:457 emits
  nothing.

## Model

| member | source | states |
|---|---|---|
| Grid.ComputeGrid | app/assets/scripts/components/map.js:446-476 | The outer loop emits exactly the reference grid: one square per tile of the box, numbered by position, count unset. Well-ordered bounds give (ur.x-ll.x+1)*(ll.y-ur.y+1) squares, and inverted ones give none. |
| Grid.AppendColumn | app/assets/scripts/components/map.js:457-469 | The inner loop appends one square per row of the column, from the lower-left row down to the upper-right one, and numbers each square by its position in the grid. |
| Grid.ColumnSize | app/assets/scripts/components/map.js:457 | A column has ll.y-ur.y+1 tiles, or none when ur.y > ll.y. |
| Grid.ColumnShape | app/assets/scripts/components/map.js:457-458 | A column's tiles are in its x and between its rows, every row appears, and y descends. |
| Grid.GridSize | app/assets/scripts/components/map.js:456-457 | The loops emit (ur.x-ll.x+1)*(ll.y-ur.y+1) tiles, or none for inverted bounds. |
| Grid.GridInside | app/assets/scripts/components/map.js:456-458 | Every emitted tile lies in [ll.x, ur.x] x [ur.y, ll.y] at the grid zoom. |
| Grid.GridCoverage | app/assets/scripts/components/map.js:456-458 | Every tile of [ll.x, ur.x] x [ur.y, ll.y] at the grid zoom is emitted. |
| Grid.GridOrdered | app/assets/scripts/components/map.js:456-458 | The tiles come with x ascending and, within a column, y descending. |
| Grid.GridShape | app/assets/scripts/components/map.js:456-458 | The emitted tiles are exactly the tiles of [ll.x, ur.x] x [ur.y, ll.y] at the grid zoom, in the loops' order. |
| Grid.OrderedDistinct | app/assets/scripts/components/map.js:456-458 | In the loops' order no (x, y) pair can appear twice. |
| Grid.GridInBox | app/assets/scripts/components/map.js:451-464 | Every square's label is that of a tile at zoom+2 inside [ll.x, ur.x] x [ur.y, ll.y]. |
| Grid.GridCovers | app/assets/scripts/components/map.js:451-469 | Every tile of the box at zoom+2 has a square carrying that tile's quadkey, label and polygon, so the grid has no gaps. |
| Grid.GridOrder | app/assets/scripts/components/map.js:456-464 | A later square has a larger x, or the same x and a smaller y. |
| Grid.GridLabelsDistinct | app/assets/scripts/components/map.js:456-464 | The `tile` labels of a grid are pairwise distinct. |
| Grid.GridQuadkeysDistinct | app/assets/scripts/components/map.js:456-462 | If the quadkey encoding tells the grid's own tiles apart, the squares' quadkeys are pairwise distinct. |
| Tiles.TileString | app/assets/scripts/components/map.js:458-464 | The `tile.join('/')` label. Its contract is carried by Tiles.TileStringRoundTrip and Tiles.TileStringInjective. |
| Text.IntToDecimal | app/assets/scripts/components/map.js:464 | The printing of each number in the label is never empty and contains neither '/' nor ','. Text.IntDecimalRoundTrip proves it reads back as the same integer. |
| Text.IntDecimalRoundTrip | app/assets/scripts/components/map.js:464 | Reading back a printed integer gives that integer. |
| Tiles.TileStringRoundTrip | app/assets/scripts/components/map.js:464 | The `x/y/z` label parses back to its tile. |
| Tiles.TileStringInjective | app/assets/scripts/components/map.js:464 | Distinct tiles have distinct labels. |
| Text.Split | app/assets/scripts/components/map.js:498 | `split` yields one more piece than there are separators, and no piece contains the separator. |
| Text.JoinSplit | app/assets/scripts/components/map.js:498 | Joining the pieces of a split gives back the string. |
| Text.SplitJoin | app/assets/scripts/components/map.js:498 | Splitting the join of separator-free pieces gives back the pieces. |
| Seqs.Keep | app/assets/scripts/components/map.js:290-346 | `filter` keeps no more elements than it is given, and it keeps exactly those elements that satisfy the predicate. |
| Seqs.KeepFusion | app/assets/scripts/components/map.js:290-345 | The attribute filter followed by the geometric filter keeps what one filter on their conjunction keeps. |
| Seqs.KeepCountsPositions | app/assets/scripts/components/map.js:346 | A filter's result is as long as the set of positions whose element passes. |
| Footprints.DataTypePass | app/assets/scripts/components/map.js:295-297 | 'all' keeps every footprint, and a truthy tms is always kept. Footprints.DataTypeValueIrrelevant proves the converse for other values. |
| Footprints.DatePass | app/assets/scripts/components/map.js:322-335 | 'all' keeps every footprint, and so does a missing date or one at or after the cutoff. Footprints.DateRejectsBeforeCutoff proves the converse, and Footprints.LaterCutoffCountsFewer states the monotonicity in the cutoff. |
| Footprints.AttributePass | app/assets/scripts/components/map.js:290-338 | With every setting at 'all' every footprint passes. A passing footprint has a truthy tms unless the data type is 'all', lies in the resolution band when it has a gsd, and is not before the cutoff when a date is set. |
| Footprints.SpatialPass | app/assets/scripts/components/map.js:341-345 | The geometric test. Its partner is Footprints.FarFootprintsDoNotCount. |
| Footprints.SquareCount | app/assets/scripts/components/map.js:288-346 | The count never exceeds the number of candidates. Footprints.SquareCountIsSurvivors characterises it exactly. |
| Footprints.FarFootprintsDoNotCount | app/assets/scripts/components/map.js:288-346 | Candidates from the spatial index that fail the geometric test never change a square's count, wherever they sit among the other candidates and whatever their properties. |
| Footprints.SquareCountSnoc | app/assets/scripts/components/map.js:288-346 | One more candidate raises the count by one exactly when it passes both stages, and otherwise leaves it unchanged. |
| Footprints.LaterCutoffCountsFewer | app/assets/scripts/components/map.js:322-335 | A later date cutoff never gives a larger count. |
| Footprints.ResolutionPass | app/assets/scripts/components/map.js:300-319 | 'low' keeps exactly gsd >= 5, 'medium' exactly 1 <= gsd < 5, and 'high' exactly gsd < 1. Any other value keeps everything, and a footprint without a gsd is always kept. |
| Footprints.BandsPartition | app/assets/scripts/components/map.js:300-319 | The three resolution bands are pairwise disjoint and together cover every gsd. |
| Footprints.DataTypeValueIrrelevant | app/assets/scripts/components/map.js:295-297 | Any data type other than 'all' keeps exactly the footprints with a truthy tms, whatever the value. |
| Footprints.DateRejectsBeforeCutoff | app/assets/scripts/components/map.js:322-335 | Any date other than 'all' rejects exactly the footprints acquired before the cutoff. |
| Footprints.SquareCountIsSurvivors | app/assets/scripts/components/map.js:288-346 | The count is the number of candidates passing both stages, so at most the number of candidates. |
| Footprints.TighterFilterCountsFewer | app/assets/scripts/components/map.js:290-346 | Filter settings that admit fewer footprints never give a larger count. |
| Footprints.ResolutionNarrowingCountsFewer | app/assets/scripts/components/map.js:300-319 | Changing the resolution from 'all' to any band never increases a square's count. |
| Footprints.DataTypeAndDateNarrowingCountsFewer | app/assets/scripts/components/map.js:295-335 | Changing the data type or the date from 'all' to anything else never increases a square's count. |
| Footprints.SingleHighResolutionFootprint | app/assets/scripts/components/map.js:300-346 | A footprint with gsd 0.5 that meets the square counts 1 under 'high' and 0 under 'low'. |
| Density.Classify | app/assets/scripts/components/map.js:357-368 | With a selected square every square is inactive. Otherwise counts of 10 or more are high, 5..9 medium, 1..4 low, and 0 gets no density class. |
| Density.ClassList | app/assets/scripts/components/map.js:353-371 | The classes are 'gs' plus at most one more. A selection gives exactly 'gs gs-inactive', and only a zero count with no selection adds nothing. |
| Density.ClassifyMonotone | app/assets/scripts/components/map.js:361-367 | With no selection, a larger count never gives a lower density class. |
| Density.ClassNamesDistinct | app/assets/scripts/components/map.js:358-366 | Different density classes get different CSS classes. |
| Routes.StringToMapView | app/assets/scripts/components/map.js:497-504 | lng is always present, lat only with at least one comma, and zoom only with at least two. Missing tokens are absent, and no token contains a comma. |
| Routes.MapViewOfJoin | app/assets/scripts/components/map.js:497-504 | Parsing one or more comma-joined comma-free tokens gives token 0 as lng, and tokens 1 and 2 as lat and zoom, each absent when there is no such token. Any further tokens are ignored. |
| Routes.MapViewRoundTrip | app/assets/scripts/components/map.js:497-504 | For comma-free a, b, c, parsing "a,b,c" gives exactly (a, b, c). |
| Routes.MoveendPath | app/assets/scripts/components/map.js:177-183 | The path written on moveend. Its contract is carried by Routes.MoveendPathSegments and Routes.ClickSelectsAsMoveend. |
| Routes.MoveendPathSegments | app/assets/scripts/components/map.js:177-183 | The moveend path is the view, then the selected quadkey if any, then the selected item if any, in that order. |
| Routes.MoveendItemWithoutSquare | app/assets/scripts/components/map.js:177-183 | An item selected with no square gives the same path as a square with that id, so the path cannot tell them apart. |
| Routes.GridClick | app/assets/scripts/components/map.js:212-224 | With a selection, the click goes to "/"+mapView whatever the count. With no selection and a non-zero count, it goes to "/"+view+"/"+quadKey. Otherwise it does nothing. |
| Routes.ClickSelectsAsMoveend | app/assets/scripts/components/map.js:216-223 | A selecting click writes "/" followed by the path the moveend handler builds for that view and square. |
| Routes.ClickPathSegments | app/assets/scripts/components/map.js:212-224 | A click path splits into an empty root and the view, plus the quadkey when selecting. |
| MapUpdate.Aggregate | app/assets/scripts/components/map.js:284-347 | Every square gets its count, and nothing else about it changes. The count is at most the number of candidates the index returned. |
| MapUpdate.UpdateGrid | app/assets/scripts/components/map.js:271-371 | A refresh yields the computed grid with every square counted. Each square's classes follow from its count and the selection, and with a selection all squares are inactive. |
| MapUpdate.CountsIndependentOfNeighbours | app/assets/scripts/components/map.js:284-347 | A square's count depends only on that square, never on the rest of the grid. |

## Left out

- React lifecycle and change-detection flags (map.js:67-81, 138-153). This is component plumbing.
- Leaflet and mapbox layers, DOM class mutation, popups and hover highlighting.
  These are UI. Only the class list the code would add is modelled.
- `hashHistory` navigation, geolocation, base-layer switching and the feedback
  modal. These are I/O and UI. Only the pathname strings are modelled, and the query object is left out.
- `pointToTile`, `tileToQuadkey`, `tileToGeoJSON`, turf `centroid`, `inside`
  and `overlaps`. These external libraries do floating-point geometry, so they
  are parameters with no properties assumed. `Grid.GridQuadkeysDistinct`
  takes as a hypothesis that the quadkey encoding tells the grid's tiles apart.
- `getFootprintsInSquare`. This is an external spatial index over mutable
  store state, so it is a function parameter that returns the candidate sequence.
- The `Date` arithmetic that computes the cutoff (now less a week, a month or
  a year). This is library calendar handling. The cutoff in milliseconds is a parameter.
- The clock read per footprint. The source calls `new Date()` inside the filter
  callback (map.js:323), once for each footprint of each square, so the cutoff
  can change while one refresh runs. The model fixes one cutoff for the whole
  refresh, and MapUpdate.CountsIndependentOfNeighbours holds only under that
  fixed clock. Footprints.LaterCutoffCountsFewer says a later cutoff never
  raises a count, so it bounds the clock's effect only while the cutoff does
  not decrease. That holds for 'week'. For 'month' and 'year' the cutoff can
  step back: `setMonth` and `setFullYear` (map.js:327, 329) roll an overflowing
  day forward. For example, on 31 March of a non-leap year "31 February"
  becomes 3 March, but on 1 April the cutoff is 1 March. A refresh that runs across such a midnight
  can count a footprint in later squares that it rejected in earlier ones.
- `Math.round` of a fractional zoom, and fractional zoom in general.
- `getMapViewString`, `coordsFromQuadkey` and `getPolygonFeature`. The utility
  module is not part of this model. Its view strings are parameters.
- `updateSelectedSquare` and `updateSelectedItemImageFootprint`. These only
  draw layers.
- Grid.ComputeGrid: the zoom is an integer. The source adds 2 to whatever
  number the map reports, and a fractional zoom would also show up in the `x/y/z` label.
- Footprints.SquareCountIsSurvivors: `gsd` is an exact real, not a
  double-precision number. It stands in for the JavaScript number only in the
  threshold tests. NaN and a missing value are both modelled as absent.
- Grid.GridQuadkeysDistinct: its hypothesis is that the quadkey encoding tells
  the grid's tiles apart. The tile library's encoding does so only for tiles with
  0 <= x, y < 2^z. Corners outside that range, which `pointToTile` can return
  for bounds past the map's edge, are not covered.
- Text.Split: this is `split` on a single character only, the one form the component uses.
