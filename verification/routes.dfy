/** The route paths the map reads and writes: `stringToMapView`, the path
    built in `onMapMoveend` and the navigation chosen by `onGridSqrClick`
    (app/assets/scripts/components/map.js). */
module Routes {
  import opened Values
  import opened Text

  /** A map view read from the path. The fields stay strings, as the source
      does not convert them; a missing field is `undefined` (None). */
  datatype MapView = MapView(lng: Option<string>, lat: Option<string>, zoom: Option<string>)

  /** `data[i]`: the `i`-th piece, undefined past the end. */
  function Token(parts: seq<string>, i: nat): Option<string>
  {
    if i < |parts| then Some(parts[i]) else None
  }

  /** `stringToMapView`: the first three comma-separated pieces are
      longitude, latitude and zoom. The longitude is always present; the
      latitude needs one comma and the zoom two; no piece contains a comma. */
  function StringToMapView(s: string): (v: MapView)
    ensures v.lng.Some?
    ensures v.lat.Some? <==> Occurrences(s, ',') >= 1
    ensures v.zoom.Some? <==> Occurrences(s, ',') >= 2
    ensures ',' !in v.lng.value
    ensures v.lat.Some? ==> ',' !in v.lat.value
    ensures v.zoom.Some? ==> ',' !in v.zoom.value
  {
    var data := Split(s, ',');
    MapView(Token(data, 0), Token(data, 1), Token(data, 2))
  }

  /** Joining comma-free pieces with commas and reading the view back gives
      the first three pieces, each absent past the last piece; any further
      pieces are ignored. */
  lemma {:induction false} MapViewOfJoin(parts: seq<string>)
    requires |parts| >= 1
    requires forall i :: 0 <= i < |parts| ==> ',' !in parts[i]
    ensures StringToMapView(Join(parts, ',')) == MapView(Some(parts[0]), Token(parts, 1), Token(parts, 2))
  {
    SplitJoin(parts, ',');
  }

  /** Round trip: "lng,lat,zoom" of comma-free fields reads back as those fields. */
  lemma MapViewRoundTrip(lng: string, lat: string, zoom: string)
    requires ',' !in lng && ',' !in lat && ',' !in zoom
    ensures StringToMapView(lng + "," + lat + "," + zoom) == MapView(Some(lng), Some(lat), Some(zoom))
  {
    var parts := [lng, lat, zoom];
    JoinThree(lng, lat, zoom, ',');
    MapViewOfJoin(parts);
  }

  // ---------------------------------------------------------------------------
  // The path written when the map stops moving.

  /** `onMapMoveend`: the view string, then `/quadkey` when a square is
      selected, then `/itemId` when an item is selected. */
  function MoveendPath(view: string, quadkey: Option<string>, itemId: Option<string>): string
  {
    var path := view;
    var path := if Truthy(quadkey) then path + "/" + quadkey.value else path;
    if Truthy(itemId) then path + "/" + itemId.value else path
  }

  /** The pieces an optional path segment contributes. */
  function Present(o: Option<string>): seq<string>
  {
    if Truthy(o) then [o.value] else []
  }

  /** With slash-free parts, the moveend path splits into the view, then the
      selected quadkey if any, then the selected item if any, in that order. */
  lemma MoveendPathSegments(view: string, quadkey: Option<string>, itemId: Option<string>)
    requires '/' !in view
    requires quadkey.Some? ==> '/' !in quadkey.value
    requires itemId.Some? ==> '/' !in itemId.value
    ensures Split(MoveendPath(view, quadkey, itemId), '/') == [view] + Present(quadkey) + Present(itemId)
  {
    var parts := [view] + Present(quadkey) + Present(itemId);
    assert forall i :: 0 <= i < |parts| ==> '/' !in parts[i];
    var path := MoveendPath(view, quadkey, itemId);
    if |parts| == 1 {
    } else if |parts| == 2 {
      assert parts[1..] == [parts[1]];
      assert Join(parts, '/') == path;
    } else {
      JoinThree(parts[0], parts[1], parts[2], '/');
      assert Join(parts, '/') == path;
    }
    SplitJoin(parts, '/');
  }

  /** An item selected without a square gives the same path as that item id
      selected as a square: the path alone cannot tell the two apart. */
  lemma MoveendItemWithoutSquare(view: string, id: string)
    ensures MoveendPath(view, None, Some(id)) == MoveendPath(view, Some(id), None)
  {
  }

  // ---------------------------------------------------------------------------
  // Clicking a grid square.

  /** Where a click sends the router: a new pathname, or nowhere. */
  datatype Navigation = Push(pathname: string) | Stay

  /** `onGridSqrClick`: with a square selected, go back to the bare view;
      with none selected and footprints in the clicked square, select it under
      the view centred on it; otherwise do nothing. `squareView` is the view
      string of the clicked square's centre. */
  function GridClick(selected: Option<string>, mapView: string, count: nat, quadKey: string, squareView: string)
    : (nav: Navigation)
    ensures Truthy(selected) ==> nav == Push("/" + mapView)
    ensures !Truthy(selected) && count != 0 ==> nav == Push("/" + squareView + "/" + quadKey)
    ensures nav == Stay <==> (!Truthy(selected) && count == 0)
  {
    if Truthy(selected) then Push("/" + mapView)
    else if count != 0 then Push("/" + squareView + "/" + quadKey)
    else Stay
  }

  /** Selecting a square writes the same path the map writes once it has moved
      there with that square selected, behind a leading slash. */
  lemma ClickSelectsAsMoveend(mapView: string, count: nat, quadKey: string, squareView: string)
    requires count != 0 && quadKey != ""
    ensures GridClick(None, mapView, count, quadKey, squareView) == Push("/" + MoveendPath(squareView, Some(quadKey), None))
  {
    assert "/" + squareView + "/" + quadKey == "/" + (squareView + "/" + quadKey);
  }

  /** With slash-free parts, the path of a selecting click splits into an
      empty root, the view and the quadkey; that of an unselecting click into
      an empty root and the view. */
  lemma ClickPathSegments(selected: Option<string>, mapView: string, count: nat, quadKey: string, squareView: string)
    requires '/' !in mapView && '/' !in quadKey && '/' !in squareView
    ensures Truthy(selected) ==>
      Split(GridClick(selected, mapView, count, quadKey, squareView).pathname, '/') == ["", mapView]
    ensures !Truthy(selected) && count != 0 ==>
      Split(GridClick(selected, mapView, count, quadKey, squareView).pathname, '/') == ["", squareView, quadKey]
  {
    if Truthy(selected) {
      var parts := ["", mapView];
      assert Join(parts, '/') == "/" + mapView;
      SplitJoin(parts, '/');
    } else if count != 0 {
      var parts := ["", squareView, quadKey];
      JoinThree("", squareView, quadKey, '/');
      assert "" + "/" + squareView + "/" + quadKey == "/" + squareView + "/" + quadKey;
      SplitJoin(parts, '/');
    }
  }
}
