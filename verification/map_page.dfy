/** The map page (app/page.tsx): each click on the map appends the clicked
    coordinate to an in-memory list, and every point is drawn as a marker
    with no colour prop. */
module MapPage {
  import Values
  import Colors
  import Marker

  /** A placed point. */
  datatype Point = Point(latitude: real, longitude: real)

  /** The coordinate a click event carries, longitude first as the map
      library gives it. */
  datatype LngLat = LngLat(lng: real, lat: real)

  /** `handleMapClick`: one point is appended, its latitude taken from the
      event's `lat` and its longitude from the event's `lng`. */
  function HandleMapClick(pins: seq<Point>, at: LngLat): (r: seq<Point>)
    ensures |r| == |pins| + 1
    ensures r[..|pins|] == pins
    ensures r[|pins|].latitude == at.lat && r[|pins|].longitude == at.lng
  {
    pins + [Point(latitude := at.lat, longitude := at.lng)]
  }

  /** The list after the given clicks, starting from the empty list. */
  function AfterClicks(clicks: seq<LngLat>): seq<Point> {
    if clicks == [] then []
    else HandleMapClick(AfterClicks(clicks[..|clicks| - 1]), clicks[|clicks| - 1])
  }

  /** After n clicks from nothing, the list holds the n clicked coordinates,
      in click order. */
  lemma {:induction false} AfterClicksInOrder(clicks: seq<LngLat>)
    ensures |AfterClicks(clicks)| == |clicks|
    ensures forall i :: 0 <= i < |clicks| ==>
      AfterClicks(clicks)[i] == Point(clicks[i].lat, clicks[i].lng)
  {
    if clicks != [] {
      var init := clicks[..|clicks| - 1];
      AfterClicksInOrder(init);
      var r := AfterClicks(clicks);
      assert r[..|init|] == AfterClicks(init);
      forall i | 0 <= i < |init|
        ensures r[i] == Point(clicks[i].lat, clicks[i].lng)
      {
        assert r[i] == r[..|init|][i];
        assert init[i] == clicks[i];
      }
    }
  }

  /** A click never disturbs the points already placed: later clicks extend
      the list and leave every earlier point at its position. */
  lemma {:induction false} AfterClicksExtends(clicks: seq<LngLat>, more: seq<LngLat>)
    ensures |AfterClicks(clicks + more)| == |clicks| + |more|
    ensures AfterClicks(clicks + more)[..|clicks|] == AfterClicks(clicks)
  {
    AfterClicksInOrder(clicks);
    AfterClicksInOrder(clicks + more);
    var r := AfterClicks(clicks + more);
    forall i | 0 <= i < |clicks|
      ensures r[..|clicks|][i] == AfterClicks(clicks)[i]
    {
      assert (clicks + more)[i] == clicks[i];
    }
  }

  /** A drawn marker: where it stands and the hex code it is filled with. */
  datatype MarkerView = MarkerView(latitude: real, longitude: real, hex: string)

  /** The markers drawn for the list, one per point; the page gives them no
      colour prop. */
  function Markers(pins: seq<Point>): (ms: seq<MarkerView>)
    ensures |ms| == |pins|
    ensures forall i :: 0 <= i < |pins| ==>
      ms[i].latitude == pins[i].latitude && ms[i].longitude == pins[i].longitude
  {
    seq(|pins|, i requires 0 <= i < |pins| => MarkerView(pins[i].latitude, pins[i].longitude, Marker.ColorHex(Values.None)))
  }

  /** Every marker on the map page is drawn red. */
  lemma MarkersAreRed(pins: seq<Point>)
    ensures forall m :: m in Markers(pins) ==> m.hex == Colors.Hex(Colors.Red)
  {
  }
}
