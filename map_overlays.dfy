/**
 * `MapScreen`: the overlays of the map view, the `update` step that redraws
 * the memory markers, and the map's gesture handlers.
 */
module MapOverlays {
  import opened Wrappers
  import opened MemoryRecord
  import opened Navigation

  /** The map's overlays: the gesture receiver, memory markers, and anything else. */
  datatype Overlay =
    | EventsOverlay
    | Marker(position: GeoPoint, title: string, subDescription: string, onClick: Destination)
    | OtherOverlay(name: string)

  /** The top bar's Add icon opens the add screen without coordinates. */
  const AddButtonDestination: Destination := AddMemory(None, None)

  /** A memory gets a marker only when both coordinates are non-zero. */
  predicate MarkerEligible(m: Memory) {
    m.lat != 0 && m.lng != 0
  }

  /** The marker built for a memory: its position, title, subtitle and click target. */
  function MarkerFor(m: Memory): Overlay {
    Marker(GeoPoint(m.lat, m.lng), m.description, m.date, Detail(m.id))
  }

  /** The memories that get a marker, in list order, duplicates kept. */
  function Eligible(memories: seq<Memory>): (r: seq<Memory>)
    ensures |r| <= |memories|
  {
    if memories == [] then []
    else
      var last := memories[|memories| - 1];
      Eligible(memories[..|memories| - 1]) + (if MarkerEligible(last) then [last] else [])
  }

  /**
   * The memories that get a marker are exactly the eligible ones, each kept
   * as often as it occurs in the list.
   */
  lemma {:induction false} EligibleContents(memories: seq<Memory>)
    ensures forall m ::
      multiset(Eligible(memories))[m] == if MarkerEligible(m) then multiset(memories)[m] else 0
    ensures forall m :: m in Eligible(memories) <==> m in memories && MarkerEligible(m)
  {
    if memories != [] {
      var init := memories[..|memories| - 1];
      var last := memories[|memories| - 1];
      EligibleContents(init);
      assert memories == init + [last];
      forall m ensures m in Eligible(memories) <==> m in memories && MarkerEligible(m) {
        assert m in Eligible(memories) <==> multiset(Eligible(memories))[m] > 0;
        assert m in memories <==> multiset(memories)[m] > 0;
      }
    }
  }

  /** The markers the `forEach` loop appends for a list, in order. */
  function MarkersFor(memories: seq<Memory>): seq<Overlay> {
    if memories == [] then []
    else
      var last := memories[|memories| - 1];
      MarkersFor(memories[..|memories| - 1]) + (if MarkerEligible(last) then [MarkerFor(last)] else [])
  }

  /** `overlays.removeAll { it is Marker }`. */
  function WithoutMarkers(overlays: seq<Overlay>): seq<Overlay> {
    if overlays == [] then []
    else
      var last := overlays[|overlays| - 1];
      WithoutMarkers(overlays[..|overlays| - 1]) + (if last.Marker? then [] else [last])
  }

  /** The markers among the overlays, in order. */
  function MarkersOf(overlays: seq<Overlay>): seq<Overlay> {
    if overlays == [] then []
    else
      var last := overlays[|overlays| - 1];
      MarkersOf(overlays[..|overlays| - 1]) + (if last.Marker? then [last] else [])
  }

  /** The overlay list `update` leaves behind. */
  function Refreshed(overlays: seq<Overlay>, memories: seq<Memory>): seq<Overlay> {
    WithoutMarkers(overlays) + MarkersFor(memories)
  }

  class MapView {
    var overlays: seq<Overlay>

    /** The `factory`: a fresh map view whose only overlay is the gesture receiver. */
    constructor ()
      ensures overlays == [EventsOverlay]
    {
      overlays := [EventsOverlay];
    }
  }

  /**
   * The `update` lambda: removes every marker, then appends one marker per
   * eligible memory in list order.
   */
  method Update(mapView: MapView, memoriesList: seq<Memory>)
    modifies mapView
    ensures mapView.overlays == Refreshed(old(mapView.overlays), memoriesList)
  {
    mapView.overlays := WithoutMarkers(mapView.overlays);
    var i := 0;
    while i < |memoriesList|
      invariant 0 <= i <= |memoriesList|
      invariant mapView.overlays == WithoutMarkers(old(mapView.overlays)) + MarkersFor(memoriesList[..i])
    {
      var memory := memoriesList[i];
      assert memoriesList[..i + 1][..i] == memoriesList[..i];
      if memory.lat != 0 && memory.lng != 0 {
        var marker := MarkerFor(memory);
        mapView.overlays := mapView.overlays + [marker];
      }
      i := i + 1;
    }
    assert memoriesList[..i] == memoriesList;
  }

  // ----- properties of the redraw -----

  lemma {:induction false} WithoutMarkersAppend(a: seq<Overlay>, b: seq<Overlay>)
    ensures WithoutMarkers(a + b) == WithoutMarkers(a) + WithoutMarkers(b)
    ensures MarkersOf(a + b) == MarkersOf(a) + MarkersOf(b)
    decreases |b|
  {
    if b == [] {
      assert a + b == a;
    } else {
      assert (a + b)[..|a + b| - 1] == a + b[..|b| - 1];
      WithoutMarkersAppend(a, b[..|b| - 1]);
    }
  }

  /** One marker per eligible memory, in list order, built from that memory. */
  lemma {:induction false} MarkersMatchEligible(memories: seq<Memory>)
    ensures |MarkersFor(memories)| == |Eligible(memories)|
    ensures forall i :: 0 <= i < |MarkersFor(memories)| ==>
      MarkersFor(memories)[i] == MarkerFor(Eligible(memories)[i])
    decreases |memories|
  {
    if memories != [] {
      var init := memories[..|memories| - 1];
      var last := memories[|memories| - 1];
      MarkersMatchEligible(init);
      var markers := MarkersFor(memories);
      var eligible := Eligible(memories);
      assert markers == MarkersFor(init) + (if MarkerEligible(last) then [MarkerFor(last)] else []);
      assert eligible == Eligible(init) + (if MarkerEligible(last) then [last] else []);
      forall i | 0 <= i < |markers| ensures markers[i] == MarkerFor(eligible[i]) {
        if i < |MarkersFor(init)| {
          assert markers[i] == MarkersFor(init)[i];
          assert eligible[i] == Eligible(init)[i];
        }
      }
    }
  }

  /** What the loop appends consists of markers only. */
  lemma {:induction false} MarkersAreMarkers(memories: seq<Memory>)
    ensures WithoutMarkers(MarkersFor(memories)) == []
    ensures MarkersOf(MarkersFor(memories)) == MarkersFor(memories)
    decreases |memories|
  {
    if memories != [] {
      var init := memories[..|memories| - 1];
      var last := memories[|memories| - 1];
      MarkersAreMarkers(init);
      WithoutMarkersAppend(MarkersFor(init), if MarkerEligible(last) then [MarkerFor(last)] else []);
    }
  }

  lemma {:induction false} WithoutMarkersIdempotent(overlays: seq<Overlay>)
    ensures WithoutMarkers(WithoutMarkers(overlays)) == WithoutMarkers(overlays)
    ensures MarkersOf(WithoutMarkers(overlays)) == []
    decreases |overlays|
  {
    if overlays != [] {
      var last := overlays[|overlays| - 1];
      WithoutMarkersIdempotent(overlays[..|overlays| - 1]);
      WithoutMarkersAppend(WithoutMarkers(overlays[..|overlays| - 1]), if last.Marker? then [] else [last]);
    }
  }

  /**
   * After a redraw every non-marker overlay is still there in its original
   * order, and the markers are exactly those built from the list, whatever
   * markers there were before.
   */
  lemma RefreshSplits(overlays: seq<Overlay>, memories: seq<Memory>)
    ensures WithoutMarkers(Refreshed(overlays, memories)) == WithoutMarkers(overlays)
    ensures MarkersOf(Refreshed(overlays, memories)) == MarkersFor(memories)
  {
    WithoutMarkersAppend(WithoutMarkers(overlays), MarkersFor(memories));
    WithoutMarkersIdempotent(overlays);
    MarkersAreMarkers(memories);
  }

  /** The number of markers after a redraw is the number of eligible memories. */
  lemma MarkerCount(overlays: seq<Overlay>, memories: seq<Memory>)
    ensures |MarkersOf(Refreshed(overlays, memories))| == |Eligible(memories)|
  {
    RefreshSplits(overlays, memories);
    MarkersMatchEligible(memories);
  }

  /** Redrawing twice with the same list leaves what one redraw leaves. */
  lemma RefreshIdempotent(overlays: seq<Overlay>, memories: seq<Memory>)
    ensures Refreshed(Refreshed(overlays, memories), memories) == Refreshed(overlays, memories)
  {
    RefreshSplits(overlays, memories);
  }

  /** A memory at a zero latitude or longitude is never on the map. */
  lemma ZeroCoordinateNeverMarked(overlays: seq<Overlay>, memories: seq<Memory>, m: Memory)
    requires m.lat == 0 || m.lng == 0
    ensures forall o :: o in MarkersOf(Refreshed(overlays, memories)) ==>
      o.Marker? && o.position.latitude != 0 && o.position.longitude != 0
    ensures MarkerFor(m) !in MarkersOf(Refreshed(overlays, memories))
  {
    RefreshSplits(overlays, memories);
    MarkersMatchEligible(memories);
    EligibleContents(memories);
    forall o | o in MarkersFor(memories)
      ensures o.Marker? && o.position.latitude != 0 && o.position.longitude != 0
    {
      var i :| 0 <= i < |MarkersFor(memories)| && MarkersFor(memories)[i] == o;
      assert Eligible(memories)[i] in Eligible(memories);
    }
  }

  // ----- gestures -----

  /** What a `MapEventsReceiver` callback reports: whether it consumed the event, and where it navigated. */
  datatype GestureResult = GestureResult(consumed: bool, navigateTo: Option<Destination>)

  /** `longPressHelper`: always consumed; a known point opens the add screen there. */
  function LongPress(p: Option<GeoPoint>): GestureResult {
    GestureResult(true, if p.Some? then Some(AddMemory(Some(p.value.latitude), Some(p.value.longitude))) else None)
  }

  /** `singleTapConfirmedHelper`: never consumed, no navigation. */
  function SingleTap(p: Option<GeoPoint>): GestureResult {
    GestureResult(false, None)
  }

  /** A long press opens the add screen at exactly the pressed point and consumes the event. */
  lemma LongPressOpensAddScreenAtPoint(p: GeoPoint)
    ensures LongPress(Some(p)).consumed
    ensures LongPress(Some(p)).navigateTo.Some? && LongPress(Some(p)).navigateTo.value.AddMemory?
    ensures AddMemoryArgs(LongPress(Some(p)).navigateTo.value) == p
  {
  }

  /** A single tap is left to other handlers and navigates nowhere. */
  lemma SingleTapPassesThrough(p: Option<GeoPoint>)
    ensures !SingleTap(p).consumed && SingleTap(p).navigateTo.None?
  {
  }

  /** A marker's click opens the detail page of exactly its memory. */
  lemma MarkerOpensItsMemory(m: Memory)
    ensures MarkerFor(m).onClick == Detail(m.id)
    ensures MarkerFor(m).position == GeoPoint(m.lat, m.lng)
    ensures MarkerFor(m).title == m.description && MarkerFor(m).subDescription == m.date
  {
  }

  /** A default record never gets a marker. */
  lemma DefaultMemoryNotMarked()
    ensures !MarkerEligible(DefaultMemory)
  {
  }
}
