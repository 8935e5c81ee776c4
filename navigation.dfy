/**
 * The destinations of the activity's navigation graph that carry data, and
 * how the `add_memory` route's optional coordinates reach the screen.
 */
module Navigation {
  import opened Wrappers
  import opened MemoryRecord

  datatype GeoPoint = GeoPoint(latitude: Coord, longitude: Coord)

  /**
   * `add_memory?lat={lat}&lng={lng}` with each argument present or not, and
   * `detail/{memoryId}`.
   */
  datatype Destination = AddMemory(lat: Option<Coord>, lng: Option<Coord>) | Detail(memoryId: string)

  /**
   * The coordinates the `add_memory` composable hands to `AddMemoryScreen`:
   * an argument that is missing (or not a number) becomes 0.0.
   */
  function AddMemoryArgs(d: Destination): (p: GeoPoint)
    requires d.AddMemory?
  {
    GeoPoint(d.lat.GetOr(0), d.lng.GetOr(0))
  }

  /** A route without arguments opens the screen at (0.0, 0.0); given arguments pass through. */
  lemma AddMemoryArgsDefaults(lat: Option<Coord>, lng: Option<Coord>)
    ensures lat.None? ==> AddMemoryArgs(AddMemory(lat, lng)).latitude == 0
    ensures lng.None? ==> AddMemoryArgs(AddMemory(lat, lng)).longitude == 0
    ensures lat.Some? ==> AddMemoryArgs(AddMemory(lat, lng)).latitude == lat.value
    ensures lng.Some? ==> AddMemoryArgs(AddMemory(lat, lng)).longitude == lng.value
  {
  }
}
