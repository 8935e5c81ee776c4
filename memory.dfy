/**
 * The `Memory` record: one geotagged note of the signed-in user, as stored
 * under the user's node of the remote database.
 */
module MemoryRecord {

  /**
   * A coordinate in degrees. The source holds it in a `Double`; the model
   * only ever compares it with zero, so an integer stands in for it.
   */
  type Coord = int

  type UserId = string

  datatype Memory = Memory(
    id: string,
    description: string,
    date: string,        // the day the memory was recorded, "dd/MM/yyyy"
    lat: Coord,
    lng: Coord,
    address: string,
    timestamp: int       // milliseconds since the epoch at write time
  )

  /** The record every field of which keeps its declared default. */
  const DefaultMemory: Memory := Memory("", "", "", 0, 0, "", 0)

  /** A default record carries no text and no location. */
  lemma DefaultIsEmpty()
    ensures DefaultMemory.id == "" && DefaultMemory.description == ""
    ensures DefaultMemory.date == "" && DefaultMemory.address == ""
    ensures DefaultMemory.lat == 0 && DefaultMemory.lng == 0
    ensures DefaultMemory.timestamp == 0
  {
  }

  /** Data-class equality: two memories are equal exactly when all seven fields are. */
  lemma EqualIffFieldsEqual(a: Memory, b: Memory)
    ensures a == b <==>
      a.id == b.id && a.description == b.description && a.date == b.date &&
      a.lat == b.lat && a.lng == b.lng && a.address == b.address &&
      a.timestamp == b.timestamp
  {
  }
}
