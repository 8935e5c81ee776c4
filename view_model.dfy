/**
 * `MemoryViewModel`: the draft form of a new memory (`description`, `lat`,
 * `lng`, `address`, `isLoading`) and the published list of the user's
 * memories. Each remote callback is one atomic step; the remote database,
 * the signed-in user, the push key, the clock and the geocoder's outcome are
 * parameters.
 */
module ViewModel {
  import opened Wrappers
  import opened MemoryRecord
  import opened MemoryList
  import opened AddressFormat

  const FetchingAddress := "Fetching address..."

  /** The `setValue` request `saveMemory` issues: `Memories/<userId>/<memory.id>`. */
  datatype PendingWrite = PendingWrite(userId: UserId, memory: Memory)

  class MemoryViewModel {
    var description: string
    var lat: Coord
    var lng: Coord
    var address: string
    var isLoading: bool
    /** The value of `_memories`. */
    var memories: seq<Memory>
    /** One entry per value-event listener registered by `fetchMemories`, naming the user node. */
    var listeners: seq<UserId>

    /**
     * Every list the view model has published is newest first, which is what
     * `Anniversary.ChosenIsNewestOnTarget` needs of the list it is given.
     */
    ghost predicate Valid()
      reads this
    {
      NonIncreasing(memories)
    }

    /** The form keeps its reset values: no text, no location, address pending. */
    ghost predicate FormIsReset()
      reads this
    {
      description == "" && lat == 0 && lng == 0 && address == FetchingAddress
    }

    /** Construction; `init` subscribes when a user is already signed in. */
    constructor (currentUser: Option<UserId>)
      ensures Valid() && FormIsReset() && !isLoading && memories == []
      ensures listeners == if currentUser.Some? then [currentUser.value] else []
    {
      description := "";
      lat := 0;
      lng := 0;
      address := FetchingAddress;
      isLoading := false;
      memories := [];
      listeners := [];
      new;
      FetchMemories(currentUser);
    }

    /**
     * `fetchMemories`: registers one more listener on the user's node; earlier
     * listeners stay registered. Without a user nothing happens.
     */
    method FetchMemories(currentUser: Option<UserId>)
      modifies this`listeners
      ensures listeners == old(listeners) + if currentUser.Some? then [currentUser.value] else []
    {
      if currentUser.Some? {
        listeners := listeners + [currentUser.value];
      }
    }

    /**
     * `onDataChange`: rebuilds the list from the snapshot's children, dropping
     * those that do not decode, and publishes it newest first.
     */
    method OnDataChange(children: seq<Option<Memory>>)
      requires listeners != []
      modifies this`memories
      ensures memories == Published(children)
      ensures Valid()
    {
      var list := DecodeSnapshot(children);
      memories := SortByTimestampDesc(list);
    }

    /** `onCancelled`: only logs, so the last published list stays. */
    method OnCancelled()
      requires listeners != []
      ensures memories == old(memories)
    {
    }

    /** `resetForm`. */
    method ResetForm()
      modifies this`description, this`lat, this`lng, this`address
      ensures FormIsReset()
    {
      description := "";
      lat := 0;
      lng := 0;
      address := FetchingAddress;
    }

    /** `clearData`: empties the published list, then resets the form. */
    method ClearData()
      modifies this`memories, this`description, this`lat, this`lng, this`address
      ensures memories == [] && FormIsReset()
      ensures Valid()
    {
      memories := [];
      ResetForm();
    }

    /** The text field's `onValueChange`. */
    method EditDescription(text: string)
      modifies this`description
      ensures description == text
    {
      description := text;
    }

    /**
     * The effect of `fetchAddress` once its coroutine finishes: the address is
     * the formatted first result, "Unknown Location" or "Location service not ready".
     */
    method OnAddressResolved(outcome: GeocodeOutcome)
      modifies this`address
      ensures address == ResolveAddress(outcome)
    {
      match outcome {
        case Threw =>
          address := ServiceNotReady;
        case Returned(list) =>
          if list.None? || |list.value| == 0 {
            address := UnknownLocation;
          } else {
            var first := list.value[0];
            address := FormatFields(first.subLocality.GetOr(""), first.subAdminArea.GetOr(""),
                                    first.adminArea.GetOr(""));
          }
      }
    }

    /**
     * `saveMemory`: with no user nothing changes; otherwise `isLoading` is set,
     * and unless the push key is null a write of the current form under that
     * key is issued. A null key leaves `isLoading` set and writes nothing.
     */
    method SaveMemory(date: string, currentUser: Option<UserId>, pushKey: Option<string>, now: int)
      returns (write: Option<PendingWrite>)
      modifies this`isLoading
      ensures currentUser.None? ==> write.None? && isLoading == old(isLoading)
      ensures currentUser.Some? ==> isLoading
      ensures currentUser.Some? && pushKey.None? ==> write.None?
      ensures currentUser.Some? && pushKey.Some? ==>
        write == Some(PendingWrite(currentUser.value,
          Memory(pushKey.value, description, date, lat, lng, address, now)))
    {
      if currentUser.None? {
        return None;
      }
      isLoading := true;
      if pushKey.None? {
        return None;
      }
      var memory := Memory(pushKey.value, description, date, lat, lng, address, now);
      write := Some(PendingWrite(currentUser.value, memory));
    }

    /** The write's success listener: loading ends and the form is reset (then `onComplete` runs). */
    method OnSaveSucceeded()
      modifies this`isLoading, this`description, this`lat, this`lng, this`address
      ensures !isLoading && FormIsReset()
    {
      isLoading := false;
      ResetForm();
    }

    /** The write's failure listener: loading ends and the form keeps what the user entered. */
    method OnSaveFailed()
      modifies this`isLoading
      ensures !isLoading
    {
      isLoading := false;
    }
  }
}
