/**
 * `AddMemoryScreen`: entering the screen seeds the view model's coordinates
 * and starts the address lookup; the Save button calls `saveMemory` only for
 * a non-blank description and a non-zero latitude.
 */
module AddMemoryScreen {
  import opened Wrappers
  import opened KotlinText
  import opened MemoryRecord
  import opened Navigation
  import opened MapOverlays
  import opened ViewModel
  import opened Dates
  import opened Anniversary

  /** The Save handler's check: `description.isNotBlank() && lat != 0.0`. The longitude is not checked. */
  predicate SaveAllowed(description: string, lat: Coord) {
    !IsBlank(description) && lat != 0
  }

  /**
   * The `LaunchedEffect(lat, lng)`: the screen's coordinates are copied into
   * the view model, then the lookup for that point is started (its outcome
   * arrives later through `OnAddressResolved`).
   */
  method OnEnter(vm: MemoryViewModel, lat: Coord, lng: Coord) returns (lookup: GeoPoint)
    modifies vm`lat, vm`lng
    ensures vm.lat == lat && vm.lng == lng
    ensures lookup == GeoPoint(vm.lat, vm.lng)
  {
    vm.lat := lat;
    vm.lng := lng;
    lookup := GeoPoint(lat, lng);
  }

  /**
   * The Save button's `onClick`. The button is disabled while a save is in
   * flight, so it is only ever clicked with `isLoading` false. A rejected
   * attempt writes nothing and changes no field; an accepted one is
   * `saveMemory(detectedDate)`, where `detectedDate` is the day the screen was
   * opened, printed "dd/MM/yyyy".
   */
  method OnSaveClicked(vm: MemoryViewModel, openedOn: Date,
                       currentUser: Option<UserId>, pushKey: Option<string>, now: int)
    returns (write: Option<PendingWrite>)
    requires !vm.isLoading
    requires IsValid(openedOn)
    modifies vm`isLoading
    ensures !SaveAllowed(vm.description, vm.lat) ==> write.None? && !vm.isLoading
    ensures SaveAllowed(vm.description, vm.lat) ==>
      (currentUser.None? ==> write.None? && !vm.isLoading) &&
      (currentUser.Some? ==> vm.isLoading) &&
      (currentUser.Some? && pushKey.None? ==> write.None?) &&
      (currentUser.Some? && pushKey.Some? ==>
        write == Some(PendingWrite(currentUser.value,
          Memory(pushKey.value, vm.description, Format(openedOn), vm.lat, vm.lng, vm.address, now))))
  {
    var detectedDate := Format(openedOn);
    if !IsBlank(vm.description) && vm.lat != 0 {
      write := vm.SaveMemory(detectedDate, currentUser, pushKey, now);
    } else {
      write := None;
    }
  }

  /** A blank description, spaces only included, is rejected whatever the location. */
  lemma BlankDescriptionRejected(description: string, lat: Coord)
    requires forall i :: 0 <= i < |description| ==> description[i] == ' '
    ensures !SaveAllowed(description, lat)
  {
  }

  /**
   * Only the latitude is checked: a point on the prime meridian is accepted
   * and saved, yet its memory never gets a map marker.
   */
  lemma AcceptedWithoutMarker(m: Memory)
    requires !IsBlank(m.description) && m.lat != 0 && m.lng == 0
    ensures SaveAllowed(m.description, m.lat)
    ensures !MarkerEligible(m)
  {
  }

  /** A default record is never accepted. */
  lemma DefaultMemoryRejected()
    ensures !SaveAllowed(DefaultMemory.description, DefaultMemory.lat)
  {
  }

  /**
   * The map's top-bar Add icon opens the screen without coordinates, so the
   * latitude is 0.0 and no description can get past the check.
   */
  lemma AddButtonNeverSaves(description: string)
    ensures AddMemoryArgs(AddButtonDestination).latitude == 0
    ensures !SaveAllowed(description, AddMemoryArgs(AddButtonDestination).latitude)
  {
  }

  /** A long press at a point off the equator opens a screen whose check depends on the description alone. */
  lemma LongPressEnablesSave(p: GeoPoint, description: string)
    requires p.latitude != 0
    ensures SaveAllowed(description, AddMemoryArgs(LongPress(Some(p)).navigateTo.value).latitude)
      <==> !IsBlank(description)
  {
  }

  /**
   * A memory saved from a screen opened on day D is the reminder candidate
   * exactly one calendar year later: that day's target date is D's string.
   * (A 29 February has no such day, see `YearBackNeverLeapDay`.)
   */
  lemma SavedDateIsTargetAYearLater(openedOn: Date, m: Memory)
    requires IsValid(openedOn) && openedOn.year < MaxYear
    requires !(openedOn.month == 2 && openedOn.day == 29)
    requires m.date == Format(openedOn)
    ensures var later := Date(openedOn.day, openedOn.month, openedOn.year + 1);
      IsValid(later) && TargetDate(later) == m.date
  {
    var later := Date(openedOn.day, openedOn.month, openedOn.year + 1);
    assert DaysInMonth(later.month, later.year) >= openedOn.day;
    assert YearBack(later) == openedOn;
  }
}
