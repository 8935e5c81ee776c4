# MemoryMapp memory ledger, modelled in Dafny

MemoryMapp is an Android app for pinning short memories to places on a map.
A signed-in user long-presses the map. The app then opens the "Add New Memory"
screen at that point and looks up a human-readable address for it. The user
writes a description and saves. The memory is pushed to the user's node in a
realtime database.

A listener on that node rebuilds the user's list of memories on every change
and publishes it newest first. Two things consume that list:

- the map redraws one marker per memory whose latitude and longitude are
  both non-zero;
- a check that runs on every published list posts at most one reminder per
  day, for a memory recorded exactly one calendar year earlier.

This project models that ledger:

- the `Memory` record and its defaults (`memory.dfy`);
- the view model's form state, its listener, its address formatting and its
  save flow, as the class `ViewModel.MemoryViewModel` (`view_model.dfy`);
- decoding and the stable newest-first sort of the published list
  (`memory_list.dfy`);
- Kotlin's `trim` and `isBlank`, and the regex class `\s` as Android's ICU-backed
  `java.util.regex` defines it (`kotlin_text.dfy`);
- the address pipeline `"a, b, c".replace(Regex(",\\s*,"), ",").trim()...`,
  proved equal to "the non-empty fields joined by `", "`"
  (`address_format.dfy`);
- the `dd/MM/yyyy` date strings and the one-year-back calendar step
  (`dates.dfy`);
- the once-a-day anniversary check, as the class
  `Anniversary.AnniversaryChecker` (`anniversary.dfy`);
- the route arguments of the add screen (`navigation.dfy`);
- the map's marker redraw, as the method `MapOverlays.Update` over the class
  `MapOverlays.MapView`, together with its gestures (`map_overlays.dfy`);
- the add screen's entry effect and its Save button (`add_memory.dfy`).

Coordinates are Kotlin `Double`s. The ledger only compares them with zero and
copies them, so the model uses `Coord = int`. Dates are valid Gregorian
`(day, month, year)` triples in the four-digit years 1583–9999. The user, the
push key, the clock, the geocoder's answer and the stored preference arrive as
parameters.

Two consequences of the code as written are proved, not patched:

- The Add icon in the map's top bar opens the add screen without arguments. Latitude then
  defaults to 0, so the Save handler rejects every attempt from that route
  (`AddMemoryScreen.AddButtonNeverSaves`).
- Going one year back from 29 February lands on 28 February. So no
  anniversary target is ever a 29 February, and a memory dated 29 February is
  never reminded (`Anniversary.LeapDayMemoryNeverChosen`).

## Model


| member | source | states |
|---|---|---|
| MemoryRecord.DefaultIsEmpty | app/src/main/java/com/example/memorymapp/data/Memory.kt:3-11 | every field of the no-argument `Memory()` is empty: empty strings, zero coordinates, timestamp 0 |
| MemoryRecord.EqualIffFieldsEqual | app/src/main/java/com/example/memorymapp/data/Memory.kt:3-11 | two memories are equal exactly when all seven fields are equal (data-class equality) |
| MemoryList.Decoded | app/src/main/java/com/example/memorymapp/viewmodel/MemoryViewModel.kt:43-46 | keeping the children that decode yields a list no longer than the snapshot |
| MemoryList.DecodedContents | app/src/main/java/com/example/memorymapp/viewmodel/MemoryViewModel.kt:43-46 | the decoded list holds each memory exactly as many times as children decoded to it, so a memory is listed iff some child decoded to it |
| MemoryList.DecodeSnapshot | app/src/main/java/com/example/memorymapp/viewmodel/MemoryViewModel.kt:43-46 | the `for` loop over the snapshot's children builds exactly the decoded list, in child order |
| MemoryList.InsertByTimestamp | app/src/main/java/com/example/memorymapp/viewmodel/MemoryViewModel.kt:47 | inserting one memory adds exactly that memory to the multiset of the list |
| MemoryList.InsertKeepsOrder | app/src/main/java/com/example/memorymapp/viewmodel/MemoryViewModel.kt:47 | inserting into a newest-first list keeps it newest first |
| MemoryList.SortByTimestampDesc | app/src/main/java/com/example/memorymapp/viewmodel/MemoryViewModel.kt:47 | `sortedByDescending { it.timestamp }` yields a list that is newest first and a permutation of its input |
| MemoryList.WithTimestampAppend | app/src/main/java/com/example/memorymapp/viewmodel/MemoryViewModel.kt:47 | the memories with a given timestamp in `s + u` are those of `s` followed by those of `u` |
| MemoryList.InsertKeepsTies | app/src/main/java/com/example/memorymapp/viewmodel/MemoryViewModel.kt:47 | inserting a memory puts it in front of the memories that already have its timestamp; the sort inserts each head into the sorted tail, so ties keep input order |
| MemoryList.SortIsStable | app/src/main/java/com/example/memorymapp/viewmodel/MemoryViewModel.kt:47 | the sort is stable: memories with equal timestamps keep their snapshot order |
| MemoryList.NoneNewerThanHead | app/src/main/java/com/example/memorymapp/viewmodel/MemoryViewModel.kt:47 | a newest-first list has no memory newer than its head |
| MemoryList.WithTimestampOfHead | app/src/main/java/com/example/memorymapp/viewmodel/MemoryViewModel.kt:47 | the head of a list is the first memory carrying its own timestamp |
| MemoryList.TiesDetermineOrder | app/src/main/java/com/example/memorymapp/viewmodel/MemoryViewModel.kt:47 | two newest-first lists with the same order among equal timestamps are the same list |
| MemoryList.PublishedIsTheStableSort | app/src/main/java/com/example/memorymapp/viewmodel/MemoryViewModel.kt:43-47 | the published list is the only newest-first list that keeps the snapshot order among ties |
| MemoryList.DefaultSortsLast | app/src/main/java/com/example/memorymapp/viewmodel/MemoryViewModel.kt:47 | the all-default `Memory()` (timestamp 0) is published after every memory with a positive timestamp |
| MemoryList.Published | app/src/main/java/com/example/memorymapp/viewmodel/MemoryViewModel.kt:43-47 | the list `onDataChange` publishes: the decoded children sorted newest first; `PublishedIsTheStableSort` characterises it |
| ViewModel.MemoryViewModel.constructor | app/src/main/java/com/example/memorymapp/viewmodel/MemoryViewModel.kt:19-37 | a new view model has an empty form, the "Fetching address..." placeholder, no save in flight and no memories; it subscribes iff a user is signed in |
| ViewModel.MemoryViewModel.FetchMemories | app/src/main/java/com/example/memorymapp/viewmodel/MemoryViewModel.kt:39-41 | without a user nothing is registered; with one, one more listener on that user's node is added and earlier ones stay |
| ViewModel.MemoryViewModel.OnDataChange | app/src/main/java/com/example/memorymapp/viewmodel/MemoryViewModel.kt:42-48 | the loop (`DecodeSnapshot`) keeps the decodable children in snapshot order; the published list is their stable newest-first sort, so the list stays newest first |
| ViewModel.MemoryViewModel.OnCancelled | app/src/main/java/com/example/memorymapp/viewmodel/MemoryViewModel.kt:49-51 | a cancelled listener leaves the published list as it was |
| ViewModel.MemoryViewModel.ResetForm | app/src/main/java/com/example/memorymapp/viewmodel/MemoryViewModel.kt:55-60 | the form is back to empty description, zero coordinates and "Fetching address..."; the list and loading flag are untouched |
| ViewModel.MemoryViewModel.ClearData | app/src/main/java/com/example/memorymapp/viewmodel/MemoryViewModel.kt:62-65 | sign-out empties the published list and resets the form |
| ViewModel.MemoryViewModel.EditDescription | app/src/main/java/com/example/memorymapp/ui/AddMemoryScreen.kt:98 | the description becomes exactly the text field's value |
| ViewModel.MemoryViewModel.OnAddressResolved | app/src/main/java/com/example/memorymapp/viewmodel/MemoryViewModel.kt:67-84 | the address becomes the tidied first result, "Unknown Location" for a null or empty answer, or "Location service not ready" when the lookup threw |
| ViewModel.MemoryViewModel.SaveMemory | app/src/main/java/com/example/memorymapp/viewmodel/MemoryViewModel.kt:86-101 | with no user nothing happens; otherwise loading starts; a null push key then writes nothing and loading stays set; otherwise the current form is written under that key with the given date and time |
| ViewModel.MemoryViewModel.OnSaveSucceeded | app/src/main/java/com/example/memorymapp/viewmodel/MemoryViewModel.kt:102-106 | a successful write ends loading and resets the form |
| ViewModel.MemoryViewModel.OnSaveFailed | app/src/main/java/com/example/memorymapp/viewmodel/MemoryViewModel.kt:107-109 | a failed write ends loading and keeps what the user typed |
| KotlinText.RegexSpaceIsWhitespace | app/src/main/java/com/example/memorymapp/viewmodel/MemoryViewModel.kt:75-76 | every character the regex `\s` skips is also whitespace to `trim` |
| KotlinText.IsWhitespace | app/src/main/java/com/example/memorymapp/viewmodel/MemoryViewModel.kt:76 | Kotlin's `Char.isWhitespace`: `Character.isWhitespace` or `Character.isSpaceChar`; the character set `trim` and `isBlank` test |
| KotlinText.IsRegexSpace | app/src/main/java/com/example/memorymapp/viewmodel/MemoryViewModel.kt:75 | the `\s` of the replace regex as ICU defines it, `[\t\n\f\r\p{Z}]`; `RegexSpaceIsWhitespace` places it inside `IsWhitespace` |
| KotlinText.Trim | app/src/main/java/com/example/memorymapp/viewmodel/MemoryViewModel.kt:76 | `trim()` as `trimEnd(trimStart(s))`; `TrimStartSpec` and `TrimEndSpec` give what each half removes |
| KotlinText.IsBlank | app/src/main/java/com/example/memorymapp/ui/AddMemoryScreen.kt:119 | `isBlank()`: every character is whitespace; `BlankIffTrimEmpty` ties it to `trim` |
| KotlinText.RemoveLeadingComma | app/src/main/java/com/example/memorymapp/viewmodel/MemoryViewModel.kt:76 | `removePrefix(",")`: drops one leading comma if present; its effect in the pipeline is proved in `FormatIsJoinOfNonEmpty` |
| KotlinText.RemoveTrailingComma | app/src/main/java/com/example/memorymapp/viewmodel/MemoryViewModel.kt:76 | `removeSuffix(",")`: drops one trailing comma if present; its effect in the pipeline is proved in `FormatIsJoinOfNonEmpty` |
| KotlinText.TrimStartSpec | app/src/main/java/com/example/memorymapp/viewmodel/MemoryViewModel.kt:76 | `trimStart` drops exactly the longest whitespace prefix: the result is a suffix that is empty or starts with a non-whitespace character |
| KotlinText.TrimEndSpec | app/src/main/java/com/example/memorymapp/viewmodel/MemoryViewModel.kt:76 | `trimEnd` drops exactly the longest whitespace suffix: the result is a prefix that is empty or ends with a non-whitespace character |
| KotlinText.BlankIffTrimEmpty | app/src/main/java/com/example/memorymapp/ui/AddMemoryScreen.kt:119 | `isBlank()` holds iff trimming leaves nothing, in both directions |
| KotlinText.TrimUntouched | app/src/main/java/com/example/memorymapp/viewmodel/MemoryViewModel.kt:76 | trimming a string without whitespace at either end returns it unchanged |
| AddressFormat.SkipRegexSpace | app/src/main/java/com/example/memorymapp/viewmodel/MemoryViewModel.kt:75 | the `\s*` of the regex spans exactly the maximal run of regex whitespace at that position |
| AddressFormat.CollapseCommaGaps | app/src/main/java/com/example/memorymapp/viewmodel/MemoryViewModel.kt:75 | `replace(Regex(",\\s*,"), ",")`: scanning left to right, each comma followed by `\s*` and a second comma becomes one comma; `FormatIsJoinOfNonEmpty` gives its effect on the address template |
| AddressFormat.Tidy | app/src/main/java/com/example/memorymapp/viewmodel/MemoryViewModel.kt:76 | `trim().removePrefix(",").trim().removeSuffix(",")`; `FormatIsJoinOfNonEmpty` gives its effect |
| AddressFormat.FormatFields | app/src/main/java/com/example/memorymapp/viewmodel/MemoryViewModel.kt:74-76 | the template `"a, b, c"` followed by the replace and `Tidy`; `FormatIsJoinOfNonEmpty` proves it equals the non-empty fields joined by ", " |
| AddressFormat.ResolveAddress | app/src/main/java/com/example/memorymapp/viewmodel/MemoryViewModel.kt:69-82 | the address `fetchAddress` sets for a lookup outcome: the first result's fields formatted, or one of the two fallback strings; `FallbacksDistinct` and `FormatIsJoinOfNonEmpty` give its values |
| AddressFormat.NonEmpty | app/src/main/java/com/example/memorymapp/viewmodel/MemoryViewModel.kt:74 | the reference keeps exactly the non-empty fields |
| AddressFormat.FormatIsJoinOfNonEmpty | app/src/main/java/com/example/memorymapp/viewmodel/MemoryViewModel.kt:73-76 | for sub-locality, sub-admin area and admin area without commas or outer whitespace, with missing ones as "", the template, regex replace, trim, `removePrefix(",")`, trim and `removeSuffix(",")` yield exactly the non-empty fields joined by ", " (all eight presence cases, "" when all are missing) |
| AddressFormat.FallbacksDistinct | app/src/main/java/com/example/memorymapp/viewmodel/MemoryViewModel.kt:72-82 | a null or empty answer gives "Unknown Location", a thrown lookup gives "Location service not ready", and the two differ |
| Dates.DaysInMonth | app/src/main/java/com/example/memorymapp/MainActivity.kt:132-133 | a month has 28 to 31 days, and 29 exactly for February of a Gregorian leap year |
| Dates.DigitChar | app/src/main/java/com/example/memorymapp/MainActivity.kt:126 | a digit value prints as one of the characters '0'–'9' |
| Dates.Format | app/src/main/java/com/example/memorymapp/MainActivity.kt:126-127 | `dd/MM/yyyy` prints ten characters: digits with '/' at positions 2 and 5 |
| Dates.TwoDigitsValue | app/src/main/java/com/example/memorymapp/MainActivity.kt:126 | a zero-padded two-digit field reads back as its number |
| Dates.FourDigitsValue | app/src/main/java/com/example/memorymapp/MainActivity.kt:126 | a zero-padded four-digit field reads back as its number |
| Dates.FormatRoundTrip | app/src/main/java/com/example/memorymapp/MainActivity.kt:126-127 | reading the printed date back gives the same date |
| Dates.FormatInjective | app/src/main/java/com/example/memorymapp/MainActivity.kt:126-136 | two valid dates print the same string iff they are the same date, so comparing strings compares days |
| Dates.YearBack | app/src/main/java/com/example/memorymapp/MainActivity.kt:132-133 | `cal.add(Calendar.YEAR, -1)` gives a valid date in the previous year and the same month, on the same day except that 29 February becomes 28 February |
| Dates.YearBackNeverLeapDay | app/src/main/java/com/example/memorymapp/MainActivity.kt:132-134 | the date one year back is never 29 February |
| Anniversary.FindByDate | app/src/main/java/com/example/memorymapp/MainActivity.kt:136 | `find` returns nothing iff no memory has the date; otherwise it returns the first memory in list order with that date |
| Anniversary.TargetDate | app/src/main/java/com/example/memorymapp/MainActivity.kt:132-134 | the date string one calendar year before today; `YearBack` gives the calendar step and `FormatInjective` makes comparing strings compare days |
| Anniversary.NotificationFor | app/src/main/java/com/example/memorymapp/MainActivity.kt:147-150 | the reminder built for a memory: title "Exactly one year ago today!" and text "You were at " followed by its address; `CheckAnniversary` posts exactly one per chosen memory |
| Anniversary.Decide | app/src/main/java/com/example/memorymapp/MainActivity.kt:124-137 | there is a candidate iff today's reminder has not been sent and some memory is dated one year back from today; the candidate is the first such memory in list order |
| Anniversary.AnniversaryChecker.constructor | app/src/main/java/com/example/memorymapp/MainActivity.kt:124-125 | the stored last-notify day is read with "" as the default, and nothing has been posted yet |
| Anniversary.AnniversaryChecker.CheckAnniversary | app/src/main/java/com/example/memorymapp/MainActivity.kt:123-157 | when there is a candidate, one notification titled "Exactly one year ago today!" with text "You were at " + address is posted and today is stored; otherwise nothing changes |
| Anniversary.AnniversaryChecker.OnMemoriesPublished | app/src/main/java/com/example/memorymapp/MainActivity.kt:60-64 | the check runs only when a user is signed in and the published list is non-empty; otherwise nothing changes |
| Anniversary.AtMostOncePerDay | app/src/main/java/com/example/memorymapp/MainActivity.kt:130-139 | after a reminder on some day, no later check on that day chooses anything, whatever the list |
| Anniversary.ChosenMatchesTarget | app/src/main/java/com/example/memorymapp/MainActivity.kt:132-137 | a chosen memory belongs to the list and is dated exactly one calendar year back from today |
| Anniversary.LeapDayMemoryNeverChosen | app/src/main/java/com/example/memorymapp/MainActivity.kt:132-136 | a memory dated 29 February is never chosen |
| Anniversary.ChosenIsNewestOnTarget | app/src/main/java/com/example/memorymapp/MainActivity.kt:136 | on a newest-first list the chosen memory is at least as new as every memory dated on the target day |
| Anniversary.PublishedReminderIsNewest | app/src/main/java/com/example/memorymapp/MainActivity.kt:60-64 | applied to a list the view model publishes, the reminder is about the newest memory recorded one year ago |
| Anniversary.FirstOfTiedAnniversariesWins | app/src/main/java/com/example/memorymapp/MainActivity.kt:136-139 | of two memories on the target date the first in list order is chosen, and once today is stored neither is |
| Anniversary.OneYearAgoScenario | app/src/main/java/com/example/memorymapp/MainActivity.kt:123-140 | on 10/05/2024 the memory of 10/05/2023 is chosen over the one of 10/05/2024, and a second check that day chooses nothing |
| Anniversary.LeapYearTargets | app/src/main/java/com/example/memorymapp/MainActivity.kt:132-134 | the targets of 28/02/2025, 01/03/2025 and 29/02/2024 are 28/02/2024, 01/03/2024 and 28/02/2023 |
| Navigation.AddMemoryArgsDefaults | app/src/main/java/com/example/memorymapp/MainActivity.kt:80-89 | a missing `lat` or `lng` argument becomes 0, and a given one is passed through |
| Navigation.AddMemoryArgs | app/src/main/java/com/example/memorymapp/MainActivity.kt:87-88 | the coordinates the add screen receives from its route, a missing one as 0; `AddMemoryArgsDefaults` states both cases |
| MapOverlays.Eligible | app/src/main/java/com/example/memorymapp/ui/MapScreen.kt:67-68 | the memories the `forEach` draws, in list order: no more than the list holds; `EligibleContents` says which |
| MapOverlays.EligibleContents | app/src/main/java/com/example/memorymapp/ui/MapScreen.kt:67-68 | each memory with both coordinates non-zero is kept as often as it occurs in the list, and no other memory is kept |
| MapOverlays.MarkerEligible | app/src/main/java/com/example/memorymapp/ui/MapScreen.kt:68 | the marker test `memory.lat != 0.0 && memory.lng != 0.0`; `ZeroCoordinateNeverMarked` states its consequence |
| MapOverlays.MarkerFor | app/src/main/java/com/example/memorymapp/ui/MapScreen.kt:69-77 | the marker built for a memory; `MarkerOpensItsMemory` states its position, title, subtitle and click target |
| MapOverlays.WithoutMarkers | app/src/main/java/com/example/memorymapp/ui/MapScreen.kt:66 | `removeAll { it is Marker }`; `WithoutMarkersAppend` and `WithoutMarkersIdempotent` give its behaviour |
| MapOverlays.MarkersFor | app/src/main/java/com/example/memorymapp/ui/MapScreen.kt:67-81 | the markers the `forEach` appends, in list order; `MarkersMatchEligible` ties them one to one to the eligible memories |
| MapOverlays.MapView.constructor | app/src/main/java/com/example/memorymapp/ui/MapScreen.kt:45-63 | a new map holds only the gesture overlay |
| MapOverlays.Update | app/src/main/java/com/example/memorymapp/ui/MapScreen.kt:65-83 | after the update the non-marker overlays are those before, in order, followed by one marker per eligible memory in list order |
| MapOverlays.WithoutMarkersAppend | app/src/main/java/com/example/memorymapp/ui/MapScreen.kt:66 | `removeAll { it is Marker }` acts on a concatenation part by part |
| MapOverlays.MarkersMatchEligible | app/src/main/java/com/example/memorymapp/ui/MapScreen.kt:67-79 | the markers drawn correspond one to one, in order, to the eligible memories |
| MapOverlays.MarkersAreMarkers | app/src/main/java/com/example/memorymapp/ui/MapScreen.kt:69-79 | everything the loop adds is a marker |
| MapOverlays.WithoutMarkersIdempotent | app/src/main/java/com/example/memorymapp/ui/MapScreen.kt:66 | removing markers twice is removing them once, and leaves no marker |
| MapOverlays.RefreshSplits | app/src/main/java/com/example/memorymapp/ui/MapScreen.kt:66-81 | the update keeps every non-marker overlay and its markers are exactly the new list's |
| MapOverlays.MarkerCount | app/src/main/java/com/example/memorymapp/ui/MapScreen.kt:66-81 | the map shows as many markers as there are eligible memories, with no stale markers left |
| MapOverlays.RefreshIdempotent | app/src/main/java/com/example/memorymapp/ui/MapScreen.kt:65-83 | updating twice with the same list is updating once |
| MapOverlays.ZeroCoordinateNeverMarked | app/src/main/java/com/example/memorymapp/ui/MapScreen.kt:68 | every marker shown has both coordinates non-zero, and a memory with a zero coordinate has no marker |
| MapOverlays.LongPressOpensAddScreenAtPoint | app/src/main/java/com/example/memorymapp/ui/MapScreen.kt:54-59 | a long press on a point consumes the gesture and opens the add screen at that point |
| MapOverlays.SingleTapPassesThrough | app/src/main/java/com/example/memorymapp/ui/MapScreen.kt:53 | a single tap is not consumed and navigates nowhere |
| MapOverlays.LongPress | app/src/main/java/com/example/memorymapp/ui/MapScreen.kt:54-59 | `longPressHelper`: for a point, navigate to the add screen with its coordinates and consume the event; `LongPressOpensAddScreenAtPoint` states it |
| MapOverlays.SingleTap | app/src/main/java/com/example/memorymapp/ui/MapScreen.kt:53 | `singleTapConfirmedHelper`: do not consume, navigate nowhere; `SingleTapPassesThrough` states it |
| MapOverlays.MarkerOpensItsMemory | app/src/main/java/com/example/memorymapp/ui/MapScreen.kt:69-77 | a memory's marker sits at its coordinates, shows its description and date, and opens that memory's detail screen |
| MapOverlays.DefaultMemoryNotMarked | app/src/main/java/com/example/memorymapp/ui/MapScreen.kt:68 | a memory decoded with default coordinates gets no marker |
| AddMemoryScreen.OnEnter | app/src/main/java/com/example/memorymapp/ui/AddMemoryScreen.kt:45-49 | the screen's coordinates are copied into the view model and the lookup is started for exactly that point |
| AddMemoryScreen.OnSaveClicked | app/src/main/java/com/example/memorymapp/ui/AddMemoryScreen.kt:116-129 | clicked only while not loading: a blank description or zero latitude writes nothing and leaves loading off; otherwise it is `saveMemory` with the day the screen was opened, printed dd/MM/yyyy |
| AddMemoryScreen.SaveAllowed | app/src/main/java/com/example/memorymapp/ui/AddMemoryScreen.kt:119 | the Save gate `description.isNotBlank() && lat != 0.0`; `BlankDescriptionRejected`, `AcceptedWithoutMarker` and `AddButtonNeverSaves` give its consequences |
| AddMemoryScreen.BlankDescriptionRejected | app/src/main/java/com/example/memorymapp/ui/AddMemoryScreen.kt:119-126 | a description of spaces only is rejected, whatever the latitude |
| AddMemoryScreen.AcceptedWithoutMarker | app/src/main/java/com/example/memorymapp/ui/AddMemoryScreen.kt:119 | a memory with zero longitude and non-zero latitude can be saved, yet the map never marks it |
| AddMemoryScreen.DefaultMemoryRejected | app/src/main/java/com/example/memorymapp/ui/AddMemoryScreen.kt:119 | the description and latitude of the default `Memory()` are rejected |
| AddMemoryScreen.AddButtonNeverSaves | app/src/main/java/com/example/memorymapp/ui/MapScreen.kt:131 | through the top bar's Add icon the latitude defaults to 0, so Save is rejected whatever the description |
| AddMemoryScreen.LongPressEnablesSave | app/src/main/java/com/example/memorymapp/ui/MapScreen.kt:54-56 | through a long press at a point with non-zero latitude, a non-blank description is accepted |
| AddMemoryScreen.SavedDateIsTargetAYearLater | app/src/main/java/com/example/memorymapp/ui/AddMemoryScreen.kt:43 | a memory saved on day D (not 29 February) is the anniversary target on the same day one year later |

## Left out

- Coord: `Double` is modelled as `int`. So -0.0, NaN and the `toDoubleOrNull` parsing of the route arguments are not modelled. The route is modelled by the `Destination` datatype, not by the string `"add_memory?lat=…&lng=…"`.
- Dates: only four-digit Gregorian years are modelled, and the anniversary check assumes today's year is after 1583. Locale-specific digits are not modelled either.
- Concurrency: the geocoding coroutine, the listener callbacks and the write callbacks are separate methods. Their interleavings are not modelled. In particular, a lookup that finishes late can overwrite the address of a newer form, because nothing cancels it.
- ViewModel.MemoryViewModel.FetchMemories: a listener is never removed, and sign-out does not detach one. The model only records registrations.
- External services become parameters: Firebase authentication and the database, the `Geocoder`, `SharedPreferences` and the clock. The database connection URL is not modelled.
- User-interface effects are not modelled: the "Memory saved!" and "Please write a description" toasts, `popBackStack` and the `onComplete` callback. Neither are the marker icon and anchor or `invalidate`.
- Notifications: the notification channel, its id (taken from the clock), the pending intent and the permission request are not modelled.
- Out of scope: the "Location Not Found" fallback of the memories list, the login, sign-up, welcome, account, memories and detail screens, and MemoryRepository.kt.
- `None` stands for a null `getValue` result. A child that fails conversion throws out of `onDataChange`, and that exception path is not modelled.
- The marker refresh removes every marker and redraws them all. No add/remove delta is computed, so none is modelled (`MapOverlays.Update`).
- Only a memory with both coordinates non-zero gets a marker, so one on the equator or the prime meridian gets none (`MapOverlays.MarkerEligible`).
- The Save gate checks only the latitude. A memory with a zero longitude is saved, but it never gets a marker (`AddMemoryScreen.SaveAllowed`, `AddMemoryScreen.AcceptedWithoutMarker`).
