# Room booking rules, modelled in Dafny

This project models the booking rules of a Django hotel backend, stated over whole calendar days:

- **Occupancy.** A room's reserved days are the inclusive daily runs of its Booked and Active reservations.
- **Admission.** The create, update and cancel handlers accept or reject a request.
- **Room list.** The room-list backends filter on free days, price and capacity.
- **Status pass.** A periodic pass moves reservations from Booked to Active to Expired.
- **Capacity.** A room's capacity comes from its bed type.
- **Permissions.** An owner-or-admin check, and the permission dispatch that never uses it.

Dates are integer day numbers. The current day (`today`) is an explicit parameter. The reservations table is a sequence of records. The periodic pass works in place on an array.

Modules, one per source file, plus three helpers:

| file | module | models |
|---|---|---|
| `wrappers.dfy` | `Wrappers` | `Option` (optional room and query parameters, lookups) |
| `sequences.dfy` | `Sequences` | order-preserving `Filter` (query-set `.filter`, list comprehensions) and `SubsequenceOf` |
| `daily_rule.dfy` | `DailyRule` | the daily recurrence with an inclusive UNTIL (FREQ=DAILY in section 3.3.10 of RFC 5545) |
| `models.dfy` | `Models` | rooms, reservations, statuses, bed types, the manager's queries, `Room.reserved_dates`, the date validators, the no-double-booking invariant |
| `views.dfy` | `Views` | `check_conflicting_dates`, the create/update/destroy handlers (a `ReservationStore` class plus the decision functions that specify them), `get_permissions`, `get_queryset` |
| `backends.dfy` | `Backends` | `DateRangeFilterBackend`, `DayCostFilter`, `TravellersFilter`, and their composition in the room list |
| `tasks.dfy` | `Tasks` | `update_reservation_status` |
| `signals.dfy` | `Signals` | `calculate_travellers` |
| `permissions.dfy` | `Permissions` | `IsOwnerOrAdminPermission.has_object_permission` |

The central property is `NoDoubleBooking`: no two Booked or Active reservations of one room share a day. Accepted creates, updates and cancellations all preserve it (`CreatePreservesNoDoubleBooking`, `UpdatePreservesNoDoubleBooking`, `DestroyPreservesNoDoubleBooking`). So does the status pass (`PassPreservesTableInvariants`). This holds only because the model is sequential; see "Left out".

Behaviours of the code a reader might not expect, kept in the model as written:

- **Reversed periods are accepted.** Create and update never reject a period whose start is after its end. Such a reservation is accepted and occupies no day, so the same request is accepted again (`ReversedCreateTakesNoDay`, `ReversedCreateRepeatable`). A date-range filter on the room list does reject a reversed period.
- **Reserved days are a list, not a set.** Overlapping reservations repeat a day in it (`ReservedDaysLength`), and the conflict list repeats it too.
- **The permission dispatch is kept as written.** `self.action == 'create' or 'get'` is always truthy, so every action gets `IsAuthenticated` (`GetPermissionsIgnoresAction`). For an authenticated requester this changes no answer: the per-user query set already limits every lookup to the requester's own reservations, and on those the owner-or-admin check would always grant (`OwnerCheckGrantsEveryVisibleObject`). Authentication itself is not modelled. Under the evidently intended dispatch, an anonymous request to update, destroy, list or retrieve would pass, because `IsOwnerOrAdminPermission` inherits an always-allowing `has_permission`, and would get a 404 or an empty list where it now gets a 401.
- **Update has no status check.** A Refused or Expired reservation can still have its dates and room changed. Resubmitting a reservation's own dates is guaranteed conflict-free only when the reservation is itself Booked or Active (`UpdateOwnDatesNeverConflict`). A Refused reservation's old days may have been taken by someone else since.
- **An empty date on update is filled in for the conflict check only.** `if not starting_date_str` takes the stored date when the field is omitted, `""` or `null`. The partial serializer then validates what was sent, so an empty or null date is refused with a 400 (`BlankDate`) while an omitted one is accepted (`UpdateBlankDateRejected`).
- **The status pass re-checks nothing before writing.** It works on the rows it selected at the start.

## Model

| member | source | states |
|---|---|---|
| `DailyRule.DailyRun` | app/rooms/models.py:87 | the daily run from start to end has end − start + 1 days when start ≤ end and none otherwise, and its i-th day is start + i (increasing, no repeats) |
| `DailyRule.DailyRunIncreasing` | app/rooms/models.py:87 | the run is strictly increasing, so no day is listed twice by one reservation |
| `DailyRule.DailyRunMembers` | app/rooms/models.py:87-89 | a day is in the run iff start ≤ day ≤ end (both ends inclusive) |
| `Models.FindRoom` | app/rooms/api/v1/views.py:92 | room lookup by primary key: a found room has that id; no room when the key is missing or matches no row |
| `Models.Occupying` | app/rooms/models.py:13-25 | the manager query returns exactly the rows that are Booked or Active, belong to the room and are not the excluded id |
| `Models.OccupyingIsFilter` | app/rooms/models.py:13-25 | the manager query is the generic order-preserving filter on that condition, so it keeps table order and each row's multiplicity |
| `Models.ReservedDays` | app/rooms/models.py:74-91 | the value `reserved_dates` returns: the daily runs of the manager query's rows, concatenated in order; its properties are the lemmas below |
| `Models.ReservedDates` | app/rooms/models.py:74-91 | the loop that extends a list with each selected reservation's daily run yields the room's reserved-day list |
| `Models.ReservedDaysSnoc` | app/rooms/models.py:83-89 | one more reservation in the table appends exactly its own run (or nothing, if it does not hold the room) |
| `Models.ReservedDaysMembers` | app/rooms/models.py:74-91 | a day is reserved iff some Booked or Active reservation of this room, other than the excluded one, has start ≤ day ≤ end; Refused, Expired and other rooms' reservations contribute nothing |
| `Models.ReservedDaysLength` | app/rooms/models.py:81-91 | the list is a concatenation: its length is the sum of the blocking reservations' day counts, repeats included |
| `Models.ReservedDaysAppend` | app/rooms/models.py:83-89 | the list for a concatenated table is the concatenation of the two lists, in table order |
| `Models.ExcludeAbsentId` | app/rooms/models.py:75-80 | excluding an id no reservation carries leaves the list unchanged |
| `Models.ExcludeRemovesOneRun` | app/rooms/models.py:22-25 | with an id, the list is the unfiltered list with exactly that reservation's run removed from its place (also as multisets) |
| `Models.ValidateDateWithinTwoWeeks` | app/rooms/models.py:114-119 | the validator passes iff the day is at most today + 14; see `BookingWindowIsTwoWeekRun` |
| `Models.ValidateFutureDate` | app/rooms/models.py:121-123 | the validator passes iff the day is not before today; see `BookingWindowIsTwoWeekRun` |
| `Models.BookingWindowIsTwoWeekRun` | app/rooms/models.py:114-123 | both validators accept exactly the 15 days from today to today + 14: today and today + 14 accepted, today − 1 and today + 15 refused |
| `Models.OverlapsIffSharedDay` | app/rooms/api/v1/views.py:72-76 | the closed-form overlap of two inclusive ranges holds iff they share a day |
| `Views.InPeriod` | app/rooms/api/v1/views.py:72-76 | the comprehension keeps exactly the days with start ≤ day ≤ end, in their order |
| `Views.ConflictingDates` | app/rooms/api/v1/views.py:67-77 | a day is in the conflict list iff it lies in [start, end] and is held by a blocking reservation of the room other than the excluded one; the list keeps the reserved list's order |
| `Views.CheckConflictingDates` | app/rooms/api/v1/views.py:67-77 | the method (reserved list, then comprehension) returns that conflict list |
| `Views.ConflictsEmptyIff` | app/rooms/api/v1/views.py:70-76 | the conflict list is empty iff no other Booked or Active reservation of the room overlaps [start, end] |
| `Views.ReversedPeriodNeverConflicts` | app/rooms/api/v1/views.py:72-76 | a period with start > end has an empty conflict list |
| `Views.ConflictOnSharedBoundaryDay` | app/rooms/api/v1/views.py:75 | a reservation ending on day D conflicts with a request starting on D |
| `Views.GetQueryset` | app/rooms/api/v1/views.py:191-192 | the query set holds exactly the requester's reservations, in table order |
| `Views.FindOwned` | app/rooms/api/v1/views.py:124 | get_object finds a reservation with that id owned by the requester, or none when there is no such row |
| `Views.LookupStaysInQueryset` | app/rooms/api/v1/views.py:191-192 | a found reservation is in the requester's query set; the lookup fails iff the query set has no such id, so another user's id is not found |
| `Views.GetPermissions` | app/rooms/api/v1/views.py:185-189 | the dispatch as written, with Python truthiness of the literal `'get'`; see `GetPermissionsIgnoresAction` |
| `Views.GetPermissionsIgnoresAction` | app/rooms/api/v1/views.py:185-189 | every action, update and destroy included, gets IsAuthenticated; the owner-or-admin class is never dispatched |
| `Views.OwnerCheckGrantsEveryVisibleObject` | app/rooms/api/v1/views.py:185-192 | for an authenticated requester, the owner-or-admin check would grant every reservation the query set exposes, so not dispatching it changes no object-level answer |
| `Views.CreateOutcome` | app/rooms/api/v1/views.py:79-116 | the answer of `create`, checks in source order; its properties are `CreateAcceptedIff` and `CreateRejectionOrder` |
| `Views.CreateAcceptedIff` | app/rooms/api/v1/views.py:79-116 | create is accepted iff both dates are given, the room exists and is active, no blocking reservation of the room overlaps the period, and both dates are in the window; the new reservation is Booked, owned by the requester, on the requested room and days |
| `Views.CreateRejectionOrder` | app/rooms/api/v1/views.py:84-110 | missing or empty dates, then unknown room, then inactive room, then conflict (reporting exactly the conflicting days), then window: the first failing check decides, so a conflicting out-of-window request is reported as a conflict |
| `Views.CreatePreservesNoDoubleBooking` | app/rooms/api/v1/views.py:100-115 | an accepted create leaves no room held twice on a day |
| `Views.RepeatedCreateRejected` | app/rooms/api/v1/views.py:100-115 | repeating an accepted request with start ≤ end is rejected with a conflict listing every day of the period |
| `Views.ReversedCreateTakesNoDay` | app/rooms/api/v1/views.py:100-115 | an accepted reversed request leaves every room's reserved list unchanged |
| `Views.ReversedCreateRepeatable` | app/rooms/api/v1/views.py:100-115 | the same reversed request is accepted again |
| `Views.UpdateOutcome` | app/rooms/api/v1/views.py:118-165 | the answer of `update`, checks in source order; its properties are the lemmas below |
| `Views.UpdateKeepsIdentity` | app/rooms/api/v1/views.py:124-165 | an accepted update had no empty date, keeps id, owner and status, takes each omitted date from the stored reservation and moves it to the requested room |
| `Views.UpdateAcceptedIff` | app/rooms/api/v1/views.py:118-165 | update is accepted iff the requester owns the reservation, the room exists and is active, no other blocking reservation of the room overlaps the period (falsy dates taken from the stored row), no date is sent empty, and every sent date is in the window |
| `Views.UpdateRejectionOrder` | app/rooms/api/v1/views.py:124-158 | reservation not owned, then unknown room, then inactive room, then conflict (reporting exactly the conflicting days), then an empty date, then the window: the first failing check decides |
| `Views.UpdateBlankDateRejected` | app/rooms/api/v1/views.py:126-158 | sending a Booked or Active reservation's starting date as an empty field passes the conflict check and is then refused by the serializer |
| `Views.UpdateOwnDatesNeverConflict` | app/rooms/api/v1/views.py:124-145 | resubmitting a Booked or Active reservation's own room and dates is never rejected as a conflict, given unique ids and no double booking |
| `Views.UpdatePreservesNoDoubleBooking` | app/rooms/api/v1/views.py:143-159 | an accepted update leaves no room held twice on a day |
| `Views.DestroyOutcome` | app/rooms/api/v1/views.py:167-183 | the answer of `destroy`; its properties are `DestroyRefusesFromAnyStatus` and `DestroyPreservesNoDoubleBooking` |
| `Views.DestroyRefusesFromAnyStatus` | app/rooms/api/v1/views.py:167-183 | on a refundable room the reservation becomes Refused whatever its status, with no other field changed; on a non-refundable room the answer is a rejection |
| `Views.DestroyPreservesNoDoubleBooking` | app/rooms/api/v1/views.py:175-180 | a cancellation leaves no room held twice on a day |
| `Views.ReservationStore.Create` | app/rooms/api/v1/views.py:79-116 | the handler answers as the create decision; a rejection adds no row, an acceptance appends exactly the new reservation; the store stays valid: unique ids, no room held twice on a day |
| `Views.ReservationStore.Update` | app/rooms/api/v1/views.py:118-165 | the handler answers as the update decision and, when accepted, replaces only that reservation's row; the store stays valid |
| `Views.ReservationStore.Destroy` | app/rooms/api/v1/views.py:167-183 | the handler answers as the destroy decision; when accepted, only that reservation's row is replaced (by the refused copy of `DestroyRefusesFromAnyStatus`); when rejected, nothing changes; the store stays valid |
| `Backends.HasFreeDayIff` | app/rooms/backends.py:31-38 | `not all(day in reserved ...)` holds iff some day of the period is held by no Booked or Active reservation of the room |
| `Backends.DateRangeFilter` | app/rooms/backends.py:11-40 | `DateRangeFilterBackend.filter_queryset`; its properties are `DateRangeFilterKeeps`, `DateRangeDefaults` and `UnreservedRoomKept` |
| `Backends.DateRangeFilterKeeps` | app/rooms/backends.py:11-40 | an unparseable date returns the list unchanged; the result is an error iff start > end; otherwise it is an order-preserving subsequence keeping exactly the rooms with a free day |
| `Backends.DateRangeDefaults` | app/rooms/backends.py:15-23 | missing start and end mean today and today + 14, and that period is never rejected |
| `Backends.UnreservedRoomKept` | app/rooms/backends.py:34-38 | a room with no Booked or Active reservation is always kept |
| `Backends.FourDayReservationScenario` | app/rooms/tests.py:271-319 | with the room booked on [today, today + 3], filtering on [today, today] drops it and filtering on [today, today + 4] keeps it |
| `Backends.DayCostFilter` | app/rooms/backends.py:43-50 | no parameter: list unchanged; otherwise exactly the rooms with day cost ≤ parameter, order kept |
| `Backends.TravellersFilter` | app/rooms/backends.py:53-60 | no parameter: list unchanged; otherwise exactly the rooms whose capacity is set and ≥ parameter, order kept |
| `Backends.ListRooms` | app/rooms/api/v1/views.py:49-56 | the room list: the cost, capacity and date-range backends applied in turn; see `ListRoomsKeeps` |
| `Backends.ListRoomsKeeps` | app/rooms/api/v1/views.py:49-56 | the listed rooms are exactly those passing the cost bound, the capacity bound and having a free day in the period |
| `Tasks.Advance` | app/app/tasks.py:19-26 | the status one pass leaves on a row; its properties are `AdvanceTransitions` and `AdvanceMonotone` |
| `Tasks.AdvanceAll` | app/app/tasks.py:18-26 | each row's new state depends only on that row and today |
| `Tasks.UpdateReservationStatus` | app/app/tasks.py:11-27 | the in-place loop leaves every row as one pass of the transition rule makes it |
| `Tasks.AdvanceTransitions` | app/app/tasks.py:13-26 | Refused and Expired never change; Booked stays Booked unless it starts today; Booked starting today and Active become Expired if they ended before today, Active otherwise (same-pass expiry); only the status changes |
| `Tasks.AdvanceMonotone` | app/app/tasks.py:19-26 | transitions only go forward along Booked, Active, Expired; the pass never produces Booked or Refused |
| `Tasks.PassIdempotent` | app/app/tasks.py:18-26 | running the pass twice on the same day equals running it once |
| `Tasks.PassIsPerRow` | app/app/tasks.py:18-26 | the pass over a split table is the pass over each part, so no row's outcome depends on another row or on loop order |
| `Tasks.PassPreservesTableInvariants` | app/app/tasks.py:19-26 | the pass keeps ids unique and no room held twice on a day |
| `Signals.TravellersFor` | app/rooms/signals.py:10-17 | a capacity is derived exactly for the four bed-type values, and it is always 1, 2 or 4 |
| `Signals.CapacityTable` | app/rooms/signals.py:10-17 | Twin gives 1, Double 2, TwinBunk 2, DoubleTwinBunk 4 |
| `Signals.CalculateTravellers` | app/rooms/signals.py:7-17 | for a known bed type the capacity is overwritten whatever it held; no other field and no other room changes; an unknown text leaves the room as it was |
| `Permissions.HasObjectPermission` | app/rooms/permissions.py:5-8 | granted (True) iff superuser or owner; otherwise the result is None |
| `Permissions.DecisionDependsOnFlagAndOwnership` | app/rooms/permissions.py:7 | the decision depends only on the superuser flag and on ownership; being allowed means superuser or owner |

## Left out

- HTTP plumbing is reduced to the `Outcome` datatype: routing, serializers, response bodies and status codes, swagger decorators, pagination and `OrderingFilter`.
- Date strings are taken already parsed to day numbers. An unparseable date in create or update makes the parser raise (a server error); that path is not modelled. In the room list, an unparseable date is modelled as `DateParam.Unparseable`.
- Both clocks, `timezone.now` (UTC) and `datetime.now` (local), become the one `today` parameter, so a day boundary between the two time zones is not modelled.
- Time of day is dropped: dates are already truncated with `.date()`.
- Persistence is not modelled. ORM queries, `save`, `auto_now` timestamps and UUID generation are out. The new primary key is a parameter, and `Create` requires it to be unused, as a random UUID is in practice.
- Concurrency is not modelled. Two overlapping creates running at the same time can both pass the conflict check, because nothing locks the table. The status pass can also overwrite a cancellation made after it read the row.
- Views.DestroyOutcome: the room is the reservation's own room. The source looks the room up by name, which fails when two rooms share a name; that lookup is not modelled.
- Views.ReservationStore.Destroy: the request body is assumed empty. The source also applies any fields sent with the cancellation.
- Views.ReservationStore.Update: only the dates and the room are written. Other writable fields in the request body are not modelled; status and owner are read-only in the source as well.
- The room's `name`, `number` and `rating` are carried but not used. The unique (name, number) constraint and the 0–10 rating validators are not modelled.
- Floats: `day_cost` is a `real` and capacity an `int`; float rounding and non-integer capacities from the query string are ignored.
- Query-set order: `Reservation.Meta` sets no `ordering`, so the database may return rows in any order. The model fixes table order for the query sets, the reserved-day list (`ReservedDaysAppend`) and the conflict list. The lists' members and multiplicities do not depend on that choice.
- Views.UpdateOutcome: when one date is sent empty and the other is sent outside the window, the serializer reports both field errors in one 400; the model reports `BlankDate`.
- The task scheduler (the 20-second schedule), admin registration, migrations and the test factories are out of scope.
