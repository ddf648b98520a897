/** `ReservationViewSet` of app/rooms/api/v1/views.py: the conflict check, the
    create, update and destroy handlers, the permission dispatch and the
    per-user query set. HTTP responses are reduced to an `Outcome`. */
module Views {
  import opened Wrappers
  import opened Sequences
  import opened DailyRule
  import opened Models
  import Permissions

  /** A date field of a request body: the key is missing, it is sent empty
      (`""` or `null`, both falsy), or it carries a date, already parsed to a day. */
  datatype DateField = Omitted | Blank | Sent(day: int)
  {
    /** The sent day, or `default` when the field is falsy (`if not date_str`). */
    function DayOr(default: int): int {
      if Sent? then day else default
    }
  }

  /** The fields of a request body the handlers read. */
  datatype Request = Request(room: Option<RoomId>, startingDate: DateField, endingDate: DateField)

  /** Why a handler answers 400. */
  datatype Reason =
    | MissingDates          // 'Invalid time period'
    | RoomInactive          // 'Room is unavaliable at the moment'
    | Conflict(days: seq<int>)  // 'Conflicting dates: ...'
    | OutOfWindow           // a date validator raised ValidationError
    | BlankDate             // the serializer refused an empty date field
    | NonRefundable         // 'This room is unrefundable'

  /** The handler's answer: the saved reservation, a rejection, or 404. */
  datatype Outcome = Done(reservation: Reservation) | Rejected(reason: Reason) | NotFound

  // ---------------------------------------------------------------------------
  // check_conflicting_dates
  // ---------------------------------------------------------------------------

  /** The comprehension `[date for date in days if start <= date <= end]`. */
  function InPeriod(days: seq<int>, startingDate: int, endingDate: int): (inside: seq<int>)
    ensures forall d :: d in inside <==> d in days && Within(d, startingDate, endingDate)
    ensures SubsequenceOf(inside, days)
  {
    Filter(days, d => startingDate <= d <= endingDate)
  }

  /** The list `check_conflicting_dates` returns: the room's reserved days
      (the excluded reservation left out) that fall in [start, end]. */
  function ConflictingDates(rows: seq<Reservation>, room: RoomId, startingDate: int, endingDate: int,
                            exclude: Option<ResId>): (conflicts: seq<int>)
    ensures forall d :: d in conflicts <==> Within(d, startingDate, endingDate) && DayTaken(rows, room, exclude, d)
    ensures SubsequenceOf(conflicts, ReservedDays(rows, room, exclude))
  {
    ReservedDaysMembersAll(rows, room, exclude);
    InPeriod(ReservedDays(rows, room, exclude), startingDate, endingDate)
  }

  /** `check_conflicting_dates`: computes the room's reserved days, then keeps
      those inside the requested period, inclusive at both ends. */
  method CheckConflictingDates(rows: seq<Reservation>, room: RoomId, startingDate: int, endingDate: int,
                               reservationId: Option<ResId>) returns (conflicts: seq<int>)
    ensures conflicts == ConflictingDates(rows, room, startingDate, endingDate, reservationId)
  {
    var reserved := ReservedDates(rows, room, reservationId);
    conflicts := InPeriod(reserved, startingDate, endingDate);
  }

  /** No Booked or Active reservation of the room, other than the excluded one,
      shares a day with [start, end]. */
  ghost predicate Admissible(rows: seq<Reservation>, room: RoomId, startingDate: int, endingDate: int,
                             exclude: Option<ResId>) {
    forall k :: 0 <= k < |rows| && Blocks(rows[k], room, exclude) ==>
      !Overlaps(rows[k].startingDate, rows[k].endingDate, startingDate, endingDate)
  }

  /** The conflict list is empty exactly when no other Booked or Active
      reservation of the room shares a day with the requested period. */
  lemma ConflictsEmptyIff(rows: seq<Reservation>, room: RoomId, startingDate: int, endingDate: int,
                          exclude: Option<ResId>)
    ensures ConflictingDates(rows, room, startingDate, endingDate, exclude) == []
            <==> Admissible(rows, room, startingDate, endingDate, exclude)
  {
    var conflicts := ConflictingDates(rows, room, startingDate, endingDate, exclude);
    if conflicts != [] {
      var d := conflicts[0];
      assert d in conflicts;
      var k :| 0 <= k < |rows| && Blocks(rows[k], room, exclude) && rows[k].startingDate <= d <= rows[k].endingDate;
      assert Overlaps(rows[k].startingDate, rows[k].endingDate, startingDate, endingDate);
    }
    if !Admissible(rows, room, startingDate, endingDate, exclude) {
      var k :| 0 <= k < |rows| && Blocks(rows[k], room, exclude)
               && Overlaps(rows[k].startingDate, rows[k].endingDate, startingDate, endingDate);
      var d := if rows[k].startingDate < startingDate then startingDate else rows[k].startingDate;
      assert DayTaken(rows, room, exclude, d);
      assert d in conflicts;
    }
  }

  /** A reversed period (start after end) never conflicts. */
  lemma ReversedPeriodNeverConflicts(rows: seq<Reservation>, room: RoomId, startingDate: int, endingDate: int,
                                     exclude: Option<ResId>)
    requires startingDate > endingDate
    ensures ConflictingDates(rows, room, startingDate, endingDate, exclude) == []
  {
    ConflictsEmptyIff(rows, room, startingDate, endingDate, exclude);
  }

  /** Boundaries are inclusive: a reservation ending on day D conflicts with a
      request starting on D. */
  lemma ConflictOnSharedBoundaryDay(rows: seq<Reservation>, k: nat, d: int, endingDate: int)
    requires k < |rows| && IsBlocking(rows[k].status)
    requires rows[k].startingDate <= d == rows[k].endingDate && d <= endingDate
    ensures d in ConflictingDates(rows, rows[k].room, d, endingDate, None)
  {
    assert DayTaken(rows, rows[k].room, None, d);
  }

  // ---------------------------------------------------------------------------
  // get_queryset and get_object
  // ---------------------------------------------------------------------------

  /** `get_queryset`: the requester's own reservations, in table order. */
  function GetQueryset(rows: seq<Reservation>, requester: UserId): (visible: seq<Reservation>)
    ensures forall r :: r in visible <==> r in rows && r.user == requester
    ensures SubsequenceOf(visible, rows)
  {
    Filter(rows, (r: Reservation) => r.user == requester)
  }

  /** `get_object`: the index of the requester's reservation with this id, or
      None (404). */
  function FindOwned(rows: seq<Reservation>, requester: UserId, id: ResId): (k: Option<nat>)
    ensures k.Some? ==> k.value < |rows| && rows[k.value].id == id && rows[k.value].user == requester
    ensures k.None? ==> forall i :: 0 <= i < |rows| ==> !(rows[i].id == id && rows[i].user == requester)
    decreases |rows|
  {
    if |rows| == 0 then None
    else if rows[|rows| - 1].id == id && rows[|rows| - 1].user == requester then Some(|rows| - 1)
    else FindOwned(rows[..|rows| - 1], requester, id)
  }

  /** A user only reaches reservations in their own query set: the one found
      is theirs, and another user's id is not found. */
  lemma LookupStaysInQueryset(rows: seq<Reservation>, requester: UserId, id: ResId)
    ensures FindOwned(rows, requester, id).Some? ==>
              rows[FindOwned(rows, requester, id).value] in GetQueryset(rows, requester)
    ensures FindOwned(rows, requester, id).None? <==>
              forall r :: r in GetQueryset(rows, requester) ==> r.id != id
  {
    var visible := GetQueryset(rows, requester);
    if FindOwned(rows, requester, id).None? {
      forall r | r in visible ensures r.id != id {
        var i :| 0 <= i < |rows| && rows[i] == r;
      }
    }
  }

  // ---------------------------------------------------------------------------
  // get_permissions
  // ---------------------------------------------------------------------------

  /** The permission classes the view can hand out. */
  datatype PermissionClass = IsAuthenticated | IsOwnerOrAdminPermission

  /** Python truthiness of a string. */
  predicate Truthy(s: string) {
    s != ""
  }

  /** `get_permissions` as written: `self.action == 'create' or 'get'` parses
      as `(self.action == 'create') or 'get'`, and the literal is truthy. */
  function GetPermissions(action: string): PermissionClass {
    if action == "create" || Truthy("get") then IsAuthenticated else IsOwnerOrAdminPermission
  }

  /** Every action, update and destroy included, gets `IsAuthenticated`; the
      owner-or-admin class is never used. */
  lemma GetPermissionsIgnoresAction(action: string)
    ensures GetPermissions(action) == IsAuthenticated
    ensures GetPermissions(action) != IsOwnerOrAdminPermission
  {
  }

  /** The owner-or-admin check would grant every object the query set lets a
      user reach, so never dispatching it changes no answer. */
  lemma OwnerCheckGrantsEveryVisibleObject(rows: seq<Reservation>, requester: User, r: Reservation)
    requires r in GetQueryset(rows, requester.id)
    ensures Permissions.Allowed(Permissions.HasObjectPermission(requester, r.user))
  {
  }

  // ---------------------------------------------------------------------------
  // Decisions of the handlers
  // ---------------------------------------------------------------------------

  /** The answer `create` gives. `newId` is the generated primary key. */
  function CreateOutcome(rows: seq<Reservation>, rooms: seq<Room>, requester: UserId, req: Request,
                         newId: ResId, today: int): Outcome
  {
    if !req.startingDate.Sent? || !req.endingDate.Sent? then Rejected(MissingDates)
    else
      var startingDate, endingDate := req.startingDate.day, req.endingDate.day;
      match FindRoom(rooms, req.room)
      case None => NotFound
      case Some(room) =>
        if !room.active then Rejected(RoomInactive)
        else
          var conflicts := ConflictingDates(rows, room.id, startingDate, endingDate, None);
          if conflicts != [] then Rejected(Conflict(conflicts))
          else if !(InBookingWindow(startingDate, today) && InBookingWindow(endingDate, today)) then
            Rejected(OutOfWindow)
          else
            Done(Reservation(newId, startingDate, endingDate, room.id, requester, Booked))
  }

  /** A create is accepted exactly when both dates are given, the room exists
      and is active, no Booked or Active reservation of the room shares a day
      with the period, and both dates are within the two-week window. The new
      reservation is Booked, owned by the requester, on the requested days. */
  lemma CreateAcceptedIff(rows: seq<Reservation>, rooms: seq<Room>, requester: UserId, req: Request,
                          newId: ResId, today: int)
    ensures CreateOutcome(rows, rooms, requester, req, newId, today).Done? <==>
              && req.startingDate.Sent? && req.endingDate.Sent?
              && FindRoom(rooms, req.room).Some? && FindRoom(rooms, req.room).value.active
              && Admissible(rows, req.room.value, req.startingDate.day, req.endingDate.day, None)
              && InBookingWindow(req.startingDate.day, today) && InBookingWindow(req.endingDate.day, today)
    ensures CreateOutcome(rows, rooms, requester, req, newId, today).Done? ==>
              CreateOutcome(rows, rooms, requester, req, newId, today).reservation
              == Reservation(newId, req.startingDate.day, req.endingDate.day, req.room.value, requester, Booked)
  {
    if req.startingDate.Sent? && req.endingDate.Sent? && FindRoom(rooms, req.room).Some? {
      ConflictsEmptyIff(rows, req.room.value, req.startingDate.day, req.endingDate.day, None);
    }
  }

  /** The checks run in order — dates given, room found, room active, no
      conflict, window — and the first failing one decides; in particular a
      conflicting request is reported as a conflict even when its dates are
      also outside the window. */
  lemma CreateRejectionOrder(rows: seq<Reservation>, rooms: seq<Room>, requester: UserId, req: Request,
                             newId: ResId, today: int)
    ensures var o := CreateOutcome(rows, rooms, requester, req, newId, today);
            var dated := req.startingDate.Sent? && req.endingDate.Sent?;
            var found := dated && FindRoom(rooms, req.room).Some?;
            var open := found && FindRoom(rooms, req.room).value.active;
      && (!dated ==> o == Rejected(MissingDates))
      && (dated && !found ==> o == NotFound)
      && (found && !open ==> o == Rejected(RoomInactive))
      && (open && !Admissible(rows, req.room.value, req.startingDate.day, req.endingDate.day, None)
          ==> o == Rejected(Conflict(ConflictingDates(rows, req.room.value, req.startingDate.day, req.endingDate.day, None)))
              && ConflictingDates(rows, req.room.value, req.startingDate.day, req.endingDate.day, None) != [])
      && (open && Admissible(rows, req.room.value, req.startingDate.day, req.endingDate.day, None)
          && !(InBookingWindow(req.startingDate.day, today) && InBookingWindow(req.endingDate.day, today))
          ==> o == Rejected(OutOfWindow))
  {
    if req.startingDate.Sent? && req.endingDate.Sent? && FindRoom(rooms, req.room).Some? {
      ConflictsEmptyIff(rows, req.room.value, req.startingDate.day, req.endingDate.day, None);
    }
  }

  /** An accepted create keeps every room free of double booking. */
  lemma CreatePreservesNoDoubleBooking(rows: seq<Reservation>, rooms: seq<Room>, requester: UserId, req: Request,
                                       newId: ResId, today: int)
    requires NoDoubleBooking(rows)
    requires CreateOutcome(rows, rooms, requester, req, newId, today).Done?
    ensures NoDoubleBooking(rows + [CreateOutcome(rows, rooms, requester, req, newId, today).reservation])
  {
    var added := CreateOutcome(rows, rooms, requester, req, newId, today).reservation;
    CreateAcceptedIff(rows, rooms, requester, req, newId, today);
    var after := rows + [added];
    forall i, j | 0 <= i < j < |after| ensures !Clash(after[i], after[j]) {
      if j == |rows| {
        assert after[i] == rows[i];
        if Clash(after[i], after[j]) {
          assert Blocks(rows[i], added.room, None);
          assert false;
        }
      } else {
        assert after[i] == rows[i] && after[j] == rows[j];
      }
    }
  }

  /** Submitting the same non-reversed request twice: the second is rejected
      with a conflict that lists every day of the period. */
  lemma RepeatedCreateRejected(rows: seq<Reservation>, rooms: seq<Room>, requester: UserId, other: UserId,
                               req: Request, id1: ResId, id2: ResId, today: int)
    requires CreateOutcome(rows, rooms, requester, req, id1, today).Done?
    requires req.startingDate.day <= req.endingDate.day
    ensures var after := rows + [CreateOutcome(rows, rooms, requester, req, id1, today).reservation];
            var second := CreateOutcome(after, rooms, other, req, id2, today);
            && second.Rejected? && second.reason.Conflict?
            && forall d :: req.startingDate.day <= d <= req.endingDate.day ==> d in second.reason.days
  {
    var first := CreateOutcome(rows, rooms, requester, req, id1, today).reservation;
    var room := FindRoom(rooms, req.room).value;
    var s, e := req.startingDate.day, req.endingDate.day;
    assert first == Reservation(id1, s, e, room.id, requester, Booked);
    var after := rows + [first];
    assert after[|rows|] == first;
    var conflicts := ConflictingDates(after, room.id, s, e, None);
    forall d | s <= d <= e ensures d in conflicts {
      assert DayTaken(after, room.id, None, d);
    }
    assert s in conflicts;
    assert CreateOutcome(after, rooms, other, req, id2, today) == Rejected(Conflict(conflicts));
  }

  /** A reversed request (start after end) is accepted and takes no day: every
      room's reserved list is what it was before. */
  lemma ReversedCreateTakesNoDay(rows: seq<Reservation>, rooms: seq<Room>, requester: UserId,
                                 req: Request, newId: ResId, today: int)
    requires CreateOutcome(rows, rooms, requester, req, newId, today).Done?
    requires req.startingDate.day > req.endingDate.day
    ensures var after := rows + [CreateOutcome(rows, rooms, requester, req, newId, today).reservation];
            forall room :: ReservedDays(after, room, None) == ReservedDays(rows, room, None)
  {
    var added := CreateOutcome(rows, rooms, requester, req, newId, today).reservation;
    assert added.startingDate > added.endingDate;
    forall room ensures ReservedDays(rows + [added], room, None) == ReservedDays(rows, room, None) {
      ReservedDaysSnoc(rows, added, room, None);
    }
  }

  /** So the same reversed request is accepted again. */
  lemma ReversedCreateRepeatable(rows: seq<Reservation>, rooms: seq<Room>, requester: UserId,
                                 req: Request, id1: ResId, id2: ResId, today: int)
    requires CreateOutcome(rows, rooms, requester, req, id1, today).Done?
    requires req.startingDate.day > req.endingDate.day
    ensures var after := rows + [CreateOutcome(rows, rooms, requester, req, id1, today).reservation];
            CreateOutcome(after, rooms, requester, req, id2, today).Done?
  {
    var room := FindRoom(rooms, req.room).value;
    var s, e := req.startingDate.day, req.endingDate.day;
    var after := rows + [CreateOutcome(rows, rooms, requester, req, id1, today).reservation];
    ReversedPeriodNeverConflicts(after, room.id, s, e, None);
    assert CreateOutcome(after, rooms, requester, req, id2, today)
           == Done(Reservation(id2, s, e, room.id, requester, Booked));
  }

  /** The answer `update` gives to the requester for reservation `id`. A
      falsy date (omitted or empty) is taken from the stored reservation for
      the conflict check; the partial serializer then refuses an empty date
      and runs the window validators on the dates that were sent. */
  function UpdateOutcome(rows: seq<Reservation>, rooms: seq<Room>, requester: UserId, id: ResId,
                         req: Request, today: int): Outcome
  {
    match FindOwned(rows, requester, id)
    case None => NotFound
    case Some(k) =>
      var instance := rows[k];
      var startingDate := req.startingDate.DayOr(instance.startingDate);
      var endingDate := req.endingDate.DayOr(instance.endingDate);
      match FindRoom(rooms, req.room)
      case None => NotFound
      case Some(room) =>
        if !room.active then Rejected(RoomInactive)
        else
          var conflicts := ConflictingDates(rows, room.id, startingDate, endingDate, Some(instance.id));
          if conflicts != [] then Rejected(Conflict(conflicts))
          else if req.startingDate.Blank? || req.endingDate.Blank? then Rejected(BlankDate)
          else if (req.startingDate.Sent? && !InBookingWindow(startingDate, today))
               || (req.endingDate.Sent? && !InBookingWindow(endingDate, today)) then
            Rejected(OutOfWindow)
          else
            Done(instance.(startingDate := startingDate, endingDate := endingDate, room := room.id))
  }

  /** An accepted update keeps the reservation's id, owner and status, takes a
      missing date from the stored reservation, and moves it to the requested room. */
  lemma UpdateKeepsIdentity(rows: seq<Reservation>, rooms: seq<Room>, requester: UserId, id: ResId,
                            req: Request, today: int)
    requires UpdateOutcome(rows, rooms, requester, id, req, today).Done?
    ensures var k := FindOwned(rows, requester, id).value;
            var r := UpdateOutcome(rows, rooms, requester, id, req, today).reservation;
            && r.id == id && r.user == requester && r.status == rows[k].status
            && r.room == req.room.value
            && !req.startingDate.Blank? && !req.endingDate.Blank?
            && r.startingDate == (if req.startingDate.Sent? then req.startingDate.day else rows[k].startingDate)
            && r.endingDate == (if req.endingDate.Sent? then req.endingDate.day else rows[k].endingDate)
  {
  }

  /** An update is accepted exactly when the requester owns the reservation,
      the room exists and is active, no other Booked or Active reservation of
      the room shares a day with the period (a falsy date taken from the
      stored reservation), no date is sent empty, and every sent date is
      within the two-week window. */
  lemma UpdateAcceptedIff(rows: seq<Reservation>, rooms: seq<Room>, requester: UserId, id: ResId,
                          req: Request, today: int)
    ensures var found := FindOwned(rows, requester, id);
            UpdateOutcome(rows, rooms, requester, id, req, today).Done? <==>
              && found.Some?
              && FindRoom(rooms, req.room).Some? && FindRoom(rooms, req.room).value.active
              && Admissible(rows, req.room.value, req.startingDate.DayOr(rows[found.value].startingDate),
                            req.endingDate.DayOr(rows[found.value].endingDate), Some(id))
              && !req.startingDate.Blank? && !req.endingDate.Blank?
              && (req.startingDate.Sent? ==> InBookingWindow(req.startingDate.day, today))
              && (req.endingDate.Sent? ==> InBookingWindow(req.endingDate.day, today))
  {
    var found := FindOwned(rows, requester, id);
    if found.Some? && FindRoom(rooms, req.room).Some? {
      var instance := rows[found.value];
      ConflictsEmptyIff(rows, req.room.value, req.startingDate.DayOr(instance.startingDate),
                        req.endingDate.DayOr(instance.endingDate), Some(id));
    }
  }

  /** The checks of `update` run in order — reservation found, room found,
      room active, no conflict, no empty date, window — and the first failing
      one decides. */
  lemma UpdateRejectionOrder(rows: seq<Reservation>, rooms: seq<Room>, requester: UserId, id: ResId,
                             req: Request, today: int)
    ensures var o := UpdateOutcome(rows, rooms, requester, id, req, today);
            var owned := FindOwned(rows, requester, id).Some?;
            var found := owned && FindRoom(rooms, req.room).Some?;
            var open := found && FindRoom(rooms, req.room).value.active;
            var k := if owned then FindOwned(rows, requester, id).value else 0;
            var s := if owned then req.startingDate.DayOr(rows[k].startingDate) else 0;
            var e := if owned then req.endingDate.DayOr(rows[k].endingDate) else 0;
      && (!owned ==> o == NotFound)
      && (owned && !found ==> o == NotFound)
      && (found && !open ==> o == Rejected(RoomInactive))
      && (open && !Admissible(rows, req.room.value, s, e, Some(id))
          ==> o == Rejected(Conflict(ConflictingDates(rows, req.room.value, s, e, Some(id))))
              && ConflictingDates(rows, req.room.value, s, e, Some(id)) != [])
      && (open && Admissible(rows, req.room.value, s, e, Some(id))
          && (req.startingDate.Blank? || req.endingDate.Blank?)
          ==> o == Rejected(BlankDate))
      && (open && Admissible(rows, req.room.value, s, e, Some(id))
          && !req.startingDate.Blank? && !req.endingDate.Blank?
          && !((req.startingDate.Sent? ==> InBookingWindow(s, today))
               && (req.endingDate.Sent? ==> InBookingWindow(e, today)))
          ==> o == Rejected(OutOfWindow))
  {
    var found := FindOwned(rows, requester, id);
    if found.Some? && FindRoom(rooms, req.room).Some? {
      var instance := rows[found.value];
      ConflictsEmptyIff(rows, req.room.value, req.startingDate.DayOr(instance.startingDate),
                        req.endingDate.DayOr(instance.endingDate), Some(id));
    }
  }

  /** Sending a Booked or Active reservation's starting date as an empty
      field passes the conflict check, which fills in the stored date, and is
      then refused by the serializer. */
  lemma UpdateBlankDateRejected(rows: seq<Reservation>, rooms: seq<Room>, k: nat, today: int)
    requires UniqueIds(rows) && NoDoubleBooking(rows)
    requires k < |rows| && IsBlocking(rows[k].status)
    requires FindRoom(rooms, Some(rows[k].room)).Some? && FindRoom(rooms, Some(rows[k].room)).value.active
    ensures UpdateOutcome(rows, rooms, rows[k].user, rows[k].id, Request(Some(rows[k].room), Blank, Omitted), today)
            == Rejected(BlankDate)
  {
    var req := Request(Some(rows[k].room), Blank, Omitted);
    UpdateOwnDatesNeverConflict(rows, rooms, k, req, today);
    UpdateRejectionOrder(rows, rooms, rows[k].user, rows[k].id, req, today);
    UpdateAcceptedIff(rows, rooms, rows[k].user, rows[k].id, req, today);
  }

  /** Resubmitting a Booked or Active reservation's own room and dates never
      conflicts: its own days are excluded and no other reservation can hold
      them. */
  lemma UpdateOwnDatesNeverConflict(rows: seq<Reservation>, rooms: seq<Room>, k: nat, req: Request, today: int)
    requires UniqueIds(rows) && NoDoubleBooking(rows)
    requires k < |rows| && IsBlocking(rows[k].status)
    requires req.room == Some(rows[k].room)
    requires !req.startingDate.Sent? || req.startingDate == Sent(rows[k].startingDate)
    requires !req.endingDate.Sent? || req.endingDate == Sent(rows[k].endingDate)
    ensures var o := UpdateOutcome(rows, rooms, rows[k].user, rows[k].id, req, today);
            !(o.Rejected? && o.reason.Conflict?)
  {
    var own := rows[k];
    var found := FindOwned(rows, own.user, own.id);
    assert found == Some(k);
    forall j | 0 <= j < |rows| && Blocks(rows[j], own.room, Some(own.id))
      ensures !Overlaps(rows[j].startingDate, rows[j].endingDate, own.startingDate, own.endingDate)
    {
      assert j != k;
      if j < k { assert !Clash(rows[j], rows[k]); } else { assert !Clash(rows[k], rows[j]); }
    }
    ConflictsEmptyIff(rows, own.room, own.startingDate, own.endingDate, Some(own.id));
  }

  /** `rows` with the reservation carrying `r`'s id replaced by `r`. */
  function Replace(rows: seq<Reservation>, r: Reservation): (updated: seq<Reservation>)
    ensures |updated| == |rows|
    ensures forall i :: 0 <= i < |rows| ==> updated[i] == if rows[i].id == r.id then r else rows[i]
  {
    seq(|rows|, i requires 0 <= i < |rows| => if rows[i].id == r.id then r else rows[i])
  }

  /** With unique ids, replacing by id is an assignment at one index. */
  lemma ReplaceAt(rows: seq<Reservation>, k: nat, r: Reservation)
    requires UniqueIds(rows) && k < |rows| && r.id == rows[k].id
    ensures Replace(rows, r) == rows[k := r]
    ensures UniqueIds(rows[k := r])
  {
    var updated := Replace(rows, r);
    forall i | 0 <= i < |rows| ensures updated[i] == rows[k := r][i] {
      if i < k { assert rows[i].id != rows[k].id; }
      if i > k { assert rows[k].id != rows[i].id; }
    }
  }

  /** An accepted update keeps every room free of double booking. */
  lemma UpdatePreservesNoDoubleBooking(rows: seq<Reservation>, rooms: seq<Room>, requester: UserId, id: ResId,
                                       req: Request, today: int)
    requires UniqueIds(rows) && NoDoubleBooking(rows)
    requires UpdateOutcome(rows, rooms, requester, id, req, today).Done?
    ensures NoDoubleBooking(Replace(rows, UpdateOutcome(rows, rooms, requester, id, req, today).reservation))
  {
    var k := FindOwned(rows, requester, id).value;
    var r := UpdateOutcome(rows, rooms, requester, id, req, today).reservation;
    UpdateKeepsIdentity(rows, rooms, requester, id, req, today);
    ConflictsEmptyIff(rows, r.room, r.startingDate, r.endingDate, Some(id));
    ReplaceAt(rows, k, r);
    var after := rows[k := r];
    forall i, j | 0 <= i < j < |after| ensures !Clash(after[i], after[j]) {
      if i == k || j == k {
        var m := if i == k then j else i;
        assert rows[m].id != id by {
          if m < k { assert rows[m].id != rows[k].id; } else { assert rows[k].id != rows[m].id; }
        }
        if Clash(r, rows[m]) || Clash(rows[m], r) {
          assert Blocks(rows[m], r.room, Some(id));
          assert false;
        }
      }
    }
  }

  /** The answer `destroy` gives to the requester for reservation `id`. */
  function DestroyOutcome(rows: seq<Reservation>, rooms: seq<Room>, requester: UserId, id: ResId): Outcome {
    match FindOwned(rows, requester, id)
    case None => NotFound
    case Some(k) =>
      match FindRoom(rooms, Some(rows[k].room))
      case None => NotFound
      case Some(room) =>
        if !room.refundable then Rejected(NonRefundable)
        else Done(rows[k].(status := Refused))
  }

  /** A cancellation on a refundable room refuses the reservation whatever its
      status was and changes no other field; on a non-refundable room it is
      rejected. */
  lemma DestroyRefusesFromAnyStatus(rows: seq<Reservation>, rooms: seq<Room>, k: nat)
    requires UniqueIds(rows) && k < |rows|
    requires FindRoom(rooms, Some(rows[k].room)).Some?
    ensures var o := DestroyOutcome(rows, rooms, rows[k].user, rows[k].id);
            && (FindRoom(rooms, Some(rows[k].room)).value.refundable ==>
                  o.Done? && o.reservation.status == Refused
                  && o.reservation == rows[k].(status := o.reservation.status))
            && (!FindRoom(rooms, Some(rows[k].room)).value.refundable ==> o == Rejected(NonRefundable))
  {
    var found := FindOwned(rows, rows[k].user, rows[k].id);
    assert found == Some(k);
  }

  /** A cancellation keeps every room free of double booking. */
  lemma DestroyPreservesNoDoubleBooking(rows: seq<Reservation>, rooms: seq<Room>, requester: UserId, id: ResId)
    requires UniqueIds(rows) && NoDoubleBooking(rows)
    requires DestroyOutcome(rows, rooms, requester, id).Done?
    ensures NoDoubleBooking(Replace(rows, DestroyOutcome(rows, rooms, requester, id).reservation))
  {
    var k := FindOwned(rows, requester, id).value;
    var r := DestroyOutcome(rows, rooms, requester, id).reservation;
    ReplaceAt(rows, k, r);
    var after := rows[k := r];
    forall i, j | 0 <= i < j < |after| ensures !Clash(after[i], after[j]) {
      if i != k && j != k {
        assert after[i] == rows[i] && after[j] == rows[j];
      }
    }
  }

  // ---------------------------------------------------------------------------
  // The handlers, on the reservations table
  // ---------------------------------------------------------------------------

  /** The reservations table the handlers read and write. */
  class ReservationStore {
    var rows: seq<Reservation>

    /** Primary keys are unique and no room is held twice on any day. */
    ghost predicate Valid()
      reads this
    {
      UniqueIds(rows) && NoDoubleBooking(rows)
    }

    constructor ()
      ensures Valid() && rows == []
    {
      rows := [];
    }

    /** `create`: each failed check returns before the next one runs; an
        accepted request appends one Booked reservation owned by the requester. */
    method Create(rooms: seq<Room>, requester: UserId, req: Request, newId: ResId, today: int)
      returns (outcome: Outcome)
      requires Valid()
      requires forall k :: 0 <= k < |rows| ==> rows[k].id != newId
      modifies this
      ensures Valid()
      ensures outcome == CreateOutcome(old(rows), rooms, requester, req, newId, today)
      ensures rows == if outcome.Done? then old(rows) + [outcome.reservation] else old(rows)
    {
      if !req.startingDate.Sent? || !req.endingDate.Sent? {
        return Rejected(MissingDates);
      }
      var startingDate, endingDate := req.startingDate.day, req.endingDate.day;
      var room := FindRoom(rooms, req.room);
      if room.None? {
        return NotFound;
      }
      if !room.value.active {
        return Rejected(RoomInactive);
      }
      var conflicts := CheckConflictingDates(rows, room.value.id, startingDate, endingDate, None);
      if conflicts != [] {
        return Rejected(Conflict(conflicts));
      }
      if !(InBookingWindow(startingDate, today) && InBookingWindow(endingDate, today)) {
        return Rejected(OutOfWindow);
      }
      var reservation := Reservation(newId, startingDate, endingDate, room.value.id, requester, Booked);
      CreatePreservesNoDoubleBooking(rows, rooms, requester, req, newId, today);
      rows := rows + [reservation];
      outcome := Done(reservation);
    }

    /** `update`: a falsy date is taken from the stored reservation, the
        conflict check leaves the reservation itself out, and the serializer
        refuses an empty date and validates only the dates the request carries. */
    method Update(rooms: seq<Room>, requester: UserId, id: ResId, req: Request, today: int)
      returns (outcome: Outcome)
      requires Valid()
      modifies this
      ensures Valid()
      ensures outcome == UpdateOutcome(old(rows), rooms, requester, id, req, today)
      ensures rows == if outcome.Done? then Replace(old(rows), outcome.reservation) else old(rows)
    {
      var found := FindOwned(rows, requester, id);
      if found.None? {
        return NotFound;
      }
      var k := found.value;
      var instance := rows[k];
      var startingDate := if !req.startingDate.Sent? then instance.startingDate else req.startingDate.day;
      var endingDate := if !req.endingDate.Sent? then instance.endingDate else req.endingDate.day;
      var room := FindRoom(rooms, req.room);
      if room.None? {
        return NotFound;
      }
      if !room.value.active {
        return Rejected(RoomInactive);
      }
      var conflicts := CheckConflictingDates(rows, room.value.id, startingDate, endingDate, Some(instance.id));
      if conflicts != [] {
        return Rejected(Conflict(conflicts));
      }
      if req.startingDate.Blank? || req.endingDate.Blank? {
        return Rejected(BlankDate);
      }
      if (req.startingDate.Sent? && !InBookingWindow(startingDate, today))
         || (req.endingDate.Sent? && !InBookingWindow(endingDate, today)) {
        return Rejected(OutOfWindow);
      }
      var updated := instance.(startingDate := startingDate, endingDate := endingDate, room := room.value.id);
      ReplaceAt(rows, k, updated);
      UpdatePreservesNoDoubleBooking(rows, rooms, requester, id, req, today);
      rows := rows[k := updated];
      outcome := Done(updated);
    }

    /** `destroy`: on a refundable room the reservation's status is set to
        Refused in place; nothing else changes. */
    method Destroy(rooms: seq<Room>, requester: UserId, id: ResId) returns (outcome: Outcome)
      requires Valid()
      modifies this
      ensures Valid()
      ensures outcome == DestroyOutcome(old(rows), rooms, requester, id)
      ensures rows == if outcome.Done? then Replace(old(rows), outcome.reservation) else old(rows)
    {
      var found := FindOwned(rows, requester, id);
      if found.None? {
        return NotFound;
      }
      var k := found.value;
      var instance := rows[k];
      var room := FindRoom(rooms, Some(instance.room));
      if room.None? {
        return NotFound;
      }
      if !room.value.refundable {
        return Rejected(NonRefundable);
      }
      var refused := instance.(status := Refused);
      ReplaceAt(rows, k, refused);
      DestroyPreservesNoDoubleBooking(rows, rooms, requester, id);
      rows := rows[k := refused];
      outcome := Done(refused);
    }
  }
}
