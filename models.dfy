/** The room and reservation records of app/rooms/models.py, the reservation
    manager's queries, `Room.reserved_dates`, and the two date validators.
    Calendar dates are integer day numbers; the current day is a parameter. */
module Models {
  import opened Wrappers
  import opened Sequences
  import opened DailyRule

  type RoomId = nat
  type ResId = nat
  type UserId = nat

  /** `Reservation.Status`; a new reservation is `Booked`. */
  datatype Status = Booked | Refused | Active | Expired

  /** `ReservationlManager.booked_and_active`: the statuses that hold a room. */
  predicate IsBlocking(s: Status) {
    s == Booked || s == Active
  }

  /** `Room.BedType`: the choices of `sleeping_area`, each stored as its text value. */
  datatype BedType = Twin | Double | TwinBunk | DoubleTwinBunk {
    function Value(): string {
      match this
      case Twin => "twin"
      case Double => "double"
      case TwinBunk => "twin_bunk"
      case DoubleTwinBunk => "double_twin_bunk"
    }
  }

  /** The authenticated requester: its primary key and its superuser flag. */
  datatype User = User(id: UserId, isSuperuser: bool)

  /** A row of the rooms table. `travellers` is nullable; `sleepingArea` is
      the stored text of the bed-type choice. */
  datatype Room = Room(
    id: RoomId,
    name: string,
    number: string,
    dayCost: real,
    travellers: Option<int>,
    rating: real,
    refundable: bool,
    sleepingArea: string,
    active: bool)

  /** A row of the reservations table, its dates already truncated to days. */
  datatype Reservation = Reservation(
    id: ResId,
    startingDate: int,
    endingDate: int,
    room: RoomId,
    user: UserId,
    status: Status)

  /** `get_object_or_404(Room, pk=id)`: None when the key is missing or unknown. */
  function FindRoom(rooms: seq<Room>, id: Option<RoomId>): (found: Option<Room>)
    ensures found.Some? ==> id.Some? && found.value in rooms && found.value.id == id.value
    ensures found.None? ==> id.None? || forall k :: 0 <= k < |rooms| ==> rooms[k].id != id.value
    decreases |rooms|
  {
    if id.None? || |rooms| == 0 then None
    else if rooms[0].id == id.value then Some(rooms[0])
    else FindRoom(rooms[1..], id)
  }

  /** No two reservations share an id (the primary key). */
  ghost predicate UniqueIds(rows: seq<Reservation>) {
    forall i, j :: 0 <= i < j < |rows| ==> rows[i].id != rows[j].id
  }

  // ---------------------------------------------------------------------------
  // The manager's queries and Room.reserved_dates
  // ---------------------------------------------------------------------------

  /** Row `r` is returned by `reserved_dates(room)` (no exclusion) or by
      `reserves_dates_exclude_update_reservation(room, id)`: it is Booked or
      Active, belongs to the room, and is not the excluded reservation. */
  predicate Blocks(r: Reservation, room: RoomId, exclude: Option<ResId>) {
    IsBlocking(r.status) && r.room == room && (exclude.None? || r.id != exclude.value)
  }

  /** The manager's query set: `filter(status__in=[Booked, Active])` on the
      room, with `.exclude(id=...)` when an id is given, in table order. */
  function Occupying(rows: seq<Reservation>, room: RoomId, exclude: Option<ResId>): (q: seq<Reservation>)
    ensures forall r :: r in q <==> r in rows && Blocks(r, room, exclude)
    decreases |rows|
  {
    if |rows| == 0 then []
    else
      var init, last := rows[..|rows| - 1], rows[|rows| - 1];
      assert rows == init + [last];
      Occupying(init, room, exclude) + if Blocks(last, room, exclude) then [last] else []
  }

  /** The query set is the generic order-preserving filter on `Blocks`, so it
      keeps the table's order and each row's multiplicity. */
  lemma {:induction false} OccupyingIsFilter(rows: seq<Reservation>, room: RoomId, exclude: Option<ResId>)
    ensures Occupying(rows, room, exclude) == Filter(rows, (r: Reservation) => Blocks(r, room, exclude))
    ensures SubsequenceOf(Occupying(rows, room, exclude), rows)
    decreases |rows|
  {
    if |rows| > 0 {
      OccupyingIsFilter(rows[..|rows| - 1], room, exclude);
    }
  }

  /** The days of the ranges, one run after the other (the list being extended). */
  function Expand(ranges: seq<Reservation>): seq<int>
    decreases |ranges|
  {
    if |ranges| == 0 then []
    else Expand(ranges[..|ranges| - 1])
         + DailyRun(ranges[|ranges| - 1].startingDate, ranges[|ranges| - 1].endingDate)
  }

  /** The value `Room.reserved_dates(reserv_id)` returns for the room. */
  function ReservedDays(rows: seq<Reservation>, room: RoomId, exclude: Option<ResId>): seq<int> {
    Expand(Occupying(rows, room, exclude))
  }

  /** `Room.reserved_dates`: runs the manager's query, then extends a list
      with the daily run of each reservation it returns. */
  method ReservedDates(rows: seq<Reservation>, room: RoomId, reservId: Option<ResId>) returns (days: seq<int>)
    ensures days == ReservedDays(rows, room, reservId)
  {
    var dateRanges := Occupying(rows, room, reservId);
    days := [];
    for i := 0 to |dateRanges|
      invariant days == Expand(dateRanges[..i])
    {
      var r := dateRanges[i];
      assert dateRanges[..i + 1][..i] == dateRanges[..i];
      days := days + DailyRun(r.startingDate, r.endingDate);
    }
    assert dateRanges[..|dateRanges|] == dateRanges;
  }

  /** The days one row adds to the room's list. */
  function Contribution(r: Reservation, room: RoomId, exclude: Option<ResId>): seq<int> {
    if Blocks(r, room, exclude) then DailyRun(r.startingDate, r.endingDate) else []
  }

  /** Appending a row to the table appends its contribution to the list. */
  lemma ReservedDaysSnoc(rows: seq<Reservation>, r: Reservation, room: RoomId, exclude: Option<ResId>)
    ensures ReservedDays(rows + [r], room, exclude) == ReservedDays(rows, room, exclude) + Contribution(r, room, exclude)
  {
    var all := rows + [r];
    assert all[..|all| - 1] == rows && all[|all| - 1] == r;
    var q := Occupying(rows, room, exclude);
    if Blocks(r, room, exclude) {
      assert Occupying(all, room, exclude) == q + [r];
      assert (q + [r])[..|q|] == q;
      assert Expand(q + [r]) == Expand(q) + DailyRun(r.startingDate, r.endingDate);
    } else {
      assert Occupying(all, room, exclude) == q;
    }
  }

  /** The list of a concatenated table is the concatenation of the lists. */
  lemma {:induction false} ReservedDaysAppend(a: seq<Reservation>, b: seq<Reservation>, room: RoomId, exclude: Option<ResId>)
    ensures ReservedDays(a + b, room, exclude) == ReservedDays(a, room, exclude) + ReservedDays(b, room, exclude)
    decreases |b|
  {
    if |b| == 0 {
      assert a + b == a;
    } else {
      var init, last := b[..|b| - 1], b[|b| - 1];
      assert b == init + [last];
      assert a + b == (a + init) + [last];
      var head := ReservedDays(a, room, exclude);
      calc {
        ReservedDays(a + b, room, exclude);
      ==  { ReservedDaysSnoc(a + init, last, room, exclude); }
        ReservedDays(a + init, room, exclude) + Contribution(last, room, exclude);
      ==  { ReservedDaysAppend(a, init, room, exclude); }
        (head + ReservedDays(init, room, exclude)) + Contribution(last, room, exclude);
      ==
        head + (ReservedDays(init, room, exclude) + Contribution(last, room, exclude));
      ==  { ReservedDaysSnoc(init, last, room, exclude); }
        head + ReservedDays(b, room, exclude);
      }
    }
  }

  /** Day `d` lies in some Booked or Active, non-excluded reservation of the room. */
  ghost predicate DayTaken(rows: seq<Reservation>, room: RoomId, exclude: Option<ResId>, d: int) {
    exists k :: 0 <= k < |rows| && Blocks(rows[k], room, exclude) && rows[k].startingDate <= d <= rows[k].endingDate
  }

  /** A day is in the reserved list exactly when a Booked or Active reservation
      of this room, other than the excluded one, runs over it, both ends included. */
  lemma {:induction false} ReservedDaysMembers(rows: seq<Reservation>, room: RoomId, exclude: Option<ResId>, d: int)
    ensures d in ReservedDays(rows, room, exclude) <==> DayTaken(rows, room, exclude, d)
    decreases |rows|
  {
    if |rows| > 0 {
      var init, last := rows[..|rows| - 1], rows[|rows| - 1];
      assert rows == init + [last];
      ReservedDaysSnoc(init, last, room, exclude);
      ReservedDaysMembers(init, room, exclude, d);
      DailyRunMembers(last.startingDate, last.endingDate, d);
      if DayTaken(init, room, exclude, d) {
        var k :| 0 <= k < |init| && Blocks(init[k], room, exclude) && init[k].startingDate <= d <= init[k].endingDate;
        assert rows[k] == init[k];
      }
      if DayTaken(rows, room, exclude, d) {
        var k :| 0 <= k < |rows| && Blocks(rows[k], room, exclude) && rows[k].startingDate <= d <= rows[k].endingDate;
        if k < |init| {
          assert init[k] == rows[k];
        }
      }
    }
  }

  /** `ReservedDaysMembers` for every day at once. */
  lemma ReservedDaysMembersAll(rows: seq<Reservation>, room: RoomId, exclude: Option<ResId>)
    ensures forall d :: d in ReservedDays(rows, room, exclude) <==> DayTaken(rows, room, exclude, d)
  {
    forall d ensures d in ReservedDays(rows, room, exclude) <==> DayTaken(rows, room, exclude, d) {
      ReservedDaysMembers(rows, room, exclude, d);
    }
  }

  /** The number of days from start to end inclusive; none when start > end. */
  function RunLength(r: Reservation): nat {
    if r.startingDate <= r.endingDate then r.endingDate - r.startingDate + 1 else 0
  }

  /** The sum of the run lengths of the room's Booked or Active reservations. */
  function OccupiedDayCount(rows: seq<Reservation>, room: RoomId, exclude: Option<ResId>): nat
    decreases |rows|
  {
    if |rows| == 0 then 0
    else
      OccupiedDayCount(rows[..|rows| - 1], room, exclude)
      + if Blocks(rows[|rows| - 1], room, exclude) then RunLength(rows[|rows| - 1]) else 0
  }

  /** The list is a concatenation, not a set: its length is the sum of the
      per-reservation day counts, repeated days included. */
  lemma {:induction false} ReservedDaysLength(rows: seq<Reservation>, room: RoomId, exclude: Option<ResId>)
    ensures |ReservedDays(rows, room, exclude)| == OccupiedDayCount(rows, room, exclude)
    decreases |rows|
  {
    if |rows| > 0 {
      var init, last := rows[..|rows| - 1], rows[|rows| - 1];
      assert rows == init + [last];
      ReservedDaysSnoc(init, last, room, exclude);
      ReservedDaysLength(init, room, exclude);
    }
  }

  /** Excluding an id that no row carries changes nothing. */
  lemma {:induction false} ExcludeAbsentId(rows: seq<Reservation>, room: RoomId, id: ResId)
    requires forall k :: 0 <= k < |rows| ==> rows[k].id != id
    ensures ReservedDays(rows, room, Some(id)) == ReservedDays(rows, room, None)
    decreases |rows|
  {
    if |rows| > 0 {
      var init, last := rows[..|rows| - 1], rows[|rows| - 1];
      assert rows == init + [last];
      ReservedDaysSnoc(init, last, room, Some(id));
      ReservedDaysSnoc(init, last, room, None);
      ExcludeAbsentId(init, room, id);
    }
  }

  /** With a reservation id, the list is the unfiltered list with exactly that
      reservation's run cut out of its place. */
  lemma ExcludeRemovesOneRun(rows: seq<Reservation>, room: RoomId, k: nat)
    requires UniqueIds(rows) && k < |rows|
    ensures var before, after := ReservedDays(rows[..k], room, None), ReservedDays(rows[k + 1..], room, None);
            && ReservedDays(rows, room, Some(rows[k].id)) == before + after
            && ReservedDays(rows, room, None) == before + Contribution(rows[k], room, None) + after
    ensures multiset(ReservedDays(rows, room, None))
            == multiset(ReservedDays(rows, room, Some(rows[k].id))) + multiset(Contribution(rows[k], room, None))
  {
    var id := rows[k].id;
    var a, b := rows[..k], rows[k + 1..];
    assert rows == a + [rows[k]] + b;
    forall j | 0 <= j < |a| ensures a[j].id != id { assert a[j] == rows[j]; }
    forall j | 0 <= j < |b| ensures b[j].id != id { assert b[j] == rows[k + 1 + j]; }
    ExcludeAbsentId(a, room, id);
    ExcludeAbsentId(b, room, id);
    ReservedDaysAppend(a + [rows[k]], b, room, Some(id));
    ReservedDaysAppend(a + [rows[k]], b, room, None);
    ReservedDaysSnoc(a, rows[k], room, Some(id));
    ReservedDaysSnoc(a, rows[k], room, None);
  }

  // ---------------------------------------------------------------------------
  // Validators of starting_date and ending_date
  // ---------------------------------------------------------------------------

  /** `validate_date_within_two_weeks` passes: the day is not after today + 14. */
  predicate ValidateDateWithinTwoWeeks(day: int, today: int) {
    day <= today + 14
  }

  /** `validate_future_date` passes: the day is not before today. */
  predicate ValidateFutureDate(day: int, today: int) {
    !(day < today)
  }

  /** Both validators attached to a reservation date field pass. */
  predicate InBookingWindow(day: int, today: int) {
    ValidateDateWithinTwoWeeks(day, today) && ValidateFutureDate(day, today)
  }

  /** The accepted dates are exactly the fifteen days of the daily run from
      today to today + 14, both ends accepted and their neighbours refused. */
  lemma BookingWindowIsTwoWeekRun(day: int, today: int)
    ensures InBookingWindow(day, today) <==> day in DailyRun(today, today + 14)
    ensures |DailyRun(today, today + 14)| == 15
    ensures InBookingWindow(today, today) && InBookingWindow(today + 14, today)
    ensures !ValidateFutureDate(today - 1, today) && !ValidateDateWithinTwoWeeks(today + 15, today)
  {
    DailyRunMembers(today, today + 14, day);
  }

  // ---------------------------------------------------------------------------
  // The table invariant the admission checks maintain
  // ---------------------------------------------------------------------------

  /** The inclusive day ranges [s1, e1] and [s2, e2] are both non-empty and meet. */
  predicate Overlaps(s1: int, e1: int, s2: int, e2: int) {
    s1 <= e1 && s2 <= e2 && s1 <= e2 && s2 <= e1
  }

  /** Day `d` lies in the inclusive range [lo, hi]. */
  predicate Within(d: int, lo: int, hi: int) {
    lo <= d <= hi
  }

  /** Closed form against its meaning: the two ranges share a calendar day. */
  lemma OverlapsIffSharedDay(s1: int, e1: int, s2: int, e2: int)
    ensures Overlaps(s1, e1, s2, e2) <==> exists d :: Within(d, s1, e1) && Within(d, s2, e2)
  {
    if Overlaps(s1, e1, s2, e2) {
      var d := if s1 < s2 then s2 else s1;
      assert Within(d, s1, e1) && Within(d, s2, e2);
    }
  }

  /** Two reservations hold the same room on a common day. */
  predicate Clash(a: Reservation, b: Reservation) {
    a.room == b.room && IsBlocking(a.status) && IsBlocking(b.status)
    && Overlaps(a.startingDate, a.endingDate, b.startingDate, b.endingDate)
  }

  /** No room is held twice on any day. */
  ghost predicate NoDoubleBooking(rows: seq<Reservation>) {
    forall i, j :: 0 <= i < j < |rows| ==> !Clash(rows[i], rows[j])
  }
}
