/** The room-list filter backends of app/rooms/backends.py. Query parameters
    arrive already parsed; the current day is a parameter. */
module Backends {
  import opened Wrappers
  import opened Sequences
  import opened DailyRule
  import opened Models

  /** A `start_date` or `end_date` query parameter: absent or empty, parsed
      to a day, or rejected by the date parser with ValueError. */
  datatype DateParam = Absent | Given(day: int) | Unparseable

  /** What a backend hands on: a list of rooms, or a 400 'Invalid time period'. */
  datatype FilterResult = Rooms(rooms: seq<Room>) | InvalidPeriod

  /** `not all(elem in entity.reserved_dates() for elem in set_dates)`: some
      day of the daily run from start to end is not in the room's list. */
  predicate HasFreeDay(rows: seq<Reservation>, room: RoomId, startDate: int, endDate: int) {
    !(forall d :: d in DailyRun(startDate, endDate) ==> d in ReservedDays(rows, room, None))
  }

  /** A room has a free day in [start, end] exactly when some day of the
      period is held by none of its Booked or Active reservations. */
  lemma HasFreeDayIff(rows: seq<Reservation>, room: RoomId, startDate: int, endDate: int)
    ensures HasFreeDay(rows, room, startDate, endDate)
            <==> exists d :: Within(d, startDate, endDate) && !DayTaken(rows, room, None, d)
  {
    ReservedDaysMembersAll(rows, room, None);
    if HasFreeDay(rows, room, startDate, endDate) {
      var d :| d in DailyRun(startDate, endDate) && d !in ReservedDays(rows, room, None);
      DailyRunMembers(startDate, endDate, d);
      assert Within(d, startDate, endDate);
    }
    if exists d :: Within(d, startDate, endDate) && !DayTaken(rows, room, None, d) {
      var d :| Within(d, startDate, endDate) && !DayTaken(rows, room, None, d);
      DailyRunMembers(startDate, endDate, d);
      assert d in DailyRun(startDate, endDate);
    }
  }

  /** `DateRangeFilterBackend.filter_queryset`: a missing start is today, a
      missing end is today + 14; a date the parser rejects leaves the list as
      it is; a reversed period is an error; otherwise a room stays unless
      every day of the period is reserved. */
  function DateRangeFilter(rooms: seq<Room>, rows: seq<Reservation>, startParam: DateParam, endParam: DateParam,
                           today: int): FilterResult
  {
    if startParam.Unparseable? || endParam.Unparseable? then Rooms(rooms)
    else
      var startDate := if startParam.Given? then startParam.day else today;
      var endDate := if endParam.Given? then endParam.day else today + 14;
      if startDate > endDate then InvalidPeriod
      else Rooms(Filter(rooms, (room: Room) => HasFreeDay(rows, room.id, startDate, endDate)))
  }

  /** The period the backend filters on, once both parameters parsed. */
  function Period(startParam: DateParam, endParam: DateParam, today: int): (int, int) {
    (if startParam.Given? then startParam.day else today, if endParam.Given? then endParam.day else today + 14)
  }

  /** The date-range backend's outcomes: unfiltered on an unparseable date, an
      error exactly on a reversed period, and otherwise an order-preserving
      selection keeping exactly the rooms with a day of the period free. */
  lemma DateRangeFilterKeeps(rooms: seq<Room>, rows: seq<Reservation>, startParam: DateParam, endParam: DateParam,
                             today: int)
    ensures startParam.Unparseable? || endParam.Unparseable? ==>
              DateRangeFilter(rooms, rows, startParam, endParam, today) == Rooms(rooms)
    ensures !startParam.Unparseable? && !endParam.Unparseable? ==>
              (DateRangeFilter(rooms, rows, startParam, endParam, today) == InvalidPeriod
               <==> Period(startParam, endParam, today).0 > Period(startParam, endParam, today).1)
    ensures var result := DateRangeFilter(rooms, rows, startParam, endParam, today);
            var (s, e) := Period(startParam, endParam, today);
            !startParam.Unparseable? && !endParam.Unparseable? && result.Rooms? ==>
              && SubsequenceOf(result.rooms, rooms)
              && forall room :: room in result.rooms <==>
                   room in rooms && exists d :: Within(d, s, e) && !DayTaken(rows, room.id, None, d)
  {
    var (s, e) := Period(startParam, endParam, today);
    if !startParam.Unparseable? && !endParam.Unparseable? && s <= e {
      var kept := Filter(rooms, (room: Room) => HasFreeDay(rows, room.id, s, e));
      assert DateRangeFilter(rooms, rows, startParam, endParam, today) == Rooms(kept);
      forall room ensures room in kept <==>
          room in rooms && exists d :: Within(d, s, e) && !DayTaken(rows, room.id, None, d)
      {
        HasFreeDayIff(rows, room.id, s, e);
      }
    }
  }

  /** With neither date given the period is today to today + 14, which is
      never reversed. */
  lemma DateRangeDefaults(rooms: seq<Room>, rows: seq<Reservation>, today: int)
    ensures Period(Absent, Absent, today) == (today, today + 14)
    ensures DateRangeFilter(rooms, rows, Absent, Absent, today).Rooms?
  {
  }

  /** A room none of whose reservations is Booked or Active is always kept. */
  lemma UnreservedRoomKept(rooms: seq<Room>, rows: seq<Reservation>, startParam: DateParam, endParam: DateParam,
                           today: int, room: Room)
    requires room in rooms
    requires forall k :: 0 <= k < |rows| ==> !Blocks(rows[k], room.id, None)
    requires DateRangeFilter(rooms, rows, startParam, endParam, today).Rooms?
    ensures room in DateRangeFilter(rooms, rows, startParam, endParam, today).rooms
  {
    DateRangeFilterKeeps(rooms, rows, startParam, endParam, today);
    var (s, e) := Period(startParam, endParam, today);
    if !startParam.Unparseable? && !endParam.Unparseable? {
      assert Within(s, s, e) && !DayTaken(rows, room.id, None, s);
    }
  }

  /** The reservation `[today, today + 3]` takes the only room off a list
      filtered on `[today, today]`, and leaves it on one filtered on
      `[today, today + 4]`. */
  lemma FourDayReservationScenario(room: Room, user: UserId, id: ResId, today: int)
    ensures var rows := [Reservation(id, today, today + 3, room.id, user, Booked)];
            && DateRangeFilter([room], rows, Given(today), Given(today), today) == Rooms([])
            && DateRangeFilter([room], rows, Given(today), Given(today + 4), today) == Rooms([room])
  {
    var rows := [Reservation(id, today, today + 3, room.id, user, Booked)];
    DateRangeFilterKeeps([room], rows, Given(today), Given(today), today);
    DateRangeFilterKeeps([room], rows, Given(today), Given(today + 4), today);
    assert DayTaken(rows, room.id, None, today);
    forall d | Within(d, today, today) ensures DayTaken(rows, room.id, None, d) {
      assert rows[0].startingDate <= d <= rows[0].endingDate;
    }
    assert !DayTaken(rows, room.id, None, today + 4);
    var kept := DateRangeFilter([room], rows, Given(today), Given(today + 4), today).rooms;
    assert room in kept;
    assert |kept| <= 1;
  }

  /** `DayCostFilter`: with no parameter the list is unchanged; otherwise it
      keeps exactly the rooms costing at most the parameter per day. */
  function DayCostFilter(rooms: seq<Room>, dayCost: Option<real>): (kept: seq<Room>)
    ensures dayCost.None? ==> kept == rooms
    ensures dayCost.Some? ==> forall r :: r in kept <==> r in rooms && r.dayCost <= dayCost.value
    ensures SubsequenceOf(kept, rooms)
  {
    if dayCost.None? then SubsequenceOfSelf(rooms); rooms
    else Filter(rooms, (r: Room) => r.dayCost <= dayCost.value)
  }

  /** `TravellersFilter`: with no parameter the list is unchanged; otherwise it
      keeps exactly the rooms whose capacity is set and at least the parameter
      (SQL comparison drops a NULL capacity). */
  function TravellersFilter(rooms: seq<Room>, travellers: Option<int>): (kept: seq<Room>)
    ensures travellers.None? ==> kept == rooms
    ensures travellers.Some? ==> forall r :: r in kept <==>
              r in rooms && r.travellers.Some? && r.travellers.value >= travellers.value
    ensures SubsequenceOf(kept, rooms)
  {
    if travellers.None? then SubsequenceOfSelf(rooms); rooms
    else Filter(rooms, (r: Room) => r.travellers.Some? && r.travellers.value >= travellers.value)
  }

  /** The room-list query parameters. */
  datatype RoomQuery = RoomQuery(dayCost: Option<real>, travellers: Option<int>, startDate: DateParam, endDate: DateParam)

  /** `RoomViewSet.list`: the backends in their declared order (ordering and
      pagination left out). */
  function ListRooms(rooms: seq<Room>, rows: seq<Reservation>, query: RoomQuery, today: int): FilterResult {
    DateRangeFilter(TravellersFilter(DayCostFilter(rooms, query.dayCost), query.travellers),
                    rows, query.startDate, query.endDate, today)
  }

  /** With both dates parsed and the period in order, a room is listed exactly
      when it passes the cost bound, the capacity bound and has a free day. */
  lemma ListRoomsKeeps(rooms: seq<Room>, rows: seq<Reservation>, query: RoomQuery, today: int, room: Room)
    requires !query.startDate.Unparseable? && !query.endDate.Unparseable?
    requires ListRooms(rooms, rows, query, today).Rooms?
    ensures var (s, e) := Period(query.startDate, query.endDate, today);
            room in ListRooms(rooms, rows, query, today).rooms <==>
              && room in rooms
              && (query.dayCost.Some? ==> room.dayCost <= query.dayCost.value)
              && (query.travellers.Some? ==> room.travellers.Some? && room.travellers.value >= query.travellers.value)
              && exists d :: Within(d, s, e) && !DayTaken(rows, room.id, None, d)
  {
    var narrowed := TravellersFilter(DayCostFilter(rooms, query.dayCost), query.travellers);
    DateRangeFilterKeeps(narrowed, rows, query.startDate, query.endDate, today);
  }
}
