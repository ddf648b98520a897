/** The periodic status pass `update_reservation_status` of app/app/tasks.py,
    with the current day as a parameter. */
module Tasks {
  import opened Models

  /** The status one pass leaves on a reservation: Refused and Expired are not
      selected; a Booked one starting today becomes Active; then (a plain
      `if`, not `elif`) an Active one that ended before today becomes Expired. */
  function Advance(r: Reservation, today: int): Reservation {
    if r.status == Refused || r.status == Expired then r
    else
      var promoted := if r.status == Booked && r.startingDate == today then r.(status := Active) else r;
      if promoted.status == Active && promoted.endingDate < today then promoted.(status := Expired) else promoted
  }

  /** One pass over the whole table: each row decided on its own. */
  function AdvanceAll(rows: seq<Reservation>, today: int): (after: seq<Reservation>)
    ensures |after| == |rows|
    ensures forall i :: 0 <= i < |rows| ==> after[i] == Advance(rows[i], today)
  {
    seq(|rows|, i requires 0 <= i < |rows| => Advance(rows[i], today))
  }

  /** `update_reservation_status`: walks the selected reservations and
      assigns and saves the status of each in place. */
  method UpdateReservationStatus(reservations: array<Reservation>, today: int)
    modifies reservations
    ensures reservations[..] == AdvanceAll(old(reservations[..]), today)
  {
    for i := 0 to reservations.Length
      invariant forall j :: 0 <= j < i ==> reservations[j] == Advance(old(reservations[j]), today)
      invariant forall j :: i <= j < reservations.Length ==> reservations[j] == old(reservations[j])
    {
      if reservations[i].status != Refused && reservations[i].status != Expired {
        if reservations[i].status == Booked {
          if reservations[i].startingDate == today {
            reservations[i] := reservations[i].(status := Active);
          }
        }
        if reservations[i].status == Active {
          if reservations[i].endingDate < today {
            reservations[i] := reservations[i].(status := Expired);
          }
        }
      }
    }
  }

  /** The transition table of one pass, and that only the status can change. */
  lemma AdvanceTransitions(r: Reservation, today: int)
    ensures Advance(r, today) == r.(status := Advance(r, today).status)
    ensures r.status == Refused || r.status == Expired ==> Advance(r, today) == r
    ensures r.status == Booked && r.startingDate != today ==> Advance(r, today).status == Booked
    ensures r.status == Booked && r.startingDate == today ==>
              Advance(r, today).status == if r.endingDate < today then Expired else Active
    ensures r.status == Active ==>
              Advance(r, today).status == if r.endingDate < today then Expired else Active
  {
  }

  /** Position of a status along Booked, Active, Expired. */
  function Stage(s: Status): nat {
    match s
    case Booked => 0
    case Active => 1
    case Expired => 2
    case Refused => 3
  }

  /** Transitions only go forward, and the pass never produces Booked or
      Refused from another status. */
  lemma AdvanceMonotone(r: Reservation, today: int)
    ensures Stage(r.status) <= Stage(Advance(r, today).status)
    ensures Advance(r, today).status == Booked ==> r.status == Booked
    ensures Advance(r, today).status == Refused ==> r.status == Refused
    ensures r.status == Refused <==> Advance(r, today).status == Refused
  {
  }

  /** Running the pass twice on the same day gives the result of running it once. */
  lemma PassIdempotent(rows: seq<Reservation>, today: int)
    ensures AdvanceAll(AdvanceAll(rows, today), today) == AdvanceAll(rows, today)
  {
  }

  /** The pass depends on no row but the one it updates: updating a table
      made of two parts is updating each part. */
  lemma PassIsPerRow(a: seq<Reservation>, b: seq<Reservation>, today: int)
    ensures AdvanceAll(a + b, today) == AdvanceAll(a, today) + AdvanceAll(b, today)
  {
  }

  /** The pass keeps ids unique and keeps every room free of double booking:
      it never makes a reservation hold a room it did not hold before. */
  lemma PassPreservesTableInvariants(rows: seq<Reservation>, today: int)
    requires UniqueIds(rows) && NoDoubleBooking(rows)
    ensures UniqueIds(AdvanceAll(rows, today)) && NoDoubleBooking(AdvanceAll(rows, today))
  {
    var after := AdvanceAll(rows, today);
    forall i, j | 0 <= i < j < |after| ensures !Clash(after[i], after[j]) && after[i].id != after[j].id {
      assert !Clash(rows[i], rows[j]);
    }
  }
}
