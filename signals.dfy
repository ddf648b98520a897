/** The `pre_save` receiver `calculate_travellers` of app/rooms/signals.py. */
module Signals {
  import opened Wrappers
  import opened Models

  /** The capacity the receiver assigns for a stored `sleeping_area` value;
      None when the text matches no choice and the `elif` chain assigns nothing. */
  function TravellersFor(sleepingArea: string): (travellers: Option<int>)
    ensures travellers.Some? <==> exists b: BedType :: b.Value() == sleepingArea
    ensures travellers.Some? ==> travellers.value in {1, 2, 4}
  {
    if sleepingArea == Twin.Value() then Some(1)
    else if sleepingArea == Double.Value() then Some(2)
    else if sleepingArea == TwinBunk.Value() then Some(2)
    else if sleepingArea == DoubleTwinBunk.Value() then Some(4)
    else None
  }

  /** The fixed table: Twin 1, Double 2, TwinBunk 2, DoubleTwinBunk 4. */
  lemma CapacityTable()
    ensures TravellersFor(Twin.Value()) == Some(1)
    ensures TravellersFor(Double.Value()) == Some(2)
    ensures TravellersFor(TwinBunk.Value()) == Some(2)
    ensures TravellersFor(DoubleTwinBunk.Value()) == Some(4)
  {
  }

  /** `calculate_travellers` on the room at `index`, just before it is saved:
      for a known bed type the capacity is overwritten whatever it held; no
      other field and no other room changes. */
  method CalculateTravellers(rooms: array<Room>, index: nat)
    requires index < rooms.Length
    modifies rooms
    ensures rooms[index] == match TravellersFor(old(rooms[index].sleepingArea))
                            case Some(t) => old(rooms[index]).(travellers := Some(t))
                            case None => old(rooms[index])
    ensures forall j :: 0 <= j < rooms.Length && j != index ==> rooms[j] == old(rooms[j])
  {
    var instance := rooms[index];
    if instance.sleepingArea == Twin.Value() {
      rooms[index] := instance.(travellers := Some(1));
    } else if instance.sleepingArea == Double.Value() {
      rooms[index] := instance.(travellers := Some(2));
    } else if instance.sleepingArea == TwinBunk.Value() {
      rooms[index] := instance.(travellers := Some(2));
    } else if instance.sleepingArea == DoubleTwinBunk.Value() {
      rooms[index] := instance.(travellers := Some(4));
    }
  }
}
