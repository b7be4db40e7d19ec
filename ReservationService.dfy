/** The reservation service: the write operations over the reservations table,
    each validating before it writes. The database context is a store object
    holding the two tables; saving changes is the direct update of its
    `reservations` map, and every operation runs to completion on its own. */
module ReservationService {
  import opened ReservationModel
  import opened ReservationProperties

  /** The reservation object a caller hands to the service. It is a reference:
      a successful create writes the assigned id back into it. */
  class ReservationDto {
    var id: int
    var roomId: int
    var checkIn: int
    var checkOut: int
    var guestCount: int

    constructor (id: int, roomId: int, checkIn: int, checkOut: int, guestCount: int)
      ensures Value() == Reservation(id, roomId, checkIn, checkOut, guestCount)
    {
      this.id := id;
      this.roomId := roomId;
      this.checkIn := checkIn;
      this.checkOut := checkOut;
      this.guestCount := guestCount;
    }

    /** The values the object currently carries. */
    function Value(): Reservation
      reads this
    {
      Reservation(id, roomId, checkIn, checkOut, guestCount)
    }
  }

  /** What the validator sees of a request: nothing for a null reference. */
  function Snapshot(request: ReservationDto?): Option<Reservation>
    reads request
  {
    if request == null then None else Some(request.Value())
  }

  /** A null request is an argument error, whatever the tables hold. */
  lemma NullRequestRejected(rooms: map<int, Room>, table: map<int, Reservation>)
    ensures Validate(rooms, table, Snapshot(null)) == InvalidArgument
  {
  }

  class ReservationStore {
    /** The rooms table, keyed by room id; this service only reads it. */
    var rooms: map<int, Room>
    /** The reservations table, keyed by reservation id. */
    var reservations: map<int, Reservation>

    constructor (rooms: map<int, Room>, reservations: map<int, Reservation>)
      ensures this.rooms == rooms && this.reservations == reservations
    {
      this.rooms := rooms;
      this.reservations := reservations;
    }

    /** The invariant the service's writes keep (it is not assumed on entry). */
    ghost predicate Valid()
      reads this
    {
      TableInvariant(rooms, reservations)
    }

    /** Validates the request and on success stores it under a fresh id, writes
        that id back into the request and returns the request itself. */
    method Create(request: ReservationDto?) returns (result: Result<ReservationDto>)
      modifies this`reservations, request
      ensures result.Error? <==> Validate(rooms, old(reservations), old(Snapshot(request))) != Ok
      ensures result.Error? ==>
        && result.kind == Validate(rooms, old(reservations), old(Snapshot(request)))
        && reservations == old(reservations)
        && (request != null ==> unchanged(request))
      ensures result.Success? ==>
        && request != null
        && result.value == request
        && request.id !in old(reservations)
        && request.Value() == old(request.Value()).(id := request.id)
        && reservations == old(reservations)[request.id := request.Value()]
        && Get(reservations, request.id) == Success(request.Value())
      ensures old(Valid()) ==> Valid()
    {
      var cand := Snapshot(request);
      var verdict := Validate(rooms, reservations, cand);
      if verdict != Ok {
        return Error(verdict);
      }
      var id := NextId(reservations.Keys);
      var stored := cand.value.(id := id);
      if Valid() {
        ValidatedWriteKeepsInvariant(rooms, reservations, cand.value, id);
      }
      reservations := reservations[id := stored];
      request.id := id;
      result := Success(request);
    }

    /** Validates the request and on success writes it under its own id,
        replacing whatever was stored there. The overlap scan runs over the
        table as it stands, the record being replaced included. */
    method Update(request: ReservationDto?) returns (result: Result<Reservation>)
      modifies this`reservations
      ensures result.Error? <==> Validate(rooms, old(reservations), Snapshot(request)) != Ok
      ensures result.Error? ==>
        && result.kind == Validate(rooms, old(reservations), Snapshot(request))
        && reservations == old(reservations)
      ensures result.Success? ==>
        && request != null
        && result.value == request.Value()
        && reservations == old(reservations)[request.id := request.Value()]
        && Get(reservations, request.id) == result
      ensures old(Valid()) ==> Valid()
    {
      var cand := Snapshot(request);
      var verdict := Validate(rooms, reservations, cand);
      if verdict != Ok {
        return Error(verdict);
      }
      var stored := cand.value;
      if Valid() {
        ValidatedWriteKeepsInvariant(rooms, reservations, stored, stored.id);
      }
      reservations := reservations[stored.id := stored];
      result := Success(stored);
    }

    /** Removes the reservation with the given id, or reports that there is none. */
    method Delete(id: int) returns (outcome: Outcome)
      modifies this`reservations
      ensures outcome == Ok || outcome == NotFound
      ensures outcome == Ok <==> id in old(reservations)
      ensures outcome == NotFound ==> reservations == old(reservations)
      ensures outcome == Ok ==> reservations == old(reservations) - {id}
      ensures Get(reservations, id) == Error(NotFound)
      ensures old(Valid()) ==> Valid()
    {
      if id !in reservations {
        return NotFound;
      }
      if Valid() {
        RemovalKeepsInvariant(rooms, reservations, id);
      }
      reservations := reservations - {id};
      outcome := Ok;
    }
  }

  /** A client of the store: a room of capacity 2 and a stay from day 10 to
      day 15; a second stay from day 14 is rejected and leaves its request
      alone, one from day 15 is accepted under a new id. */
  method ClientBackToBack() {
    var store := new ReservationStore(map[1 := Room(1, 2)], map[]);
    var first := new ReservationDto(0, 1, 10, 15, 2);
    var r1 := store.Create(first);
    assert r1.Success?;
    var firstStay := first.Value();

    var clash := new ReservationDto(0, 1, 14, 20, 2);
    assert Overlaps(firstStay, clash.Value());
    var r2 := store.Create(clash);
    assert r2 == Error(ValidationError) && clash.id == 0;

    var next := new ReservationDto(0, 1, 15, 20, 2);
    var r3 := store.Create(next);
    assert r3.Success? && next.id != first.id;
  }

  /** A client updating a stored stay without moving it: the overlap scan meets
      the record being updated, so the update fails and the table stays as it
      was. Deleting that record afterwards leaves an empty listing, and a second
      delete finds nothing. */
  method ClientUpdateAndDelete() {
    var store := new ReservationStore(map[1 := Room(1, 2)], map[]);
    var first := new ReservationDto(0, 1, 10, 15, 2);
    var r1 := store.Create(first);
    assert r1.Success?;
    var id := first.id;

    var fewer := new ReservationDto(id, 1, 10, 15, 1);
    assert Overlaps(store.reservations[id], fewer.Value());
    var r2 := store.Update(fewer);
    assert r2 == Error(ValidationError);

    var r3 := store.Delete(id);
    assert r3 == Ok && GetAll(store.reservations) == [];
    var r4 := store.Delete(id);
    assert r4 == NotFound;
  }
}
