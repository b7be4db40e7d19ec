/** What the validator decides, rule by rule, and why the writes it guards
    keep the reservations table free of overlapping stays. */
module ReservationProperties {
  import opened ReservationModel

  // ---------------------------------------------------------------------------
  // The validator, one rule at a time

  /** Equal or reversed dates are a validation error, whatever the tables hold. */
  lemma BadDatesRejected(rooms: map<int, Room>, table: map<int, Reservation>, c: Reservation)
    requires c.checkOut <= c.checkIn
    ensures Validate(rooms, table, Some(c)) == ValidationError
  {
  }

  /** A stay without a guest is a validation error, whatever the tables hold. */
  lemma TooFewGuestsRejected(rooms: map<int, Room>, table: map<int, Reservation>, c: Reservation)
    requires c.checkIn < c.checkOut && c.guestCount < 1
    ensures Validate(rooms, table, Some(c)) == ValidationError
  {
  }

  /** Once the dates and the guest count pass, an unknown room is reported as
      not found, whatever the reservations table holds. */
  lemma MissingRoomNotFound(rooms: map<int, Room>, table: map<int, Reservation>, c: Reservation)
    requires WellFormedStay(c) && c.roomId !in rooms
    ensures Validate(rooms, table, Some(c)) == NotFound
  {
  }

  /** More guests than the room holds is a validation error. */
  lemma OverCapacityRejected(rooms: map<int, Room>, table: map<int, Reservation>, c: Reservation)
    requires WellFormedStay(c) && c.roomId in rooms && rooms[c.roomId].capacity < c.guestCount
    ensures Validate(rooms, table, Some(c)) == ValidationError
  {
  }

  /** Once the stay fits its room, the overlap scan alone decides: the candidate
      is rejected exactly when some stored reservation of the same room starts
      before the candidate leaves and ends after it arrives. In particular a
      party that fills the room exactly is not turned away for its size. */
  lemma OverlapScanDecides(rooms: map<int, Room>, table: map<int, Reservation>, c: Reservation)
    requires WellFormedStay(c) && c.roomId in rooms && c.guestCount <= rooms[c.roomId].capacity
    ensures Validate(rooms, table, Some(c)) == Ok || Validate(rooms, table, Some(c)) == ValidationError
    ensures Validate(rooms, table, Some(c)) == ValidationError <==>
      exists k :: k in table && table[k].roomId == c.roomId && table[k].checkIn < c.checkOut && table[k].checkOut > c.checkIn
  {
  }

  /** Adding a stay in another room, or one that ends on or before the
      candidate's check-in, or starts on or after its check-out, never changes
      the verdict on the candidate. */
  lemma NonOverlappingStayIrrelevant(rooms: map<int, Room>, table: map<int, Reservation>, k: int, r: Reservation, c: Reservation)
    requires k !in table
    requires r.roomId != c.roomId || r.checkOut <= c.checkIn || c.checkOut <= r.checkIn
    ensures Validate(rooms, table[k := r], Some(c)) == Validate(rooms, table, Some(c))
  {
    var bigger := table[k := r];
    assert !Overlaps(r, c);
    if Conflicts(table, c) {
      var j :| j in table && Overlaps(table[j], c);
      assert j in bigger && bigger[j] == table[j];
    }
    if Conflicts(bigger, c) {
      var j :| j in bigger && Overlaps(bigger[j], c);
      assert j != k;
      assert j in table && Overlaps(table[j], c);
    }
  }

  /** The overlap scan does not leave out the record an update replaces: an
      update whose new stay overlaps the stay currently stored under its id is
      never accepted. */
  lemma OwnStayBlocksUpdate(rooms: map<int, Room>, table: map<int, Reservation>, c: Reservation)
    requires c.id in table && Overlaps(table[c.id], c)
    ensures Validate(rooms, table, Some(c)) != Ok
  {
  }

  /** Hence, in a table that satisfies the invariant, an update that keeps the
      booked room and dates (to change the guest count, say) is always a
      validation error. */
  lemma UnchangedStayUpdateRejected(rooms: map<int, Room>, table: map<int, Reservation>, c: Reservation)
    requires TableInvariant(rooms, table)
    requires c.id in table
    requires c.roomId == table[c.id].roomId && c.checkIn == table[c.id].checkIn && c.checkOut == table[c.id].checkOut
    ensures Validate(rooms, table, Some(c)) == ValidationError
  {
  }

  /** A room of capacity 2 holds a stay from day 10 to day 15. A new stay from
      day 14 overlaps it and is rejected; one from day 15, the day the first
      guests leave, is accepted. */
  lemma BackToBackStays()
    ensures
      var rooms := map[1 := Room(1, 2)];
      var table := map[7 := Reservation(7, 1, 10, 15, 2)];
      && Validate(rooms, table, Some(Reservation(0, 1, 14, 20, 2))) == ValidationError
      && Validate(rooms, table, Some(Reservation(0, 1, 15, 20, 2))) == Ok
  {
    var table := map[7 := Reservation(7, 1, 10, 15, 2)];
    assert Overlaps(table[7], Reservation(0, 1, 14, 20, 2));
  }

  // ---------------------------------------------------------------------------
  // The table invariant under the service's writes

  /** Writing a stay that overlaps no stored stay keeps the table free of
      overlaps, whether the key is new or replaces a stored record. */
  lemma NonConflictingWriteKeepsNoOverlap(table: map<int, Reservation>, c: Reservation, id: int)
    requires NoOverlap(table)
    requires !Conflicts(table, c)
    ensures NoOverlap(table[id := c])
  {
  }

  /** A stay the validator accepts, written under any key with that key as its
      id, keeps the whole table invariant. */
  lemma ValidatedWriteKeepsInvariant(rooms: map<int, Room>, table: map<int, Reservation>, c: Reservation, id: int)
    requires TableInvariant(rooms, table)
    requires Validate(rooms, table, Some(c)) == Ok
    ensures TableInvariant(rooms, table[id := c.(id := id)])
  {
  }

  /** Removing a record keeps the table invariant. */
  lemma RemovalKeepsInvariant(rooms: map<int, Room>, table: map<int, Reservation>, id: int)
    requires TableInvariant(rooms, table)
    ensures TableInvariant(rooms, table - {id})
  {
  }

  // ---------------------------------------------------------------------------
  // The reads

  /** Under the key invariant no reservation id is listed twice. */
  lemma GetAllListsEachIdOnce(table: map<int, Reservation>)
    requires forall k :: k in table ==> table[k].id == k
    ensures forall i, j :: 0 <= i < j < |GetAll(table)| ==> GetAll(table)[i].id != GetAll(table)[j].id
  {
  }

  /** Every listed reservation is what the single lookup returns for its id. */
  lemma GetAllAgreesWithGet(table: map<int, Reservation>, i: int)
    requires forall k :: k in table ==> table[k].id == k
    requires 0 <= i < |table|
    ensures Get(table, GetAll(table)[i].id) == Success(GetAll(table)[i])
  {
  }
}
