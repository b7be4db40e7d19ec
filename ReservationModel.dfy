/** The data of the reservation service and its read-and-decide steps: the
    validator that guards every write, single lookup and the full listing.
    Every function here works on a snapshot of the two tables, the rooms and
    the reservations, each keyed by its primary key. Dates are integers on an
    already-canonical (UTC) time line, so their comparison is the ordinal one. */
module ReservationModel {

  datatype Option<T> = None | Some(value: T)

  /** A room as far as reservations are concerned: its key and how many guests it takes. */
  datatype Room = Room(id: int, capacity: int)

  /** A stay of `guestCount` guests in room `roomId` over the half-open interval
      [checkIn, checkOut). */
  datatype Reservation = Reservation(id: int, roomId: int, checkIn: int, checkOut: int, guestCount: int)

  /** The outcome of a service operation: the validator's verdict, or whether a
      delete found its record. The last three stand for the three kinds of
      exception the service throws (argument null, validation, not found). */
  datatype Outcome = Ok | InvalidArgument | ValidationError | NotFound

  type Failure = o: Outcome | o != Ok witness NotFound

  datatype Result<T> = Success(value: T) | Error(kind: Failure)

  /** The overlap test of the overlap scan: `stored` lies in the same room as
      `cand` and the two half-open stays intersect. */
  predicate Overlaps(stored: Reservation, cand: Reservation) {
    stored.roomId == cand.roomId && stored.checkIn < cand.checkOut && stored.checkOut > cand.checkIn
  }

  /** Some stored reservation overlaps `cand` (the `AnyAsync` of the scan). */
  predicate Conflicts(table: map<int, Reservation>, cand: Reservation) {
    exists k :: k in table && Overlaps(table[k], cand)
  }

  /** The checks that need no table: the stay is non-empty and has a guest. */
  predicate WellFormedStay(r: Reservation) {
    r.checkIn < r.checkOut && 1 <= r.guestCount
  }

  /** The room of `r` exists and holds its guests. */
  predicate FitsRoom(rooms: map<int, Room>, r: Reservation) {
    r.roomId in rooms && r.guestCount <= rooms[r.roomId].capacity
  }

  /** The business rules stated declaratively, in no particular order: what a
      reservation must satisfy to be written into `table`. */
  ghost predicate Admissible(rooms: map<int, Room>, table: map<int, Reservation>, cand: Reservation) {
    && WellFormedStay(cand)
    && FitsRoom(rooms, cand)
    && forall k :: k in table ==> !Overlaps(table[k], cand)
  }

  /** The validator. It checks, in order and stopping at the first failure: that
      there is a candidate, the date order, the guest count, that the room
      exists, the room's capacity and the overlap scan over every stored
      reservation (the candidate's own stored record included). */
  function Validate(rooms: map<int, Room>, table: map<int, Reservation>, cand: Option<Reservation>): (o: Outcome)
    ensures o == InvalidArgument <==> cand.None?
    ensures o == Ok <==> cand.Some? && Admissible(rooms, table, cand.value)
    ensures o == NotFound <==> cand.Some? && WellFormedStay(cand.value) && cand.value.roomId !in rooms
  {
    match cand
    case None => InvalidArgument
    case Some(c) =>
      if c.checkOut <= c.checkIn then ValidationError
      else if c.guestCount < 1 then ValidationError
      else if c.roomId !in rooms then NotFound
      else if rooms[c.roomId].capacity < c.guestCount then ValidationError
      else if Conflicts(table, c) then ValidationError
      else Ok
  }

  /** No two distinct stored reservations of the same room overlap. */
  ghost predicate NoOverlap(table: map<int, Reservation>) {
    forall i, j :: i in table && j in table && i != j ==> !Overlaps(table[i], table[j])
  }

  /** What every write of the service keeps: each room and each record sits
      under its own id (so a lookup by key is the lookup by `Id` the database
      does), each record passed the per-record rules, and no two same-room
      stays overlap. */
  ghost predicate TableInvariant(rooms: map<int, Room>, table: map<int, Reservation>) {
    && (forall k :: k in rooms ==> rooms[k].id == k)
    && (forall k :: k in table ==> table[k].id == k && WellFormedStay(table[k]) && FitsRoom(rooms, table[k]))
    && NoOverlap(table)
  }

  /** The single lookup by id. */
  function Get(table: map<int, Reservation>, id: int): (r: Result<Reservation>)
    ensures r.Success? <==> id in table
    ensures r.Success? ==> r.value == table[id]
    ensures r.Error? ==> r.kind == NotFound
  {
    if id in table then Success(table[id]) else Error(NotFound)
  }

  /** Some element of a non-empty set of keys. */
  lemma AnyKey(s: set<int>) returns (x: int)
    requires s != {}
    ensures x in s
  {
    if forall y :: y !in s {
      assert false;
    }
    x :| x in s;
  }

  /** Every non-empty set of keys has a least element. */
  lemma {:induction false} Minimum(s: set<int>) returns (m: int)
    requires s != {}
    ensures m in s && forall j :: j in s ==> m <= j
    decreases s
  {
    var x := AnyKey(s);
    var rest := s - {x};
    if rest == {} {
      m := x;
      forall j | j in s ensures m <= j {
        assert j == x || j in rest;
      }
    } else {
      var n := Minimum(rest);
      m := if x < n then x else n;
      forall j | j in s ensures m <= j {
        if j != x { assert j in rest; }
      }
    }
  }

  lemma MinimumExists(s: set<int>)
    requires s != {}
    ensures exists m :: m in s && forall j :: j in s ==> m <= j
  {
    var m := Minimum(s);
  }

  /** `ks` lists the set `keys`, each key exactly once, in no particular order. */
  ghost predicate ListsEachOnce(ks: seq<int>, keys: set<int>) {
    && |ks| == |keys|
    && (forall i :: 0 <= i < |ks| ==> ks[i] in keys)
    && (forall k :: k in keys ==> k in ks)
    && (forall i, j :: 0 <= i < j < |ks| ==> ks[i] != ks[j])
  }

  /** `ks` lists the set `keys` in strictly ascending order, each key once. */
  ghost predicate Enumerates(ks: seq<int>, keys: set<int>) {
    && ListsEachOnce(ks, keys)
    && (forall i, j :: 0 <= i < j < |ks| ==> ks[i] < ks[j])
  }

  /** Putting the least key in front of an enumeration of the others enumerates them all. */
  lemma PrependMinimum(keys: set<int>, m: int, rest: seq<int>)
    requires m in keys && forall j :: j in keys ==> m <= j
    requires Enumerates(rest, keys - {m})
    ensures Enumerates([m] + rest, keys)
  {
  }

  /** The keys of a table in ascending order, each once. */
  function SortedKeys(keys: set<int>): (ks: seq<int>)
    ensures Enumerates(ks, keys)
    decreases keys
  {
    if keys == {} then []
    else
      MinimumExists(keys);
      var m :| m in keys && forall j :: j in keys ==> m <= j;
      var rest := SortedKeys(keys - {m});
      PrependMinimum(keys, m, rest);
      [m] + rest
  }

  /** The records of `table` read out along the key sequence `ks`. */
  function ReadOut(table: map<int, Reservation>, ks: seq<int>): (s: seq<Reservation>)
    requires forall i :: 0 <= i < |ks| ==> ks[i] in table
    ensures |s| == |ks|
    ensures forall i :: 0 <= i < |ks| ==> s[i] == table[ks[i]]
  {
    seq(|ks|, i requires 0 <= i < |ks| => table[ks[i]])
  }

  lemma ReadOutComplete(table: map<int, Reservation>, ks: seq<int>)
    requires ListsEachOnce(ks, table.Keys)
    ensures |ReadOut(table, ks)| == |table|
    ensures forall k :: k in table ==> table[k] in ReadOut(table, ks)
    ensures forall i :: 0 <= i < |ks| ==> ReadOut(table, ks)[i] in table.Values
  {
  }

  /** The listing: every stored reservation once. The source asks the database
      for no particular order, so the contract promises none; the body reads the
      keys out in ascending order only because it has to pick one. */
  function GetAll(table: map<int, Reservation>): (s: seq<Reservation>)
    ensures exists ks :: ListsEachOnce(ks, table.Keys) && |ks| == |s| && forall i :: 0 <= i < |s| ==> s[i] == table[ks[i]]
    ensures |s| == |table|
    ensures s == [] <==> table == map[]
    ensures forall k :: k in table ==> table[k] in s
    ensures forall i :: 0 <= i < |s| ==> s[i] in table.Values
  {
    var ks := SortedKeys(table.Keys);
    ReadOutComplete(table, ks);
    ReadOut(table, ks)
  }

  /** The identity the database hands out for a new row: larger than every key in use. */
  function NextId(keys: set<int>): (id: int)
    ensures id !in keys
    ensures forall k :: k in keys ==> k < id
  {
    var ks := SortedKeys(keys);
    if ks == [] then 1 else ks[|ks| - 1] + 1
  }
}
