# Hotel reservation service, modelled in Dafny

This project models the reservation service of a hotel management backend
(`HotelManagementSystem.Services/ReservationService.cs`). The service keeps a
table of reservations, checked against a table of rooms. Every create and update
first runs a validator. The validator checks, in order, and stops at the first
failure:

1. there is a reservation at all (a null request is an argument error);
2. check-out is strictly after check-in;
3. there is at least one guest;
4. the room exists (not found otherwise);
5. the room holds that many guests;
6. no stored reservation of the same room overlaps the new stay.

The overlap test is half-open: a stored stay `r` conflicts with a candidate `c`
when `r.checkIn < c.checkOut && r.checkOut > c.checkIn`. A stay that ends on the
day the other begins does not conflict.

Files:

- `ReservationModel.dfy` (module `ReservationModel`) holds the records (`Room`,
  `Reservation`), the outcome of an operation, `Outcome = Ok | InvalidArgument | ValidationError | NotFound`
  and the read-and-decide steps as pure functions over a snapshot of the tables:
  `Validate`, `Get` and `GetAll`. It also holds `NextId`, the database's identity
  generator, and the table invariant `TableInvariant`. That invariant says each
  room and each record sits under its own id (so a lookup by key is the source's
  lookup by `Id`), and each record has a non-empty stay, at least one guest and an
  existing room with enough capacity, and no two same-room stays overlap
  (`NoOverlap`).
- `ReservationProperties.dfy` (module `ReservationProperties`) holds the lemmas:
  one per validation rule, the overlap scan, the update that meets its own stored
  stay, a concrete back-to-back scenario, that every accepted write and every
  removal keeps the table invariant, and how the listing relates to the lookup.
- `ReservationService.dfy` (module `ReservationService`) holds the stateful part.
  `ReservationDto` is the caller's mutable reservation object; a successful
  create writes the new id back into it. `ReservationStore` holds the two tables
  as `map`s. Its methods `Create`, `Update` and `Delete` change only
  `reservations`. Each states its whole new state. Each leaves the table and the
  request untouched when it fails. Each keeps `Valid()` (the table invariant)
  whenever it held before. `Valid()` is not a precondition, because the service
  does not demand it. Two client methods, `ClientBackToBack` and
  `ClientUpdateAndDelete`, call the methods on a room with capacity 2 and assert
  what the contracts promise.

Dates are integers on one canonical (UTC) time line, such as day numbers or
ticks. C# `DateTime` comparison is ordinal, so integer comparison matches it.
Ids, guest counts and capacities are unbounded integers.

Two points where the code may not do what a reader expects; the model follows the code:

- One might expect an update's overlap scan to leave out the record being
  replaced. The code's scan (lines 119-124) never looks at the id,
  so the stored record takes part in it. As a result, `UnchangedStayUpdateRejected`
  shows that in a valid table, an update that keeps the booked room and dates
  (to change only the guest count, say) is always rejected.
- The code does not check that an updated id exists (line 81), so the model
  invents no not-found error for it.

## Model

| member | source | states |
|---|---|---|
| `ReservationModel.Validate` | HotelManagementSystem.Services/ReservationService.cs:88-130 | a null candidate, and only it, gives InvalidArgument; the verdict is Ok exactly when the candidate satisfies every rule at once (dates in order, a guest, an existing room with capacity, no overlapping same-room stay); NotFound exactly when the date and guest checks pass and the room is missing |
| `ReservationProperties.BadDatesRejected` | HotelManagementSystem.Services/ReservationService.cs:95-98 | check-out on or before check-in (equal dates included) is a validation error for any tables |
| `ReservationProperties.TooFewGuestsRejected` | HotelManagementSystem.Services/ReservationService.cs:100-103 | with dates in order, a guest count below 1 is a validation error for any tables |
| `ReservationProperties.MissingRoomNotFound` | HotelManagementSystem.Services/ReservationService.cs:105-112 | once dates and guest count pass, a room id absent from the rooms table gives NotFound, whatever reservations exist |
| `ReservationProperties.OverCapacityRejected` | HotelManagementSystem.Services/ReservationService.cs:114-117 | a room whose capacity is strictly below the guest count gives a validation error |
| `ReservationProperties.OverlapScanDecides` | HotelManagementSystem.Services/ReservationService.cs:114-129 | once the stay fits its room (guest count equal to capacity included), the verdict is Ok or a validation error, and a validation error exactly when some stored same-room stay has `checkIn < cand.checkOut` and `checkOut > cand.checkIn` |
| `ReservationProperties.NonOverlappingStayIrrelevant` | HotelManagementSystem.Services/ReservationService.cs:119-124 | adding a stay in another room, or one ending on or before the candidate's check-in, or starting on or after its check-out, never changes the verdict |
| `ReservationProperties.OwnStayBlocksUpdate` | HotelManagementSystem.Services/ReservationService.cs:119-124 | the scan does not exclude the candidate's own id: a candidate overlapping the stay stored under its own id is never accepted |
| `ReservationProperties.UnchangedStayUpdateRejected` | HotelManagementSystem.Services/ReservationService.cs:77-86 | in a table meeting the invariant, an update that keeps its stored room and dates is always a validation error |
| `ReservationProperties.BackToBackStays` | HotelManagementSystem.Services/ReservationService.cs:119-129 | with a stay from day 10 to 15 in a room of capacity 2, a stay from day 14 is rejected and a stay from day 15 is accepted |
| `ReservationProperties.NonConflictingWriteKeepsNoOverlap` | HotelManagementSystem.Services/ReservationService.cs:119-129 | writing a stay that conflicts with no stored stay, under a new key or over an existing one, keeps "no two same-room stays overlap" |
| `ReservationProperties.ValidatedWriteKeepsInvariant` | HotelManagementSystem.Services/ReservationService.cs:17-24 | a stay the validator accepts, stored under any key with that key as its id, keeps the whole table invariant |
| `ReservationProperties.RemovalKeepsInvariant` | HotelManagementSystem.Services/ReservationService.cs:72-74 | removing a record keeps the table invariant |
| `ReservationModel.Get` | HotelManagementSystem.Services/ReservationService.cs:38-51 | the lookup succeeds exactly when the id is stored and then returns that record; an absent id gives NotFound |
| `ReservationModel.GetAll` | HotelManagementSystem.Services/ReservationService.cs:53-59 | the listing reads the table out along some sequence of its keys, in no promised order, holding each key exactly once, so it has one entry per stored key, contains every stored record and nothing else, and is empty (not an error) exactly when the table is empty |
| `ReservationProperties.GetAllListsEachIdOnce` | HotelManagementSystem.Services/ReservationService.cs:53-59 | when every record sits under its own id, no id is listed twice |
| `ReservationProperties.GetAllAgreesWithGet` | HotelManagementSystem.Services/ReservationService.cs:38-59 | every listed record is what the single lookup returns for its id |
| `ReservationModel.NextId` | HotelManagementSystem.Services/ReservationService.cs:24-33 | the id handed to a new row is larger than, hence different from, every id in use |
| `ReservationService.NullRequestRejected` | HotelManagementSystem.Services/ReservationService.cs:90-93 | a null request is an argument error, whatever the tables hold |
| `ReservationService.ReservationStore.Create` | HotelManagementSystem.Services/ReservationService.cs:15-35 | fails exactly when validation fails, with the validator's error kind, leaving the table and the request unchanged; on success adds exactly one record under an id not in use, writes that id into the request, returns the request, and keeps the table invariant |
| `ReservationService.ReservationStore.Update` | HotelManagementSystem.Services/ReservationService.cs:77-86 | fails exactly when validation (own stored record included in the scan) fails, leaving the table unchanged; on success replaces only the record at the request's id and returns it; keeps the table invariant |
| `ReservationService.ReservationStore.Delete` | HotelManagementSystem.Services/ReservationService.cs:61-75 | an id not in the table gives NotFound and changes nothing; otherwise exactly that record is removed and all others stay; afterwards the lookup of that id gives NotFound; keeps the table invariant |

## Left out

- HotelManagementSystem.Api/Program.cs (web host, JWT, CORS, Swagger, role seeding) and HotelManagementSystem.Services/Utils/ServiceCollectionExtensions.cs (dependency injection, database connection) are not part of this model. They are framework wiring.
- Entity Framework specifics are not modelled: `async`/`await`, `SaveChangesAsync`, change tracking, `AsNoTracking` and the AutoMapper DTO/entity mapping. Each write is a direct update of the `reservations` map. Each operation is atomic, so the create race between validation and write, which needs concurrent requests, is out of scope.
- The `ToUniversalTime()` conversion on create (lines 21-22) depends on time zones and the clock. Dates enter the model already canonical.
- Exception messages and the `yyyy-MM-dd` date formatting are not modelled. Only the error kind is.
- The "Could not create reservation" exception (lines 26-29) fires only when Entity Framework returns no entity from `AddAsync`. The model's insertion always succeeds.
- `ReservationStore.Update`: for an id that is not stored, the direct map update adds the record under that id. What Entity Framework's `Update` then does on save is not modelled, and no not-found error is invented.
- `ReservationStore.Create`: the request's own id is replaced by a fresh one. The identity column is modelled by `NextId` as one more than the largest id in use. The contracts promise only freshness, not that value. Ids a database sequence skipped after deletions are not modelled, and neither is a caller-supplied non-zero id that Entity Framework would insert as given.
- `ReservationModel.GetAll`: the source asks the database for no order, so the contract promises none: it says only that each stored key is read out exactly once. The body happens to read the keys in ascending order, because a function has to pick one.
- 32-bit overflow of ids and counts is not modelled. Integers are unbounded.
