/** The reservations route (src/app/api/reservations/route.ts): listing the
    caller's live reservations, and admitting a booking request through the
    chain fields -> room -> capacity -> overlap -> status before a PENDING row is
    saved. The central property: a successful POST keeps the live reservations
    of every room pairwise non-overlapping on `[checkIn, checkOut)`. */
module Booking {
  import opened Common
  import opened Entities
  import opened Auth

  // ---------------------------------------------------------------------------
  // The overlap rule

  /** The query's overlap test between an existing stay `[aIn, aOut)` and a
      requested one `[bIn, bOut)`: `existing.in < req.out && existing.out > req.in`. */
  predicate Overlaps(aIn: int, aOut: int, bIn: int, bOut: int) {
    aIn < bOut && aOut > bIn
  }

  /** The test does not depend on which stay is the existing one. */
  lemma OverlapsSymmetric(aIn: int, aOut: int, bIn: int, bOut: int)
    ensures Overlaps(aIn, aOut, bIn, bOut) == Overlaps(bIn, bOut, aIn, aOut)
  {
  }

  /** Night `d` is part of the stay `[checkIn, checkOut)`. */
  predicate NightOf(d: int, checkIn: int, checkOut: int) {
    checkIn <= d < checkOut
  }

  /** The test holds exactly when some night belongs to both stays (for an
      inverted stay, with no night at all, it can still hold). */
  lemma OverlapsIffSharedNight(aIn: int, aOut: int, bIn: int, bOut: int)
    requires aIn < aOut && bIn < bOut
    ensures Overlaps(aIn, aOut, bIn, bOut) <==> exists d :: NightOf(d, aIn, aOut) && NightOf(d, bIn, bOut)
  {
    if Overlaps(aIn, aOut, bIn, bOut) {
      var d := Max(aIn, bIn);
      assert NightOf(d, aIn, aOut) && NightOf(d, bIn, bOut);
    }
  }

  /** Same-day turnover: a stay that starts on the day another ends does not overlap it. */
  lemma BackToBackDoNotOverlap(aIn: int, aOut: int, bOut: int)
    ensures !Overlaps(aIn, aOut, aOut, bOut) && !Overlaps(aOut, bOut, aIn, aOut)
  {
  }

  /** A reservation that stands in the way of booking `[checkIn, checkOut)` on a room. */
  predicate Blocks(r: Reservation, roomId: int, checkIn: int, checkOut: int) {
    r.roomId == roomId && Holds(r) && Overlaps(r.checkIn, r.checkOut, checkIn, checkOut)
  }

  /** The query builder's `getOne()`: some blocking reservation, if there is one. */
  function FindConflict(rows: seq<Reservation>, roomId: int, checkIn: int, checkOut: int): (r: Option<Reservation>)
    ensures r.Some? ==> r.value in rows && Blocks(r.value, roomId, checkIn, checkOut)
    ensures r.None? <==> forall k :: 0 <= k < |rows| ==> !Blocks(rows[k], roomId, checkIn, checkOut)
  {
    if rows == [] then None
    else if Blocks(rows[0], roomId, checkIn, checkOut) then Some(rows[0])
    else FindConflict(rows[1..], roomId, checkIn, checkOut)
  }

  /** The central invariant: on every room, the reservations that are not
      cancelled are pairwise non-overlapping. */
  ghost predicate RoomsDisjoint(rows: seq<Reservation>) {
    forall i, j :: 0 <= i < j < |rows| && rows[i].roomId == rows[j].roomId && Holds(rows[i]) && Holds(rows[j]) ==>
      !Overlaps(rows[i].checkIn, rows[i].checkOut, rows[j].checkIn, rows[j].checkOut)
  }

  // ---------------------------------------------------------------------------
  // GET

  /** The caller's reservations that are not cancelled, newest `reservationDate` first. */
  function MyReservations(rows: seq<Reservation>, email: string): (r: seq<Reservation>)
    ensures forall k :: 0 <= k < |r| ==> r[k].email == email && Holds(r[k])
    ensures forall x :: x in rows && x.email == email && Holds(x) ==> x in r
    ensures forall x :: multiset(r)[x] == if x.email == email && Holds(x) then multiset(rows)[x] else 0
    ensures SortedDesc(r, (x: Reservation) => x.reservationDate)
  {
    var mine := Filter(rows, (x: Reservation) => x.email == email && Holds(x));
    var r := SortDesc(mine, (x: Reservation) => x.reservationDate);
    forall k | 0 <= k < |r| ensures r[k].email == email && Holds(r[k]) {
      assert r[k] in multiset(r);
    }
    forall x | x in rows && x.email == email && Holds(x) ensures x in r {
      assert x in multiset(rows);
      assert x in multiset(r);
    }
    r
  }

  /** GET behind `withAuth` with no role: any caller with a valid token. */
  function Get(header: Option<string>, verify: string -> Option<JwtPayload>, rows: seq<Reservation>)
    : (r: Response<seq<Reservation>>)
    ensures r.Ok? ==> (Authenticate(header, verify, None).Ok? &&
      r.value == MyReservations(rows, Authenticate(header, verify, None).value.email))
    ensures r.Fail? ==> r.status == 401
    ensures Authenticate(header, verify, None).Ok? ==>
      r == Ok(MyReservations(rows, Authenticate(header, verify, None).value.email))
  {
    WithAuth(header, verify, None, (user: JwtPayload) => Ok(MyReservations(rows, user.email)))
  }

  // ---------------------------------------------------------------------------
  // POST

  /** The JSON body of a booking request; `None` is a field that is missing
      (or, for a date, empty). */
  datatype BookingRequest = BookingRequest(
    roomId: Option<int>,
    checkInDate: Option<int>,
    checkOutDate: Option<int>,
    numberOfGuests: Option<int>)

  /** `roomId && checkInDate && checkOutDate && numberOfGuests` is truthy. */
  predicate FieldsPresent(req: BookingRequest) {
    TruthyInt(req.roomId) && req.checkInDate.Some? && req.checkOutDate.Some? && TruthyInt(req.numberOfGuests)
  }

  /** The checks of POST, in the source's order, and the row it then saves
      (its id is assigned by the save). `statuses` are the seeded status rows. */
  function Admit(
    req: BookingRequest, caller: JwtPayload,
    rooms: seq<Room>, types: seq<RoomType>, rows: seq<Reservation>,
    statuses: set<StatusName>, now: int)
    : (r: Response<Reservation>)
    ensures r.Ok? ==> (FieldsPresent(req) &&
      r.value == Reservation(0, caller.email, req.roomId.value, Pending, now,
                             req.checkInDate.value, req.checkOutDate.value, req.numberOfGuests.value))
    ensures r.Ok? ==>
      exists room :: (room in rooms && room.roomId == r.value.roomId && room.isActive &&
        exists t :: t in types && t.roomTypeId == room.roomTypeId && r.value.guests <= t.capacity)
    ensures r.Ok? ==> forall k :: 0 <= k < |rows| ==> !Blocks(rows[k], r.value.roomId, r.value.checkIn, r.value.checkOut)
    ensures FieldsPresent(req) && FindConflict(rows, req.roomId.value, req.checkInDate.value, req.checkOutDate.value).Some?
      ==> r.Fail?
  {
    if !FieldsPresent(req) then Fail(400, "All fields are required")
    else
      var roomId, checkIn, checkOut, guests := req.roomId.value, req.checkInDate.value, req.checkOutDate.value, req.numberOfGuests.value;
      match FindActiveRoom(rooms, roomId)
      case None => Fail(404, "Room not found or not available")
      case Some(room) =>
        match FindRoomType(types, room.roomTypeId)
        // `room.roomType.capacity` on a room whose type is missing throws.
        case None => Fail(500, "Internal server error")
        case Some(roomType) =>
          if guests > roomType.capacity then Fail(400, "Number of guests exceeds room capacity")
          else if FindConflict(rows, roomId, checkIn, checkOut).Some? then
            Fail(400, "Room is not available for the selected dates")
          else if Pending !in statuses then Fail(500, "Reservation status not configured")
          else Ok(Reservation(0, caller.email, roomId, Pending, now, checkIn, checkOut, guests))
  }

  /** Missing fields are refused first; a guest count of 0 counts as missing. */
  lemma MissingFieldsRefused(req: BookingRequest, caller: JwtPayload, rooms: seq<Room>, types: seq<RoomType>,
                             rows: seq<Reservation>, statuses: set<StatusName>, now: int)
    requires !FieldsPresent(req)
    ensures Admit(req, caller, rooms, types, rows, statuses, now) == Fail(400, "All fields are required")
  {
  }

  /** Once the fields are present, an unknown or inactive room gives 404. */
  lemma UnknownRoomRefused(req: BookingRequest, caller: JwtPayload, rooms: seq<Room>, types: seq<RoomType>,
                           rows: seq<Reservation>, statuses: set<StatusName>, now: int)
    requires FieldsPresent(req)
    requires forall k :: 0 <= k < |rooms| ==> !(rooms[k].roomId == req.roomId.value && rooms[k].isActive)
    ensures Admit(req, caller, rooms, types, rows, statuses, now) == Fail(404, "Room not found or not available")
  {
  }

  /** With the room found, the capacity decides before any overlap is looked
      at: more guests than the capacity is refused, exactly the capacity is not. */
  lemma CapacityRule(req: BookingRequest, caller: JwtPayload, rooms: seq<Room>, types: seq<RoomType>,
                     rows: seq<Reservation>, statuses: set<StatusName>, now: int, room: Room, t: RoomType)
    requires FieldsPresent(req)
    requires FindActiveRoom(rooms, req.roomId.value) == Some(room)
    requires FindRoomType(types, room.roomTypeId) == Some(t)
    ensures req.numberOfGuests.value > t.capacity ==>
      Admit(req, caller, rooms, types, rows, statuses, now) == Fail(400, "Number of guests exceeds room capacity")
    ensures (req.numberOfGuests.value == t.capacity && Pending in statuses &&
             FindConflict(rows, req.roomId.value, req.checkInDate.value, req.checkOutDate.value).None?) ==>
      Admit(req, caller, rooms, types, rows, statuses, now).Ok?
  {
  }

  /** With every earlier check passed, the request is refused for the dates
      exactly when some live reservation of the same room overlaps it. */
  lemma OverlapRuleIff(req: BookingRequest, caller: JwtPayload, rooms: seq<Room>, types: seq<RoomType>,
                       rows: seq<Reservation>, statuses: set<StatusName>, now: int, room: Room, t: RoomType)
    requires FieldsPresent(req) && Pending in statuses
    requires FindActiveRoom(rooms, req.roomId.value) == Some(room)
    requires FindRoomType(types, room.roomTypeId) == Some(t)
    requires req.numberOfGuests.value <= t.capacity
    ensures Admit(req, caller, rooms, types, rows, statuses, now) == Fail(400, "Room is not available for the selected dates")
      <==> exists k :: 0 <= k < |rows| && Blocks(rows[k], req.roomId.value, req.checkInDate.value, req.checkOutDate.value)
    ensures Admit(req, caller, rooms, types, rows, statuses, now).Fail? ==>
      Admit(req, caller, rooms, types, rows, statuses, now) == Fail(400, "Room is not available for the selected dates")
  {
  }

  /** Admitting a request keeps the invariant: the new row overlaps no live
      row of its room, and the other pairs are untouched. No `checkIn < checkOut`
      is needed, because the overlap test is symmetric. */
  lemma AdmitPreservesDisjoint(rows: seq<Reservation>, x: Reservation)
    requires RoomsDisjoint(rows)
    requires forall k :: 0 <= k < |rows| ==> !Blocks(rows[k], x.roomId, x.checkIn, x.checkOut)
    ensures RoomsDisjoint(rows + [x])
  {
    var s := rows + [x];
    forall i, j | 0 <= i < j < |s| && s[i].roomId == s[j].roomId && Holds(s[i]) && Holds(s[j])
      ensures !Overlaps(s[i].checkIn, s[i].checkOut, s[j].checkIn, s[j].checkOut)
    {
      if j == |rows| {
        assert !Blocks(rows[i], x.roomId, x.checkIn, x.checkOut);
      } else {
        assert s[i] == rows[i] && s[j] == rows[j];
      }
    }
  }

  /** POST /api/reservations: `withAuth`, then the admission checks; a refusal at
      any step writes nothing, a success appends exactly one PENDING row. */
  method Post(
    table: ReservationTable,
    header: Option<string>, verify: string -> Option<JwtPayload>,
    req: BookingRequest, rooms: seq<Room>, types: seq<RoomType>,
    statuses: set<StatusName>, now: int)
    returns (resp: Response<Reservation>)
    requires table.Valid()
    modifies table
    ensures table.Valid()
    ensures Authenticate(header, verify, None).Fail? ==>
      resp.Fail? && resp.status == 401 && table.rows == old(table.rows)
    ensures Authenticate(header, verify, None).Ok? ==>
      var d := Admit(req, Authenticate(header, verify, None).value, rooms, types, old(table.rows), statuses, now);
      (d.Fail? ==> resp == d && table.rows == old(table.rows)) &&
      (d.Ok? ==> resp.Ok? && resp.value == d.value.(reservationId := old(table.nextId)) &&
                 table.rows == old(table.rows) + [resp.value])
    ensures RoomsDisjoint(old(table.rows)) ==> RoomsDisjoint(table.rows)
  {
    var auth := Authenticate(header, verify, None);
    if auth.Fail? {
      return Fail(auth.status, auth.message);
    }
    var d := Admit(req, auth.value, rooms, types, table.rows, statuses, now);
    if d.Fail? {
      return d;
    }
    ghost var before := table.rows;
    var saved := table.Save(d.value);
    if RoomsDisjoint(before) {
      AdmitPreservesDisjoint(before, saved);
    }
    resp := Ok(saved);
  }

  // ---------------------------------------------------------------------------
  // Boundary cases of the overlap rule

  const ActiveRoom := Room(7, "101", 1, true, None)
  const Double := RoomType(1, "Double", 10000, 2)
  const Caller := JwtPayload("guest@example.com", "user")

  /** A stay booked for nights 1..4 on room 7 (check-out on day 5). */
  function StayOneToFive(status: StatusName): Reservation {
    Reservation(1, "other@example.com", 7, status, 0, 1, 5, 2)
  }

  /** Checking in on the day another guest checks out is admitted; checking in
      the day before is refused; a cancelled stay never blocks. */
  lemma BoundaryExamples()
    ensures Admit(BookingRequest(Some(7), Some(5), Some(6), Some(2)), Caller, [ActiveRoom], [Double],
                  [StayOneToFive(Confirmed)], {Pending}, 0).Ok?
    ensures Admit(BookingRequest(Some(7), Some(4), Some(6), Some(2)), Caller, [ActiveRoom], [Double],
                  [StayOneToFive(Confirmed)], {Pending}, 0) == Fail(400, "Room is not available for the selected dates")
    ensures Admit(BookingRequest(Some(7), Some(4), Some(6), Some(2)), Caller, [ActiveRoom], [Double],
                  [StayOneToFive(Cancelled)], {Pending}, 0).Ok?
  {
    assert !Blocks(StayOneToFive(Confirmed), 7, 5, 6);
    assert Blocks(StayOneToFive(Confirmed), 7, 4, 6);
    assert !Blocks(StayOneToFive(Cancelled), 7, 4, 6);
  }

  /** The chain never compares the two dates: an inverted stay (check-out before
      check-in) and a negative guest count are both admitted. */
  lemma NoRangeValidation()
    ensures Admit(BookingRequest(Some(7), Some(10), Some(5), Some(2)), Caller, [ActiveRoom], [Double],
                  [], {Pending}, 0).Ok?
    ensures Admit(BookingRequest(Some(7), Some(5), Some(10), Some(-3)), Caller, [ActiveRoom], [Double],
                  [], {Pending}, 0).Ok?
  {
  }
  /** The admission chain as the route is written. The room is fetched by id
      without asking for its `roomType` relation and no relation of `Room` is
      eager, so `room.roomType` is undefined and reading its `capacity` throws;
      the handler's catch answers 500. Every complete request for an existing
      active room is therefore refused. */
  function AdmitAsWritten(req: BookingRequest, rooms: seq<Room>): (r: Response<Reservation>)
    ensures r.Fail?
    ensures !FieldsPresent(req) ==> r == Fail(400, "All fields are required")
    ensures FieldsPresent(req) && FindActiveRoom(rooms, req.roomId.value).Some? ==>
      r == Fail(500, "Internal server error")
  {
    if !FieldsPresent(req) then Fail(400, "All fields are required")
    else match FindActiveRoom(rooms, req.roomId.value)
      case None => Fail(404, "Room not found or not available")
      case Some(_) => Fail(500, "Internal server error")
  }

  /** A free room with enough capacity that the intended chain books is refused
      with 500 by the chain as written. */
  lemma AsWrittenRefusesBookableRoom()
    ensures Admit(BookingRequest(Some(7), Some(5), Some(6), Some(2)), Caller, [ActiveRoom], [Double],
                  [], {Pending}, 0).Ok?
    ensures AdmitAsWritten(BookingRequest(Some(7), Some(5), Some(6), Some(2)), [ActiveRoom])
            == Fail(500, "Internal server error")
  {
  }
}
