/** Creating a room (src/app/api/admin/rooms/route.ts): an administrator sends
    a room number and a room type; the number must not be taken, `isActive`
    defaults to true only when it is left out, and an empty image becomes
    null. */
module AdminRooms {
  import opened Common
  import opened Entities
  import opened Auth

  /** The JSON body; `None` is a missing field. */
  datatype RoomRequest = RoomRequest(
    roomNumber: Option<string>, roomTypeId: Option<int>, isActive: Option<bool>, imageRoom: Option<string>)

  /** Some room, active or not, already has this number. */
  predicate NumberTaken(rows: seq<Room>, roomNumber: string) {
    exists k :: 0 <= k < |rows| && rows[k].roomNumber == roomNumber
  }

  /** The handler's checks and the room it creates (its id is assigned by the save). */
  function Decide(req: RoomRequest, rows: seq<Room>): (r: Response<Room>)
    ensures !TruthyStr(req.roomNumber) || !TruthyInt(req.roomTypeId) <==>
      r == Fail(400, "Room number and room type are required")
    ensures TruthyStr(req.roomNumber) && TruthyInt(req.roomTypeId) ==>
      (r == Fail(400, "Room number already exists") <==> NumberTaken(rows, req.roomNumber.value))
    ensures r.Ok? ==> !NumberTaken(rows, r.value.roomNumber)
    ensures r.Ok? ==>
      r.value.roomNumber == req.roomNumber.value && r.value.roomTypeId == req.roomTypeId.value &&
      (req.isActive.None? ==> r.value.isActive) &&
      (req.isActive.Some? ==> r.value.isActive == req.isActive.value) &&
      (r.value.imageRoom.Some? <==> TruthyStr(req.imageRoom)) &&
      (r.value.imageRoom.Some? ==> r.value.imageRoom == req.imageRoom)
  {
    if !TruthyStr(req.roomNumber) || !TruthyInt(req.roomTypeId) then
      Fail(400, "Room number and room type are required")
    else if NumberTaken(rows, req.roomNumber.value) then
      Fail(400, "Room number already exists")
    else
      var isActive := if req.isActive.Some? then req.isActive.value else true;
      var imageRoom := if TruthyStr(req.imageRoom) then req.imageRoom else None;
      Ok(Room(0, req.roomNumber.value, req.roomTypeId.value, isActive, imageRoom))
  }

  /** POST /api/admin/rooms behind `withAuth(handler, ADMIN)`: a refusal leaves
      the table as it was; a success appends exactly the decided room, and room
      numbers stay unique (the table's invariant). */
  method Create(table: RoomTable, header: Option<string>, verify: string -> Option<JwtPayload>, req: RoomRequest)
    returns (resp: Response<Room>)
    requires table.Valid()
    modifies table
    ensures table.Valid()
    ensures Authenticate(header, verify, Some(AdminRole)).Fail? ==>
      resp.Fail? && resp.status in {401, 403} && table.rows == old(table.rows)
    ensures Authenticate(header, verify, Some(AdminRole)).Ok? ==>
      var d := Decide(req, old(table.rows));
      (d.Fail? ==> resp == d && table.rows == old(table.rows)) &&
      (d.Ok? ==> resp == Ok(d.value.(roomId := old(table.nextId))) && table.rows == old(table.rows) + [resp.value])
  {
    var auth := Authenticate(header, verify, Some(AdminRole));
    if auth.Fail? {
      return Fail(auth.status, auth.message);
    }
    var d := Decide(req, table.rows);
    if d.Fail? {
      return d;
    }
    var saved := table.Save(d.value);
    resp := Ok(saved);
  }

  /** An explicit `isActive: false` is kept, a missing one becomes true, and an
      empty image is stored as null. */
  lemma DefaultsExample()
    ensures Decide(RoomRequest(Some("101"), Some(1), Some(false), Some("")), []) == Ok(Room(0, "101", 1, false, None))
    ensures Decide(RoomRequest(Some("101"), Some(1), None, Some("a.jpg")), []) == Ok(Room(0, "101", 1, true, Some("a.jpg")))
    ensures Decide(RoomRequest(Some("101"), Some(1), None, None), [Room(4, "101", 2, false, None)])
      == Fail(400, "Room number already exists")
  {
    assert NumberTaken([Room(4, "101", 2, false, None)], "101") by {
      assert [Room(4, "101", 2, false, None)][0].roomNumber == "101";
    }
  }
}
