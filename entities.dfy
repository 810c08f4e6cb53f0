/** The records the routes read and write, and the tables that stand in for the
    database: a reservation table, a room table and an e-mail queue, each an
    in-memory sequence of rows that a `save` appends to. Dates are day numbers
    (days since 1970-01-01), instants are milliseconds, money is euro cents. */
module Entities {
  import opened Common

  /** The seeded reservation statuses. */
  datatype StatusName = Pending | Confirmed | Cancelled | Completed

  /** The name each status is stored and sent under. */
  function StatusText(s: StatusName): (t: string)
    ensures t in ["PENDING", "CONFIRMED", "CANCELLED", "COMPLETED"]
  {
    match s
    case Pending => "PENDING"
    case Confirmed => "CONFIRMED"
    case Cancelled => "CANCELLED"
    case Completed => "COMPLETED"
  }

  /** A kind of room: its nightly price in cents and how many guests it holds. */
  datatype RoomType = RoomType(roomTypeId: int, roomTypeName: string, priceCents: int, capacity: int)

  datatype Room = Room(roomId: int, roomNumber: string, roomTypeId: int, isActive: bool, imageRoom: Option<string>)

  /** A booking of one room for the nights `[checkIn, checkOut)`. */
  datatype Reservation = Reservation(
    reservationId: int,
    email: string,
    roomId: int,
    status: StatusName,
    reservationDate: int,
    checkIn: int,
    checkOut: int,
    guests: int)

  datatype User = User(
    email: string,
    fullName: string,
    passwordHash: string,
    phoneNumber: Option<string>,
    role: string,
    isActive: bool,
    createdAt: int)

  datatype EmailEntry = EmailEntry(
    emailQueueId: int,
    toEmail: string,
    subject: string,
    body: string,
    emailType: string,
    status: string,
    attempts: int,
    maxAttempts: int,
    scheduledSendTime: int,
    createdAt: int)

  /** The role name of administrators. */
  const AdminRole: string := "admin"

  /** A reservation that still holds its room. */
  predicate Holds(r: Reservation) {
    r.status != Cancelled
  }

  /** The first room of the catalogue with this id that is active, as
      `findOne({ where: { roomId, isActive: true } })` returns it. */
  function FindActiveRoom(rooms: seq<Room>, roomId: int): (r: Option<Room>)
    ensures r.Some? ==> r.value in rooms && r.value.roomId == roomId && r.value.isActive
    ensures r.None? <==> forall k :: 0 <= k < |rooms| ==> !(rooms[k].roomId == roomId && rooms[k].isActive)
  {
    FindFirst(rooms, (x: Room) => x.roomId == roomId && x.isActive)
  }

  /** The room a reservation refers to (the loaded `room` relation), active or not. */
  function FindRoom(rooms: seq<Room>, roomId: int): (r: Option<Room>)
    ensures r.Some? ==> r.value in rooms && r.value.roomId == roomId
    ensures r.None? <==> forall k :: 0 <= k < |rooms| ==> rooms[k].roomId != roomId
  {
    FindFirst(rooms, (x: Room) => x.roomId == roomId)
  }

  /** The user a reservation refers to (the loaded `user` relation). */
  function FindUser(users: seq<User>, email: string): (u: Option<User>)
    ensures u.Some? ==> u.value in users && u.value.email == email
    ensures u.None? <==> forall k :: 0 <= k < |users| ==> users[k].email != email
  {
    FindFirst(users, (x: User) => x.email == email)
  }

  /** The room type a room refers to (the loaded `room.roomType` relation). */
  function FindRoomType(types: seq<RoomType>, roomTypeId: int): (t: Option<RoomType>)
    ensures t.Some? ==> t.value in types && t.value.roomTypeId == roomTypeId
    ensures t.None? <==> forall k :: 0 <= k < |types| ==> types[k].roomTypeId != roomTypeId
  {
    FindFirst(types, (x: RoomType) => x.roomTypeId == roomTypeId)
  }

  /** The `reservations` table. */
  class ReservationTable {
    var rows: seq<Reservation>
    var nextId: int

    /** The primary key is generated: increasing along the table, below `nextId`. */
    ghost predicate Valid()
      reads this
    {
      (forall i, j :: 0 <= i < j < |rows| ==> rows[i].reservationId < rows[j].reservationId) &&
      (forall i :: 0 <= i < |rows| ==> rows[i].reservationId < nextId)
    }

    constructor ()
      ensures Valid() && rows == []
    {
      rows := [];
      nextId := 1;
    }

    /** `repository.save(data)`: the row gets the next generated id and is appended. */
    method Save(data: Reservation) returns (saved: Reservation)
      requires Valid()
      modifies this
      ensures Valid()
      ensures saved == data.(reservationId := old(nextId))
      ensures rows == old(rows) + [saved]
    {
      saved := data.(reservationId := nextId);
      rows := rows + [saved];
      nextId := nextId + 1;
    }
  }

  /** The `rooms` table. */
  class RoomTable {
    var rows: seq<Room>
    var nextId: int

    /** Generated ids, and `room_number` is a unique column. */
    ghost predicate Valid()
      reads this
    {
      (forall i, j :: 0 <= i < j < |rows| ==> rows[i].roomId < rows[j].roomId) &&
      (forall i :: 0 <= i < |rows| ==> rows[i].roomId < nextId) &&
      (forall i, j :: 0 <= i < j < |rows| ==> rows[i].roomNumber != rows[j].roomNumber)
    }

    constructor ()
      ensures Valid() && rows == []
    {
      rows := [];
      nextId := 1;
    }

    /** `repository.save(room)` of a room whose number is not taken: it gets
        the next generated id and is appended. */
    method Save(data: Room) returns (saved: Room)
      requires Valid()
      requires forall k :: 0 <= k < |rows| ==> rows[k].roomNumber != data.roomNumber
      modifies this
      ensures Valid()
      ensures saved == data.(roomId := old(nextId))
      ensures rows == old(rows) + [saved]
    {
      saved := data.(roomId := nextId);
      rows := rows + [saved];
      nextId := nextId + 1;
    }
  }

  /** The `email_queues` table. */
  class EmailQueueTable {
    var rows: seq<EmailEntry>
    var nextId: int

    ghost predicate Valid()
      reads this
    {
      (forall i, j :: 0 <= i < j < |rows| ==> rows[i].emailQueueId < rows[j].emailQueueId) &&
      (forall i :: 0 <= i < |rows| ==> rows[i].emailQueueId < nextId)
    }

    constructor ()
      ensures Valid() && rows == []
    {
      rows := [];
      nextId := 1;
    }

    method Save(data: EmailEntry) returns (saved: EmailEntry)
      requires Valid()
      modifies this
      ensures Valid()
      ensures saved == data.(emailQueueId := old(nextId))
      ensures rows == old(rows) + [saved]
    {
      saved := data.(emailQueueId := nextId);
      rows := rows + [saved];
      nextId := nextId + 1;
    }
  }
}
