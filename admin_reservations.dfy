/** The administrators' reservation listing (src/app/api/admin/reservations/route.ts):
    every reservation that is not cancelled, newest `reservationDate` first,
    one page at a time, each row completed with the guest's name and phone
    (or placeholders) and the stay's total price. */
module AdminReservations {
  import opened Common
  import opened Entities
  import opened Auth
  import opened Stay

  /** A listed reservation: the row itself, the guest loaded by the `user`
      relation (spread into the answer with every column), and the fields the
      route adds. */
  datatype AdminRow = AdminRow(
    reservation: Reservation, user: Option<User>, fullName: string, phoneNumber: string, totalPriceCents: int)

  /** Every reservation that still holds its room, newest `reservationDate` first. */
  function LiveByDate(rows: seq<Reservation>): (r: seq<Reservation>)
    ensures forall k :: 0 <= k < |r| ==> Holds(r[k])
    ensures forall x :: x in rows && Holds(x) ==> x in r
    ensures forall x :: multiset(r)[x] == if Holds(x) then multiset(rows)[x] else 0
    ensures SortedDesc(r, (x: Reservation) => x.reservationDate)
  {
    var live := Filter(rows, Holds);
    var r := SortDesc(live, (x: Reservation) => x.reservationDate);
    forall k | 0 <= k < |r| ensures Holds(r[k]) {
      assert r[k] in multiset(r);
    }
    forall x | x in rows && Holds(x) ensures x in r {
      assert x in multiset(rows);
      assert x in multiset(r);
    }
    r
  }

  /** `res.user?.fullName || "No Name"`. */
  function NameOrDefault(user: Option<User>): (name: string)
    ensures name != ""
    ensures user.Some? && user.value.fullName != "" ==> name == user.value.fullName
    ensures user.None? || user.value.fullName == "" ==> name == "No Name"
  {
    if user.Some? && user.value.fullName != "" then user.value.fullName else "No Name"
  }

  /** `res.user?.phoneNumber || "No Phone"`. */
  function PhoneOrDefault(user: Option<User>): (phone: string)
    ensures phone != ""
    ensures user.Some? && TruthyStr(user.value.phoneNumber) ==> phone == user.value.phoneNumber.value
    ensures user.None? || !TruthyStr(user.value.phoneNumber) ==> phone == "No Phone"
  {
    if user.Some? && TruthyStr(user.value.phoneNumber) then user.value.phoneNumber.value else "No Phone"
  }

  /** The row the `map` builds for one reservation; `None` when its room or the
      room's type is missing, where `res.room.roomType.pricePerNight` throws. */
  function RowOf(res: Reservation, users: seq<User>, rooms: seq<Room>, types: seq<RoomType>): (row: Option<AdminRow>)
    ensures row.Some? <==>
      FindRoom(rooms, res.roomId).Some? && FindRoomType(types, FindRoom(rooms, res.roomId).value.roomTypeId).Some?
    ensures row.Some? ==>
      var price := FindRoomType(types, FindRoom(rooms, res.roomId).value.roomTypeId).value.priceCents;
      row.value.reservation == res &&
      row.value.user == FindUser(users, res.email) &&
      row.value.totalPriceCents == (res.checkOut - res.checkIn) * price &&
      row.value.fullName == NameOrDefault(FindUser(users, res.email)) &&
      row.value.phoneNumber == PhoneOrDefault(FindUser(users, res.email))
  {
    match FindRoom(rooms, res.roomId)
    case None => None
    case Some(room) =>
      match FindRoomType(types, room.roomTypeId)
      case None => None
      case Some(t) =>
        var user := FindUser(users, res.email);
        Some(AdminRow(res, user, NameOrDefault(user), PhoneOrDefault(user), StayTotal(res.checkIn, res.checkOut, t.priceCents)))
  }

  /** `reservations.map(...)`: every row completed, or `None` if one of them throws. */
  function RowsOf(page: seq<Reservation>, users: seq<User>, rooms: seq<Room>, types: seq<RoomType>)
    : (rows: Option<seq<AdminRow>>)
    ensures rows.Some? <==> forall k :: 0 <= k < |page| ==> RowOf(page[k], users, rooms, types).Some?
    ensures rows.Some? ==> (|rows.value| == |page| &&
      forall k :: 0 <= k < |page| ==> Some(rows.value[k]) == RowOf(rows.value[k].reservation, users, rooms, types))
  {
    MapAll(page, (res: Reservation) => RowOf(res, users, rooms, types))
  }

  /** The handler for `page` and `limit`: skip `(page - 1) x limit` live rows,
      take `limit`, complete them; `total` counts every live row. */
  function List(
    rows: seq<Reservation>, users: seq<User>, rooms: seq<Room>, types: seq<RoomType>, page: int, limit: int)
    : (r: Response<Page<AdminRow>>)
    requires page >= 1 && limit >= 1
    ensures r.Ok? ==>
      var live := LiveByDate(rows);
      r.value.total == |live| && r.value.page == page && r.value.limit == limit &&
      r.value.totalPages == TotalPages(|live|, limit) &&
      |r.value.data| == Max(0, Min(limit, |live| - Skip(page, limit))) &&
      forall k :: 0 <= k < |r.value.data| ==> r.value.data[k].reservation == live[Skip(page, limit) + k]
    ensures r.Ok? ==> LiveNewestFirst(r.value.data)
    ensures var w := Window(LiveByDate(rows), Skip(page, limit), limit);
      r.Ok? <==> forall k :: 0 <= k < |w| ==> RowOf(w[k], users, rooms, types).Some?
    ensures r.Ok? ==> forall k :: 0 <= k < |r.value.data| ==>
      Some(r.value.data[k]) == RowOf(r.value.data[k].reservation, users, rooms, types)
    ensures r.Fail? ==> r == Fail(500, "Internal server error")
  {
    var live := LiveByDate(rows);
    var skip := Skip(page, limit);
    var window := Window(live, skip, limit);
    match RowsOf(window, users, rooms, types)
    case None => Fail(500, "Internal server error")
    case Some(data) =>
      PageRows(rows, users, rooms, types, page, limit, data);
      Ok(Page(data, |live|, page, limit, TotalPages(|live|, limit)))
  }

  /** The completed rows of one page: the live window, in order, newest first,
      each the row `RowOf` builds for its reservation. */
  lemma PageRows(
    rows: seq<Reservation>, users: seq<User>, rooms: seq<Room>, types: seq<RoomType>, page: int, limit: int,
    data: seq<AdminRow>)
    requires page >= 1 && limit >= 1
    requires RowsOf(Window(LiveByDate(rows), Skip(page, limit), limit), users, rooms, types) == Some(data)
    ensures var live := LiveByDate(rows);
      |data| == Max(0, Min(limit, |live| - Skip(page, limit))) &&
      (forall k :: 0 <= k < |data| ==> data[k].reservation == live[Skip(page, limit) + k]) &&
      LiveNewestFirst(data) &&
      forall k :: 0 <= k < |data| ==> Some(data[k]) == RowOf(data[k].reservation, users, rooms, types)
  {
    var live := LiveByDate(rows);
    var skip := Skip(page, limit);
    var window := Window(live, skip, limit);
    RowsKeepReservations(window, users, rooms, types);
    forall k | 0 <= k < |data| ensures data[k].reservation == live[skip + k] {
      assert data[k].reservation == window[k];
    }
    WindowOfLive(live, skip, limit, data);
  }

  /** The completed rows are the listed reservations, in their order. */
  lemma RowsKeepReservations(page: seq<Reservation>, users: seq<User>, rooms: seq<Room>, types: seq<RoomType>)
    requires RowsOf(page, users, rooms, types).Some?
    ensures var data := RowsOf(page, users, rooms, types).value;
      |data| == |page| && forall k :: 0 <= k < |data| ==> data[k].reservation == page[k]
  {
    var data := RowsOf(page, users, rooms, types).value;
    forall k | 0 <= k < |data| ensures data[k].reservation == page[k] {
      assert data[k] == RowOf(page[k], users, rooms, types).value;
    }
  }

  /** Listed rows are live and newest `reservationDate` first. */
  ghost predicate LiveNewestFirst(data: seq<AdminRow>) {
    (forall k :: 0 <= k < |data| ==> Holds(data[k].reservation)) &&
    forall i, j :: 0 <= i < j < |data| ==> data[i].reservation.reservationDate >= data[j].reservation.reservationDate
  }

  /** Rows built from a window of the live listing are live and in date order. */
  lemma WindowOfLive(live: seq<Reservation>, skip: nat, limit: nat, data: seq<AdminRow>)
    requires forall k :: 0 <= k < |live| ==> Holds(live[k])
    requires SortedDesc(live, (x: Reservation) => x.reservationDate)
    requires |data| == |Window(live, skip, limit)|
    requires forall k :: 0 <= k < |data| ==> data[k].reservation == Window(live, skip, limit)[k]
    ensures LiveNewestFirst(data)
  {
    var w := Window(live, skip, limit);
    forall i, j | 0 <= i < j < |data|
      ensures data[i].reservation.reservationDate >= data[j].reservation.reservationDate
    {
      assert data[i].reservation == live[skip + i] && data[j].reservation == live[skip + j];
    }
  }

  /** GET behind `withAuth(handler, ADMIN)`: only an administrator's token gets a listing. */
  function Get(
    header: Option<string>, verify: string -> Option<JwtPayload>,
    rows: seq<Reservation>, users: seq<User>, rooms: seq<Room>, types: seq<RoomType>,
    page: Option<int>, limit: Option<int>)
    : (r: Response<Page<AdminRow>>)
    requires PageParam(page) >= 1 && LimitParam(limit) >= 1
    ensures r.Ok? ==> (Authenticate(header, verify, Some(AdminRole)).Ok? &&
      Authenticate(header, verify, Some(AdminRole)).value.role == AdminRole &&
      r == List(rows, users, rooms, types, PageParam(page), LimitParam(limit)))
    ensures Authenticate(header, verify, Some(AdminRole)).Fail? ==> r.Fail? && r.status in {401, 403}
    ensures Authenticate(header, verify, Some(AdminRole)).Ok? ==>
      r == List(rows, users, rooms, types, PageParam(page), LimitParam(limit))
  {
    WithAuth(header, verify, Some(AdminRole),
      (user: JwtPayload) => List(rows, users, rooms, types, PageParam(page), LimitParam(limit)))
  }

  /** Every listed row carries the guest's whole `User` record, password hash
      included, as the users listing does not. */
  lemma ListExposesPasswordHash(
    rows: seq<Reservation>, users: seq<User>, rooms: seq<Room>, types: seq<RoomType>, page: int, limit: int, k: int)
    requires page >= 1 && limit >= 1
    requires List(rows, users, rooms, types, page, limit).Ok?
    requires 0 <= k < |List(rows, users, rooms, types, page, limit).value.data|
    ensures var row := List(rows, users, rooms, types, page, limit).value.data[k];
      FindUser(users, row.reservation.email).Some? ==>
        row.user.Some? && row.user.value.passwordHash == FindUser(users, row.reservation.email).value.passwordHash
  {
    var row := List(rows, users, rooms, types, page, limit).value.data[k];
    assert Some(row) == RowOf(row.reservation, users, rooms, types);
  }

  /** One guest's hash, shown on a concrete one-row listing. */
  lemma PasswordHashExample()
    ensures var users := [User("a@example.com", "Ann", "$2a$10$hash", None, "user", true, 0)];
      var res := Reservation(1, "a@example.com", 7, Pending, 0, 5, 6, 1);
      var r := List([res], users, [Room(7, "101", 3, true, None)], [RoomType(3, "Double", 10000, 2)], 1, 5);
      r.Ok? && r.value.data[0].user.value.passwordHash == "$2a$10$hash"
  {
    var users := [User("a@example.com", "Ann", "$2a$10$hash", None, "user", true, 0)];
    var res := Reservation(1, "a@example.com", 7, Pending, 0, 5, 6, 1);
    var rooms := [Room(7, "101", 3, true, None)];
    var types := [RoomType(3, "Double", 10000, 2)];
    assert LiveByDate([res]) == [res] by {
      var l := LiveByDate([res]);
      assert res in l;
      assert multiset(l)[res] == 1;
    }
  }

  /** A guest without a name or phone on record is listed as "No Name" /
      "No Phone"; one with both keeps them. */
  lemma DefaultsExample()
    ensures var users := [User("a@example.com", "", "h", None, "user", true, 0),
                          User("b@example.com", "Bea", "h", Some("555"), "user", true, 0)];
      NameOrDefault(FindUser(users, "a@example.com")) == "No Name" &&
      PhoneOrDefault(FindUser(users, "a@example.com")) == "No Phone" &&
      NameOrDefault(FindUser(users, "b@example.com")) == "Bea" &&
      PhoneOrDefault(FindUser(users, "b@example.com")) == "555" &&
      NameOrDefault(FindUser(users, "c@example.com")) == "No Name"
  {
  }
}
