/** The public room catalogue (src/app/api/rooms/route.ts): the active rooms in
    `roomId` order, one validated page at a time, with the flags the pages use
    to enable their Previous and Next buttons. The response cache in front of
    the query is not modelled: every call reads the current table. */
module RoomsApi {
  import opened Common
  import opened Entities

  /** The fields each returned room keeps, with its loaded room type. */
  datatype RoomView = RoomView(
    roomId: int, roomNumber: string, roomTypeId: int, isActive: bool, imageRoom: Option<string>,
    roomType: Option<RoomType>)

  /** The `pagination` block of this route. */
  datatype RoomsPage = RoomsPage(
    data: seq<RoomView>, page: int, limit: int, total: nat, totalPages: nat, hasNext: bool, hasPrev: bool)

  const DefaultPage: int := 1
  const DefaultLimit: int := 6
  const MaxLimit: int := 100

  /** The sort key: `order: { roomId: "ASC" }` is largest-first on the negated id. */
  function IdDescKey(r: Room): int {
    -r.roomId
  }

  /** The active rooms, smallest `roomId` first. */
  function ActiveById(rooms: seq<Room>): (r: seq<Room>)
    ensures forall k :: 0 <= k < |r| ==> r[k].isActive
    ensures forall x :: x in rooms && x.isActive ==> x in r
    ensures multiset(r) <= multiset(rooms)
    ensures forall i, j :: 0 <= i < j < |r| ==> r[i].roomId <= r[j].roomId
  {
    var active := Filter(rooms, IsActive);
    var r := SortDesc(active, IdDescKey);
    ActiveMembers(rooms, active, r);
    IdsAscending(r);
    r
  }

  function IsActive(r: Room): bool {
    r.isActive
  }

  /** Reordering the active rooms keeps exactly the active rooms. */
  lemma ActiveMembers(rooms: seq<Room>, active: seq<Room>, r: seq<Room>)
    requires forall x :: multiset(active)[x] == if IsActive(x) then multiset(rooms)[x] else 0
    requires multiset(r) == multiset(active)
    ensures forall k :: 0 <= k < |r| ==> r[k].isActive
    ensures forall x :: x in rooms && x.isActive ==> x in r
    ensures multiset(r) <= multiset(rooms)
  {
    forall k | 0 <= k < |r| ensures r[k].isActive {
      assert multiset(active)[r[k]] > 0;
    }
    forall x | x in rooms && x.isActive ensures x in r {
      assert multiset(r)[x] == multiset(rooms)[x] > 0;
    }
  }

  /** Largest-first on the negated id is smallest-first on the id. */
  lemma IdsAscending(r: seq<Room>)
    requires SortedDesc(r, IdDescKey)
    ensures forall i, j :: 0 <= i < j < |r| ==> r[i].roomId <= r[j].roomId
  {
    forall i, j | 0 <= i < j < |r| ensures r[i].roomId <= r[j].roomId {
      assert IdDescKey(r[i]) >= IdDescKey(r[j]);
    }
  }

  /** `rooms.map(room => ({ roomId, roomNumber, roomTypeId, isActive, imageRoom, roomType }))`. */
  function ViewOf(room: Room, types: seq<RoomType>): (v: RoomView)
    ensures v.roomId == room.roomId && v.roomNumber == room.roomNumber && v.roomTypeId == room.roomTypeId
    ensures v.isActive == room.isActive && v.imageRoom == room.imageRoom
    ensures v.roomType.Some? ==> v.roomType.value in types && v.roomType.value.roomTypeId == room.roomTypeId
  {
    RoomView(room.roomId, room.roomNumber, room.roomTypeId, room.isActive, room.imageRoom,
             FindRoomType(types, room.roomTypeId))
  }

  function ViewsOf(rooms: seq<Room>, types: seq<RoomType>): (vs: seq<RoomView>)
    ensures |vs| == |rooms| && forall k :: 0 <= k < |vs| ==> vs[k] == ViewOf(rooms[k], types)
  {
    if rooms == [] then [] else [ViewOf(rooms[0], types)] + ViewsOf(rooms[1..], types)
  }

  /** `page < 1 || limit < 1 || limit > 100` is refused. */
  predicate ValidParams(page: int, limit: int) {
    page >= 1 && limit >= 1 && limit <= MaxLimit
  }

  /** One accepted page: skip `(page - 1) x limit` active rooms, take `limit`. */
  function ListPage(rooms: seq<Room>, types: seq<RoomType>, page: int, limit: int): (r: RoomsPage)
    requires ValidParams(page, limit)
    ensures r.page == page && r.limit == limit
    ensures var active := ActiveById(rooms);
      r.total == |active| && r.totalPages == TotalPages(|active|, limit) &&
      |r.data| == Max(0, Min(limit, |active| - Skip(page, limit))) &&
      forall k :: 0 <= k < |r.data| ==> r.data[k] == ViewOf(active[Skip(page, limit) + k], types)
    ensures (r.hasNext <==> page < r.totalPages) && (r.hasPrev <==> page > 1)
  {
    var active := ActiveById(rooms);
    var data := ViewsOf(Window(active, Skip(page, limit), limit), types);
    var totalPages := TotalPages(|active|, limit);
    RoomsPage(data, page, limit, |active|, totalPages, page < totalPages, page > 1)
  }

  /** GET /api/rooms with the query's `page` and `limit` (defaults 1 and 6). */
  function Get(rooms: seq<Room>, types: seq<RoomType>, pageParam: Option<int>, limitParam: Option<int>)
    : (r: Response<RoomsPage>)
    ensures var page := if pageParam.None? then DefaultPage else pageParam.value;
      var limit := if limitParam.None? then DefaultLimit else limitParam.value;
      (r.Fail? <==> !ValidParams(page, limit)) &&
      (r.Fail? ==> r == Fail(400, "Invalid pagination parameters")) &&
      (r.Ok? ==> r.value == ListPage(rooms, types, page, limit))
  {
    var page := if pageParam.None? then DefaultPage else pageParam.value;
    var limit := if limitParam.None? then DefaultLimit else limitParam.value;
    if !ValidParams(page, limit) then Fail(400, "Invalid pagination parameters")
    else Ok(ListPage(rooms, types, page, limit))
  }

  /** `hasNext` promises exactly that the next page is not empty, and an
      accepted page past the last one comes back empty. */
  lemma HasNextIffNextPageNonEmpty(rooms: seq<Room>, types: seq<RoomType>, page: int, limit: int)
    requires ValidParams(page, limit)
    ensures var r := ListPage(rooms, types, page, limit);
      (r.hasNext <==> |Window(ActiveById(rooms), Skip(page + 1, limit), limit)| > 0) &&
      (page > r.totalPages ==> r.data == [])
  {
    var active := ActiveById(rooms);
    WindowNonEmptyIff(active, page + 1, limit);
    WindowNonEmptyIff(active, page, limit);
  }

  /** Page 0 and a limit above 100 are refused; leaving both out asks for page 1 of 6 rooms. */
  lemma ParamsExample(rooms: seq<Room>, types: seq<RoomType>)
    ensures Get(rooms, types, Some(0), None) == Fail(400, "Invalid pagination parameters")
    ensures Get(rooms, types, None, Some(101)) == Fail(400, "Invalid pagination parameters")
    ensures Get(rooms, types, None, Some(100)) == Ok(ListPage(rooms, types, 1, 100))
    ensures Get(rooms, types, None, None) == Ok(ListPage(rooms, types, 1, 6))
  {
  }
}
