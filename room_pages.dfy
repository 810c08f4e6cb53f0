/** The two room catalogue pages, the home page (src/app/page.tsx) and /rooms
    (src/app/rooms/page.tsx). Both keep the same listing state: the rooms of
    the current page, a loading flag, `currentPage` and the `totalPages` and
    `total` of the last answer, asking GET /api/rooms for six rooms at a time.
    The home page also picks each card's button by the signed-in user's role. */
module RoomPages {
  import opened Common
  import opened Entities
  import opened RoomsApi

  /** `itemsPerPage`. */
  const ItemsPerPage: int := 6

  /** `paginate(n)`'s decision: move to `n` when `1 <= n <= totalPages`, else stay. */
  function Paginated(current: int, totalPages: int, n: int): (p: int)
    ensures p == n || p == current
    ensures p == n <==> (1 <= n <= totalPages || n == current)
  {
    if 1 <= n && n <= totalPages then n else current
  }

  /** Paginating never leaves the range 1..max(1, totalPages). */
  lemma PaginateKeepsRange(current: int, totalPages: int, n: int)
    requires 1 <= current <= Max(1, totalPages)
    ensures 1 <= Paginated(current, totalPages, n) <= Max(1, totalPages)
  {
  }

  /** Previous is disabled exactly on page 1. */
  predicate PrevDisabled(current: int) {
    current == 1
  }

  /** Next is disabled exactly on the last page. */
  predicate NextDisabled(current: int, totalPages: int) {
    current == totalPages
  }

  /** The numbered buttons: `Array.from({ length: totalPages }, (_, i) => i + 1)`. */
  function PageButtons(totalPages: nat): (r: seq<int>)
    ensures |r| == totalPages
    ensures forall k :: 0 <= k < |r| ==> r[k] == k + 1
  {
    seq(totalPages, i => i + 1)
  }

  /** The pagination bar is drawn only when there is more than one page. */
  predicate ShowPagination(totalPages: int) {
    totalPages > 1
  }

  /** While the bar is shown and the page is in range, an enabled Previous or
      Next button always moves by one page, and each numbered button goes to
      its own page: no button is enabled without effect. */
  lemma ButtonsMove(current: int, totalPages: nat)
    requires ShowPagination(totalPages) && 1 <= current <= totalPages
    ensures !PrevDisabled(current) ==> Paginated(current, totalPages, current - 1) == current - 1
    ensures !NextDisabled(current, totalPages) ==> Paginated(current, totalPages, current + 1) == current + 1
    ensures forall k :: 0 <= k < totalPages ==> Paginated(current, totalPages, PageButtons(totalPages)[k]) == k + 1
  {
  }

  /** Before the first answer (`totalPages` is 0) no page change is accepted. */
  lemma NothingBeforeFirstAnswer(current: int, n: int)
    ensures Paginated(current, 0, n) == current
  {
  }

  /** The request the pages send, `/api/rooms?page=${page}&limit=6`, passes the
      route's validation for every page the state can hold. */
  lemma RequestAlwaysAccepted(rooms: seq<Room>, types: seq<RoomType>, page: int)
    requires page >= 1
    ensures RoomsApi.Get(rooms, types, Some(page), Some(ItemsPerPage)) == Ok(ListPage(rooms, types, page, ItemsPerPage))
    ensures |ListPage(rooms, types, page, ItemsPerPage).data| <= ItemsPerPage
  {
  }

  /** The listing state of either page. */
  class RoomListing {
    var rooms: seq<RoomView>
    var isLoading: bool
    var currentPage: int
    var totalPages: nat
    var totalRooms: nat

    predicate Valid()
      reads this
    {
      currentPage >= 1
    }

    /** The first render: no rooms, loading, page 1, no pages known. */
    constructor ()
      ensures Valid()
      ensures rooms == [] && isLoading && currentPage == 1 && totalPages == 0 && totalRooms == 0
    {
      rooms := [];
      isLoading := true;
      currentPage := 1;
      totalPages := 0;
      totalRooms := 0;
    }

    /** `fetchRooms` starts: the spinner shows, nothing else changes yet. */
    method StartFetch()
      requires Valid()
      modifies this
      ensures Valid() && isLoading
      ensures rooms == old(rooms) && currentPage == old(currentPage)
      ensures totalPages == old(totalPages) && totalRooms == old(totalRooms)
    {
      isLoading := true;
    }

    /** `fetchRooms` settled: a successful answer replaces the rooms and the
        page counts; a failed or thrown one (`None`) keeps them. The spinner
        stops either way. */
    method Loaded(answer: Option<RoomsPage>)
      requires Valid()
      modifies this
      ensures Valid() && !isLoading && currentPage == old(currentPage)
      ensures answer.Some? ==>
        rooms == answer.value.data && totalPages == answer.value.totalPages && totalRooms == answer.value.total
      ensures answer.None? ==>
        rooms == old(rooms) && totalPages == old(totalPages) && totalRooms == old(totalRooms)
    {
      if answer.Some? {
        rooms := answer.value.data;
        totalPages := answer.value.totalPages;
        totalRooms := answer.value.total;
      }
      isLoading := false;
    }

    /** `paginate(n)`; `refetch` tells whether `currentPage` changed, which is
        what makes the page fetch again. */
    method Paginate(n: int) returns (refetch: bool)
      requires Valid()
      modifies this
      ensures Valid()
      ensures currentPage == Paginated(old(currentPage), totalPages, n)
      ensures refetch <==> currentPage != old(currentPage)
      ensures old(currentPage) <= Max(1, totalPages) ==> currentPage <= Max(1, totalPages)
      ensures rooms == old(rooms) && isLoading == old(isLoading)
      ensures totalPages == old(totalPages) && totalRooms == old(totalRooms)
    {
      var before := currentPage;
      if n >= 1 && n <= totalPages {
        currentPage := n;
      }
      refetch := currentPage != before;
    }
  }

  /** Who is signed in on the home page, as the auth context holds it. */
  datatype SessionUser = SessionUser(email: string, role: Option<string>)

  /** `user?.role?.toLowerCase() === UserRole.ADMIN`. */
  predicate IsAdmin(user: Option<SessionUser>) {
    user.Some? && user.value.role.Some? && ToLower(user.value.role.value) == AdminRole
  }

  /** The button a room card gets on the home page. */
  datatype CardButton = CardButton(text: string, link: string, disabled: bool, tooltip: Option<string>)

  const DetailsPrefix: string := "/admin/rooms/"
  const BookPrefix: string := "/rooms/"

  /** An administrator gets "Details" to the room's admin page, anyone else
      "Book Now" to its booking page; without a user the button is disabled
      and explains why. */
  function HomeCardButton(user: Option<SessionUser>, roomId: int): (b: CardButton)
    ensures IsAdmin(user) ==> b.text == "Details" && b.link == DetailsPrefix + IntToString(roomId)
    ensures !IsAdmin(user) ==> b.text == "Book Now" && b.link == BookPrefix + IntToString(roomId)
    ensures b.disabled <==> user.None?
    ensures b.tooltip.Some? <==> user.None?
  {
    CardButton(
      if IsAdmin(user) then "Details" else "Book Now",
      (if IsAdmin(user) then DetailsPrefix else BookPrefix) + IntToString(roomId),
      user.None?,
      if user.None? then Some("Please register or login to book a room") else None)
  }

  /** The "Add New Room" link is shown exactly to the users whose cards say "Details". */
  predicate ShowsAddRoom(user: Option<SessionUser>) {
    IsAdmin(user)
  }

  /** The link leads back to the card's own room: the id read from the path is the room's. */
  lemma CardLinkNamesRoom(user: Option<SessionUser>, roomId: int)
    ensures var b := HomeCardButton(user, roomId);
      var prefix := if IsAdmin(user) then DetailsPrefix else BookPrefix;
      |prefix| <= |b.link| && b.link[..|prefix|] == prefix && ParseInt(b.link[|prefix|..]) == Some(roomId)
    ensures ShowsAddRoom(user) <==> HomeCardButton(user, roomId).text == "Details"
  {
    var prefix := if IsAdmin(user) then DetailsPrefix else BookPrefix;
    assert HomeCardButton(user, roomId).link[|prefix|..] == IntToString(roomId);
    ParseIntOfIntToString(roomId);
  }

  /** A role spelled in capitals still counts as administrator; no user at all
      gets a disabled "Book Now". */
  lemma ButtonExamples(roomId: int)
    ensures HomeCardButton(Some(SessionUser("a@example.com", Some("ADMIN"))), roomId).text == "Details"
    ensures HomeCardButton(None, roomId).text == "Book Now" && HomeCardButton(None, roomId).disabled
  {
    assert ToLower("ADMIN") == "admin";
  }

  /** `room.roomType.description || "No description available"`. */
  function CardDescription(description: Option<string>): (text: string)
    ensures text != ""
    ensures TruthyStr(description) ==> text == description.value
  {
    if TruthyStr(description) then description.value else "No description available"
  }
}
