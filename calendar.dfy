/** The administrators' reservation calendar (src/app/admin/calendar/page.tsx):
    a month grid with one blank cell per weekday before the 1st and one cell
    per day, each day listing the reservations whose check-in..check-out range
    contains it (both ends included), styled by status; Previous and Next move
    the shown month. */
module AdminCalendar {
  import opened Common
  import opened Entities
  import opened Auth
  import opened CalendarDates
  import opened AdminReservations
  import MyReservationsPage
  import Booking

  /** The fields of a listed reservation the grid reads, as the listing's JSON carries them. */
  datatype CalendarEntry = CalendarEntry(
    reservationId: int, email: string, checkInDate: string, checkOutDate: string,
    statusName: string, roomNumber: string)

  /** A grid cell: a blank before the 1st (keyed `empty-i`), or a day with its reservations. */
  datatype Cell = Empty(index: int) | Day(day: int, dateStr: string, entries: seq<CalendarEntry>)

  /** The day filter: `dateStr >= start && dateStr <= end`, on the date parts of
      the check-in and check-out values; the check-out day is included. */
  predicate ShownOn(dateStr: string, e: CalendarEntry) {
    LexLe(DatePart(e.checkInDate), dateStr) && LexLe(dateStr, DatePart(e.checkOutDate))
  }

  /** `reservations.filter(...)` for one day. */
  function DayEntries(entries: seq<CalendarEntry>, dateStr: string): (r: seq<CalendarEntry>)
    ensures forall e :: e in r <==> e in entries && ShownOn(dateStr, e)
    ensures forall e :: multiset(r)[e] == if ShownOn(dateStr, e) then multiset(entries)[e] else 0
  {
    var r := Filter(entries, (e: CalendarEntry) => ShownOn(dateStr, e));
    assert forall e :: e in r <==> e in multiset(r);
    assert forall e :: e in entries <==> e in multiset(entries);
    r
  }

  /** The cell of day `d`. */
  function DayCell(y: int, m: int, d: int, entries: seq<CalendarEntry>): Cell {
    Day(d, DateStr(y, m, d), DayEntries(entries, DateStr(y, m, d)))
  }

  /** The blank cells `empty-0` .. `empty-(n-1)`. */
  function Blanks(n: nat): (g: seq<Cell>)
    ensures |g| == n && forall i :: 0 <= i < n ==> g[i] == Empty(i)
  {
    seq(n, i => Empty(i))
  }

  /** `[cell(1), ..., cell(count)]`: one cell per day, in order. */
  function Days(count: nat, cell: int -> Cell): (g: seq<Cell>)
    ensures |g| == count && forall k :: 0 <= k < count ==> g[k] == cell(k + 1)
  {
    if count == 0 then [] else Days(count - 1, cell) + [cell(count)]
  }

  /** The day cells of month `m` of year `y`, as a function of the day. */
  function DayCellOf(y: int, m: int, entries: seq<CalendarEntry>): int -> Cell {
    d => DayCell(y, m, d, entries)
  }

  /** The month grid `renderCalendar` builds: `firstDay` blanks, then the days 1..daysInMonth. */
  function Grid(y: int, m: int, entries: seq<CalendarEntry>): (g: seq<Cell>)
    requires 0 <= m < 12
    ensures |g| == FirstDayOfMonth(y, m) + DaysInMonth(y, m)
    ensures |g| <= 6 + 31
  {
    Blanks(FirstDayOfMonth(y, m)) + Days(DaysInMonth(y, m), DayCellOf(y, m, entries))
  }

  /** `getDay()` of a date: 0 is Sunday; 1970-01-01 was a Thursday (4). */
  function Weekday(y: int, m: int, d: int): (w: int)
    requires 0 <= m < 12
    ensures 0 <= w <= 6
  {
    (DayNumber(y, m, d) + 4) % 7
  }

  /** The grid starts with `firstDay` blanks, `empty-0` first. */
  lemma GridBlanks(y: int, m: int, entries: seq<CalendarEntry>)
    requires 0 <= m < 12
    ensures forall i :: 0 <= i < FirstDayOfMonth(y, m) ==> Grid(y, m, entries)[i] == Empty(i)
  {
    var blanks := Blanks(FirstDayOfMonth(y, m));
    BlanksFirst(blanks, Days(DaysInMonth(y, m), DayCellOf(y, m, entries)));
  }

  /** Then come the days of the month in order: day `d` is cell `firstDay + d - 1`. */
  lemma GridDay(y: int, m: int, entries: seq<CalendarEntry>, d: int)
    requires 0 <= m < 12 && 1 <= d <= DaysInMonth(y, m)
    ensures Grid(y, m, entries)[FirstDayOfMonth(y, m) + d - 1] == DayCell(y, m, d, entries)
  {
    DayAfterBlanks(Blanks(FirstDayOfMonth(y, m)), DaysInMonth(y, m), DayCellOf(y, m, entries), d);
  }

  /** Blank `i` is cell `i`. */
  lemma BlanksFirst(blanks: seq<Cell>, days: seq<Cell>)
    requires forall i :: 0 <= i < |blanks| ==> blanks[i] == Empty(i)
    ensures forall i :: 0 <= i < |blanks| ==> (blanks + days)[i] == Empty(i)
  {
  }

  /** Day `d` is cell `|blanks| + d - 1`. */
  lemma DayAfterBlanks(blanks: seq<Cell>, count: nat, cell: int -> Cell, d: int)
    requires 1 <= d <= count
    ensures (blanks + Days(count, cell))[|blanks| + d - 1] == cell(d)
  {
  }

  /** Appending one more day to a partial grid. */
  lemma RunGrows(first: nat, count: nat, cell: int -> Cell)
    ensures Blanks(first) + Days(count + 1, cell) == (Blanks(first) + Days(count, cell)) + [cell(count + 1)]
  {
  }

  /** The grid has seven columns headed Sun..Sat: cell `firstDay + d - 1` is in
      column `(firstDay + d - 1) % 7`, which is the weekday of day `d`. */
  lemma DaysUnderWeekdays(y: int, m: int)
    requires 0 <= m < 12
    ensures forall d :: 1 <= d <= DaysInMonth(y, m) ==> (FirstDayOfMonth(y, m) + d - 1) % 7 == Weekday(y, m, d)
  {
    forall d | 1 <= d <= DaysInMonth(y, m) ensures (FirstDayOfMonth(y, m) + d - 1) % 7 == Weekday(y, m, d) {
      var n := DayNumber(y, m, 1);
      assert DayNumber(y, m, d) == n + d - 1;
      ModAddSeven(n + 4, d - 1);
    }
  }

  /** For entries whose dates carry four-digit years, the day filter is the
      inclusive range check-in <= day <= check-out on real days. */
  lemma ShownOnIffWithinInclusive(
    e: CalendarEntry, y: int, m: int, d: int,
    iy: int, im: int, id: int, oy: int, om: int, od: int)
    requires 1000 <= y <= 9999 && ValidDate(y, m, d)
    requires 1000 <= iy <= 9999 && ValidDate(iy, im, id) && DatePart(e.checkInDate) == DateStr(iy, im, id)
    requires 1000 <= oy <= 9999 && ValidDate(oy, om, od) && DatePart(e.checkOutDate) == DateStr(oy, om, od)
    ensures ShownOn(DateStr(y, m, d), e) <==>
      DayNumber(iy, im, id) <= DayNumber(y, m, d) <= DayNumber(oy, om, od)
  {
    DateStrChronological(iy, im, id, y, m, d);
    DateStrChronological(y, m, d, oy, om, od);
  }

  /** Unlike the half-open booking rule, the calendar lists a stay on its
      check-out day, which is not one of its nights: a room turned over that
      day shows both the leaving and the arriving guest. */
  lemma CheckoutDayShownButFree(e: CalendarEntry, next: CalendarEntry, iy: int, im: int, id: int, oy: int, om: int, od: int)
    requires 1000 <= iy <= 9999 && ValidDate(iy, im, id) && e.checkInDate == DateStr(iy, im, id)
    requires 1000 <= oy <= 9999 && ValidDate(oy, om, od) && e.checkOutDate == DateStr(oy, om, od)
    requires next.checkInDate == DateStr(oy, om, od)
    requires DayNumber(iy, im, id) < DayNumber(oy, om, od)
    ensures ShownOn(DateStr(oy, om, od), e)
    ensures LexLe(DateStr(oy, om, od), DatePart(next.checkOutDate)) ==> ShownOn(DateStr(oy, om, od), next)
    ensures !Booking.NightOf(DayNumber(oy, om, od), DayNumber(iy, im, id), DayNumber(oy, om, od))
  {
    DatePartOfKey(iy, im, id, []);
    DatePartOfKey(oy, om, od, []);
    ShownOnIffWithinInclusive(e, oy, om, od, iy, im, id, oy, om, od);
    LexLeTotal(DateStr(oy, om, od), DateStr(oy, om, od));
  }

  /** The badge classes: confirmed green, pending yellow, every other status red. */
  function StatusStyle(statusName: string): (c: string)
    ensures ToLower(statusName) == "confirmed" ==> c == "bg-green-100 border-green-200 text-green-800"
    ensures ToLower(statusName) == "pending" ==> c == "bg-yellow-100 border-yellow-200 text-yellow-800"
    ensures ToLower(statusName) !in {"confirmed", "pending"} ==> c == "bg-red-100 border-red-200 text-red-800"
  {
    if ToLower(statusName) == "confirmed" then "bg-green-100 border-green-200 text-green-800"
    else if ToLower(statusName) == "pending" then "bg-yellow-100 border-yellow-200 text-yellow-800"
    else "bg-red-100 border-red-200 text-red-800"
  }

  /** Letter case never changes the style. */
  lemma StatusStyleIgnoresCase(statusName: string)
    ensures StatusStyle(ToLower(statusName)) == StatusStyle(statusName)
  {
    ToLowerIdempotent(statusName);
  }

  /** A COMPLETED stay is drawn red here, like a cancelled one, while the
      guest's own page draws it grey. */
  lemma CompletedDrawnLikeCancelled()
    ensures StatusStyle(StatusText(Completed)) == StatusStyle(StatusText(Cancelled))
    ensures MyReservationsPage.StatusColor(StatusText(Completed)) != MyReservationsPage.StatusColor(StatusText(Cancelled))
  {
    CompletedDrawnRed();
    CancelledDrawnRed();
    MyReservationsPage.CompletedIsGrey();
    MyReservationsPage.CancelledIsRed();
  }

  lemma CompletedDrawnRed()
    ensures StatusStyle(StatusText(Completed)) == "bg-red-100 border-red-200 text-red-800"
  {
    assert ToLower("COMPLETED") == "completed";
  }

  lemma CancelledDrawnRed()
    ensures StatusStyle(StatusText(Cancelled)) == "bg-red-100 border-red-200 text-red-800"
  {
    assert ToLower("CANCELLED") == "cancelled";
  }

  /** The page fetches the admin listing without `page` or `limit`, so the grid
      only ever receives the five newest live reservations. */
  lemma CalendarFeedAtMostFive(
    header: Option<string>, verify: string -> Option<JwtPayload>,
    rows: seq<Reservation>, users: seq<User>, rooms: seq<Room>, types: seq<RoomType>)
    ensures var r := AdminReservations.Get(header, verify, rows, users, rooms, types, None, None);
      r.Ok? ==> |r.value.data| <= 5 && (|LiveByDate(rows)| > 5 ==> r.value.total > |r.value.data|)
  {
  }

  /** The page's state: the loaded reservations, the loading flag, the shown
      date (`currentDate`) and the reservation open in the detail modal. */
  class CalendarPage {
    var reservations: seq<CalendarEntry>
    var isLoading: bool
    var year: int
    var month: int
    var day: int
    var selected: Option<CalendarEntry>

    predicate Valid()
      reads this
    {
      0 <= month < 12 && 1 <= day <= 31
    }

    /** The first render: nothing loaded, loading, today's date shown, no modal. */
    constructor (todayYear: int, todayMonth: int, todayDay: int)
      requires ValidDate(todayYear, todayMonth, todayDay)
      ensures Valid()
      ensures reservations == [] && isLoading && selected.None?
      ensures year == todayYear && month == todayMonth && day == todayDay
    {
      reservations := [];
      isLoading := true;
      year, month, day := todayYear, todayMonth, todayDay;
      selected := None;
    }

    /** `fetchReservations` settled: a successful answer's rows replace the
        list, any other outcome (failure or a throw, `None`) keeps it; the
        spinner stops either way. */
    method Loaded(data: Option<seq<CalendarEntry>>)
      modifies this
      ensures reservations == (if data.Some? then data.value else old(reservations))
      ensures !isLoading
      ensures year == old(year) && month == old(month) && day == old(day) && selected == old(selected)
    {
      if data.Some? {
        reservations := data.value;
      }
      isLoading := false;
    }

    /** The month index, counting months from year 0. */
    function MonthIndex(): int
      reads this
    {
      year * 12 + month
    }

    /** Previous: `new Date(year, month - 1, 1)`; January rolls back to December of the year before. */
    method PrevMonth()
      requires Valid()
      modifies this
      ensures Valid()
      ensures MonthIndex() == old(MonthIndex()) - 1 && day == 1
      ensures old(month) == 0 ==> year == old(year) - 1 && month == 11
      ensures old(month) > 0 ==> year == old(year) && month == old(month) - 1
      ensures reservations == old(reservations) && isLoading == old(isLoading) && selected == old(selected)
    {
      if month == 0 {
        year, month := year - 1, 11;
      } else {
        month := month - 1;
      }
      day := 1;
    }

    /** Next: `new Date(year, month + 1, 1)`; December rolls over to January of the year after. */
    method NextMonth()
      requires Valid()
      modifies this
      ensures Valid()
      ensures MonthIndex() == old(MonthIndex()) + 1 && day == 1
      ensures old(month) == 11 ==> year == old(year) + 1 && month == 0
      ensures old(month) < 11 ==> year == old(year) && month == old(month) + 1
      ensures reservations == old(reservations) && isLoading == old(isLoading) && selected == old(selected)
    {
      if month == 11 {
        year, month := year + 1, 0;
      } else {
        month := month + 1;
      }
      day := 1;
    }

    /** A click on a listed reservation opens the modal on it. */
    method Select(e: CalendarEntry)
      modifies this
      ensures selected == Some(e)
      ensures reservations == old(reservations) && isLoading == old(isLoading)
      ensures year == old(year) && month == old(month) && day == old(day)
    {
      selected := Some(e);
    }

    /** The modal's close button, Close button and backdrop all clear the selection. */
    method CloseModal()
      modifies this
      ensures selected.None?
      ensures reservations == old(reservations) && isLoading == old(isLoading)
      ensures year == old(year) && month == old(month) && day == old(day)
    {
      selected := None;
    }

    /** `renderCalendar`: two loops push the blanks and then the days of the shown month. */
    method Render() returns (cells: seq<Cell>)
      requires Valid()
      ensures cells == Grid(year, month, reservations)
    {
      var y, m, entries := year, month, reservations;
      var daysInMonth := DaysInMonth(y, m);
      var firstDay := FirstDayOfMonth(y, m);
      cells := [];
      var i := 0;
      while i < firstDay
        invariant 0 <= i <= firstDay
        invariant cells == Blanks(i)
      {
        assert Blanks(i + 1) == Blanks(i) + [Empty(i)];
        cells := cells + [Empty(i)];
        i := i + 1;
      }
      ghost var cell := DayCellOf(y, m, entries);
      assert Grid(y, m, entries) == Blanks(firstDay) + Days(daysInMonth, cell);
      var d := 1;
      while d <= daysInMonth
        invariant 1 <= d <= daysInMonth + 1
        invariant cells == Blanks(firstDay) + Days(d - 1, cell)
      {
        RunGrows(firstDay, d - 1, cell);
        cells := cells + [DayCell(y, m, d, entries)];
        d := d + 1;
      }
    }
  }

  /** Navigating forward then back shows the same month again, from its 1st. */
  method NextThenPrev(page: CalendarPage)
    requires page.Valid()
    modifies page
    ensures page.Valid() && page.year == old(page.year) && page.month == old(page.month) && page.day == 1
  {
    page.NextMonth();
    page.PrevMonth();
  }
}
