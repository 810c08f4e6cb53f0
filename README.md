# Room reservation rules, modelled in Dafny

This project models the booking and admission rules of a hotel room
reservation web application. Its API routes authenticate a bearer token,
admit or refuse a booking for a room, create a payment session, confirm a
paid session as a reservation, page through rooms, users and reservations
for administrators, and queue e-mails. Its pages compute what a guest or an
administrator sees: the cancel button, status colours, the month calendar
and the pagination bar.

The database is replaced by in-memory rows. A route that only reads is a
function of those rows. A route that saves a row is a method on a table
class whose `rows` field the save extends and whose `nextId` field plays the
auto-increment key. Token verification, payment-provider calls and e-mail
delivery are parameters. A browser page whose state hooks change step by
step is a class with those fields and one method per event handler.

Modules, one per source file (plus `Common` and `Entities` for shared
helpers and records):

- `Auth`: header parsing, `authenticate`, `withAuth` (`src/lib/utils/auth.ts`).
- `Stay`: the night count and the price of a stay (`create-checkout-session`).
- `Booking`: `GET` and `POST /api/reservations`, the overlap rule and the
  invariant that no two live stays of one room share a night.
- `Checkout`, `Payment`: the payment session and its confirmation.
- `AdminReservations`, `AdminUsers`, `AdminRooms`, `RoomsApi`, `EmailQueue`:
  the remaining routes.
- `MyReservationsPage`, `CalendarDates`, `AdminCalendar`, `RoomPages`: the pages.

Dates are day numbers (days since 1970-01-01) on the server side. The
calendar page works on `YYYY-MM-DD` strings compared as JavaScript compares
strings; `CalendarDates` proves that this order is the chronological one for
four-digit years. Money is in cents.

## Model

| member | source | states |
|---|---|---|
| Common.TotalPages | src/app/api/admin/reservations/route.ts:57 | `Math.ceil(total / limit)`: the fewest pages of `limit` rows that hold `total` rows |
| Common.SkipNext | src/app/api/admin/reservations/route.ts:16 | page `page + 1` starts exactly where page `page` ends |
| Common.RowOnOnePage | src/app/api/admin/reservations/route.ts:16-30 | pages 1..`Math.ceil(total / limit)` cover every row exactly once: row `i` is on page `i / limit + 1`, in its place in that page's window, and on no other page |
| Common.PageParam | src/app/api/admin/reservations/route.ts:14 | a page given in the query string is used as it is; a missing one is 1 |
| Common.LimitParam | src/app/api/admin/reservations/route.ts:15 | a limit given in the query string is used as it is; a missing one is 5 |
| Common.FindFirst | src/app/api/reservations/route.ts:63-65 | `findOne` with a condition: the element found satisfies it and no earlier element does; none exactly when no element does |
| Common.Window | src/app/api/admin/reservations/route.ts:29-30 | `skip`/`take`: the result has `min(take, n - skip)` rows, each the row `skip` places further on |
| Common.SortDesc | src/app/api/admin/users/route.ts:28 | a descending order on a key: sorted, a permutation of the input, same length |
| Common.WindowNonEmptyIff | src/app/api/rooms/route.ts:69-82 | a page has rows exactly when its number is at most the page count |
| Common.ParseIntOfIntToString | src/app/api/stripe/verify-payment/route.ts:84-89 | `parseInt` reads back every integer written as a decimal string |
| Common.ToLowerIdempotent | src/app/my-reservations/page.tsx:113 | lower-casing twice is lower-casing once |
| Entities.FindActiveRoom | src/app/api/reservations/route.ts:63-65 | the room found has the id and is active; none is found exactly when no active room has the id |
| Entities.FindRoomType | src/app/api/admin/reservations/route.ts:27 | the type found has the id; none exactly when no type has it |
| Entities.FindRoom | src/app/api/admin/reservations/route.ts:27 | the room found has the id; none exactly when no room has it |
| Entities.FindUser | src/app/api/admin/reservations/route.ts:27 | the user found has the e-mail; none exactly when no user has it |
| Entities.ReservationTable.Save | src/app/api/reservations/route.ts:133-135 | the row is appended with the next id; nothing else changes |
| Entities.RoomTable.Save | src/app/api/admin/rooms/route.ts:44 | the room is appended with the next id; room numbers stay unique |
| Entities.EmailQueueTable.Save | src/app/api/email-queue/route.ts:67 | the entry is appended with the next id |
| Auth.Split | src/lib/utils/auth.ts:31 | `split(" ")` yields at least one part and no part holds a space |
| Auth.JoinSplit | src/lib/utils/auth.ts:31 | joining the parts with spaces gives back the header |
| Auth.SplitJoin | src/lib/utils/auth.ts:31 | splitting space-free parts joined by spaces gives back the parts |
| Auth.TokenFromHeaderIff | src/lib/utils/auth.ts:27-35 | a header yields token `t` exactly when it is `"Bearer " + t` and `t` holds no space |
| Auth.NoHeaderNoToken | src/lib/utils/auth.ts:28-29 | a missing or empty header yields no token |
| Auth.Authenticate | src/lib/utils/auth.ts:37-62 | success exactly when a token is present, verifies, and carries the required role if one is asked; 403 only for a verified token with the wrong role |
| Auth.WithAuth | src/lib/utils/auth.ts:64-67 | a failed authentication is answered with its own status and message, without calling the handler; a successful one is answered by the handler run on the decoded payload |
| Auth.EmptyBearerIsNoToken | src/lib/utils/auth.ts:40-47 | `"Bearer "` with nothing after it is answered 401 "No token provided" |
| Auth.RoleGate | src/lib/utils/auth.ts:57-62 | a wrapped handler's success implies a verified token of the required role |
| Auth.HandlerSeesDecodedPayload | src/lib/utils/auth.ts:64-67 | with a good token the handler runs on the payload the token decodes to |
| Stay.Nights | src/app/api/stripe/create-checkout-session/route.ts:37-40 | `Math.ceil` of the span in days: the fewest whole days that cover it |
| Stay.NightsOfDates | src/app/api/stripe/create-checkout-session/route.ts:37-40 | for two midnights the night count is the difference of the day numbers |
| Stay.NightsRoundUp | src/app/api/stripe/create-checkout-session/route.ts:37-40 | any positive span under a day counts one night |
| Stay.StayTotal | src/app/api/stripe/create-checkout-session/route.ts:50 | the total is nights times the nightly price |
| Stay.StayExamples | src/app/api/stripe/create-checkout-session/route.ts:37-50 | two and three nights across a month end; three nights at 100.00 cost 300.00 |
| Booking.OverlapsSymmetric | src/app/api/reservations/route.ts:91-97 | the overlap test does not depend on which stay is the stored one |
| Booking.OverlapsIffSharedNight | src/app/api/reservations/route.ts:83-97 | two proper stays overlap exactly when some night belongs to both |
| Booking.BackToBackDoNotOverlap | src/app/api/reservations/route.ts:91-97 | checking in on another guest's check-out day is no overlap |
| Booking.FindConflict | src/app/api/reservations/route.ts:84-98 | the row found is a live stay of the room that overlaps; none exactly when no row blocks |
| Booking.MyReservations | src/app/api/reservations/route.ts:17-26 | the caller's live reservations, each with exactly its multiplicity in the rows, newest first |
| Booking.Get | src/app/api/reservations/route.ts:11-39 | an authenticated caller always gets the list of their own reservations; anyone else gets 401 |
| Booking.Admit | src/app/api/reservations/route.ts:49-131 | an admitted booking has every field, an active room of sufficient capacity, no blocking stay, and is saved pending for the caller |
| Booking.MissingFieldsRefused | src/app/api/reservations/route.ts:49-54 | a missing or zero field is refused with 400 first |
| Booking.UnknownRoomRefused | src/app/api/reservations/route.ts:63-72 | no active room with the id: 404 |
| Booking.CapacityRule | src/app/api/reservations/route.ts:75-80 | for any catalogue that finds the room and any reservation table: more guests than the type's capacity is refused with 400; exactly the capacity is admitted when no stay blocks and the pending status exists |
| Booking.OverlapRuleIff | src/app/api/reservations/route.ts:84-108 | past the earlier checks, the booking is refused as unavailable exactly when some live stay overlaps |
| Booking.AdmitPreservesDisjoint | src/app/api/reservations/route.ts:84-135 | saving an admitted booking keeps every room's live stays free of shared nights |
| Booking.Post | src/app/api/reservations/route.ts:43-150 | the route saves exactly the admitted row, refuses otherwise without saving, and keeps rooms disjoint |
| Booking.BoundaryExamples | src/app/api/reservations/route.ts:91-108 | back-to-back is admitted, one night of overlap is refused, a cancelled stay never blocks |
| Booking.NoRangeValidation | src/app/api/reservations/route.ts:49-131 | an inverted stay and a negative guest count are admitted |
| Booking.AdmitAsWritten | src/app/api/reservations/route.ts:63-80 | the route as written never admits: once the room is found, reading its unloaded type answers 500 |
| Booking.AsWrittenRefusesBookableRoom | src/app/api/reservations/route.ts:63-147 | a free room of sufficient capacity that `Admit` books is refused with 500 as written |
| Checkout.CreateSession | src/app/api/stripe/create-checkout-session/route.ts:23-101 | a complete request with a numeric price and a room number always gets a session: one euro line of nights times price, metadata carrying the booking and the caller's e-mail; 400 for missing fields or a non-numeric price; 500 without a room number |
| Checkout.Route | src/app/api/stripe/create-checkout-session/route.ts:9-103 | an authenticated caller's request is answered by the session creation for that caller, tagged with their e-mail; anyone else gets 401 |
| Checkout.ThreeNightsExample | src/app/api/stripe/create-checkout-session/route.ts:37-76 | three nights at 100.00 give one line of 300.00 |
| Payment.Confirm | src/app/api/stripe/verify-payment/route.ts:21-94 | a reservation is made exactly from a paid session with complete metadata owned by the caller whose numbers parse, once the confirmed status exists, with the metadata's room, dates and guests; 400 without a session id, for an unpaid session or for incomplete metadata; 500 when the provider lookup fails; 403 for another user's session |
| Payment.NoSessionIdFirst | src/app/api/stripe/verify-payment/route.ts:21-26 | a missing or empty session id is refused before anything else |
| Payment.OwnerCheckedLast | src/app/api/stripe/verify-payment/route.ts:31-61 | payment status, then metadata, then ownership, in that order |
| Payment.CheckoutThenConfirm | src/app/api/stripe/verify-payment/route.ts:82-90 | a paid session created by checkout confirms to the booking that was requested |
| Payment.VerifyPayment | src/app/api/stripe/verify-payment/route.ts:15-132 | saves exactly the confirmed row, or nothing |
| Payment.PaidPathBreaksDisjoint | src/app/api/stripe/verify-payment/route.ts:63-94 | confirmation checks neither overlap nor capacity: a paid session can double-book a room that `POST /api/reservations` would refuse |
| AdminReservations.LiveByDate | src/app/api/admin/reservations/route.ts:21-31 | the live reservations, each with exactly its multiplicity in the rows, and no others, newest first |
| AdminReservations.NameOrDefault | src/app/api/admin/reservations/route.ts:44 | the user's name, or "No Name" when absent or empty |
| AdminReservations.PhoneOrDefault | src/app/api/admin/reservations/route.ts:45 | the user's phone, or "No Phone" when absent or empty |
| AdminReservations.RowOf | src/app/api/admin/reservations/route.ts:34-48 | a row exists exactly when room and type are found; it carries the guest's whole record, the name and phone or their placeholders, and a total of nights times the type's price |
| AdminReservations.RowsOf | src/app/api/admin/reservations/route.ts:34-48 | `map` over a page succeeds exactly when every reservation's room and type are found, and then each row is the one `RowOf` builds for its reservation |
| AdminReservations.RowsKeepReservations | src/app/api/admin/reservations/route.ts:42-43 | the built rows are the page's reservations, in order |
| AdminReservations.List | src/app/api/admin/reservations/route.ts:13-59 | the listing succeeds exactly when every reservation on the requested page has its room and type, and otherwise answers 500; on success, the window of the live listing with total and page count, live rows newest first, each row completed by `RowOf` (guest, name or "No Name", phone or "No Phone", nights times price) |
| AdminReservations.PageRows | src/app/api/admin/reservations/route.ts:21-48 | the completed rows of a page are the live window in order, newest first, each the row `RowOf` builds |
| AdminReservations.ListExposesPasswordHash | src/app/api/admin/reservations/route.ts:27 | a listed row carries the guest's `User` record loaded by the `user` relation, password hash included |
| AdminReservations.PasswordHashExample | src/app/api/admin/reservations/route.ts:27-47 | on a one-row listing, the answer holds the guest's password hash |
| AdminReservations.Get | src/app/api/admin/reservations/route.ts:9-67 | an administrator's token always gets the listing for the given or default page and limit; others get 401 or 403 |
| AdminReservations.DefaultsExample | src/app/api/admin/reservations/route.ts:44-45 | an empty name and a missing phone or user fall back to the defaults |
| AdminUsers.View | src/app/api/admin/users/route.ts:20-27 | the selected columns, every one of them copied |
| AdminUsers.ViewForgetsPassword | src/app/api/admin/users/route.ts:20-27 | the view is blind to the password hash and to nothing else |
| AdminUsers.ByCreatedDesc | src/app/api/admin/users/route.ts:28 | all users, newest first |
| AdminUsers.List | src/app/api/admin/users/route.ts:11-42 | the requested window of the users newest first, with totals; the page is itself in date order |
| AdminUsers.InsertCommutesWithView | src/app/api/admin/users/route.ts:28 | inserting by date and then selecting columns equals selecting and then inserting |
| AdminUsers.SortCommutesWithView | src/app/api/admin/users/route.ts:20-28 | sorting the users and then selecting columns equals sorting the views |
| AdminUsers.ListIgnoresPasswords | src/app/api/admin/users/route.ts:19-31 | two user tables that differ only in password hashes list identically |
| AdminUsers.Get | src/app/api/admin/users/route.ts:8-50 | an administrator's token always gets the listing for the given or default page and limit; others get 401 or 403 |
| RoomsApi.ActiveById | src/app/api/rooms/route.ts:14-20 | all active rooms and only those, by increasing id |
| RoomsApi.ViewOf | src/app/api/rooms/route.ts:29-36 | the room's columns and, when found, its own type |
| RoomsApi.ListPage | src/app/api/rooms/route.ts:69-84 | the requested window of active rooms, totals, and next/previous flags |
| RoomsApi.Get | src/app/api/rooms/route.ts:48-84 | 400 exactly for a page below 1 or a limit outside 1..100, otherwise the page; defaults 1 and 6 |
| RoomsApi.HasNextIffNextPageNonEmpty | src/app/api/rooms/route.ts:81-82 | `hasNext` holds exactly when the next page has rooms; a page past the end is empty |
| RoomsApi.ParamsExample | src/app/api/rooms/route.ts:52-66 | page 0 and limit 101 are refused; limit 100 and the defaults are accepted |
| AdminRooms.Decide | src/app/api/admin/rooms/route.ts:15-42 | 400 exactly for a missing number or type, then exactly for a taken number; the room keeps the request's fields, active by default, image only when given |
| AdminRooms.Create | src/app/api/admin/rooms/route.ts:9-61 | an administrator's accepted room is saved; otherwise nothing is |
| AdminRooms.DefaultsExample | src/app/api/admin/rooms/route.ts:37-42 | `isActive` defaults to true, an empty image is none, a taken number is refused |
| EmailQueue.Newest | src/app/api/email-queue/route.ts:21-24 | at most 50 entries of the queue, newest first |
| EmailQueue.NewestLeavesOnlyOlder | src/app/api/email-queue/route.ts:21-24 | no entry left out is newer than the last one listed |
| EmailQueue.Get | src/app/api/email-queue/route.ts:7-37 | only an administrator reads the queue; another role gets 403 |
| EmailQueue.NewEntry | src/app/api/email-queue/route.ts:47-65 | 400 exactly when recipient, subject or body is missing; otherwise a pending general entry with no attempts of three, due now |
| EmailQueue.Post | src/app/api/email-queue/route.ts:41-82 | an authenticated caller's valid entry is saved; otherwise nothing is |
| EmailQueue.AnyRoleMayEnqueue | src/app/api/email-queue/route.ts:41-52 | any authenticated role may enqueue, though only an administrator may read |
| MyReservationsPage.CancelOfferedIff | src/app/my-reservations/page.tsx:270-293 | the cancel button shows exactly when more than 24 hours remain and the status is not cancelled in any case |
| MyReservationsPage.CancelBoundary | src/app/my-reservations/page.tsx:273-278 | exactly 24 hours ahead is too late; one millisecond more is in time |
| MyReservationsPage.CancelledNeverOffered | src/app/my-reservations/page.tsx:279 | a cancelled reservation never offers cancellation |
| MyReservationsPage.StatusColor | src/app/my-reservations/page.tsx:112-123 | green, yellow, red for confirmed, pending, cancelled in any case, grey otherwise |
| MyReservationsPage.StatusColorIgnoresCase | src/app/my-reservations/page.tsx:113 | the colour depends only on the lower-cased status |
| MyReservationsPage.ConfirmedIsGreen | src/app/my-reservations/page.tsx:112-123 | the stored "CONFIRMED" is green |
| MyReservationsPage.PendingIsYellow | src/app/my-reservations/page.tsx:112-123 | the stored "PENDING" is yellow |
| MyReservationsPage.CancelledIsRed | src/app/my-reservations/page.tsx:112-123 | the stored "CANCELLED" is red |
| MyReservationsPage.CompletedIsGrey | src/app/my-reservations/page.tsx:112-123 | the stored "COMPLETED" is grey |
| MyReservationsPage.DisplayedTotal | src/app/my-reservations/page.tsx:257-261 | nights times price, at least one night's price for a proper stay |
| MyReservationsPage.GuestLabel | src/app/my-reservations/page.tsx:244-245 | "Guest" exactly for one guest, "Guests" otherwise |
| MyReservationsPage.CancelDialog.constructor | src/app/my-reservations/page.tsx:31-36 | nothing selected, not cancelling, no messages |
| MyReservationsPage.CancelDialog.ConfirmCancel | src/app/my-reservations/page.tsx:68-72 | selects the reservation and clears messages; the dialog opens for a non-zero id |
| MyReservationsPage.CancelDialog.Close | src/app/my-reservations/page.tsx:337 | clears the selection only |
| MyReservationsPage.CancelDialog.HandleCancel | src/app/my-reservations/page.tsx:74-110 | no selection: nothing changes; no token: error cleared, selection kept; otherwise the outcome's message is shown and the dialog closes |
| MyReservationsPage.SelectThenCancel | src/app/my-reservations/page.tsx:68-110 | select then confirm closes the dialog, with success exactly when the server agreed and an error exactly otherwise |
| CalendarDates.DaysInMonth | src/app/admin/calendar/page.tsx:58-60 | February has 29 days in leap years and 28 otherwise; April, June, September and November have 30; the other months 31 |
| CalendarDates.FirstDayOfMonth | src/app/admin/calendar/page.tsx:62-64 | a weekday 0..6 |
| CalendarDates.DayNumberExample | src/app/admin/calendar/page.tsx:62-64 | 2024-01-01 is day 19723 and a Monday |
| CalendarDates.MonthsAreContiguous | src/app/admin/calendar/page.tsx:189-196 | the next month's first day follows this month's last day |
| CalendarDates.NextFirstDay | src/app/admin/calendar/page.tsx:189-196 | the next month starts the weekday after this month's last day |
| CalendarDates.DateLeIffDayNumber | src/app/admin/calendar/page.tsx:85-91 | comparing dates field by field agrees with comparing day numbers |
| CalendarDates.PadStart2 | src/app/admin/calendar/page.tsx:85-87 | `padStart(2, "0")`: at least two characters |
| CalendarDates.PaddedIsDigits2 | src/app/admin/calendar/page.tsx:85-87 | a padded number below 100 is its two digits |
| CalendarDates.LexLeTotal | src/app/admin/calendar/page.tsx:91 | any two strings are comparable |
| CalendarDates.LexLeAntisymmetric | src/app/admin/calendar/page.tsx:91 | strings that compare both ways are equal |
| CalendarDates.LexLeTransitive | src/app/admin/calendar/page.tsx:91 | string comparison is transitive |
| CalendarDates.DateStrOrder | src/app/admin/calendar/page.tsx:85-91 | for four-digit years, string order of date keys is field order |
| CalendarDates.DateStrChronological | src/app/admin/calendar/page.tsx:85-91 | for four-digit years, string order of date keys is chronological order |
| CalendarDates.DatePart | src/app/admin/calendar/page.tsx:89-90 | `split("T")[0]`: the prefix before the first "T" |
| CalendarDates.DatePartOfKey | src/app/admin/calendar/page.tsx:89-90 | a date key, with or without a time part, keeps its date |
| AdminCalendar.DayEntries | src/app/admin/calendar/page.tsx:88-92 | exactly the entries shown on the day, with their multiplicities |
| AdminCalendar.Blanks | src/app/admin/calendar/page.tsx:74-81 | `n` blank cells numbered from 0 |
| AdminCalendar.Days | src/app/admin/calendar/page.tsx:84-123 | one cell per day, day `k + 1` at index `k` |
| AdminCalendar.Grid | src/app/admin/calendar/page.tsx:66-126 | blanks up to the first weekday plus one cell per day, at most 37 cells |
| AdminCalendar.GridBlanks | src/app/admin/calendar/page.tsx:74-81 | the first cells are blanks |
| AdminCalendar.GridDay | src/app/admin/calendar/page.tsx:84-123 | day `d` sits after the blanks at index `firstDay + d - 1` |
| AdminCalendar.DaysUnderWeekdays | src/app/admin/calendar/page.tsx:218-219 | each day lands in the column of its weekday |
| AdminCalendar.ShownOnIffWithinInclusive | src/app/admin/calendar/page.tsx:88-92 | a stay is shown on a day exactly when the day lies from check-in to check-out inclusive |
| AdminCalendar.CheckoutDayShownButFree | src/app/admin/calendar/page.tsx:88-92 | the check-out day shows the stay although it is no night of it, alongside the next guest |
| AdminCalendar.StatusStyle | src/app/admin/calendar/page.tsx:108-114 | green for confirmed, yellow for pending in any case, red otherwise |
| AdminCalendar.StatusStyleIgnoresCase | src/app/admin/calendar/page.tsx:109-111 | the style depends only on the lower-cased status |
| AdminCalendar.CompletedDrawnLikeCancelled | src/app/admin/calendar/page.tsx:108-114 | the calendar draws completed like cancelled, unlike the guest page |
| AdminCalendar.CompletedDrawnRed | src/app/admin/calendar/page.tsx:108-114 | completed is drawn red |
| AdminCalendar.CancelledDrawnRed | src/app/admin/calendar/page.tsx:108-114 | cancelled is drawn red |
| AdminCalendar.CalendarFeedAtMostFive | src/app/admin/calendar/page.tsx:41 | the calendar asks without page or limit and so sees at most five stays |
| AdminCalendar.CalendarPage.constructor | src/app/admin/calendar/page.tsx:28-32 | today's month, no stays, loading, nothing selected |
| AdminCalendar.CalendarPage.Loaded | src/app/admin/calendar/page.tsx:38-56 | stays replaced on success, kept on failure; loading ends |
| AdminCalendar.CalendarPage.PrevMonth | src/app/admin/calendar/page.tsx:160-167 | one month back, wrapping January to the previous December |
| AdminCalendar.CalendarPage.NextMonth | src/app/admin/calendar/page.tsx:189-196 | one month on, wrapping December to the next January |
| AdminCalendar.CalendarPage.Select | src/app/admin/calendar/page.tsx:104-107 | the clicked stay is selected |
| AdminCalendar.CalendarPage.CloseModal | src/app/admin/calendar/page.tsx:259 | the selection is cleared |
| AdminCalendar.CalendarPage.Render | src/app/admin/calendar/page.tsx:66-126 | the loops build exactly the month grid |
| AdminCalendar.NextThenPrev | src/app/admin/calendar/page.tsx:160-196 | next then previous returns to the same month |
| RoomPages.Paginated | src/app/page.tsx:56-60 | the page changes to `n` exactly when `n` is within 1..totalPages |
| RoomPages.PaginateKeepsRange | src/app/page.tsx:56-60 | the current page stays within range |
| RoomPages.NothingBeforeFirstAnswer | src/app/page.tsx:56-60 | before the first answer no page change is accepted |
| RoomPages.PageButtons | src/app/page.tsx:167 | buttons numbered 1..totalPages |
| RoomPages.ButtonsMove | src/app/page.tsx:156-189 | every enabled button moves to its own page |
| RoomPages.RequestAlwaysAccepted | src/app/page.tsx:35-37 | the home page's request is always within the route's limits |
| RoomPages.RoomListing.constructor | src/app/rooms/page.tsx:21-26 | empty, loading, page 1 |
| RoomPages.RoomListing.StartFetch | src/app/rooms/page.tsx:30 | loading starts; nothing else changes |
| RoomPages.RoomListing.Loaded | src/app/rooms/page.tsx:36-45 | an answer replaces rooms and totals, a failure keeps them; loading ends |
| RoomPages.RoomListing.Paginate | src/app/rooms/page.tsx:52-56 | moves to an in-range page and asks for a refetch exactly when the page changed |
| RoomPages.HomeCardButton | src/app/page.tsx:135-150 | "Details" for an administrator, "Book Now" otherwise, disabled with a tooltip without a user |
| RoomPages.CardLinkNamesRoom | src/app/page.tsx:140-144 | the card's link ends in its own room id |
| RoomPages.ButtonExamples | src/app/page.tsx:136-148 | role "ADMIN" counts as administrator; no user disables the button |
| RoomPages.CardDescription | src/app/page.tsx:128-130 | the room's description when present, a default text otherwise |

## Left out

- The database and ORM are in-memory rows. Query caching (`unstable_cache`, `revalidateTag`) is left out: it changes when data is fresh, not what is admitted.
- The payment provider, the JWT library, password hashing and e-mail delivery are parameters (`retrieve`, `verify`, `Delivery`) or are left out.
- Concurrency is left out. Two bookings that check and then insert at the same time are not modelled; each route runs alone.
- The unreachable "Authentication error" branch of `authenticate` is left out. `verify` is total here.
- `parseInt` and `parseFloat` are not modelled on NaN, leading whitespace or fractions. The price is either a number or a non-numeric text.
- Money is integer cents. The `Math.round(price * 100)` float rounding is not modelled.
- Dates are proleptic Gregorian day numbers. Time zones and `toLocaleDateString` month names are left out.
- Lower-casing covers ASCII letters only.
- The server's cancel route (`src/app/api/reservations/[id]/cancel/route.ts`) is not part of this model. It refuses below 24 hours, and the page offers the button above 24 hours.
- The page's refetch after a cancellation is left out; `HandleCancel` takes the server's outcome as a parameter.
- The checkout product name, description and success/cancel URLs are left out; they do not affect what is charged.
- The e-mail text sent after a payment is left out.
- `RoomCard` and the rooms page's constant "Book Now" button are left out.
- `Reservation.isRoomAvailable` in the entity file is a stub and is left out.
- AdminReservations.List: requires page and limit of at least 1. For page 0 the route passes a negative `skip` to the database. For limit 0 it computes `Math.ceil(total / 0)` and passes `take: 0`, and a negative limit gives a negative `take`. What the database answers to these is not modelled.
- AdminReservations.Get: requires page and limit of at least 1, for the same reasons.
- AdminUsers.List: requires page and limit of at least 1, for the same reasons.
- AdminUsers.Get: requires page and limit of at least 1, for the same reasons.
- The room, room type and status relations that the admin reservation listing spreads into each row are not carried in `AdminRow`; the guest's `User` record is, because it holds the password hash.
- `UserRole` (src/lib/entities/UserRole.ts) is not part of this model. `AdminRole` is `"admin"`, inferred from the pages' `role?.toLowerCase() === UserRole.ADMIN` (src/components/common/Navbar.tsx:52).
- Booking.Admit: loads the room's type. The route as written does not (see Findings); `Booking.AdmitAsWritten` models that code.

## Findings

| source | as written | input that shows it | evidently intended | confidence | as-written member | corrected member |
|---|---|---|---|---|---|---|
| src/app/api/reservations/route.ts:63-75 | the room is fetched without its `roomType` relation, and no relation of `Room` is eager, so `room.roomType.capacity` throws and the catch answers 500 | room 7 active, of a type with capacity 2, no stays; a request for room 7, days 5 to 6, 2 guests | load the room's type, as every other room query does, and compare the guest count with its capacity | not executed; depends on TypeORM leaving an unrequested relation undefined | Booking.AdmitAsWritten | Booking.Admit |
