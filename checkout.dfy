/** Starting a paid booking (src/app/api/stripe/create-checkout-session/route.ts):
    the request is validated, the stay is priced, and a checkout session is
    described with one line item and the booking carried as string metadata.
    The payment provider's `sessions.create` is not modelled; the route's
    answer here is the session it would ask for. */
module Checkout {
  import opened Common
  import opened Auth
  import opened Stay

  /** `pricePerNight` as sent: a number (in cents here), or a value that
      `parseFloat` reads as NaN. */
  datatype PriceInput = Number(cents: int) | NotANumber(text: string)

  /** `!!pricePerNight`: 0 and the empty string are falsy. */
  predicate TruthyPrice(p: Option<PriceInput>) {
    match p
    case None => false
    case Some(Number(c)) => c != 0
    case Some(NotANumber(t)) => t != ""
  }

  /** The JSON body; `None` is a missing field (or, for a date, an empty one). */
  datatype CheckoutRequest = CheckoutRequest(
    roomId: Option<int>,
    roomNumber: Option<string>,
    roomTypeName: Option<string>,
    checkInDate: Option<int>,
    checkOutDate: Option<int>,
    numberOfGuests: Option<int>,
    pricePerNight: Option<PriceInput>)

  /** The session's metadata: every value is a string, except the dates, which
      are passed through unchanged. A missing key is `None`. */
  datatype SessionMetadata = SessionMetadata(
    roomId: Option<string>,
    roomNumber: Option<string>,
    checkInDate: Option<int>,
    checkOutDate: Option<int>,
    numberOfGuests: Option<string>,
    userEmail: Option<string>)

  /** One priced line: amount in minor units (cents) of `currency`. */
  datatype LineItem = LineItem(currency: string, unitAmount: int, quantity: int)

  /** What the route asks the payment provider for. */
  datatype SessionPlan = SessionPlan(mode: string, nights: int, lineItems: seq<LineItem>, metadata: SessionMetadata)

  predicate FieldsPresent(req: CheckoutRequest) {
    TruthyInt(req.roomId) && req.checkInDate.Some? && req.checkOutDate.Some? &&
    TruthyInt(req.numberOfGuests) && TruthyPrice(req.pricePerNight)
  }

  /** The checkout route's decisions: 400 for a missing field (a price of 0
      included) or a non-numeric price; otherwise one line item in EUR of
      quantity 1 charging nights x price, with the booking in the metadata.
      `roomNumber.toString()` on a missing room number throws, which the route
      answers with a 500. */
  function CreateSession(req: CheckoutRequest, caller: JwtPayload): (r: Response<SessionPlan>)
    ensures r.Ok? ==> FieldsPresent(req) && req.pricePerNight.value.Number? && req.roomNumber.Some?
    ensures r.Ok? ==>
      var checkIn, checkOut, cents := req.checkInDate.value, req.checkOutDate.value, req.pricePerNight.value.cents;
      r.value.nights == checkOut - checkIn &&
      r.value.lineItems == [LineItem("eur", (checkOut - checkIn) * cents, 1)]
    ensures r.Ok? ==> r.value.metadata == SessionMetadata(
      Some(IntToString(req.roomId.value)), Some(req.roomNumber.value),
      req.checkInDate, req.checkOutDate,
      Some(IntToString(req.numberOfGuests.value)), Some(caller.email))
    ensures !FieldsPresent(req) ==> r == Fail(400, "Missing required fields")
    ensures FieldsPresent(req) && req.pricePerNight.value.NotANumber? ==> r == Fail(400, "Invalid price per night")
    ensures FieldsPresent(req) && req.pricePerNight.value.Number? && req.roomNumber.None? ==>
      r == Fail(500, "Failed to create checkout session")
    ensures FieldsPresent(req) && req.pricePerNight.value.Number? && req.roomNumber.Some? ==> r.Ok?
  {
    if !FieldsPresent(req) then Fail(400, "Missing required fields")
    else
      var checkIn, checkOut := req.checkInDate.value, req.checkOutDate.value;
      var nights := StayNights(checkIn, checkOut);
      match req.pricePerNight.value
      case NotANumber(_) => Fail(400, "Invalid price per night")
      case Number(cents) =>
        var totalCents := StayTotal(checkIn, checkOut, cents);
        if req.roomNumber.None? then Fail(500, "Failed to create checkout session")
        else
          NightsOfDates(checkIn, checkOut);
          Ok(SessionPlan(
            "payment",
            nights,
            [LineItem("eur", totalCents, 1)],
            SessionMetadata(
              Some(IntToString(req.roomId.value)), Some(req.roomNumber.value),
              req.checkInDate, req.checkOutDate,
              Some(IntToString(req.numberOfGuests.value)), Some(caller.email))))
  }

  /** The route behind `withAuth` with no role: the metadata's `userEmail` is
      the verified caller's. */
  function Route(header: Option<string>, verify: string -> Option<JwtPayload>, req: CheckoutRequest)
    : (r: Response<SessionPlan>)
    ensures Authenticate(header, verify, None).Fail? ==> r.Fail? && r.status == 401
    ensures r.Ok? ==> (Authenticate(header, verify, None).Ok? &&
      r == CreateSession(req, Authenticate(header, verify, None).value) &&
      r.value.metadata.userEmail == Some(Authenticate(header, verify, None).value.email))
    ensures Authenticate(header, verify, None).Ok? ==> r == CreateSession(req, Authenticate(header, verify, None).value)
  {
    WithAuth(header, verify, None, (user: JwtPayload) => CreateSession(req, user))
  }

  /** Three nights at 100 EUR from 2024-03-01 to 2024-03-04 charge 30000 cents. */
  lemma ThreeNightsExample()
    ensures var r := CreateSession(
        CheckoutRequest(Some(7), Some("101"), Some("Double"), Some(Mar1st2024), Some(Mar4th2024), Some(2),
                        Some(Number(10000))),
        JwtPayload("guest@example.com", "user"));
      r.Ok? && r.value.nights == 3 && r.value.lineItems == [LineItem("eur", 30000, 1)]
  {
  }
}
