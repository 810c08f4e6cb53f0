/** Confirming a paid booking (src/app/api/stripe/verify-payment/route.ts): the
    checkout session is looked up, gated (session id, paid, metadata, owner,
    status row) and then a CONFIRMED reservation is saved from its metadata.
    Unlike POST /api/reservations, nothing checks the room, its capacity or the
    other reservations before the save. */
module Payment {
  import opened Common
  import opened Entities
  import opened Auth
  import opened Booking
  import opened Checkout

  /** A retrieved checkout session: its payment status and its metadata, if any. */
  datatype StripeSession = StripeSession(paymentStatus: string, metadata: Option<SessionMetadata>)

  /** The outcome of sending the confirmation e-mail after the save. */
  datatype Delivery = Sent | UserNotFound | SendFailed

  /** `session.metadata || {}`: absent metadata reads as every key missing. */
  function MetadataOf(session: StripeSession): SessionMetadata {
    match session.metadata
    case Some(m) => m
    case None => SessionMetadata(None, None, None, None, None, None)
  }

  /** `!roomId || !checkInDate || !checkOutDate || !numberOfGuests` on the metadata. */
  predicate MetadataComplete(m: SessionMetadata) {
    TruthyStr(m.roomId) && m.checkInDate.Some? && m.checkOutDate.Some? && TruthyStr(m.numberOfGuests)
  }

  /** The route's decisions before the save, in order, and the row it saves.
      `retrieve` answers `None` when the provider call throws (500); `parseInt`
      of a metadata value that is not a number gives NaN, which the integer
      column refuses (500). */
  function Confirm(
    sessionId: Option<string>, retrieve: string -> Option<StripeSession>,
    caller: JwtPayload, statuses: set<StatusName>, now: int)
    : (r: Response<Reservation>)
    ensures !TruthyStr(sessionId) ==> r == Fail(400, "Session ID is required")
    ensures (TruthyStr(sessionId) && retrieve(sessionId.value).Some? &&
      retrieve(sessionId.value).value.paymentStatus != "paid") ==> r == Fail(400, "Payment not completed")
    ensures r.Ok? ==>
      TruthyStr(sessionId) && retrieve(sessionId.value).Some? &&
      retrieve(sessionId.value).value.paymentStatus == "paid" &&
      var m := MetadataOf(retrieve(sessionId.value).value);
      MetadataComplete(m) && m.userEmail == Some(caller.email) && Confirmed in statuses &&
      ParseInt(m.roomId.value).Some? && ParseInt(m.numberOfGuests.value).Some? &&
      r.value == Reservation(0, caller.email, ParseInt(m.roomId.value).value, Confirmed, now,
                             m.checkInDate.value, m.checkOutDate.value, ParseInt(m.numberOfGuests.value).value)
    ensures r.Fail? && r.status == 403 ==> (
      TruthyStr(sessionId) && retrieve(sessionId.value).Some? &&
      retrieve(sessionId.value).value.paymentStatus == "paid" &&
      var m := MetadataOf(retrieve(sessionId.value).value);
      MetadataComplete(m) && m.userEmail != Some(caller.email))
    ensures TruthyStr(sessionId) && retrieve(sessionId.value).None? ==> r == Fail(500, "Internal server error")
    ensures (TruthyStr(sessionId) && retrieve(sessionId.value).Some? &&
      retrieve(sessionId.value).value.paymentStatus == "paid" &&
      !MetadataComplete(MetadataOf(retrieve(sessionId.value).value))) ==> r == Fail(400, "Invalid session metadata")
    ensures (TruthyStr(sessionId) && retrieve(sessionId.value).Some? &&
      retrieve(sessionId.value).value.paymentStatus == "paid" &&
      var m := MetadataOf(retrieve(sessionId.value).value);
      MetadataComplete(m) && m.userEmail == Some(caller.email) && Confirmed in statuses &&
      ParseInt(m.roomId.value).Some? && ParseInt(m.numberOfGuests.value).Some?) ==> r.Ok?
  {
    if !TruthyStr(sessionId) then Fail(400, "Session ID is required")
    else
      match retrieve(sessionId.value)
      case None => Fail(500, "Internal server error")
      case Some(session) =>
        if session.paymentStatus != "paid" then Fail(400, "Payment not completed")
        else
          var m := MetadataOf(session);
          if !MetadataComplete(m) then Fail(400, "Invalid session metadata")
          else if m.userEmail != Some(caller.email) then Fail(403, "Unauthorized")
          else if Confirmed !in statuses then Fail(500, "Reservation status not configured")
          else
            match (ParseInt(m.roomId.value), ParseInt(m.numberOfGuests.value))
            case (Some(roomId), Some(guests)) =>
              Ok(Reservation(0, caller.email, roomId, Confirmed, now, m.checkInDate.value, m.checkOutDate.value, guests))
            case _ => Fail(500, "Internal server error")
  }

  /** Without a session id the answer is 400 whatever the provider would say. */
  lemma NoSessionIdFirst(retrieve: string -> Option<StripeSession>, caller: JwtPayload, statuses: set<StatusName>, now: int)
    ensures Confirm(None, retrieve, caller, statuses, now) == Fail(400, "Session ID is required")
    ensures Confirm(Some(""), retrieve, caller, statuses, now) == Fail(400, "Session ID is required")
  {
  }

  /** The owner check comes after the paid and metadata checks: an unpaid
      session of another user is "Payment not completed", and a paid one with
      incomplete metadata is "Invalid session metadata", not 403. */
  lemma OwnerCheckedLast(sid: string, m: SessionMetadata, caller: JwtPayload, statuses: set<StatusName>, now: int)
    requires sid != "" && m.userEmail != Some(caller.email)
    ensures Confirm(Some(sid), (_: string) => Some(StripeSession("open", Some(m))), caller, statuses, now)
      == Fail(400, "Payment not completed")
    ensures !MetadataComplete(m) ==>
      Confirm(Some(sid), (_: string) => Some(StripeSession("paid", Some(m))), caller, statuses, now)
        == Fail(400, "Invalid session metadata")
    ensures MetadataComplete(m) ==>
      Confirm(Some(sid), (_: string) => Some(StripeSession("paid", Some(m))), caller, statuses, now)
        == Fail(403, "Unauthorized")
  {
  }

  /** The round trip of the paid path: the metadata the checkout route writes,
      once paid, confirms exactly the booking that was asked for, for the same
      caller (the ids and guest count survive `toString` and `parseInt`). */
  lemma CheckoutThenConfirm(
    req: CheckoutRequest, caller: JwtPayload, plan: SessionPlan,
    sid: string, retrieve: string -> Option<StripeSession>, statuses: set<StatusName>, now: int)
    requires CreateSession(req, caller) == Ok(plan)
    requires sid != "" && retrieve(sid) == Some(StripeSession("paid", Some(plan.metadata)))
    requires Confirmed in statuses
    ensures Confirm(Some(sid), retrieve, caller, statuses, now) ==
      Ok(Reservation(0, caller.email, req.roomId.value, Confirmed, now,
                     req.checkInDate.value, req.checkOutDate.value, req.numberOfGuests.value))
  {
    ParseIntOfIntToString(req.roomId.value);
    ParseIntOfIntToString(req.numberOfGuests.value);
  }

  /** POST /api/stripe/verify-payment: `withAuth`, the gates, then one save.
      Whatever the confirmation e-mail's fate, the answer is the saved row. */
  method VerifyPayment(
    table: ReservationTable,
    header: Option<string>, verify: string -> Option<JwtPayload>,
    sessionId: Option<string>, retrieve: string -> Option<StripeSession>,
    statuses: set<StatusName>, now: int, delivery: Delivery)
    returns (resp: Response<Reservation>)
    requires table.Valid()
    modifies table
    ensures table.Valid()
    ensures Authenticate(header, verify, None).Fail? ==>
      resp.Fail? && resp.status == 401 && table.rows == old(table.rows)
    ensures Authenticate(header, verify, None).Ok? ==>
      var d := Confirm(sessionId, retrieve, Authenticate(header, verify, None).value, statuses, now);
      (d.Fail? ==> resp == d && table.rows == old(table.rows)) &&
      (d.Ok? ==> resp == Ok(d.value.(reservationId := old(table.nextId))) &&
                 table.rows == old(table.rows) + [resp.value])
  {
    var auth := Authenticate(header, verify, None);
    if auth.Fail? {
      return Fail(auth.status, auth.message);
    }
    var d := Confirm(sessionId, retrieve, auth.value, statuses, now);
    if d.Fail? {
      return d;
    }
    var saved := table.Save(d.value);
    // The e-mail is sent after the save; whatever `delivery` is, it is only logged.
    resp := Ok(saved);
  }

  // ---------------------------------------------------------------------------
  // What the paid path does not check

  /** A paid session for nights 2..3 of room 7, which another guest holds for
      nights 1..4, with nine guests in a room for two. */
  const Overbooked := SessionMetadata(Some("7"), Some("101"), Some(2), Some(4), Some("9"), Some("guest@example.com"))

  /** The paid path confirms a stay that POST /api/reservations would refuse
      twice over (capacity and overlap), and the table it appends to is no
      longer free of overlaps on room 7. */
  lemma PaidPathBreaksDisjoint(retrieve: string -> Option<StripeSession>)
    requires retrieve("cs_1") == Some(StripeSession("paid", Some(Overbooked)))
    ensures var held := [StayOneToFive(Confirmed)];
      var r := Confirm(Some("cs_1"), retrieve, Caller, {Confirmed}, 0);
      RoomsDisjoint(held) && r.Ok? && !RoomsDisjoint(held + [r.value.(reservationId := 2)])
    ensures Admit(BookingRequest(Some(7), Some(2), Some(4), Some(9)), Caller, [ActiveRoom], [Double],
                  [StayOneToFive(Confirmed)], {Pending}, 0).Fail?
  {
    ParseIntOfIntToString(7);
    ParseIntOfIntToString(9);
    assert IntToString(7) == "7" && IntToString(9) == "9";
    var x := Reservation(2, Caller.email, 7, Confirmed, 0, 2, 4, 9);
    assert Confirm(Some("cs_1"), retrieve, Caller, {Confirmed}, 0) == Ok(x.(reservationId := 0));
    var s := [StayOneToFive(Confirmed)] + [x];
    assert s[0].roomId == s[1].roomId && Holds(s[0]) && Holds(s[1]);
  }
}
