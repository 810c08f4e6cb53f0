/** The guest's reservation page (src/app/my-reservations/page.tsx): when the
    Cancel button is offered, what each row shows, and the confirmation
    dialog's state as `confirmCancel`, `handleCancel` and Close change it. The
    server call behind `handleCancel` is a parameter: its outcome is given. */
module MyReservationsPage {
  import opened Common
  import opened Entities
  import opened Stay

  // ---------------------------------------------------------------------------
  // What a row shows

  /** `diffHours > 24 && status.name.toLowerCase() !== "cancelled"`, with
      `diffHours = (checkIn - now) / (1000 * 60 * 60)` on millisecond instants. */
  predicate CancelOffered(checkInMs: int, nowMs: int, statusName: string) {
    (checkInMs - nowMs) as real / MsPerHour as real > 24.0 && ToLower(statusName) != "cancelled"
  }

  /** The button is offered exactly when more than a full day (in ms) remains
      before check-in and the status is not cancelled in any letter case. */
  lemma CancelOfferedIff(checkInMs: int, nowMs: int, statusName: string)
    ensures CancelOffered(checkInMs, nowMs, statusName) <==>
      checkInMs - nowMs > MsPerDay && ToLower(statusName) != "cancelled"
  {
    var d := (checkInMs - nowMs) as real;
    assert d / MsPerHour as real > 24.0 <==> d > 24.0 * MsPerHour as real;
  }

  /** Exactly 24 hours ahead is too late; one millisecond more is not. */
  lemma CancelBoundary(checkInMs: int, statusName: string)
    requires ToLower(statusName) != "cancelled"
    ensures !CancelOffered(checkInMs, checkInMs - MsPerDay, statusName)
    ensures CancelOffered(checkInMs, checkInMs - MsPerDay - 1, statusName)
  {
    CancelOfferedIff(checkInMs, checkInMs - MsPerDay, statusName);
    CancelOfferedIff(checkInMs, checkInMs - MsPerDay - 1, statusName);
  }

  /** "CANCELLED", as stored, never offers the button, however far ahead. */
  lemma CancelledNeverOffered(checkInMs: int, nowMs: int)
    ensures !CancelOffered(checkInMs, nowMs, StatusText(Cancelled))
  {
    assert ToLower("CANCELLED") == "cancelled";
  }

  /** `getStatusColor`: the badge colour for a status name, in any letter case. */
  function StatusColor(statusName: string): (c: string)
    ensures ToLower(statusName) == "confirmed" ==> c == "bg-green-100 text-green-800"
    ensures ToLower(statusName) == "pending" ==> c == "bg-yellow-100 text-yellow-800"
    ensures ToLower(statusName) == "cancelled" ==> c == "bg-red-100 text-red-800"
    ensures ToLower(statusName) !in {"confirmed", "pending", "cancelled"} ==> c == "bg-gray-100 text-gray-800"
  {
    match ToLower(statusName)
    case "confirmed" => "bg-green-100 text-green-800"
    case "pending" => "bg-yellow-100 text-yellow-800"
    case "cancelled" => "bg-red-100 text-red-800"
    case _ => "bg-gray-100 text-gray-800"
  }

  /** Letter case never changes the colour. */
  lemma StatusColorIgnoresCase(statusName: string)
    ensures StatusColor(ToLower(statusName)) == StatusColor(statusName)
  {
    ToLowerIdempotent(statusName);
  }

  /** How the seeded statuses are coloured: CONFIRMED green, PENDING yellow,
      CANCELLED red, and COMPLETED falls to the default grey. */
  lemma ConfirmedIsGreen()
    ensures StatusColor(StatusText(Confirmed)) == "bg-green-100 text-green-800"
  {
    assert ToLower("CONFIRMED") == "confirmed";
  }

  lemma PendingIsYellow()
    ensures StatusColor(StatusText(Pending)) == "bg-yellow-100 text-yellow-800"
  {
    assert ToLower("PENDING") == "pending";
  }

  lemma CancelledIsRed()
    ensures StatusColor(StatusText(Cancelled)) == "bg-red-100 text-red-800"
  {
    assert ToLower("CANCELLED") == "cancelled";
  }

  lemma CompletedIsGrey()
    ensures StatusColor(StatusText(Completed)) == "bg-gray-100 text-gray-800"
  {
    assert ToLower("COMPLETED") == "completed";
  }

  /** The Total column: nights x the room type's nightly price. */
  function DisplayedTotal(r: Reservation, priceCents: int): (total: int)
    ensures total == (r.checkOut - r.checkIn) * priceCents
    ensures r.checkIn < r.checkOut && priceCents > 0 ==> total >= priceCents
  {
    StayTotal(r.checkIn, r.checkOut, priceCents)
  }

  /** "Guest" for one guest, "Guests" for any other count (0 included). */
  function GuestLabel(numberOfGuests: int): (text: string)
    ensures text == "Guest" <==> numberOfGuests == 1
    ensures text == "Guests" <==> numberOfGuests != 1
  {
    if numberOfGuests == 1 then "Guest" else "Guests"
  }

  // ---------------------------------------------------------------------------
  // The confirmation dialog

  /** What the cancel request came back with: success, a refusal with the
      server's message (if any), or an exception (network or JSON). */
  datatype CancelOutcome = Succeeded | Refused(message: Option<string>) | Threw

  const CancelledText: string := "Reservation cancelled successfully"
  const RefusedText: string := "Failed to cancel reservation"
  const ThrewText: string := "An error occurred. Please try again."

  /** The page's dialog state. */
  class CancelDialog {
    var cancellingReservationId: Option<int>
    var isCancelling: bool
    var error: Option<string>
    var success: Option<string>

    constructor ()
      ensures cancellingReservationId == None && !isCancelling && error == None && success == None
    {
      cancellingReservationId := None;
      isCancelling := false;
      error := None;
      success := None;
    }

    /** `{cancellingReservationId && (...)}`: the dialog is open while the id is truthy. */
    predicate Open()
      reads this
    {
      TruthyInt(cancellingReservationId)
    }

    /** `confirmCancel(id)`: select the reservation and clear both messages. */
    method ConfirmCancel(reservationId: int)
      modifies this
      ensures cancellingReservationId == Some(reservationId) && error == None && success == None
      ensures isCancelling == old(isCancelling)
      ensures Open() <==> reservationId != 0
    {
      cancellingReservationId := Some(reservationId);
      error := None;
      success := None;
    }

    /** The Close button (and a backdrop click while no request runs). */
    method Close()
      modifies this
      ensures cancellingReservationId == None && !Open()
      ensures isCancelling == old(isCancelling) && error == old(error) && success == old(success)
    {
      cancellingReservationId := None;
    }

    /** `handleCancel` with the stored token and the request's outcome. Nothing
        happens when no reservation is selected. Otherwise the request ends
        with `isCancelling` false; without a token nothing else changes but the
        cleared error; with one, the selection is dropped and exactly one of
        the success and error messages describes the outcome. */
    method HandleCancel(token: Option<string>, outcome: CancelOutcome)
      modifies this
      ensures !TruthyInt(old(cancellingReservationId)) ==>
        cancellingReservationId == old(cancellingReservationId) && isCancelling == old(isCancelling) &&
        error == old(error) && success == old(success)
      ensures TruthyInt(old(cancellingReservationId)) ==> !isCancelling
      ensures TruthyInt(old(cancellingReservationId)) && !TruthyStr(token) ==>
        cancellingReservationId == old(cancellingReservationId) && error == None && success == old(success)
      ensures TruthyInt(old(cancellingReservationId)) && TruthyStr(token) ==>
        cancellingReservationId == None && !Open() &&
        (outcome.Succeeded? ==> success == Some(CancelledText) && error == None) &&
        (outcome.Refused? ==> (success == old(success) &&
          error == Some(if TruthyStr(outcome.message) then outcome.message.value else RefusedText))) &&
        (outcome.Threw? ==> success == old(success) && error == Some(ThrewText))
    {
      if !TruthyInt(cancellingReservationId) {
        return;
      }
      isCancelling := true;
      error := None;
      if TruthyStr(token) {
        match outcome {
          case Succeeded =>
            success := Some(CancelledText);
            cancellingReservationId := None;
          case Refused(message) =>
            error := Some(if TruthyStr(message) then message.value else RefusedText);
            cancellingReservationId := None;
          case Threw =>
            error := Some(ThrewText);
            cancellingReservationId := None;
        }
      }
      isCancelling := false;
    }
  }

  /** Selecting, then cancelling with a token, always closes the dialog. */
  method SelectThenCancel(dialog: CancelDialog, reservationId: int, token: string, outcome: CancelOutcome)
    requires reservationId != 0 && token != ""
    modifies dialog
    ensures !dialog.Open() && !dialog.isCancelling
    ensures outcome.Succeeded? <==> dialog.success.Some?
    ensures outcome.Succeeded? <==> dialog.error.None?
  {
    dialog.ConfirmCancel(reservationId);
    dialog.HandleCancel(Some(token), outcome);
  }
}
