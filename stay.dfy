/** Stay arithmetic shared by the checkout route, the admin listing and the
    my-reservations page: nights = ceil((check-out - check-in) / one day) on
    millisecond instants, and total = nights x nightly rate in cents. A date
    (`YYYY-MM-DD`) stands for the instant of its midnight (UTC). */
module Stay {
  import opened Common

  const MsPerHour: int := 1000 * 60 * 60
  const MsPerDay: int := 1000 * 60 * 60 * 24

  /** The instant `new Date("YYYY-MM-DD")` denotes, for a day number. */
  function DayStart(day: int): int {
    day * MsPerDay
  }

  /** `Math.ceil((checkOut.getTime() - checkIn.getTime()) / (1000 * 60 * 60 * 24))`:
      the fewest whole days that cover the span. */
  function Nights(checkInMs: int, checkOutMs: int): (n: int)
    ensures (n - 1) * MsPerDay < checkOutMs - checkInMs <= n * MsPerDay
  {
    CeilDiv(checkOutMs - checkInMs, MsPerDay)
  }

  /** Between two midnights the count is the plain difference of the days. */
  lemma NightsOfDates(checkIn: int, checkOut: int)
    ensures Nights(DayStart(checkIn), DayStart(checkOut)) == checkOut - checkIn
  {
    assert DayStart(checkOut) - DayStart(checkIn) == (checkOut - checkIn) * MsPerDay;
  }

  /** A stay of any positive length is at least one night, and a started day counts whole. */
  lemma NightsRoundUp(checkInMs: int, checkOutMs: int)
    requires checkInMs < checkOutMs
    ensures Nights(checkInMs, checkOutMs) >= 1
    ensures checkOutMs - checkInMs <= MsPerDay ==> Nights(checkInMs, checkOutMs) == 1
  {
  }

  /** Nights of a stay between two dates. */
  function StayNights(checkIn: int, checkOut: int): int {
    Nights(DayStart(checkIn), DayStart(checkOut))
  }

  /** Total price of a stay in cents: nights x nightly rate. */
  function StayTotal(checkIn: int, checkOut: int, priceCents: int): (total: int)
    ensures total == (checkOut - checkIn) * priceCents
  {
    NightsOfDates(checkIn, checkOut);
    StayNights(checkIn, checkOut) * priceCents
  }

  /** Day numbers of 2024-01-01, 2024-01-03, 2024-03-01 and 2024-03-04. */
  const Jan1st2024: int := 19723
  const Jan3rd2024: int := 19725
  const Mar1st2024: int := 19783
  const Mar4th2024: int := 19786

  /** Two nights from January 1st to 3rd; three nights at 100 EUR from March 1st
      to 4th come to 300 EUR. */
  lemma StayExamples()
    ensures StayNights(Jan1st2024, Jan3rd2024) == 2
    ensures StayNights(Mar1st2024, Mar4th2024) == 3
    ensures StayTotal(Mar1st2024, Mar4th2024, 10000) == 30000
  {
    NightsOfDates(Jan1st2024, Jan3rd2024);
    NightsOfDates(Mar1st2024, Mar4th2024);
  }
}
