/** The records of the reservation engine. */
module Models {
  import opened Prelude
  import opened Calendar

  /** A bookable window of one lane. */
  datatype Slot = Slot(lane: Id, start: Time, end: Time)

  /** A slot row as the repository returns it. */
  datatype SlotRow = SlotRow(id: Id, slot: Slot)

  datatype Status = Active | Cancelled

  datatype Booking = Booking(user: Id, slot: Id, status: Status, createdAt: Time)

  datatype BookingRow = BookingRow(id: Id, booking: Booking)

  /** Opening hours as minutes since midnight. */
  datatype Hours = Hours(open: int, close: int)

  /** One lane's schedule row: days 1 (Monday) to 7 (Sunday), and the two TIME columns in minutes. */
  datatype Schedule = Schedule(days: seq<int>, hours: Hours)

  /** What the request validator demands of the days: one to seven distinct days in 1..7. */
  predicate ValidDays(days: seq<int>) {
    && 1 <= |days| <= 7
    && (forall i :: 0 <= i < |days| ==> 1 <= days[i] <= 7)
    && (forall i, j :: 0 <= i < j < |days| ==> days[i] != days[j])
  }
}
