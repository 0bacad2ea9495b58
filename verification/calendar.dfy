/**
 * The values both pages hand to the calendar component and to the toast
 * helper. A JavaScript `Date` is an abstract record: the pages only ever
 * compare its year, month and day, so the time of day is carried but never
 * inspected.
 */
module Calendar {

  datatype Date = Date(year: int, month: int, day: int, timeOfDay: nat)

  /** `getDate()`, `getMonth()` and `getFullYear()` all agree; the time is ignored. */
  predicate SameDay(a: Date, b: Date)
    ensures SameDay(a, b) <==> a.(timeOfDay := 0) == b.(timeOfDay := 0)
  {
    a.year == b.year && a.month == b.month && a.day == b.day
  }

  /** The classification the calendar component colours a day with. */
  datatype CalendarStatus = Available | Booked | Pending

  datatype CalendarEvent = CalendarEvent(date: Date, title: string, status: CalendarStatus)

  /** `toast.success(...)` or `toast.info(...)`: the notification a handler raises. */
  datatype ToastKind = Success | Info

  datatype Toast = Toast(kind: ToastKind, text: string)
}
