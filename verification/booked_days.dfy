/**
 * What the venue page's availability check would say about a calendar
 * list built by the dashboard's status projection. The code never does
 * this: the venue page checks only its own calendar list, and the
 * dashboard's day selection never asks whether a day is booked. The two
 * rules are composed here to expose how the dashboard's projection labels
 * bookings.
 */
module BookedDays {
  import opened Calendar
  import Dashboard
  import VenueDetail

  /**
   * Over the projected list, a day counts as booked exactly when a completed
   * event falls on it: upcoming events are projected as available and
   * cancelled ones as pending, so neither blocks the day. Upcoming events
   * are confirmed future reservations, yet the dashboard's labelling would
   * let such a day count as free.
   */
  lemma ProjectionBookedIffCompleted(events: seq<Dashboard.Event>, date: Date)
    ensures VenueDetail.IsBooked(Dashboard.CalendarProjection(events), date) <==>
      exists i :: 0 <= i < |events| && SameDay(events[i].date, date) && events[i].status == Dashboard.Completed
  {
  }
}
