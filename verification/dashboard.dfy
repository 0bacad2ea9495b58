/**
 * The booking-event logic of the dashboard page (src/pages/Dashboard.tsx):
 * the user's event list and its status update, the tab views that filter
 * it by status, the status-to-calendar projection, and the lookup run when
 * a calendar day is selected. The page's `userEvents` state is a value that
 * each handler replaces wholesale, so the page is modelled as a record and
 * handlers as functions returning the next record and the toast raised.
 */
module Dashboard {
  import opened JsArray
  import opened Calendar

  /** `Event['status']`: the three keys of the status message table. */
  datatype Status = Upcoming | Completed | Cancelled

  /** One booking event; `eventType` is the record's `type` field. */
  datatype Event = Event(
    id: string,
    title: string,
    venue: string,
    venueId: string,
    date: Date,
    time: string,
    duration: string,
    guests: int,
    status: Status,
    eventType: string,
    location: string,
    cost: int)

  // ---------------------------------------------------------------------
  // Calendar projection
  // ---------------------------------------------------------------------

  /** Upcoming shows as available, completed as booked, anything else as pending. */
  function Classify(s: Status): (c: CalendarStatus)
    ensures c == Available <==> s == Upcoming
    ensures c == Booked <==> s == Completed
    ensures c == Pending <==> s == Cancelled
  {
    match s
    case Upcoming => Available
    case Completed => Booked
    case _ => Pending
  }

  function ToCalendarEvent(e: Event): CalendarEvent
  {
    CalendarEvent(e.date, e.title, Classify(e.status))
  }

  /** The `calendarEvents` list: one entry per event, same order, date and title copied. */
  function CalendarProjection(events: seq<Event>): (r: seq<CalendarEvent>)
    ensures |r| == |events|
    ensures forall i :: 0 <= i < |events| ==>
      r[i].date == events[i].date && r[i].title == events[i].title
    ensures forall i :: 0 <= i < |events| ==>
      (r[i].status == Available <==> events[i].status == Upcoming) &&
      (r[i].status == Booked <==> events[i].status == Completed) &&
      (r[i].status == Pending <==> events[i].status == Cancelled)
  {
    Map(events, ToCalendarEvent)
  }

  // ---------------------------------------------------------------------
  // Status change
  // ---------------------------------------------------------------------

  /** The callback given to `map`: only the event with the id gets the new status. */
  function Relabel(e: Event, id: string, newStatus: Status): Event
  {
    if e.id == id then e.(status := newStatus) else e
  }

  /** The new `userEvents` list computed by the status-change handler. */
  function ApplyStatusChange(events: seq<Event>, id: string, newStatus: Status): (r: seq<Event>)
    ensures |r| == |events|
    ensures forall i :: 0 <= i < |r| ==> r[i].id == events[i].id
    ensures forall i :: 0 <= i < |r| && events[i].id == id ==>
      r[i].status == newStatus && r[i] == events[i].(status := newStatus)
    ensures forall i :: 0 <= i < |r| && events[i].id != id ==> r[i] == events[i]
  {
    Map(events, e => Relabel(e, id, newStatus))
  }

  /** The ids keep their order: the list is rewritten, never reordered. */
  lemma IdsPreserved(events: seq<Event>, id: string, newStatus: Status)
    ensures Map(ApplyStatusChange(events, id, newStatus), (e: Event) => e.id)
         == Map(events, (e: Event) => e.id)
  {
  }

  /** An id no event carries leaves the whole list as it was. */
  lemma UnknownIdLeavesListUnchanged(events: seq<Event>, id: string, newStatus: Status)
    requires forall i :: 0 <= i < |events| ==> events[i].id != id
    ensures ApplyStatusChange(events, id, newStatus) == events
  {
  }

  /** Marking the same event with the same status twice changes nothing more. */
  lemma StatusChangeIdempotent(events: seq<Event>, id: string, newStatus: Status)
    ensures var once := ApplyStatusChange(events, id, newStatus);
      ApplyStatusChange(once, id, newStatus) == once
  {
  }

  /** A second change of the same event overrides the first, from whatever status. */
  lemma StatusChangeLastWins(events: seq<Event>, id: string, first: Status, second: Status)
    ensures ApplyStatusChange(ApplyStatusChange(events, id, first), id, second)
         == ApplyStatusChange(events, id, second)
  {
  }

  /** Changes to two different events do not interfere. */
  lemma StatusChangesCommute(events: seq<Event>, id1: string, s1: Status, id2: string, s2: Status)
    requires id1 != id2
    ensures ApplyStatusChange(ApplyStatusChange(events, id1, s1), id2, s2)
         == ApplyStatusChange(ApplyStatusChange(events, id2, s2), id1, s1)
  {
  }

  /** The `statusMessages` table: the confirmation toast text for each target status. */
  function StatusMessage(s: Status): (m: string)
    ensures s == Completed ==> m == "Event marked as completed successfully"
    ensures s == Cancelled ==> m == "Event has been cancelled"
    ensures s == Upcoming ==> m == "Event status updated to upcoming"
  {
    match s
    case Completed => "Event marked as completed successfully"
    case Cancelled => "Event has been cancelled"
    case Upcoming => "Event status updated to upcoming"
  }

  /** Each target status has its own confirmation message. */
  lemma StatusMessagesDistinct(a: Status, b: Status)
    ensures StatusMessage(a) == StatusMessage(b) ==> a == b
  {
  }

  /** What the page holds: the user's events and the calendar list built at load. */
  datatype DashboardState = DashboardState(userEvents: seq<Event>, calendarEvents: seq<CalendarEvent>)

  /**
   * Initial state: both lists come from the same mock events, so at load
   * the calendar has one entry per event, classified by that event's status.
   */
  function Init(mockEvents: seq<Event>): (st: DashboardState)
    ensures st.userEvents == mockEvents
    ensures |st.calendarEvents| == |st.userEvents|
    ensures forall i :: 0 <= i < |st.userEvents| ==>
      st.calendarEvents[i].date == st.userEvents[i].date &&
      st.calendarEvents[i].title == st.userEvents[i].title &&
      st.calendarEvents[i].status == Classify(st.userEvents[i].status)
  {
    DashboardState(mockEvents, CalendarProjection(mockEvents))
  }

  /** However many status changes follow, the calendar stays the projection of the initial list. */
  lemma {:induction false} CalendarBuiltFromInitialList(mockEvents: seq<Event>, changes: seq<(string, Status)>)
    ensures ReplayStatusChanges(Init(mockEvents), changes).calendarEvents == CalendarProjection(mockEvents)
  {
    if changes != [] {
      CalendarBuiltFromInitialList(mockEvents, changes[..|changes| - 1]);
    }
  }

  /**
   * A change to a different status leaves the calendar showing the old
   * classification: the entry disagrees with the projection of the new list.
   */
  lemma CalendarGoesStale(mockEvents: seq<Event>, id: string, newStatus: Status, i: nat)
    requires i < |mockEvents| && mockEvents[i].id == id && mockEvents[i].status != newStatus
    ensures var st := HandleStatusChange(Init(mockEvents), id, newStatus).0;
      st.calendarEvents[i].status != CalendarProjection(st.userEvents)[i].status
  {
  }

  /**
   * `handleStatusChange`: every target status is accepted from every current
   * status, and the success toast names the target. The calendar list is
   * not rebuilt.
   */
  function HandleStatusChange(st: DashboardState, id: string, newStatus: Status): (r: (DashboardState, Toast))
    ensures r.0.userEvents == ApplyStatusChange(st.userEvents, id, newStatus)
    ensures forall i :: 0 <= i < |st.userEvents| && st.userEvents[i].id == id ==>
      r.0.userEvents[i].status == newStatus
    ensures r.0.calendarEvents == st.calendarEvents
    ensures r.1.kind == Success
    ensures forall s :: r.1.text == StatusMessage(s) <==> s == newStatus
  {
    (st.(userEvents := ApplyStatusChange(st.userEvents, id, newStatus)),
     Toast(Success, StatusMessage(newStatus)))
  }

  /** The state after a series of (id, status) changes, applied in order. */
  function ReplayStatusChanges(st: DashboardState, changes: seq<(string, Status)>): DashboardState
  {
    if changes == [] then st
    else
      var last := changes[|changes| - 1];
      HandleStatusChange(ReplayStatusChanges(st, changes[..|changes| - 1]), last.0, last.1).0
  }

  // ---------------------------------------------------------------------
  // Tab views
  // ---------------------------------------------------------------------

  /** The events whose status is `s`, in list order. */
  function WithStatus(events: seq<Event>, s: Status): (r: seq<Event>)
    ensures forall i :: 0 <= i < |r| ==> r[i].status == s && r[i] in events
    ensures forall i :: 0 <= i < |events| && events[i].status == s ==> events[i] in r
  {
    Filter(events, (e: Event) => e.status == s)
  }

  /** Filtering a concatenation filters each part: the tab keeps list order. */
  lemma WithStatusAppend(a: seq<Event>, b: seq<Event>, s: Status)
    ensures WithStatus(a + b, s) == WithStatus(a, s) + WithStatus(b, s)
  {
    FilterAppend(a, b, (e: Event) => e.status == s);
  }

  /** The three status tabs split the list: every event appears in exactly one of them. */
  lemma {:induction false} StatusTabsPartition(events: seq<Event>)
    ensures |WithStatus(events, Upcoming)| + |WithStatus(events, Completed)|
          + |WithStatus(events, Cancelled)| == |events|
  {
    if events != [] {
      StatusTabsPartition(events[1..]);
    }
  }

  /** The tabs of the events panel and the overview's upcoming list. */
  datatype Tab = StatusTab(status: Status) | AllTab

  function TabEvents(events: seq<Event>, tab: Tab): (r: seq<Event>)
    ensures tab.AllTab? ==> r == events
    ensures tab.StatusTab? ==> forall i :: 0 <= i < |r| ==> r[i].status == tab.status && r[i] in events
    ensures tab.StatusTab? ==> forall i :: 0 <= i < |events| && events[i].status == tab.status ==> events[i] in r
  {
    match tab
    case StatusTab(s) => WithStatus(events, s)
    case AllTab => events
  }

  /** After a status change the event shows in the tab of its new status and in no other. */
  lemma StatusChangeMovesTab(events: seq<Event>, id: string, newStatus: Status, i: nat, other: Status)
    requires i < |events| && events[i].id == id && other != newStatus
    ensures var r := ApplyStatusChange(events, id, newStatus);
      r[i] in TabEvents(r, StatusTab(newStatus)) && r[i] !in TabEvents(r, StatusTab(other))
  {
  }

  // ---------------------------------------------------------------------
  // Selected-day lookup
  // ---------------------------------------------------------------------

  /** The user's events that fall on the selected day, in list order. */
  function EventsOnDay(events: seq<Event>, date: Date): (r: seq<Event>)
    ensures forall i :: 0 <= i < |r| ==> SameDay(date, r[i].date) && r[i] in events
    ensures forall i :: 0 <= i < |events| && SameDay(date, events[i].date) ==> events[i] in r
  {
    Filter(events, (e: Event) => SameDay(date, e.date))
  }

  /** The lookup keeps list order. */
  lemma EventsOnDayAppend(a: seq<Event>, b: seq<Event>, date: Date)
    ensures EventsOnDay(a + b, date) == EventsOnDay(a, date) + EventsOnDay(b, date)
  {
    FilterAppend(a, b, (e: Event) => SameDay(date, e.date));
  }

  /** Only the day counts: two dates on the same day select the same events. */
  lemma EventsOnDayIgnoresTime(events: seq<Event>, d1: Date, d2: Date)
    requires SameDay(d1, d2)
    ensures EventsOnDay(events, d1) == EventsOnDay(events, d2)
  {
    FilterCongruent(events, (e: Event) => SameDay(d1, e.date), (e: Event) => SameDay(d2, e.date));
  }

  function Titles(events: seq<Event>): seq<string>
  {
    Map(events, (e: Event) => e.title)
  }

  /**
   * The info toast for a selected day; `shown` is the day as the browser
   * formats it. Matching events are listed by title, joined by ", ".
   */
  function DaySelectToast(events: seq<Event>, date: Date, shown: string): (t: Toast)
    ensures t.kind == Info
    ensures EventsOnDay(events, date) == [] ==> t.text == "No events scheduled for " + shown
    ensures EventsOnDay(events, date) != [] ==>
      t.text == "Events on " + shown + ": " + Join(Titles(EventsOnDay(events, date)), ", ")
  {
    var found := EventsOnDay(events, date);
    if |found| > 0 then
      Toast(Info, "Events on " + shown + ": " + Join(Titles(found), ", "))
    else
      Toast(Info, "No events scheduled for " + shown)
  }

  /** The two messages are told apart by their first ten characters. */
  lemma DaySelectToastReportsEvents(events: seq<Event>, date: Date, shown: string)
    ensures var t := DaySelectToast(events, date, shown);
      (|t.text| >= 10 && t.text[..10] == "Events on ") <==> EventsOnDay(events, date) != []
  {
    var t := DaySelectToast(events, date, shown);
    if EventsOnDay(events, date) == [] {
      assert t.text[..10] == "No events ";
    } else {
      assert t.text[..10] == "Events on ";
    }
  }

  /** With one matching event the toast names exactly that event's title. */
  lemma DaySelectToastSingle(events: seq<Event>, date: Date, shown: string, e: Event)
    requires EventsOnDay(events, date) == [e]
    ensures DaySelectToast(events, date, shown).text == "Events on " + shown + ": " + e.title
  {
  }
}
