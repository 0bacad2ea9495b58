# Banquet Buddy Hub: booking and calendar logic

This project models the small booking and calendar layer inside two page components of the
Banquet Buddy Hub venue-reservation front end, and proves properties of it in Dafny.

- **Dashboard** (`src/pages/Dashboard.tsx`). The user's list of booking events has three statuses:
  upcoming, completed and cancelled. The status-change handler rewrites one event's status.
  The Upcoming, Completed, Cancelled and All tabs filter the list by status. A fixed projection
  turns each event into a calendar entry, classified as available, booked or pending. Selecting
  a calendar day looks up the events on that day and reports their titles.
- **Venue detail** (`src/pages/VenueDetail.tsx`). The venue named by the route id is looked up in
  the catalogue, and the page shows a loading placeholder until one is found. A selected date is
  reported as booked or available. A rule on gallery indices picks the thumbnail strip and the
  "+N more" overlay.

The logic modelled here is pure: every modelled handler builds new values with `map`, `filter`, `some`, `find`, `slice`
and `join`, and React setters only store them. The model therefore uses datatypes and functions.
The JavaScript array operations are defined once, in module `JsArray`. The shared calendar values
(an abstract `Date` of year, month, day and time of day; calendar entries; toasts) are in module
`Calendar`. Each page's state is a record, and each handler returns the next record together with
the toast it raises. Day equality compares year, month and day and ignores the time of day, as both
pages do. Module `BookedDays` composes the two pages' rules, which the code itself never does, to
show how the dashboard's projection labels bookings.

Behaviour of the code as written that the model keeps:

- The status change accepts any target status from any current status. The code has no
  interval-overlap check, no guest-capacity validation and no restriction on status transitions,
  and the model adds none of them.
- The dashboard's calendar list is built once, from the initial events. Status changes do not
  alter it, so after a change it can disagree with the events list.
- When the route id matches no venue, the effect calls no setter. A page that already shows a venue
  keeps showing it. Only a page that never found one stays in the loading state.

## Model

| member | source | states |
|---|---|---|
| `Calendar.SameDay` | src/pages/VenueDetail.tsx:365-367 | two dates are on the same day exactly when they are equal once their time of day is ignored (the same comparison as src/pages/Dashboard.tsx:386-389) |
| `JsArray.Map` | src/pages/Dashboard.tsx:146-148 | `map` returns one result per element, and result i is the callback applied to element i |
| `JsArray.Filter` | src/pages/Dashboard.tsx:385-390 | `filter` returns no more elements than its input; every kept element is in the input and passes; every passing input element is kept |
| `JsArray.FilterAppend` | src/pages/Dashboard.tsx:334 | filtering a concatenation is the concatenation of the filtered parts, so the original order is kept |
| `JsArray.FilterSingleton` | src/pages/Dashboard.tsx:334 | a single element is kept exactly when it passes; with FilterAppend this fixes the filter result completely |
| `JsArray.FilterCongruent` | src/pages/Dashboard.tsx:386-389 | two predicates that agree on every element give the same filter result |
| `JsArray.Any` | src/pages/VenueDetail.tsx:364-369 | `some` is true exactly when some element satisfies the predicate |
| `JsArray.FindIndex` | src/pages/VenueDetail.tsx:147 | the index found is the least index that satisfies the predicate; none is found exactly when no element satisfies it |
| `JsArray.Find` | src/pages/VenueDetail.tsx:147 | `find` returns the first element that satisfies the predicate, or nothing exactly when no element does |
| `JsArray.Slice` | src/pages/VenueDetail.tsx:240 | `slice(start, end)` returns the elements from `start` up to but not including `end`, with both bounds clamped to the length |
| `JsArray.Join` | src/pages/Dashboard.tsx:393 | joining no parts gives the empty string, and joining one part gives that part |
| `JsArray.JoinLength` | src/pages/Dashboard.tsx:393 | a joined string holds all characters of the parts plus one separator between each pair of neighbours |
| `JsArray.JoinSnoc` | src/pages/Dashboard.tsx:393 | joining one more part appends the separator and that part |
| `Dashboard.Classify` | src/pages/Dashboard.tsx:127-128 | upcoming maps to available, completed to booked and cancelled to pending, each in both directions |
| `Dashboard.CalendarProjection` | src/pages/Dashboard.tsx:124-129 | one calendar entry per event, in order; each entry has its event's date and title and the classification of its status |
| `Dashboard.ApplyStatusChange` | src/pages/Dashboard.tsx:145-148 | same length and ids in the same order; an event with the id gets the new status and keeps every other field; every other event is returned unchanged |
| `Dashboard.IdsPreserved` | src/pages/Dashboard.tsx:145-148 | the list of ids after a status change equals the list of ids before it |
| `Dashboard.UnknownIdLeavesListUnchanged` | src/pages/Dashboard.tsx:146-147 | if no event has the id, the whole list is unchanged |
| `Dashboard.StatusChangeIdempotent` | src/pages/Dashboard.tsx:147 | applying the same (id, status) change twice gives the same list as applying it once |
| `Dashboard.StatusChangeLastWins` | src/pages/Dashboard.tsx:144-148 | a second change of the same id overrides the first, whatever the first target was, so no transition is refused |
| `Dashboard.StatusChangesCommute` | src/pages/Dashboard.tsx:146-147 | changes to two different ids give the same list in either order |
| `Dashboard.StatusMessage` | src/pages/Dashboard.tsx:151-155 | the confirmation table: completed gives "Event marked as completed successfully", cancelled "Event has been cancelled", upcoming "Event status updated to upcoming" |
| `Dashboard.Init` | src/pages/Dashboard.tsx:124-135 | the user's events start as the mock list, and at load the calendar has one entry per event, in order, with its date, its title and the classification of its status |
| `Dashboard.StatusMessagesDistinct` | src/pages/Dashboard.tsx:151-155 | the three target statuses have three different confirmation messages |
| `Dashboard.HandleStatusChange` | src/pages/Dashboard.tsx:144-158 | every target status is accepted from every current status; the events with the id end with that status; the calendar list is left as it was; a success toast carries the message of exactly that target status |
| `Dashboard.CalendarBuiltFromInitialList` | src/pages/Dashboard.tsx:124-135 | after any series of status changes from the initial state, the calendar list is still the projection of the initial events |
| `Dashboard.CalendarGoesStale` | src/pages/Dashboard.tsx:124-135 | after a first change from the initial list to a status other than the event's initial one, its calendar entry keeps the old classification, which differs from the projection of the updated list |
| `Dashboard.WithStatus` | src/pages/Dashboard.tsx:343 | every event in the view has the given status and comes from the list, and every event with that status is in the view |
| `Dashboard.WithStatusAppend` | src/pages/Dashboard.tsx:244 | a status view keeps the list order |
| `Dashboard.StatusTabsPartition` | src/pages/Dashboard.tsx:332-361 | the sizes of the Upcoming, Completed and Cancelled views add up to the length of the list, so every event appears in exactly one of them |
| `Dashboard.TabEvents` | src/pages/Dashboard.tsx:363-371 | the All tab shows the full list; each status tab shows exactly the events with its status |
| `Dashboard.StatusChangeMovesTab` | src/pages/Dashboard.tsx:334-354 | after a status change, the changed event appears in the tab of its new status and in no other status tab |
| `Dashboard.EventsOnDay` | src/pages/Dashboard.tsx:385-390 | the selected-day lookup returns exactly the events with the same year, month and day, all taken from the list |
| `Dashboard.EventsOnDayAppend` | src/pages/Dashboard.tsx:385-390 | the day lookup keeps the list order |
| `Dashboard.EventsOnDayIgnoresTime` | src/pages/Dashboard.tsx:386-389 | two selected dates on the same day return the same events, whatever their time of day |
| `Dashboard.DaySelectToast` | src/pages/Dashboard.tsx:392-397 | an info toast; with no events on the day it gives the "no events" message; otherwise it lists their titles joined by ", " |
| `Dashboard.DaySelectToastReportsEvents` | src/pages/Dashboard.tsx:392-397 | the message starts with "Events on " exactly when the day has at least one event |
| `Dashboard.DaySelectToastSingle` | src/pages/Dashboard.tsx:393-394 | with exactly one event on the day, the message names only that event's title |
| `VenueDetail.FindVenue` | src/pages/VenueDetail.tsx:147 | the result is the first catalogue venue whose id equals the route id; there is none exactly when no venue has that id |
| `VenueDetail.InitialPage` | src/pages/VenueDetail.tsx:140-142 | before the effect runs the venue is null and the main image empty, so the page shows the loading view |
| `VenueDetail.ShowsLoading` | src/pages/VenueDetail.tsx:171-177 | the loading view is shown while the venue is null; when it is not shown, a venue is there to render |
| `VenueDetail.OnRouteId` | src/pages/VenueDetail.tsx:145-151 | on a match, the page stores that venue and the main image becomes the venue's own image; with no match the page is left unchanged |
| `VenueDetail.UnknownIdShowsLoading` | src/pages/VenueDetail.tsx:171-177 | on first load, an id missing from the catalogue leaves the venue null, so only the loading view is shown |
| `VenueDetail.LoadedIffKnownId` | src/pages/VenueDetail.tsx:145-177 | on first load, the page leaves the loading view exactly when some catalogue venue has the route id |
| `VenueDetail.OnRouteIdIdempotent` | src/pages/VenueDetail.tsx:145-158 | running the effect again for the same id changes nothing |
| `VenueDetail.IsBooked` | src/pages/VenueDetail.tsx:364-369 | a date is booked exactly when some calendar event has the same year, month and day and the status booked |
| `VenueDetail.OnlyBookedSameDayEventsBlock` | src/pages/VenueDetail.tsx:364-369 | adding or removing a pending or available event, or one on another day, at any position never changes whether a date is booked |
| `VenueDetail.BookedEventBlocks` | src/pages/VenueDetail.tsx:364-369 | a booked event on the same day makes the date booked, wherever it sits in the list |
| `VenueDetail.IsBookedIgnoresTime` | src/pages/VenueDetail.tsx:365-367 | two dates on the same day are both booked or both not booked, whatever their time of day |
| `VenueDetail.DateSelectToast` | src/pages/VenueDetail.tsx:371-375 | a booked date gets the info toast "… is already booked"; every other date gets the success toast "… is available for booking", so the two outcomes split all dates |
| `VenueDetail.Thumbnails` | src/pages/VenueDetail.tsx:240-257 | at most three thumbnails, showing gallery images 1 to 3 in order and never image 0; only the third has the overlay, and only when the gallery has more than four images, with N = length − 3 |
| `VenueDetail.GalleryThumbnails` | src/pages/VenueDetail.tsx:240 | a venue with no gallery entry shows no thumbnails; otherwise its gallery gives the strip |
| `VenueDetail.OverlayOnlyOnThird` | src/pages/VenueDetail.tsx:251-254 | an overlay appears exactly when the gallery has more than four images; it is on the third of three thumbnails, and N, at least 2, counts the covered image and every image after it |
| `VenueDetail.SelectThumbnail` | src/pages/VenueDetail.tsx:244 | clicking a thumbnail makes its image the main image and keeps the venue |
| `VenueDetail.ThumbnailClickShowsGalleryImage` | src/pages/VenueDetail.tsx:240-244 | clicking thumbnail k shows gallery image k + 1, which is between 1 and 3 |
| `BookedDays.ProjectionBookedIffCompleted` | src/pages/VenueDetail.tsx:364-369 | a combination the code never performs: if the venue page's booked test were run on the dashboard's projected calendar list, a day would count as booked exactly when a completed event falls on it; the dashboard labels upcoming (confirmed) bookings `available`, so they would never block a day |

## Left out

- `src/pages/Index.tsx` is not part of this model. It holds static listings and layout and makes no decisions.
- JSX rendering, CSS class choices, and the tab, carousel and dropdown components are not modelled.
  The handlers' results are modelled; what the page draws from them is not.
- Toast delivery is I/O. Each handler returns the toast it would raise as a value (kind and text).
- The share button's clipboard write, router navigation, logout and the login redirect are not
  modelled. They are foreign calls.
- The favourite toggle is not modelled. It is a local UI flag with no booking meaning.
- The `setTimeout` that sets the loaded flag is timer plumbing and is not modelled.
- The booking form's submit handler only logs and shows a toast, and is not modelled.
- Dates built from the live clock are not modelled. Every date is an abstract input.
- `toLocaleDateString` is not modelled. The formatted date is a string parameter (`shown`) of the
  toast functions.
- Floating-point venue ratings are not modelled.
- The event type, the calendar component, the events list, the dashboard statistics and the auth
  hook are defined in files that are not part of this model. The event status type is taken to be
  the three keys of the status message table: upcoming, completed and cancelled.
- The projection's last branch catches "anything else". With a three-valued status,
  that branch is exactly the cancelled status.
