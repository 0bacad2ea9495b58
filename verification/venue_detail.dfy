/**
 * The decision logic of the venue detail page (src/pages/VenueDetail.tsx):
 * finding the venue named by the route, the date-availability check run
 * when a calendar day is selected, and which gallery images appear as
 * thumbnails with the "+N more" overlay. The page's `venue` and `mainImage`
 * state is a record that the route effect and the thumbnail click replace.
 */
module VenueDetail {
  import opened JsArray
  import opened Calendar

  /** A catalogue venue; the floating-point rating is not modelled. */
  datatype Venue = Venue(
    id: string,
    name: string,
    description: string,
    location: string,
    capacity: int,
    price: int,
    image: string,
    tags: seq<string>)

  // ---------------------------------------------------------------------
  // Venue lookup
  // ---------------------------------------------------------------------

  /** `venues.find(v => v.id === id)`: the first catalogue venue with the route id. */
  function FindVenue(catalogue: seq<Venue>, id: string): (r: Option<Venue>)
    ensures r.None? <==> forall j :: 0 <= j < |catalogue| ==> catalogue[j].id != id
    ensures r.Some? ==> r.value.id == id && r.value in catalogue
    ensures r.Some? ==>
      exists k :: 0 <= k < |catalogue| && catalogue[k] == r.value && (forall j :: 0 <= j < k ==> catalogue[j].id != id)
  {
    Find(catalogue, (v: Venue) => v.id == id)
  }

  /** `venue` (`None` for `null`) and `mainImage`. */
  datatype Page = Page(venue: Option<Venue>, mainImage: string)

  /** With no venue the page renders only its loading placeholder; otherwise it has a venue to show. */
  predicate ShowsLoading(page: Page)
    ensures !ShowsLoading(page) ==> exists v :: page.venue == Some(v)
  {
    page.venue.None?
  }

  /** Before the effect has run: no venue and an empty main image, so the page is loading. */
  function InitialPage(): (p: Page)
    ensures ShowsLoading(p)
    ensures p.mainImage == ""
  {
    Page(None, "")
  }

  /**
   * The effect run for a route id: a found venue is stored and its own image
   * becomes the main image; otherwise neither setter runs and the page keeps
   * what it had.
   */
  function OnRouteId(page: Page, catalogue: seq<Venue>, id: string): (p: Page)
    ensures FindVenue(catalogue, id).Some? ==>
      p.venue == FindVenue(catalogue, id) && p.mainImage == p.venue.value.image && p.venue.value.id == id
    ensures FindVenue(catalogue, id).None? ==> p == page
  {
    match FindVenue(catalogue, id)
    case Some(v) => Page(Some(v), v.image)
    case None => page
  }

  /** On first load, an id missing from the catalogue leaves the page loading. */
  lemma UnknownIdShowsLoading(catalogue: seq<Venue>, id: string)
    requires forall j :: 0 <= j < |catalogue| ==> catalogue[j].id != id
    ensures ShowsLoading(OnRouteId(InitialPage(), catalogue, id))
  {
  }

  /** On first load, the page leaves the loading state exactly when some venue has the id. */
  lemma LoadedIffKnownId(catalogue: seq<Venue>, id: string)
    ensures !ShowsLoading(OnRouteId(InitialPage(), catalogue, id)) <==>
      exists j :: 0 <= j < |catalogue| && catalogue[j].id == id
  {
  }

  /** Re-running the effect for the same id changes nothing. */
  lemma OnRouteIdIdempotent(page: Page, catalogue: seq<Venue>, id: string)
    ensures OnRouteId(OnRouteId(page, catalogue, id), catalogue, id) == OnRouteId(page, catalogue, id)
  {
  }

  // ---------------------------------------------------------------------
  // Date availability
  // ---------------------------------------------------------------------

  /** `isBooked`: some calendar event on the same day has status booked. */
  function IsBooked(events: seq<CalendarEvent>, date: Date): (r: bool)
    ensures r <==> exists i :: 0 <= i < |events| && SameDay(events[i].date, date) && events[i].status == Booked
  {
    Any(events, (e: CalendarEvent) => SameDay(e.date, date) && e.status == Booked)
  }

  /** Pending and available events, and events on other days, never make a date booked. */
  lemma {:induction false} OnlyBookedSameDayEventsBlock(a: seq<CalendarEvent>, e: CalendarEvent, b: seq<CalendarEvent>, date: Date)
    requires e.status != Booked || !SameDay(e.date, date)
    ensures IsBooked(a + [e] + b, date) == IsBooked(a + b, date)
  {
    var with, without := a + [e] + b, a + b;
    if IsBooked(with, date) {
      var i :| 0 <= i < |with| && SameDay(with[i].date, date) && with[i].status == Booked;
      if i < |a| {
        assert without[i] == with[i];
      } else {
        assert i > |a|;
        assert without[i - 1] == with[i];
      }
    }
    if IsBooked(without, date) {
      var i :| 0 <= i < |without| && SameDay(without[i].date, date) && without[i].status == Booked;
      if i < |a| {
        assert with[i] == without[i];
      } else {
        assert with[i + 1] == without[i];
      }
    }
  }

  /** A booked event on the day makes the date booked wherever it sits in the list. */
  lemma BookedEventBlocks(a: seq<CalendarEvent>, e: CalendarEvent, b: seq<CalendarEvent>, date: Date)
    requires e.status == Booked && SameDay(e.date, date)
    ensures IsBooked(a + [e] + b, date)
  {
    assert (a + [e] + b)[|a|] == e;
  }

  /** The time of day plays no part. */
  lemma IsBookedIgnoresTime(events: seq<CalendarEvent>, d1: Date, d2: Date)
    requires SameDay(d1, d2)
    ensures IsBooked(events, d1) == IsBooked(events, d2)
  {
  }

  /**
   * The toast for a selected date; `shown` is the date as the browser
   * formats it. Every date is reported either booked (info) or available
   * (success), never both and never neither.
   */
  function DateSelectToast(events: seq<CalendarEvent>, date: Date, shown: string): (t: Toast)
    ensures t.kind == Info <==> IsBooked(events, date)
    ensures t.kind == Success <==> !IsBooked(events, date)
    ensures IsBooked(events, date) ==> t.text == shown + " is already booked"
    ensures !IsBooked(events, date) ==> t.text == shown + " is available for booking"
  {
    if IsBooked(events, date) then
      Toast(Info, shown + " is already booked")
    else
      Toast(Success, shown + " is available for booking")
  }

  // ---------------------------------------------------------------------
  // Gallery thumbnails
  // ---------------------------------------------------------------------

  /** One thumbnail: its image, its position in the strip, and the "+N more" count if shown. */
  datatype Thumbnail = Thumbnail(image: string, position: nat, more: Option<nat>)

  /**
   * `gallery.slice(1, 4).map((img, i) => ...)`: the gallery images at indices
   * 1 to 3, the third carrying a "+N more" overlay when the gallery holds
   * more than four images.
   */
  function Thumbnails(gallery: seq<string>): (r: seq<Thumbnail>)
    ensures |r| <= 3
    ensures |r| == if |gallery| <= 1 then 0 else Min(3, |gallery| - 1)
    ensures forall i :: 0 <= i < |r| ==> r[i].image == gallery[i + 1] && r[i].position == i
    ensures forall i :: 0 <= i < |r| ==> (r[i].more.Some? <==> i == 2 && |gallery| > 4)
    ensures forall i :: 0 <= i < |r| && r[i].more.Some? ==> r[i].more.value == |gallery| - 3
  {
    var shown := Slice(gallery, 1, 4);
    seq(|shown|, i requires 0 <= i < |shown| =>
      Thumbnail(shown[i], i, if i == 2 && |gallery| > 4 then Some(|gallery| - 3) else None))
  }

  /** `venueImages[venue.id]?.slice(...)`: a venue without a gallery shows no thumbnails. */
  function GalleryThumbnails(venueImages: map<string, seq<string>>, venueId: string): (r: seq<Thumbnail>)
    ensures venueId !in venueImages ==> r == []
    ensures venueId in venueImages ==> r == Thumbnails(venueImages[venueId])
  {
    if venueId in venueImages then Thumbnails(venueImages[venueId]) else []
  }

  /**
   * The overlay is shown at most once, on the last of three thumbnails, and
   * only for galleries of five or more; its N counts the covered image and
   * every image after it.
   */
  lemma OverlayOnlyOnThird(gallery: seq<string>)
    ensures var r := Thumbnails(gallery);
      (exists i :: 0 <= i < |r| && r[i].more.Some?) <==> |gallery| > 4
    ensures var r := Thumbnails(gallery);
      forall i :: 0 <= i < |r| && r[i].more.Some? ==>
        i == 2 && |r| == 3 && r[i].more.value == |gallery[3..]| && r[i].more.value >= 2
  {
    var r := Thumbnails(gallery);
    if |gallery| > 4 {
      assert r[2].more.Some?;
    }
  }

  /** The thumbnail click: the clicked image becomes the main image. */
  function SelectThumbnail(page: Page, t: Thumbnail): (p: Page)
    ensures p.venue == page.venue
    ensures p.mainImage == t.image
  {
    page.(mainImage := t.image)
  }

  /** Clicking the k-th thumbnail shows gallery image k + 1, never the first one. */
  lemma ThumbnailClickShowsGalleryImage(page: Page, gallery: seq<string>, k: nat)
    requires k < |Thumbnails(gallery)|
    ensures 1 <= k + 1 <= 3
    ensures SelectThumbnail(page, Thumbnails(gallery)[k]).mainImage == gallery[k + 1]
  {
  }
}
