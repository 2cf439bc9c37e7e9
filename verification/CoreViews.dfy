/**
 * The `home` view of core/views.py, a line-for-line copy of the `events`
 * listing that renders a different template. It is transcribed here on its
 * own, one `.filter()` per branch, and proved to produce the same context.
 */
module CoreViews {
  import opened Wrappers
  import opened Dates
  import opened Models
  import opened Query
  import opened EventsView

  /** The type filter of core/views.py: one date comparison with today, or none. */
  function ByType(cats: seq<Category>, es: seq<Event>, filterType: string, today: Date): seq<Event> {
    if filterType == "upcoming" then Select(cats, es, [DateGt(today)])
    else if filterType == "recent" then Select(cats, es, [DateLt(today)])
    else if filterType == "today" then Select(cats, es, [DateIs(today)])
    else es
  }

  /** The name search: applied only for a non-empty query. */
  function ByName(cats: seq<Category>, es: seq<Event>, nameQuery: string): seq<Event> {
    if nameQuery != "" then Select(cats, es, [NameIContains(nameQuery)]) else es
  }

  /** The category search: applied only for a non-empty query. */
  function ByCategory(cats: seq<Category>, es: seq<Event>, catQuery: string): seq<Event> {
    if catQuery != "" then Select(cats, es, [CategoryNameIContains(catQuery)]) else es
  }

  /** The date search: a range when both bounds are given, else the one bound given. */
  function ByDate(cats: seq<Category>, es: seq<Event>, dateFrom: Option<Date>, dateTo: Option<Date>): seq<Event> {
    if dateFrom.Some? && dateTo.Some? then Select(cats, es, [DateRange(dateFrom.value, dateTo.value)])
    else if dateFrom.Some? then Select(cats, es, [DateGte(dateFrom.value)])
    else if dateTo.Some? then Select(cats, es, [DateLte(dateTo.value)])
    else es
  }

  /** The listing of `home`: the four filters in the order the view applies them. */
  function HomeListing(store: Store, today: Date, req: Request): seq<Event> {
    var cats := store.categories;
    var byType := ByType(cats, store.events, req.filterType.GetOr("all"), today);
    var byName := ByName(cats, byType, req.name.GetOr(""));
    var byCategory := ByCategory(cats, byName, req.category.GetOr(""));
    ByDate(cats, byCategory, req.dateFrom, req.dateTo)
  }

  /** `home(request)` with `today` passed in. */
  function Home(store: Store, today: Date, req: Request): (ctx: Context)
    ensures ctx.filterType == req.filterType.GetOr("all")
    ensures ctx.nameQuery == req.name.GetOr("") && ctx.catQuery == req.category.GetOr("")
    ensures ctx.dateFrom == req.dateFrom && ctx.dateTo == req.dateTo
  {
    var upcoming := Select(store.categories, store.events, [DateGt(today)]);
    Context(Annotate(HomeListing(store, today, req)), Annotate(upcoming),
            req.name.GetOr(""), req.category.GetOr(""), req.dateFrom, req.dateTo,
            req.filterType.GetOr("all"))
  }

  /** A filter that is skipped is a pass with no lookups. */
  lemma SkippedFilter(cats: seq<Category>, es: seq<Event>, l: Lookup, apply: bool)
    ensures (if apply then Select(cats, es, [l]) else es) == Select(cats, es, if apply then [l] else [])
  {
    if !apply {
      SelectNothing(cats, es);
    }
  }

  /** A further filter, applied or skipped, on top of one pass over `a` is one pass over `a` and its lookup. */
  lemma FilterStep(cats: seq<Category>, es: seq<Event>, a: seq<Lookup>, l: Lookup, apply: bool)
    ensures (if apply then Select(cats, Select(cats, es, a), [l]) else Select(cats, es, a))
            == Select(cats, es, a + (if apply then [l] else []))
  {
    SelectSelect(cats, es, a, if apply then [l] else []);
    if !apply {
      SelectNothing(cats, Select(cats, es, a));
    }
  }

  /** The type filter is one pass over `TypeLookups`. */
  lemma ByTypeIsSelect(cats: seq<Category>, es: seq<Event>, filterType: string, today: Date)
    ensures ByType(cats, es, filterType, today) == Select(cats, es, TypeLookups(filterType, today))
  {
    if TypeLookups(filterType, today) == [] {
      SelectNothing(cats, es);
    }
  }

  /** The lookup the date search adds, if any. */
  function DateLookups(dateFrom: Option<Date>, dateTo: Option<Date>): seq<Lookup> {
    if dateFrom.Some? && dateTo.Some? then [DateRange(dateFrom.value, dateTo.value)]
    else if dateFrom.Some? then [DateGte(dateFrom.value)]
    else if dateTo.Some? then [DateLte(dateTo.value)]
    else []
  }

  /** The date filter is one pass over `DateLookups`. */
  lemma ByDateIsSelect(cats: seq<Category>, es: seq<Event>, dateFrom: Option<Date>, dateTo: Option<Date>)
    ensures ByDate(cats, es, dateFrom, dateTo) == Select(cats, es, DateLookups(dateFrom, dateTo))
  {
    if DateLookups(dateFrom, dateTo) == [] {
      SelectNothing(cats, es);
    }
  }

  /** The four filters applied one after another are one pass over all their lookups. */
  lemma FiltersAreOnePass(cats: seq<Category>, es: seq<Event>, filterType: string, today: Date,
                          nameQuery: string, catQuery: string, dateFrom: Option<Date>, dateTo: Option<Date>)
    ensures ByDate(cats, ByCategory(cats, ByName(cats, ByType(cats, es, filterType, today), nameQuery), catQuery),
                   dateFrom, dateTo)
            == Select(cats, es, TypeLookups(filterType, today) + SearchLookups(nameQuery, catQuery, dateFrom, dateTo))
  {
    var t := TypeLookups(filterType, today);
    var n: seq<Lookup> := if nameQuery != "" then [NameIContains(nameQuery)] else [];
    var c: seq<Lookup> := if catQuery != "" then [CategoryNameIContains(catQuery)] else [];
    var d := DateLookups(dateFrom, dateTo);
    assert SearchLookups(nameQuery, catQuery, dateFrom, dateTo) == n + c + d;
    var byType := Select(cats, es, t);
    ByTypeIsSelect(cats, es, filterType, today);
    SkippedFilter(cats, byType, NameIContains(nameQuery), nameQuery != "");
    FilterStep(cats, byType, n, CategoryNameIContains(catQuery), catQuery != "");
    ByDateIsSelect(cats, Select(cats, byType, n + c), dateFrom, dateTo);
    SelectSelect(cats, byType, n + c, d);
    SelectSelect(cats, es, t, n + c + d);
  }

  /** `home`'s filters, one after another, are the lookups `events` chains. */
  lemma HomeListingIsChain(store: Store, today: Date, req: Request)
    ensures HomeListing(store, today, req) == Chain(store.categories, store.events, BuildLookups(today, req))
  {
    FiltersAreOnePass(store.categories, store.events, req.filterType.GetOr("all"), today,
                      req.name.GetOr(""), req.category.GetOr(""), req.dateFrom, req.dateTo);
    ChainIsSelect(store.categories, store.events, BuildLookups(today, req));
  }

  /** For the same inputs and the same day, `home` and `events` list the same events and sidebar. */
  lemma HomeAgreesWithEvents(store: Store, today: Date, req: Request)
    ensures Home(store, today, req).events == Events(store, today, req).events
    ensures Home(store, today, req).upEvents == Events(store, today, req).upEvents
    ensures Home(store, today, req) == Events(store, today, req)
  {
    HomeListingIsChain(store, today, req);
    ChainIsSelect(store.categories, store.events, [DateGt(today)]);
  }

  /** With no parameters (`type` defaults to `all`, the texts to empty) every event is listed. */
  lemma NoParametersListsEverything(store: Store, today: Date)
    ensures EventsOf(Home(store, today, NoParameters).events) == store.events
  {

  }

  /** With both bounds given, an event dated on either bound is listed. */
  lemma RangeBoundsInclusive(store: Store, today: Date, dateFrom: Date, dateTo: Date, e: Event)
    requires e in store.events
    requires OnOrBefore(dateFrom, dateTo)
    requires e.date == dateFrom || e.date == dateTo
    ensures e in EventsOf(Home(store, today, NoParameters.(dateFrom := Some(dateFrom), dateTo := Some(dateTo))).events)
  {
    var req := NoParameters.(dateFrom := Some(dateFrom), dateTo := Some(dateTo));
    HomeAgreesWithEvents(store, today, req);
    EventsAreMatches(store, today, req);
    assert Matches(store.categories, today, req, e);
  }

  /** The `events` listing of an inverted range is empty. */
  lemma EventsInvertedRangeIsEmpty(store: Store, today: Date, req: Request)
    requires req.dateFrom.Some? && req.dateTo.Some?
    requires Before(req.dateTo.value, req.dateFrom.value)
    ensures Events(store, today, req).events == []
  {
    EventsAreMatches(store, today, req);
    forall e | e in store.events
      ensures !AllHold(store.categories, BuildLookups(today, req), e)
    {
      LookupsMeanMatches(store.categories, today, req, e);
    }
    SelectNoneMatch(store.categories, store.events, BuildLookups(today, req));
  }

  /** With both bounds given and the lower one after the upper one, nothing is listed. */
  lemma InvertedRangeIsEmpty(store: Store, today: Date, req: Request)
    requires req.dateFrom.Some? && req.dateTo.Some?
    requires Before(req.dateTo.value, req.dateFrom.value)
    ensures Home(store, today, req).events == []
  {
    HomeAgreesWithEvents(store, today, req);
    EventsInvertedRangeIsEmpty(store, today, req);
  }

  /** The `events` listing for `upcoming` with only `date_to`. */
  lemma EventsUpcomingUntil(store: Store, today: Date, dateTo: Date, req: Request)
    requires req == NoParameters.(filterType := Some("upcoming"), dateTo := Some(dateTo))
    ensures forall e :: e in EventsOf(Events(store, today, req).events)
                        <==> e in store.events && Before(today, e.date) && OnOrBefore(e.date, dateTo)
  {
    EventsAreMatches(store, today, req);
  }

  /** The type and date filters combine by AND: `upcoming` with only `date_to` keeps today < date <= date_to. */
  lemma UpcomingUntil(store: Store, today: Date, dateTo: Date)
    ensures forall e :: e in EventsOf(Home(store, today, NoParameters.(filterType := Some("upcoming"), dateTo := Some(dateTo))).events)
                        <==> e in store.events && Before(today, e.date) && OnOrBefore(e.date, dateTo)
  {
    var req := NoParameters.(filterType := Some("upcoming"), dateTo := Some(dateTo));
    HomeAgreesWithEvents(store, today, req);
    EventsUpcomingUntil(store, today, dateTo, req);
  }
}
