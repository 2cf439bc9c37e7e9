/**
 * The `events` listing view of events/views.py: the query parameters become a
 * chain of lookups over the event table, the result and a fixed "upcoming"
 * sidebar list are annotated with participant counts, and the parameters are
 * echoed back for the filter form.
 */
module EventsView {
  import opened Wrappers
  import opened Dates
  import opened Text
  import opened Models
  import opened Query

  /**
   * The GET parameters. `None` is a parameter that was not sent; the two dates
   * are already parsed, `None` standing for both a missing and an empty one.
   */
  datatype Request = Request(
    filterType: Option<string>,
    name: Option<string>,
    category: Option<string>,
    dateFrom: Option<Date>,
    dateTo: Option<Date>)

  /** A request without any query parameter. */
  const NoParameters := Request(None, None, None, None, None)

  /** The template context: the two lists and the echoed parameters. */
  datatype Context = Context(
    events: seq<Annotated>,
    upEvents: seq<Annotated>,
    nameQuery: string,
    catQuery: string,
    dateFrom: Option<Date>,
    dateTo: Option<Date>,
    filterType: string)

  /** The `type` filter: at most one lookup, none for `all` or an unknown value. */
  function TypeLookups(filterType: string, today: Date): seq<Lookup> {
    if filterType == "upcoming" then [DateGt(today)]
    else if filterType == "recent" then [DateLt(today)]
    else if filterType == "today" then [DateIs(today)]
    else []
  }

  /** The search lookups; a falsy (empty or absent) input adds none. */
  function SearchLookups(name: string, category: string, dateFrom: Option<Date>, dateTo: Option<Date>): seq<Lookup> {
    (if name != "" then [NameIContains(name)] else [])
    + (if category != "" then [CategoryNameIContains(category)] else [])
    + (if dateFrom.Some? && dateTo.Some? then [DateRange(dateFrom.value, dateTo.value)]
       else if dateFrom.Some? then [DateGte(dateFrom.value)]
       else if dateTo.Some? then [DateLte(dateTo.value)]
       else [])
  }

  /** Every lookup the view applies, in the order it applies them. */
  function BuildLookups(today: Date, req: Request): seq<Lookup> {
    TypeLookups(req.filterType.GetOr("all"), today)
    + SearchLookups(req.name.GetOr(""), req.category.GetOr(""), req.dateFrom, req.dateTo)
  }

  /** The view itself, with `today` passed in instead of read from the clock. */
  function Events(store: Store, today: Date, req: Request): (ctx: Context)
    ensures ctx.filterType == req.filterType.GetOr("all")
    ensures ctx.nameQuery == req.name.GetOr("") && ctx.catQuery == req.category.GetOr("")
    ensures ctx.dateFrom == req.dateFrom && ctx.dateTo == req.dateTo
    ensures forall a :: a in ctx.events ==> a.event in store.events && a.participantCount == |a.event.users|
    ensures forall a :: a in ctx.upEvents ==>
              a.event in store.events && Before(today, a.event.date) && a.participantCount == |a.event.users|
  {
    var cats := store.categories;
    var lookups := BuildLookups(today, req);
    ChainIsSelect(cats, store.events, lookups);
    ChainIsSelect(cats, store.events, [DateGt(today)]);
    var found := Chain(cats, store.events, lookups);
    var upcoming := Chain(cats, store.events, [DateGt(today)]);
    Context(Annotate(found), Annotate(upcoming),
            req.name.GetOr(""), req.category.GetOr(""), req.dateFrom, req.dateTo,
            req.filterType.GetOr("all"))
  }

  // ---------------------------------------------------------------------------
  // The reference meaning of a request, stated predicate by predicate.

  /** Each recognised `type` value imposes its comparison with today; others impose nothing. */
  predicate TypeAdmits(filterType: string, today: Date, d: Date) {
    && (filterType == "upcoming" ==> Before(today, d))
    && (filterType == "recent" ==> Before(d, today))
    && (filterType == "today" ==> d == today)
  }

  /** Each date bound that is given is inclusive. */
  predicate InRange(dateFrom: Option<Date>, dateTo: Option<Date>, d: Date) {
    && (dateFrom.Some? ==> OnOrBefore(dateFrom.value, d))
    && (dateTo.Some? ==> OnOrBefore(d, dateTo.value))
  }

  predicate NameAdmits(name: string, e: Event) {
    name == "" || IContains(e.name, name)
  }

  predicate CategoryAdmits(cats: seq<Category>, category: string, e: Event) {
    category == "" || exists c :: c in cats && c.id == e.categoryId && IContains(c.name, category)
  }

  /** An event is listed when it passes every filter the request turns on. */
  predicate Matches(cats: seq<Category>, today: Date, req: Request, e: Event) {
    && TypeAdmits(req.filterType.GetOr("all"), today, e.date)
    && NameAdmits(req.name.GetOr(""), e)
    && CategoryAdmits(cats, req.category.GetOr(""), e)
    && InRange(req.dateFrom, req.dateTo, e.date)
  }

  lemma AllHoldSingle(cats: seq<Category>, l: Lookup, e: Event)
    ensures AllHold(cats, [l], e) <==> Holds(cats, l, e)
  {
    assert [l][0] == l;
  }

  /** The lookup the `type` parameter adds admits exactly what `TypeAdmits` describes. */
  lemma TypeLookupsMeaning(cats: seq<Category>, filterType: string, today: Date, e: Event)
    ensures AllHold(cats, TypeLookups(filterType, today), e) <==> TypeAdmits(filterType, today, e.date)
  {
    var ls := TypeLookups(filterType, today);
    if |ls| == 1 {
      AllHoldSingle(cats, ls[0], e);
      assert ls == [ls[0]];
    }
  }

  /**
   * The name and category lookups are added only for non-empty text, and the
   * chosen date lookup (range, lower bound, upper bound or none, in that order
   * of precedence) admits exactly the dates within the given bounds.
   */
  lemma SearchLookupsMeaning(cats: seq<Category>, name: string, category: string,
                             dateFrom: Option<Date>, dateTo: Option<Date>, e: Event)
    ensures AllHold(cats, SearchLookups(name, category, dateFrom, dateTo), e)
            <==> NameAdmits(name, e) && CategoryAdmits(cats, category, e) && InRange(dateFrom, dateTo, e.date)
  {
    var a: seq<Lookup> := if name != "" then [NameIContains(name)] else [];
    var b: seq<Lookup> := if category != "" then [CategoryNameIContains(category)] else [];
    var c: seq<Lookup> :=
      if dateFrom.Some? && dateTo.Some? then [DateRange(dateFrom.value, dateTo.value)]
      else if dateFrom.Some? then [DateGte(dateFrom.value)]
      else if dateTo.Some? then [DateLte(dateTo.value)]
      else [];
    assert SearchLookups(name, category, dateFrom, dateTo) == a + b + c;
    AllHoldAppend(cats, a + b, c, e);
    AllHoldAppend(cats, a, b, e);
    if name != "" { AllHoldSingle(cats, a[0], e); }
    if category != "" { AllHoldSingle(cats, b[0], e); }
    if |c| == 1 { AllHoldSingle(cats, c[0], e); }
  }

  /** The lookups the view builds admit exactly the events `Matches` describes. */
  lemma LookupsMeanMatches(cats: seq<Category>, today: Date, req: Request, e: Event)
    ensures AllHold(cats, BuildLookups(today, req), e) <==> Matches(cats, today, req, e)
  {
    var t := TypeLookups(req.filterType.GetOr("all"), today);
    var sl := SearchLookups(req.name.GetOr(""), req.category.GetOr(""), req.dateFrom, req.dateTo);
    AllHoldAppend(cats, t, sl, e);
    TypeLookupsMeaning(cats, req.filterType.GetOr("all"), today, e);
    SearchLookupsMeaning(cats, req.name.GetOr(""), req.category.GetOr(""), req.dateFrom, req.dateTo, e);
  }

  /**
   * The listed events are, in table order, exactly the events that pass every
   * active filter at once: a subset of the table, combined by AND only.
   */
  lemma EventsAreMatches(store: Store, today: Date, req: Request)
    ensures EventsOf(Events(store, today, req).events) == Select(store.categories, store.events, BuildLookups(today, req))
    ensures forall e :: e in EventsOf(Events(store, today, req).events)
                        <==> e in store.events && Matches(store.categories, today, req, e)
  {
    var cats := store.categories;
    var ls := BuildLookups(today, req);
    ChainIsSelect(cats, store.events, ls);
    EventsOfAnnotate(Chain(cats, store.events, ls));
    forall e | e in store.events
      ensures AllHold(cats, ls, e) <==> Matches(cats, today, req, e)
    {
      LookupsMeanMatches(cats, today, req, e);
    }
  }

  /** Each listed event carries the size of its user relation as its count. */
  lemma ParticipantCounts(store: Store, today: Date, req: Request)
    ensures forall i :: 0 <= i < |Events(store, today, req).events| ==>
              Events(store, today, req).events[i].participantCount == |Events(store, today, req).events[i].event.users|
  {
  }

  /** The sidebar is always the events after today, whatever the other parameters say. */
  lemma UpEventsIgnoreFilters(store: Store, today: Date, r1: Request, r2: Request)
    ensures Events(store, today, r1).upEvents == Events(store, today, r2).upEvents
    ensures EventsOf(Events(store, today, r1).upEvents) == Select(store.categories, store.events, [DateGt(today)])
    ensures forall e :: e in EventsOf(Events(store, today, r1).upEvents) <==> e in store.events && Before(today, e.date)
  {
    var cats := store.categories;
    ChainIsSelect(cats, store.events, [DateGt(today)]);
    EventsOfAnnotate(Chain(cats, store.events, [DateGt(today)]));
    forall e | e in store.events
      ensures AllHold(cats, [DateGt(today)], e) <==> Before(today, e.date)
    {
      AllHoldSingle(cats, DateGt(today), e);
    }
  }

  /** With only `type` given: `upcoming`, `recent` and `today` keep dates after, before and equal to today. */
  lemma TypeOnly(store: Store, today: Date, filterType: string)
    ensures var listed := EventsOf(Events(store, today, NoParameters.(filterType := Some(filterType))).events);
            && (filterType == "upcoming" ==> forall e :: e in listed <==> e in store.events && Before(today, e.date))
            && (filterType == "recent" ==> forall e :: e in listed <==> e in store.events && Before(e.date, today))
            && (filterType == "today" ==> forall e :: e in listed <==> e in store.events && e.date == today)
    ensures filterType != "upcoming" && filterType != "recent" && filterType != "today" ==>
              EventsOf(Events(store, today, NoParameters.(filterType := Some(filterType))).events) == store.events
  {
    var req := NoParameters.(filterType := Some(filterType));
    EventsAreMatches(store, today, req);
    if filterType != "upcoming" && filterType != "recent" && filterType != "today" {
      assert BuildLookups(today, req) == [];
      SelectNothing(store.categories, store.events);
    }
  }

  /** With only `name` given, an event is listed iff its name contains the text case-insensitively. */
  lemma NameOnly(store: Store, today: Date, name: string)
    requires name != ""
    ensures forall e :: e in EventsOf(Events(store, today, NoParameters.(name := Some(name))).events)
                        <==> e in store.events && IContains(e.name, name)
  {
    EventsAreMatches(store, today, NoParameters.(name := Some(name)));
  }

  /** With only `category` given, an event is listed iff its category's name contains the text. */
  lemma CategoryOnly(store: Store, today: Date, category: string)
    requires category != ""
    ensures forall e :: e in EventsOf(Events(store, today, NoParameters.(category := Some(category))).events)
                        <==> e in store.events
                             && exists c :: c in store.categories && c.id == e.categoryId && IContains(c.name, category)
  {
    EventsAreMatches(store, today, NoParameters.(category := Some(category)));
  }

  /** An empty `name` or `category` parameter filters exactly as an absent one. */
  lemma EmptyTextIsAbsent(store: Store, today: Date, req: Request)
    ensures Events(store, today, req.(name := Some(""))).events == Events(store, today, req.(name := None)).events
    ensures Events(store, today, req.(category := Some(""))).events == Events(store, today, req.(category := None)).events
  {
  }

  /** The date range: both bounds form a closed interval, one bound is inclusive, none keeps all. */
  lemma DateRangePrecedence(cats: seq<Category>, dateFrom: Option<Date>, dateTo: Option<Date>, e: Event)
    ensures dateFrom.Some? && dateTo.Some? ==>
              (AllHold(cats, SearchLookups("", "", dateFrom, dateTo), e)
               <==> OnOrBefore(dateFrom.value, e.date) && OnOrBefore(e.date, dateTo.value))
    ensures dateFrom.Some? && dateTo.None? ==>
              (AllHold(cats, SearchLookups("", "", dateFrom, dateTo), e) <==> OnOrBefore(dateFrom.value, e.date))
    ensures dateFrom.None? && dateTo.Some? ==>
              (AllHold(cats, SearchLookups("", "", dateFrom, dateTo), e) <==> OnOrBefore(e.date, dateTo.value))
    ensures dateFrom.None? && dateTo.None? ==> AllHold(cats, SearchLookups("", "", dateFrom, dateTo), e)
  {
    SearchLookupsMeaning(cats, "", "", dateFrom, dateTo, e);
  }

  lemma TechMatchesTech(name: string, q: string)
    requires name == "Tech" && q == "tech"
    ensures IContains(name, q)
  {

  }

  /**
   * Two Tech events, "Demo Day" on 2024-03-01 and "Tech Talk" on 2024-03-10;
   * on 2024-03-05 the query `type=upcoming&category=tech` lists only "Tech Talk".
   */
  lemma TechTalkExample(store: Store, today: Date, req: Request)
    requires store == Store(
      [Category(1, "Tech", "")],
      [Event(1, "Demo Day", 1, "", Date(2024, 3, 1), Time(10, 0), "", None, {}),
       Event(2, "Tech Talk", 1, "", Date(2024, 3, 10), Time(10, 0), "", None, {7})],
      [])
    requires today == Date(2024, 3, 5)
    requires req == NoParameters.(filterType := Some("upcoming"), category := Some("tech"))
    ensures EventsOf(Events(store, today, req).events) == [store.events[1]]
    ensures Events(store, today, req).events[0].participantCount == 1
  {
    var cats, es := store.categories, store.events;
    var ls := BuildLookups(today, req);
    EventsAreMatches(store, today, req);
    LookupsMeanMatches(cats, today, req, es[0]);
    LookupsMeanMatches(cats, today, req, es[1]);
    assert !Matches(cats, today, req, es[0]);
    TechMatchesTech(cats[0].name, req.category.value);
    assert cats[0] in cats;
    assert Matches(cats, today, req, es[1]);
    assert Select(cats, es, ls) == [] + Select(cats, es[1..], ls);
    assert Select(cats, es[1..], ls) == [es[1]] + Select(cats, es[2..], ls);
  }
}
