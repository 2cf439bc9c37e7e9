/**
 * The part of Django's queryset semantics the listing views rely on: field
 * lookups, chained `.filter()` calls, and the participant-count annotation.
 */
module Query {
  import opened Dates
  import opened Text
  import opened Models

  /** One `.filter()` argument, named after the Django lookup it stands for. */
  datatype Lookup =
    | DateGt(d: Date)                     // date__gt
    | DateLt(d: Date)                     // date__lt
    | DateIs(d: Date)                     // date=
    | DateGte(d: Date)                    // date__gte
    | DateLte(d: Date)                    // date__lte
    | DateRange(lo: Date, hi: Date)       // date__range=[lo, hi], SQL BETWEEN
    | NameIContains(q: string)            // name__icontains
    | CategoryNameIContains(q: string)    // category__name__icontains, through the foreign key

  /** Whether event `e` satisfies lookup `l`; `cats` is the table the category join reads. */
  predicate Holds(cats: seq<Category>, l: Lookup, e: Event) {
    match l
    case DateGt(d) => Before(d, e.date)
    case DateLt(d) => Before(e.date, d)
    case DateIs(d) => e.date == d
    case DateGte(d) => OnOrBefore(d, e.date)
    case DateLte(d) => OnOrBefore(e.date, d)
    case DateRange(lo, hi) => OnOrBefore(lo, e.date) && OnOrBefore(e.date, hi)
    case NameIContains(q) => IContains(e.name, q)
    case CategoryNameIContains(q) => exists c :: c in cats && c.id == e.categoryId && IContains(c.name, q)
  }

  /** Event `e` satisfies every lookup in `ls`. */
  predicate AllHold(cats: seq<Category>, ls: seq<Lookup>, e: Event) {
    forall k :: 0 <= k < |ls| ==> Holds(cats, ls[k], e)
  }

  lemma AllHoldAppend(cats: seq<Category>, a: seq<Lookup>, b: seq<Lookup>, e: Event)
    ensures AllHold(cats, a + b, e) <==> AllHold(cats, a, e) && AllHold(cats, b, e)
  {
    if AllHold(cats, a, e) && AllHold(cats, b, e) {
      forall k | 0 <= k < |a + b|
        ensures Holds(cats, (a + b)[k], e)
      {
        if k < |a| {
          assert (a + b)[k] == a[k];
        } else {
          assert (a + b)[k] == b[k - |a|];
        }
      }
    }
    if AllHold(cats, a + b, e) {
      forall k | 0 <= k < |b|
        ensures Holds(cats, b[k], e)
      {
        assert (a + b)[|a| + k] == b[k];
      }
      forall k | 0 <= k < |a|
        ensures Holds(cats, a[k], e)
      {
        assert (a + b)[k] == a[k];
      }
    }
  }

  /** A single pass keeping, in order, the events that satisfy every lookup in `ls`. */
  function Select(cats: seq<Category>, es: seq<Event>, ls: seq<Lookup>): (r: seq<Event>)
    ensures |r| <= |es|
    ensures forall e :: e in r <==> e in es && AllHold(cats, ls, e)
  {
    if |es| == 0 then []
    else (if AllHold(cats, ls, es[0]) then [es[0]] else []) + Select(cats, es[1..], ls)
  }

  /** `qs.filter(l0).filter(l1)...`: the lookups applied one after another. */
  function Chain(cats: seq<Category>, es: seq<Event>, ls: seq<Lookup>): seq<Event>
    decreases |ls|
  {
    if |ls| == 0 then es else Chain(cats, Select(cats, es, [ls[0]]), ls[1..])
  }

  /** With no lookups nothing is dropped. */
  lemma {:induction false} SelectNothing(cats: seq<Category>, es: seq<Event>)
    ensures Select(cats, es, []) == es
  {
    if |es| > 0 {
      SelectNothing(cats, es[1..]);
      assert es == [es[0]] + es[1..];
    }
  }

  /** When no event satisfies the lookups the result is empty. */
  lemma {:induction false} SelectNoneMatch(cats: seq<Category>, es: seq<Event>, ls: seq<Lookup>)
    requires forall e :: e in es ==> !AllHold(cats, ls, e)
    ensures Select(cats, es, ls) == []
  {
    if |es| > 0 {
      assert es[0] in es;
      SelectNoneMatch(cats, es[1..], ls);
    }
  }

  /** Filtering a filtered list is filtering once by both lookup lists. */
  lemma {:induction false} SelectSelect(cats: seq<Category>, es: seq<Event>, a: seq<Lookup>, b: seq<Lookup>)
    ensures Select(cats, Select(cats, es, a), b) == Select(cats, es, a + b)
  {
    if |es| > 0 {
      SelectSelect(cats, es[1..], a, b);
      AllHoldAppend(cats, a, b, es[0]);
      var tail := Select(cats, es[1..], a);
      if AllHold(cats, a, es[0]) {
        var s := [es[0]] + tail;
        assert Select(cats, es, a) == s;
        assert s[1..] == tail;
      } else {
        assert Select(cats, es, a) == tail;
      }
    }
  }

  /** Chained filters are the conjunction of their lookups, in one pass, with the order kept. */
  lemma {:induction false} ChainIsSelect(cats: seq<Category>, es: seq<Event>, ls: seq<Lookup>)
    ensures Chain(cats, es, ls) == Select(cats, es, ls)
    decreases |ls|
  {
    if |ls| == 0 {
      SelectNothing(cats, es);
    } else {
      ChainIsSelect(cats, Select(cats, es, [ls[0]]), ls[1..]);
      SelectSelect(cats, es, [ls[0]], ls[1..]);
      assert [ls[0]] + ls[1..] == ls;
    }
  }

  /** An event together with its `participant_count` annotation. */
  datatype Annotated = Annotated(event: Event, participantCount: nat)

  /** `.annotate(participant_count=Count('user'))`: one join row per related user. */
  function Annotate(es: seq<Event>): (r: seq<Annotated>)
    ensures |r| == |es|
    ensures forall i :: 0 <= i < |es| ==> r[i].event == es[i] && r[i].participantCount == |es[i].users|
  {
    seq(|es|, i requires 0 <= i < |es| => Annotated(es[i], |es[i].users|))
  }

  /** The events behind an annotated list. */
  function EventsOf(xs: seq<Annotated>): (r: seq<Event>)
    ensures |r| == |xs|
  {
    seq(|xs|, i requires 0 <= i < |xs| => xs[i].event)
  }

  /** Annotating adds a count to each event and changes nothing else. */
  lemma EventsOfAnnotate(es: seq<Event>)
    ensures EventsOf(Annotate(es)) == es
  {
  }
}
