/**
 * The schema of events/models.py: Category, Event, Participant, and the store
 * operations the database performs on them (cascade delete, unique email,
 * many-to-many add).
 */
module Models {
  import opened Wrappers
  import opened Dates
  import opened Seqs

  type Id = nat
  type UserId = nat

  datatype Category = Category(id: Id, name: string, description: string)

  /**
   * An event row. `categoryId` is the non-null foreign key to its Category;
   * `date` and `time` are required, `asset` (the image path) may be null;
   * `users` is the event's RSVP relation to users, a set as a many-to-many
   * join table is.
   */
  datatype Event = Event(
    id: Id,
    name: string,
    categoryId: Id,
    description: string,
    date: Date,
    time: Time,
    location: string,
    asset: Option<string>,
    users: set<UserId>)

  /** A participant row with its unique email and its many-to-many events. */
  datatype Participant = Participant(id: Id, name: string, email: string, events: set<Id>)

  /** The three tables. */
  datatype Store = Store(categories: seq<Category>, events: seq<Event>, participants: seq<Participant>)

  // Keys, named so that they can be passed as function values.
  function CategoryKey(c: Category): Id { c.id }
  function EventKey(e: Event): Id { e.id }
  function EventCategory(e: Event): Id { e.categoryId }
  function ParticipantKey(p: Participant): Id { p.id }
  function ParticipantEmail(p: Participant): string { p.email }

  // The `__str__` methods.
  function CategoryStr(c: Category): string { c.name }
  function EventStr(e: Event): string { e.name }
  function ParticipantStr(p: Participant): string { p.name }

  /** Each model prints as its name. */
  lemma StringFormIsName(c: Category, e: Event, p: Participant)
    ensures CategoryStr(c) == c.name && EventStr(e) == e.name && ParticipantStr(p) == p.name
  {
  }

  predicate HasCategory(s: Store, id: Id) {
    exists c :: c in s.categories && c.id == id
  }

  predicate HasEvent(s: Store, id: Id) {
    exists e :: e in s.events && e.id == id
  }

  predicate HasParticipant(s: Store, id: Id) {
    exists p :: p in s.participants && p.id == id
  }

  predicate EmailTaken(s: Store, email: string) {
    exists p :: p in s.participants && p.email == email
  }

  /**
   * The database constraints: primary keys are unique, every event's foreign
   * key names an existing category, participant emails are unique, and every
   * many-to-many row names an existing event.
   */
  ghost predicate WellFormed(s: Store) {
    && UniqueKeys(s.categories, CategoryKey)
    && UniqueKeys(s.events, EventKey)
    && UniqueKeys(s.participants, ParticipantKey)
    && UniqueKeys(s.participants, ParticipantEmail)
    && (forall e :: e in s.events ==> HasCategory(s, e.categoryId))
    && (forall p, id :: p in s.participants && id in p.events ==> HasEvent(s, id))
  }

  /** In a well-formed store every event references exactly one category. */
  lemma EventHasOneCategory(s: Store, e: Event)
    requires WellFormed(s) && e in s.events
    ensures exists k :: 0 <= k < |s.categories| && s.categories[k].id == e.categoryId
    ensures forall k, j ::
              (0 <= k < |s.categories| && 0 <= j < |s.categories|
               && s.categories[k].id == e.categoryId && s.categories[j].id == e.categoryId) ==> k == j
  {

  }

  /** Ids of the events whose foreign key is `cid`. */
  function EventsOfCategory(s: Store, cid: Id): set<Id> {
    set e | e in s.events && e.categoryId == cid :: e.id
  }

  /** Removes the many-to-many rows that point at the events `gone`. */
  function Detach(ps: seq<Participant>, gone: set<Id>): (r: seq<Participant>)
    ensures |r| == |ps|
    ensures forall i :: 0 <= i < |ps| ==> r[i] == ps[i].(events := ps[i].events - gone)
  {
    seq(|ps|, i requires 0 <= i < |ps| => ps[i].(events := ps[i].events - gone))
  }

  /**
   * `category.delete()` with `on_delete=CASCADE`: the category goes, every
   * event referencing it goes, and so do the participant rows' links to those
   * events.
   */
  function DeleteCategory(s: Store, cid: Id): (r: Store)
    ensures forall c :: c in r.categories <==> c in s.categories && c.id != cid
    ensures forall e :: e in r.events <==> e in s.events && e.categoryId != cid
    ensures |r.participants| == |s.participants|
    ensures forall i :: 0 <= i < |s.participants| ==>
              var p, q := s.participants[i], r.participants[i];
              q.id == p.id && q.name == p.name && q.email == p.email
              && (forall id :: id in q.events <==> id in p.events && id !in EventsOfCategory(s, cid))
  {
    Store(
      Without(s.categories, CategoryKey, cid),
      Without(s.events, EventCategory, cid),
      Detach(s.participants, EventsOfCategory(s, cid)))
  }

  /** The cascade leaves a well-formed store well-formed: no event is orphaned. */
  lemma DeleteCategoryPreservesWellFormed(s: Store, cid: Id)
    requires WellFormed(s)
    ensures WellFormed(DeleteCategory(s, cid))
  {
    var r := DeleteCategory(s, cid);
    WithoutKeepsKeysUnique(s.categories, CategoryKey, cid, CategoryKey);
    WithoutKeepsKeysUnique(s.events, EventCategory, cid, EventKey);
    forall e | e in r.events
      ensures HasCategory(r, e.categoryId)
    {
      var c :| c in s.categories && c.id == e.categoryId;
      assert c in r.categories;
    }
    forall p, id | p in r.participants && id in p.events
      ensures HasEvent(r, id)
    {
      var i :| 0 <= i < |r.participants| && r.participants[i] == p;
      var p0 := s.participants[i];
      assert p0 in s.participants;
      assert id in p0.events && id !in EventsOfCategory(s, cid);
      assert HasEvent(s, id);
      var e :| e in s.events && e.id == id;
      assert e.categoryId != cid;
      assert e in r.events;
    }
    assert forall i :: 0 <= i < |r.participants| ==> ParticipantKey(r.participants[i]) == ParticipantKey(s.participants[i]);
    assert forall i :: 0 <= i < |r.participants| ==> ParticipantEmail(r.participants[i]) == ParticipantEmail(s.participants[i]);
  }

  /** Errors the database raises. */
  datatype DbError = UniqueViolation(field: string) | DoesNotExist

  /** The id the database hands out next: larger than every id in use. */
  function NextParticipantId(s: Store): (id: Id)
    ensures forall p :: p in s.participants ==> p.id < id
  {
    MaxKey(s.participants, ParticipantKey) + 1
  }

  /** `Participant.objects.create(name=..., email=...)`; the unique email index rejects a duplicate. */
  function AddParticipant(s: Store, name: string, email: string): (r: Result<Store, DbError>)
    ensures r.Failure? <==> EmailTaken(s, email)
    ensures r.Failure? ==> r.error == UniqueViolation("email")
    ensures r.Success? ==>
              && r.value.categories == s.categories
              && r.value.events == s.events
              && |r.value.participants| == |s.participants| + 1
              && r.value.participants[..|s.participants|] == s.participants
              && var p := r.value.participants[|s.participants|];
                 p.name == name && p.email == email && p.events == {} && !HasParticipant(s, p.id)
  {
    if EmailTaken(s, email) then Failure(UniqueViolation("email"))
    else
      var p := Participant(NextParticipantId(s), name, email, {});
      assert s.participants + [p] == (s.participants + [p])[..|s.participants|] + [p];
      Success(s.(participants := s.participants + [p]))
  }

  /** Inserting a participant keeps every constraint, the unique email in particular. */
  lemma AddParticipantPreservesWellFormed(s: Store, name: string, email: string)
    requires WellFormed(s)
    requires AddParticipant(s, name, email).Success?
    ensures WellFormed(AddParticipant(s, name, email).value)
  {
    var n := |s.participants|;
    var p := Participant(NextParticipantId(s), name, email, {});
    var ps := s.participants + [p];
    assert AddParticipant(s, name, email).value == s.(participants := ps);
    forall i, j | 0 <= i < j < |ps|
      ensures ParticipantKey(ps[i]) != ParticipantKey(ps[j])
      ensures ParticipantEmail(ps[i]) != ParticipantEmail(ps[j])
    {
      assert ps[i] == s.participants[i];
      if j < n {
        assert ps[j] == s.participants[j];
      } else {
        assert s.participants[i] in s.participants;
      }
    }
    var r := s.(participants := ps);
    forall q, id | q in ps && id in q.events
      ensures HasEvent(r, id)
    {
      assert q in s.participants;
      assert HasEvent(s, id);
    }
  }

  /** The participants, with event `eid` added to the links of participant `pid`. */
  function LinkEvent(ps: seq<Participant>, pid: Id, eid: Id): (r: seq<Participant>)
    ensures |r| == |ps|
    ensures forall i :: 0 <= i < |ps| ==>
              r[i] == if ps[i].id == pid then ps[i].(events := ps[i].events + {eid}) else ps[i]
  {
    seq(|ps|, i requires 0 <= i < |ps| =>
      if ps[i].id == pid then ps[i].(events := ps[i].events + {eid}) else ps[i])
  }

  /** `participant.events.add(event)`: both rows must exist; the link set grows by the event. */
  function AddParticipantEvent(s: Store, pid: Id, eid: Id): (r: Result<Store, DbError>)
    ensures r.Failure? <==> !HasParticipant(s, pid) || !HasEvent(s, eid)
    ensures r.Success? ==>
              && r.value.categories == s.categories
              && r.value.events == s.events
              && |r.value.participants| == |s.participants|
              && forall i :: 0 <= i < |s.participants| ==>
                   var p, q := s.participants[i], r.value.participants[i];
                   q.id == p.id && q.name == p.name && q.email == p.email
                   && q.events == (if p.id == pid then p.events + {eid} else p.events)
  {
    if !HasParticipant(s, pid) || !HasEvent(s, eid) then Failure(DoesNotExist)
    else Success(s.(participants := LinkEvent(s.participants, pid, eid)))
  }

  /** Adding the same event twice leaves the store as adding it once. */
  lemma AddParticipantEventIdempotent(s: Store, pid: Id, eid: Id)
    requires AddParticipantEvent(s, pid, eid).Success?
    ensures AddParticipantEvent(AddParticipantEvent(s, pid, eid).value, pid, eid) == AddParticipantEvent(s, pid, eid)
  {
    var r := AddParticipantEvent(s, pid, eid).value;
    var p :| p in s.participants && p.id == pid;
    var i :| 0 <= i < |s.participants| && s.participants[i] == p;
    assert r.participants[i].id == pid;
    assert HasParticipant(r, pid);
    var r2 := AddParticipantEvent(r, pid, eid).value;
    assert r2.participants == r.participants;
  }

  /** Linking an existing participant to an existing event keeps the store well-formed. */
  lemma AddParticipantEventPreservesWellFormed(s: Store, pid: Id, eid: Id)
    requires WellFormed(s)
    requires AddParticipantEvent(s, pid, eid).Success?
    ensures WellFormed(AddParticipantEvent(s, pid, eid).value)
  {
    var r := AddParticipantEvent(s, pid, eid).value;
    assert forall i :: 0 <= i < |r.participants| ==> ParticipantKey(r.participants[i]) == ParticipantKey(s.participants[i]);
    assert forall i :: 0 <= i < |r.participants| ==> ParticipantEmail(r.participants[i]) == ParticipantEmail(s.participants[i]);
    forall q, id | q in r.participants && id in q.events
      ensures HasEvent(r, id)
    {
      var i :| 0 <= i < |r.participants| && r.participants[i] == q;
      var p := s.participants[i];
      assert p in s.participants;
      if id != eid {
        assert id in p.events;
        assert HasEvent(s, id);
      }
    }
  }
}
