/**
 * The create and update views of events/views.py: validating the event form
 * against the model's required fields, saving the row, and maintaining the
 * event's user relation with `add` (create) and `set` (update).
 */
module EventEdits {
  import opened Wrappers
  import opened Dates
  import opened Seqs
  import opened Models
  import opened Text

  /** The users ticked in the form's multiple-choice field, duplicates collapsed. */
  function Selected(users: seq<UserId>): (r: set<UserId>)
    ensures forall u :: u in r <==> u in users
  {
    set u | u in users
  }

  /** `event.user.add(*users)`: the relation gains the users; nothing else changes. */
  function AddUsers(e: Event, users: seq<UserId>): (r: Event)
    ensures forall u :: u in r.users <==> u in e.users || u in users
    ensures r.(users := e.users) == e
  {
    e.(users := e.users + Selected(users))
  }

  /** `event.user.set(users)`: the relation becomes exactly the users; nothing else changes. */
  function SetUsers(e: Event, users: seq<UserId>): (r: Event)
    ensures forall u :: u in r.users <==> u in users
    ensures r.(users := e.users) == e
  {
    e.(users := Selected(users))
  }

  /** Adding the same users again is a no-op. */
  lemma AddUsersIdempotent(e: Event, users: seq<UserId>)
    ensures AddUsers(AddUsers(e, users), users) == AddUsers(e, users)
  {
  }

  /** RSVPing one user twice leaves the relation the size it had after the first RSVP. */
  lemma RsvpTwiceSameSize(e: Event, u: UserId)
    ensures |AddUsers(AddUsers(e, [u]), [u]).users| == |AddUsers(e, [u]).users|
  {

  }

  /** `set` does not depend on the relation it replaces, and repeated users count once. */
  lemma SetUsersReplaces(e1: Event, e2: Event, users: seq<UserId>)
    ensures SetUsers(e1, users).users == SetUsers(e2, users).users
    ensures SetUsers(e1, users + users) == SetUsers(e1, users)
    ensures forall u :: u in e1.users && u !in users ==> u !in SetUsers(e1, users).users
  {

  }

  /**
   * The cleaned values of `EventForm`, in its declared order: text fields
   * already stripped, `asset` the file the form cleaned to (on an update
   * without an upload, the image already stored), `users` the checked users.
   */
  datatype EventForm = EventForm(
    name: string,
    category: Option<Id>,
    description: string,
    date: Option<Date>,
    time: Option<Time>,
    location: string,
    asset: Option<string>,
    users: seq<UserId>)

  /** The form's fields. */
  datatype Field = NameField | CategoryField | DescriptionField | DateField | TimeField
                 | LocationField | AssetField | UserField

  /** A form error attached to one field. */
  datatype FieldError = Required(field: Field) | InvalidChoice(field: Field) | NullCharacters(field: Field)

  /** Error `x` is what a required text field with value `v` reports: empty, or holding a null character. */
  predicate TextFault(v: string, field: Field, x: FieldError) {
    || (x == Required(field) && v == "")
    || (x == NullCharacters(field) && v != "" && HasNull(v))
  }

  /** Error `x` is what the category field reports: missing, or naming no category. */
  predicate CategoryFault(s: Store, c: Option<Id>, x: FieldError) {
    || (x == Required(CategoryField) && c.None?)
    || (x == InvalidChoice(CategoryField) && c.Some? && !HasCategory(s, c.value))
  }

  /** Error `x` is one the form reports, for a field that is actually at fault. */
  predicate Reported(s: Store, f: EventForm, x: FieldError) {
    || TextFault(f.name, NameField, x)
    || CategoryFault(s, f.category, x)
    || TextFault(f.description, DescriptionField, x)
    || (x == Required(DateField) && f.date.None?)
    || (x == Required(TimeField) && f.time.None?)
    || TextFault(f.location, LocationField, x)
  }

  /** Every error the form can report, in the order of its fields. */
  const Candidates: seq<FieldError> := [
    Required(NameField), NullCharacters(NameField),
    Required(CategoryField), InvalidChoice(CategoryField),
    Required(DescriptionField), NullCharacters(DescriptionField),
    Required(DateField), Required(TimeField),
    Required(LocationField), NullCharacters(LocationField)]

  /** The errors of `cs` that the form reports, in the order of `cs`. */
  function ReportedAmong(s: Store, f: EventForm, cs: seq<FieldError>): seq<FieldError> {
    if |cs| == 0 then []
    else (if Reported(s, f, cs[0]) then [cs[0]] else []) + ReportedAmong(s, f, cs[1..])
  }

  /** Filtering keeps exactly the reported candidates. */
  lemma {:induction false} ReportedAmongMeaning(s: Store, f: EventForm, cs: seq<FieldError>, x: FieldError)
    ensures x in ReportedAmong(s, f, cs) <==> x in cs && Reported(s, f, x)
  {
    if |cs| > 0 {
      ReportedAmongMeaning(s, f, cs[1..], x);
      assert cs == [cs[0]] + cs[1..];
    }
  }

  /** The field errors in the order of the form's fields. */
  function FieldErrors(s: Store, f: EventForm): seq<FieldError> {
    ReportedAmong(s, f, Candidates)
  }

  /** An error is in the list exactly when the form reports it. */
  lemma FieldErrorsReported(s: Store, f: EventForm, x: FieldError)
    ensures x in FieldErrors(s, f) <==> Reported(s, f, x)
  {
    ReportedAmongMeaning(s, f, Candidates, x);
  }

  /** A text field's two errors are listed exactly when it is empty, or holds a null character. */
  lemma TextFieldListed(s: Store, f: EventForm, field: Field, v: string)
    requires || (field == NameField && v == f.name)
             || (field == DescriptionField && v == f.description)
             || (field == LocationField && v == f.location)
    ensures Required(field) in FieldErrors(s, f) <==> v == ""
    ensures NullCharacters(field) in FieldErrors(s, f) <==> v != "" && HasNull(v)
  {
    FieldErrorsReported(s, f, Required(field));
    FieldErrorsReported(s, f, NullCharacters(field));
  }

  /** The category, date and time errors are listed exactly when those fields are at fault. */
  lemma OtherFieldsListed(s: Store, f: EventForm)
    ensures Required(CategoryField) in FieldErrors(s, f) <==> f.category.None?
    ensures InvalidChoice(CategoryField) in FieldErrors(s, f) <==> f.category.Some? && !HasCategory(s, f.category.value)
    ensures Required(DateField) in FieldErrors(s, f) <==> f.date.None?
    ensures Required(TimeField) in FieldErrors(s, f) <==> f.time.None?
  {
    FieldErrorsReported(s, f, Required(CategoryField));
    FieldErrorsReported(s, f, InvalidChoice(CategoryField));
    FieldErrorsReported(s, f, Required(DateField));
    FieldErrorsReported(s, f, Required(TimeField));
  }

  /**
   * The form's field errors: every model field without `blank=True` is
   * required, a non-empty text field must hold no null character, and the
   * category must be an existing one. `asset` and `user` are optional.
   * Exactly the faults of the form are reported.
   */
  function FormErrors(s: Store, f: EventForm): (errs: seq<FieldError>)
    ensures Required(NameField) in errs <==> f.name == ""
    ensures NullCharacters(NameField) in errs <==> f.name != "" && HasNull(f.name)
    ensures Required(CategoryField) in errs <==> f.category.None?
    ensures InvalidChoice(CategoryField) in errs <==> f.category.Some? && !HasCategory(s, f.category.value)
    ensures Required(DescriptionField) in errs <==> f.description == ""
    ensures NullCharacters(DescriptionField) in errs <==> f.description != "" && HasNull(f.description)
    ensures Required(DateField) in errs <==> f.date.None?
    ensures Required(TimeField) in errs <==> f.time.None?
    ensures Required(LocationField) in errs <==> f.location == ""
    ensures NullCharacters(LocationField) in errs <==> f.location != "" && HasNull(f.location)
    ensures forall x :: x in errs ==> Reported(s, f, x)
    ensures errs == [] <==> f.name != "" && f.description != "" && f.location != ""
                            && !HasNull(f.name) && !HasNull(f.description) && !HasNull(f.location)
                            && f.category.Some? && HasCategory(s, f.category.value)
                            && f.date.Some? && f.time.Some?
  {
    var errs := FieldErrors(s, f);
    TextFieldListed(s, f, NameField, f.name);
    TextFieldListed(s, f, DescriptionField, f.description);
    TextFieldListed(s, f, LocationField, f.location);
    OtherFieldsListed(s, f);
    forall x | x in errs
      ensures Reported(s, f, x)
    {
      FieldErrorsReported(s, f, x);
    }
    assert errs != [] ==> errs[0] in errs;
    errs
  }

  /** The row `form.save()` writes, its user links included. */
  function FromForm(id: Id, f: EventForm): Event
    requires f.category.Some? && f.date.Some? && f.time.Some?
  {
    Event(id, f.name, f.category.value, f.description, f.date.value, f.time.value,
          f.location, f.asset, Selected(f.users))
  }

  /** True when `e` holds exactly what the form submitted. */
  ghost predicate Saved(e: Event, f: EventForm) {
    && e.name == f.name
    && f.category == Some(e.categoryId)
    && e.description == f.description
    && f.date == Some(e.date)
    && f.time == Some(e.time)
    && e.location == f.location
    && e.asset == f.asset
    && (forall u :: u in e.users <==> u in f.users)
  }

  function NextEventId(s: Store): (id: Id)
    ensures forall e :: e in s.events ==> e.id < id
  {
    MaxKey(s.events, EventKey) + 1
  }

  /**
   * `EventCreateView.form_valid`: an invalid form is re-displayed with its
   * errors; a valid one is saved under a fresh id and then `user.add` is
   * called with the selected users.
   */
  function CreateEvent(s: Store, f: EventForm): (r: Result<Store, seq<FieldError>>)
    ensures r.Failure? <==> FormErrors(s, f) != []
    ensures r.Failure? ==> r.error == FormErrors(s, f)
    ensures r.Success? ==>
              && r.value.categories == s.categories
              && r.value.participants == s.participants
              && |r.value.events| == |s.events| + 1
              && r.value.events[..|s.events|] == s.events
              && Saved(r.value.events[|s.events|], f)
              && !HasEvent(s, r.value.events[|s.events|].id)
  {
    var errs := FormErrors(s, f);
    if errs != [] then Failure(errs)
    else
      var e := AddUsers(FromForm(NextEventId(s), f), f.users);
      assert (s.events + [e])[..|s.events|] == s.events;
      Success(s.(events := s.events + [e]))
  }

  datatype UpdateError = NotFound | Invalid(errors: seq<FieldError>)

  /**
   * `EventUpdateView.form_valid` for the event `id`: a missing event is a 404;
   * a valid form overwrites the row, then `user.set` replaces its users.
   */
  function UpdateEvent(s: Store, id: Id, f: EventForm): (r: Result<Store, UpdateError>)
    ensures r == Failure(NotFound) <==> !HasEvent(s, id)
    ensures r.Failure? && r.error.Invalid? <==> HasEvent(s, id) && FormErrors(s, f) != []
    ensures r.Failure? && r.error.Invalid? ==> r.error.errors == FormErrors(s, f)
    ensures r.Success? ==>
              && r.value.categories == s.categories
              && r.value.participants == s.participants
              && |r.value.events| == |s.events|
              && forall i :: 0 <= i < |s.events| ==>
                   if s.events[i].id == id
                   then r.value.events[i].id == id && Saved(r.value.events[i], f)
                   else r.value.events[i] == s.events[i]
  {
    if !HasEvent(s, id) then Failure(NotFound)
    else
      var errs := FormErrors(s, f);
      if errs != [] then Failure(Invalid(errs))
      else
        var e := SetUsers(FromForm(id, f), f.users);
        Success(s.(events := seq(|s.events|, i requires 0 <= i < |s.events| =>
                                   if s.events[i].id == id then e else s.events[i])))
  }

  /** Appending an event with a fresh id and an existing category keeps the store consistent. */
  lemma AppendEventPreservesWellFormed(s: Store, e: Event)
    requires WellFormed(s)
    requires HasCategory(s, e.categoryId) && !HasEvent(s, e.id)
    ensures WellFormed(s.(events := s.events + [e]))
  {
    var r := s.(events := s.events + [e]);
    var n := |s.events|;
    forall i, j | 0 <= i < j < |r.events|
      ensures EventKey(r.events[i]) != EventKey(r.events[j])
    {
      assert r.events[i] == s.events[i];
      if j < n {
        assert r.events[j] == s.events[j];
      } else {
        assert s.events[i] in s.events;
      }
    }
    forall x | x in r.events
      ensures HasCategory(r, x.categoryId)
    {
      if x != e {
        assert x in s.events;
        assert HasCategory(s, x.categoryId);
      }
    }
    forall p, id | p in r.participants && id in p.events
      ensures HasEvent(r, id)
    {
      assert HasEvent(s, id);
      var x :| x in s.events && x.id == id;
      assert x in r.events;
    }
  }

  /** Creating an event from a valid form keeps the store well-formed. */
  lemma CreateEventPreservesWellFormed(s: Store, f: EventForm)
    requires WellFormed(s)
    requires CreateEvent(s, f).Success?
    ensures WellFormed(CreateEvent(s, f).value)
  {
    var r := CreateEvent(s, f).value;
    var e := r.events[|s.events|];
    assert r == s.(events := s.events + [e]);
    assert HasCategory(s, e.categoryId);
    AppendEventPreservesWellFormed(s, e);
  }


  /** Updating an event from a valid form keeps the store well-formed. */
  lemma UpdateEventPreservesWellFormed(s: Store, id: Id, f: EventForm)
    requires WellFormed(s)
    requires UpdateEvent(s, id, f).Success?
    ensures WellFormed(UpdateEvent(s, id, f).value)
  {
    var r := UpdateEvent(s, id, f).value;
    assert forall i :: 0 <= i < |r.events| ==> EventKey(r.events[i]) == EventKey(s.events[i]);
    forall x | x in r.events
      ensures HasCategory(r, x.categoryId)
    {
      var i :| 0 <= i < |r.events| && r.events[i] == x;
      if s.events[i].id != id {
        assert s.events[i] in s.events;
        assert HasCategory(s, x.categoryId);
      }
    }
    forall p, eid | p in r.participants && eid in p.events
      ensures HasEvent(r, eid)
    {
      assert HasEvent(s, eid);
      var x :| x in s.events && x.id == eid;
      var i :| 0 <= i < |s.events| && s.events[i] == x;
      assert r.events[i].id == eid;
      assert r.events[i] in r.events;
    }
  }
}
