# Event management: the filter builder, the registration validator, the entity model and the last-login label

This project models the logic of a small Django event-management application and proves properties of that model.

- **The event listing** (`events` in events/views.py and its copy `home` in core/views.py). The GET parameters `type`, `name`, `category`, `date_from` and `date_to` become a chain of ORM lookups (`Query.Lookup`) over the event table. Chained `.filter()` calls combine by AND. `icontains` is ASCII lower-casing followed by a substring search. `date__range` is inclusive, as SQL `BETWEEN` is. `Count('user')` is the size of the event's user set. The view returns the filtered list, a sidebar list of the events after today, and the echoed parameters.
- **The registration form** (`CustomRegistrationForm` in users/forms.py). It covers the email-uniqueness check, the password policy and the confirm-password rule. It also covers the order in which Django's form runs them:
  - each `CharField` strips its value, then rejects an empty value as required, then rejects a value holding a null character (U+0000);
  - `clean_<field>` runs only for a field that cleaned;
  - `clean()` sees only the values that cleaned.
- **The entities** of events/models.py (Category, Event, Participant) in one `Models.Store`. The model covers:
  - the cascading delete of a category's events, including the participant links to them;
  - the unique participant email;
  - the event's user relation, a set that creation extends (`user.add`) and update replaces (`user.set`).
- **The `humanised_date` filter** of users/templatetags/custom_filters.py. It gives a tagged label: no login, today, yesterday, or time only.

The current date is a parameter wherever the source reads the clock. Timestamps arrive already converted to local time.

Modules:
- `Wrappers` holds `Option` and `Result`.
- `Seqs` holds generic sequence helpers.
- `Dates` holds the calendar: validity, `date.replace(day=…)` and the previous day.
- `Text` holds ASCII lower-casing, substring search and `str.strip()`.
- `Models`, `EventEdits`, `Query`, `EventsView`, `CoreViews`, `Registration` and `Humanise` follow the source files.

events/models.py declares no `user` field on `Event`, while the views (`prefetch_related('user')`, `Count('user')`, `self.object.user.add/set`) and `EventForm.Meta.fields` use it. The model follows the views: an `Event` carries `users: set<UserId>`. The separate `Participant` table that models.py does declare is modelled as well.

## Model

| member | source | states |
|---|---|---|
| Text.Lower | events/views.py:41 | ASCII lower-casing keeps the length and folds each character on its own, touching only A–Z |
| Text.IContainsMeaning | events/views.py:41 | `icontains` holds exactly when the lower-cased needle occurs at some position of the lower-cased text |
| Text.IContainsEmpty | events/views.py:40-41 | the empty needle is contained in every text, so only a truthy `name` is worth filtering on |
| Text.IContainsExampleMatch | events/views.py:41 | "conf" matches "Annual Conference" regardless of case |
| Text.IContainsExampleMiss | events/views.py:41 | "conf" does not match "Workshop" |
| Text.Strip | users/forms.py:8-20 | the stripped value has no whitespace at either end and is what remains of the input once only whitespace is cut off both ends |
| Text.StripIdempotent | users/forms.py:8-20 | stripping an already stripped value changes nothing |
| Dates.ReplaceDay | users/templatetags/custom_filters.py:15 | `date.replace(day=n)` keeps year and month and succeeds exactly when the resulting date exists, raising otherwise (day 0 included) |
| Dates.PreviousDay | users/templatetags/custom_filters.py:15 | the calendar day before a date is valid, earlier, and has no valid date strictly between it and the date; only the first representable date has none |
| Query.Select | events/views.py:21-53 | the filtered list is no longer than the table, and an event is in it exactly when it is in the table and satisfies every lookup |
| Query.SelectNothing | events/views.py:21 | no lookup keeps the whole table in order |
| Query.SelectNoneMatch | events/views.py:48-49 | when no event satisfies the lookups the list is empty |
| Query.SelectSelect | events/views.py:26-53 | filtering by `a` and then by `b` gives the same list as filtering once by the lookups of `a` followed by those of `b` |
| Query.ChainIsSelect | events/views.py:21-53 | applying the lookups as successive `.filter()` calls gives the same list as one pass keeping the events that satisfy all of them |
| Query.Annotate | events/views.py:56 | annotation keeps each event in place and attaches the size of its user set as `participant_count` |
| Query.EventsOfAnnotate | events/views.py:56 | annotating does not change which events are listed or their order |
| EventsView.Events | events/views.py:14-73 | the context echoes `type` (default `all`), `name` and `category` (default empty) and the dates; every listed event comes from the store with its user count; every sidebar event is after today |
| EventsView.TypeLookupsMeaning | events/views.py:24-31 | the `type` lookup admits dates after today for `upcoming`, before today for `recent`, equal to today for `today`, and every date otherwise |
| EventsView.SearchLookupsMeaning | events/views.py:34-53 | the search lookups admit an event exactly when its name contains a non-empty `name`, its category's name contains a non-empty `category`, and its date lies within each given bound |
| EventsView.LookupsMeanMatches | events/views.py:21-53 | the whole lookup chain admits an event exactly when it passes every filter the request switches on, combined by AND |
| EventsView.EventsAreMatches | events/views.py:21-56 | the listed events are the table filtered by the chain, and an event is listed exactly when it is in the table and matches the request |
| EventsView.ParticipantCounts | events/views.py:56 | every listed event carries the size of its user set as its participant count |
| EventsView.UpEventsIgnoreFilters | events/views.py:59-61 | the sidebar is the same for every request and holds exactly the events dated after today |
| EventsView.TypeOnly | events/views.py:24-31 | `type=upcoming`, `recent` and `today` alone keep exactly the events after, before and on today; any other value lists the whole table |
| EventsView.NameOnly | events/views.py:34-41 | a non-empty `name` alone lists exactly the events whose name contains it case-insensitively |
| EventsView.CategoryOnly | events/views.py:35-45 | a non-empty `category` alone lists exactly the events whose category's name contains it case-insensitively |
| EventsView.EmptyTextIsAbsent | events/views.py:40-45 | an empty `name` or `category` filters exactly as an absent one |
| EventsView.DateRangePrecedence | events/views.py:48-53 | both bounds give the closed interval, `date_from` alone gives date ≥ from, `date_to` alone gives date ≤ to, neither gives no constraint |
| EventsView.TechTalkExample | events/views.py:26-45 | on 2024-03-05, `type=upcoming&category=tech` over a past and a future Tech event lists only the future one, with its one participant |
| CoreViews.Home | core/views.py:7-65 | the context echoes `type` (default `all`), `name` and `category` (default empty) and both dates unchanged |
| CoreViews.ByTypeIsSelect | core/views.py:17-24 | the type filter, applied branch by branch, is one pass over the lookups `events` builds for `type` |
| CoreViews.ByDateIsSelect | core/views.py:40-46 | the date filter, applied branch by branch, is one pass over the date lookup `events` builds |
| CoreViews.FiltersAreOnePass | core/views.py:16-46 | the type, name, category and date filters applied one after another list exactly what one pass over all of `events`' lookups lists, in order |
| CoreViews.HomeListingIsChain | core/views.py:14-46 | `home`'s own filter sequence gives the same list as the lookup chain of `events` |
| CoreViews.HomeAgreesWithEvents | core/views.py:7-54 | for the same store, day and request, `home` returns the same lists and context as `events` |
| CoreViews.NoParametersListsEverything | core/views.py:17-30 | a request with no parameters lists every event, in table order |
| CoreViews.RangeBoundsInclusive | core/views.py:41-42 | for a request giving only both bounds with `date_from` ≤ `date_to`, an event dated exactly `date_from` or exactly `date_to` is listed |
| CoreViews.InvertedRangeIsEmpty | core/views.py:41-42 | with both bounds given and `date_from` after `date_to`, nothing is listed, whatever the other parameters |
| CoreViews.EventsInvertedRangeIsEmpty | events/views.py:48-49 | in the `events` view, both bounds with `date_from` after `date_to` list nothing, whatever the other parameters |
| CoreViews.EventsUpcomingUntil | events/views.py:24-53 | in the `events` view, `type=upcoming` with only `date_to` lists exactly the events with today < date ≤ date_to |
| CoreViews.UpcomingUntil | core/views.py:19-46 | `type=upcoming` with only `date_to` lists exactly the events with today < date ≤ date_to |
| Models.StringFormIsName | events/models.py:8-31 | the string form of a category, an event and a participant is its name |
| Models.EventHasOneCategory | events/models.py:13 | in a consistent store every event's category exists, and exactly one category row carries that id |
| Models.DeleteCategory | events/models.py:13 | deleting a category removes that category and exactly the events referencing it, keeps all other rows, and unlinks participants from the removed events only |
| Models.DeleteCategoryPreservesWellFormed | events/models.py:13-28 | the cascading delete leaves a consistent store: unique keys and emails, and no dangling category or event reference |
| Models.NextParticipantId | events/models.py:25 | the new participant's id is larger than every existing one |
| Models.AddParticipant | events/models.py:25-28 | an insert is rejected with a unique-violation on `email` exactly when the email is taken; otherwise it appends one participant with a fresh id and no events, and nothing else changes |
| Models.AddParticipantPreservesWellFormed | events/models.py:25-28 | a successful insert keeps the store consistent, emails still unique |
| Models.AddParticipantEvent | events/models.py:28 | linking fails exactly when the participant or the event does not exist; otherwise that participant's events gain the event and nothing else changes |
| Models.AddParticipantEventIdempotent | events/models.py:28 | adding the same event to a participant twice gives the same store as adding it once |
| Models.AddParticipantEventPreservesWellFormed | events/models.py:28 | linking an existing participant to an existing event keeps the store consistent |
| EventEdits.AddUsers | events/views.py:95 | `user.add` makes the user set the union of the old set and the submitted users and changes no other field |
| EventEdits.SetUsers | events/views.py:109 | `user.set` makes the user set exactly the submitted users and changes no other field |
| EventEdits.AddUsersIdempotent | events/views.py:95 | adding the same users twice is adding them once |
| EventEdits.RsvpTwiceSameSize | events/views.py:95 | adding one user twice leaves the relation the size it had after adding it once |
| EventEdits.SetUsersReplaces | events/views.py:109 | the set after `user.set` does not depend on the old set; a repeated submission collapses; an unlisted old user is removed |
| EventEdits.FieldErrorsReported | events/models.py:12-17 | an error is in the form's list exactly when the form reports it for a field at fault |
| EventEdits.TextFieldListed | events/models.py:12-17 | the name, description and location fields report Required exactly when empty, and the null-character error exactly when non-empty and holding U+0000 |
| EventEdits.OtherFieldsListed | events/models.py:13-16 | the category reports Required exactly when missing and an invalid choice exactly when unknown; date and time report Required exactly when missing |
| EventEdits.FormErrors | events/models.py:12-18 | each required field (name, category, description, date, time, location) reports Required exactly when missing, each text field reports "Null characters are not allowed." exactly when non-empty and holding U+0000, an unknown category reports an invalid choice, no other error is ever reported, and the form is clean exactly when nothing required is missing, no text holds U+0000 and the category exists |
| EventEdits.NextEventId | events/models.py:11 | the new event's id is larger than every existing one |
| EventEdits.CreateEvent | events/views.py:93-95 | an invalid form is rejected with its errors; a valid one appends one event with a fresh id holding the submitted fields and exactly the submitted users, and nothing else changes |
| EventEdits.UpdateEvent | events/views.py:107-109 | a missing event is not found; an invalid form is rejected with its errors; otherwise only the event with that id is replaced by the submitted fields with exactly the submitted users |
| EventEdits.AppendEventPreservesWellFormed | events/models.py:11-13 | saving a new event row with a fresh id and an existing category keeps every key unique and every reference resolving |
| EventEdits.CreateEventPreservesWellFormed | events/views.py:93-95 | a successful creation keeps the store consistent |
| EventEdits.UpdateEventPreservesWellFormed | events/views.py:107-109 | a successful update keeps the store consistent |
| Registration.Search | users/forms.py:61-71 | `re.search` with a one-character class succeeds exactly when some character of the password is in the class |
| Registration.FailedChecksMeaning | users/forms.py:56-71 | running a list of checks keeps exactly the failed checks; when the checks are in rank order, so are the kept ones |
| Registration.PasswordErrors | users/forms.py:56-71 | the length error appears exactly when the password has fewer than 8 characters, each class error exactly when the class (A–Z, a–z, 0–9, `@#$%^&+=`) is absent, and the errors come in the order length, upper, lower, digit, special |
| Registration.CleanPassword | users/forms.py:54-76 | the password is accepted exactly when it meets the whole policy and is then returned unchanged; otherwise all its errors are raised together |
| Registration.ShortPasswordCollectsEverything | users/forms.py:56-74 | "abc" reports the length, upper-case, digit and special-character errors together, in that order |
| Registration.AllButLowercase | users/forms.py:56-74 | a password failing every check but the lower-case one reports exactly the other four errors, in order |
| Registration.CleanEmail | users/forms.py:45-52 | an email is rejected exactly when an existing user has exactly that email; otherwise it is returned unchanged |
| Registration.PasswordsMismatch | users/forms.py:83-86 | the mismatch error is raised exactly when both values are present, non-empty and different |
| Registration.PasswordField | users/forms.py:54-76 | the required password field cleans exactly when the password meets the policy and holds no U+0000, returning it unchanged; an empty one reports "This field is required.", one holding U+0000 reports "Null characters are not allowed." without `clean_password` running, any other failing one every policy message |
| Registration.ConfirmField | users/forms.py:15-20 | the required confirmation cleans exactly when it is non-empty and holds no U+0000, returning it unchanged; otherwise it reports "This field is required." when empty and "Null characters are not allowed." when holding U+0000 |
| Registration.ValidateStripped | users/forms.py:45-88 | on already-stripped values: valid exactly when the email is new, the password meets the policy and holds no U+0000, and the confirmation is non-empty and equal to it, yielding those values; otherwise each field's error list is exactly the one its own checks produce, and the mismatch message appears exactly when both password fields cleaned and the two differ, in which case neither password field has an error |
| Registration.NullPasswordRejected | users/forms.py:8-20 | a password and confirmation holding U+0000 make the form invalid, each field reporting only "Null characters are not allowed.", with no mismatch error |
| Registration.Validate | users/forms.py:45-88 | the form is valid exactly when the stripped email is new, the stripped password meets the policy and holds no U+0000, and the stripped confirmation is non-empty and equal to it; a valid form yields the stripped values; an invalid one reports "Email already exists" exactly for a taken email, "This field is required.", "Null characters are not allowed." or every policy message for the password, "This field is required." or "Null characters are not allowed." for the confirmation, and the mismatch message exactly when both password fields cleaned and the two differ |
| Humanise.ToClock | users/templatetags/custom_filters.py:14-18 | `%I:%M %p` shows an hour from 1 to 12, the same minutes, and PM exactly from noon on |
| Humanise.ClockRoundTrip | users/templatetags/custom_filters.py:14-18 | the 12-hour reading determines the time it came from |
| Humanise.HumanisedDate | users/templatetags/custom_filters.py:8-19 | exactly a missing value gives "No Login Information"; today's date gives Today; on the first of a month any other date raises; otherwise Yesterday exactly for the same month's previous day and the time alone for every other date, each label carrying the login's time |
| Humanise.FirstOfMonthRaises | users/templatetags/custom_filters.py:15 | on 2024-03-01 a login from 2024-02-29, the previous calendar day, raises |
| Humanise.PreviousMonthEndNeverYesterday | users/templatetags/custom_filters.py:15 | on the first of a month no login is ever labelled Yesterday |
| Humanise.HumanisedDateFixed | users/templatetags/custom_filters.py:8-19 | the corrected filter never raises: exactly a missing value gives "No Login Information", today gives Today, the calendar day before today gives Yesterday (month and year boundaries included), and every other date the time alone |
| Humanise.FixedAgreesAwayFromMonthStart | users/templatetags/custom_filters.py:15 | from the second of a month on, the filter as written and the corrected one give the same label |
| Humanise.FixedNamesPreviousMonthEnd | users/templatetags/custom_filters.py:15 | on 2024-03-01 the corrected filter labels a login from 2024-02-29 Yesterday |

## Left out

- EventEdits.FormErrors: user ids are assumed to name existing users (the `user` field's invalid-choice error is not modelled), and dates and times that do not parse ("Enter a valid date/time.") are not modelled, because the form is given already-parsed values.
- Template rendering, `messages`, `reverse_lazy`, redirects, `get_object_or_404`, the login and permission decorators and `DetailsView` are framework plumbing with no logic of their own.
- `timezone.now()`, `datetime.now()` and `timezone.localtime` read the clock and the configured zone. Today is a parameter and timestamps arrive local. The difference between the server's local date (`datetime.now()`) and Django's current time zone is not modelled.
- Humanise.HumanisedDate: returns a tagged label with the time. It does not produce the strings "Today at : …" and "Yesterday at …". `strftime('%I:%M %p')` is modelled only as the 12-hour reading (`ToClock`), not as zero-padded text.
- `icontains` folds ASCII letters only. Database collations and Unicode case folding are not modelled.
- Malformed `date_from`/`date_to` strings are parsed by the ORM. The model takes the dates already parsed, with an empty string treated as absent.
- `select_related` and `prefetch_related` only affect how rows are fetched, so they are not modelled. Image uploads and the asset file are not modelled either; the asset is an optional reference.
- Database ids are modelled as one more than the largest existing id. Real auto-increment never reuses an id, but that only matters after deletions.
- `max_length` limits and email-format validation (`EmailField`) are not modelled.
- Registration.Validate: the email field's own validators (format and null characters) are not modelled, so a malformed email or one holding U+0000 is not rejected; only its uniqueness is checked.
- Registration.ValidateStripped: the email field's format and null-character validators are not modelled, as for Registration.Validate.
- The `username`, `first_name` and `last_name` fields of the registration form are not modelled: `username`'s own uniqueness and character checks belong to Django's `User` model, and the names have no checks.
- `LoginForm`, `AssignRoleForm` and `CreateGroupForm` are widget and choice-field configuration with no checks of their own.
- The event form's `user` field is treated as optional. events/models.py as it stands declares no `user` field, so whether it may be blank cannot be read from the source.
- The event form is given by its cleaned values: text fields already stripped, and `asset` the file the form cleaned to, which on an update without an upload is the image already stored. The stripping itself and the `FileField` cleaning that keeps the stored image are not modelled.
- users/views.py, the URL configurations, users/models.py and tailwind.config.js are not part of this model. events/urls.py imports view names that events/views.py does not define.
- Ordering of the listing follows table order. The views set no `order_by`, and a database's default order is unspecified.

## Findings

| source | as written | input that shows it | evidently intended | confidence | as-written member | corrected member |
|---|---|---|---|---|---|---|
| users/templatetags/custom_filters.py:15 | the previous day is computed as `today.replace(day=today.day - 1)` | today = 2024-03-01, last login 2024-02-29 21:30: `replace(day=0)` raises `ValueError` and the page fails | the calendar day before today (`today - timedelta(days=1)`), so the login reads "Yesterday at 09:30 PM" | not executed | Humanise.FirstOfMonthRaises | Humanise.HumanisedDateFixed |
