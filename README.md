# SnapEvent client logic in Dafny

SnapEvent is a web application in which a signed-in user creates events,
shares a QR code that links to an upload page, and lets guests post photos
and messages to a gallery. Almost all of it is markup and calls into a hosted
authentication and document service. This project models the three pieces of
decidable client logic that sit in the event pages and the registration page,
and proves what they promise:

- **The events list** (`EventsList`, with `Text` and `Seqs`): the loaded
  events are narrowed by a search term, matched case-insensitively as a
  substring of the title, description or location, and by a type selector
  that is either `"all"` or an exact event type. The selector offers the
  distinct event types in the order they first occur.
- **Event creation** (`CreateEvent`): the form schema (four non-empty text
  fields and a closed list of nine event types), the custom-type field shown
  for `"Other"`, the document written for the signed-in user (the form data,
  the type to save, the creation time and the owner's id), and the submit
  handler's steps around the write.
- **Registration** (`Register`): the ordered password checks, each of which
  sets its own error and stops, and the account-creation attempt with its
  loading flag, error line and navigation.

Backend calls are not modelled as calls. The document write, account creation
and profile update are abstract outcomes passed to the handlers
(`WriteOutcome`, `AuthOutcome`). The current time and the signed-in user's id
are parameters. The two page classes keep a ghost log, `effects`, of the
steps of the submit and register handlers: the loading and error updates, the
event id, backend requests and navigation. Each handler is proved to append exactly the steps
given by a pure trace function (`SubmitTrace`, `RegisterTrace`), and the
lemmas about those functions state the ordering and error properties. On the
registration page, the final `error` and `isLoading` are also proved to be
the replay (`Replay`) of that trace from the values before the call.

The custom type, and with it the stored `eventType` for `"Other"`, is an
`Option<string>`. While `"Other"` is selected the custom input is shown and
registered, so its value is the typed text, which may be empty (`Some("")`).
It is absent (`None`) only if the field was never shown; the schema marks it
optional and does not require it. `Option<string>` covers both. The owner
field is `userId`, as the code writes it.

## Model

| member | source | states |
|---|---|---|
| `Text.Lower` | app/events/page.tsx:140-142 | `toLowerCase` keeps the length and lower-cases each character (ASCII letters only), position by position |
| `Text.LowerIdempotent` | app/events/page.tsx:140-142 | lower-casing an already lower-cased string changes nothing |
| `Text.LowerOfUpper` | app/events/page.tsx:140-142 | upper-casing a string first does not change its lower-cased form |
| `Text.IncludesIff` | app/events/page.tsx:140-142 | `includes` is true exactly when the needle occurs at some position of the haystack (both directions) |
| `Seqs.Filter` | app/events/page.tsx:139 | `filter` keeps exactly the elements that satisfy the predicate and never returns more elements than it was given |
| `Seqs.FilterCounts` | app/events/page.tsx:139 | `filter` keeps every occurrence of a value that passes and none of a value that fails: the count of each value is its count in the input or zero |
| `Seqs.FilterIsSubsequence` | app/events/page.tsx:139 | a filtered array is an order-preserving subsequence of the original |
| `Seqs.FilterConcat` | app/events/page.tsx:139 | filtering a concatenation is the concatenation of the filtered parts |
| `Seqs.FilterFilter` | app/events/page.tsx:139 | filtering by one predicate and then by another equals filtering once by their conjunction |
| `Seqs.Distinct` | app/events/page.tsx:200 | `Array.from(new Set(xs))` holds exactly the values of `xs`, each of them once |
| `Seqs.DistinctFirstOccurrenceOrder` | app/events/page.tsx:200 | the values of `Array.from(new Set(xs))` come in the order of their first occurrences in `xs` |
| `EventsList.EventTypesOf` | app/events/page.tsx:200 | `events.map(e => e.eventType)` has one entry per event, each being that event's type |
| `EventsList.MatchesSearch` | app/events/page.tsx:140-142 | the search condition holds iff the lower-cased term occurs at some position of the lower-cased title, description or location |
| `EventsList.Keeps` | app/events/page.tsx:139-146 | the filter callback is true iff (the type filter is `"all"` or equals the event's type) and (the lower-cased term occurs in the lower-cased title, description or location) |
| `EventsList.FilteredEvents` | app/events/page.tsx:139-146 | the shown list is an order-preserving subsequence of the loaded events, no longer than them, and an event is in it iff it was loaded and passes `Keeps` |
| `EventsList.KeptIff` | app/events/page.tsx:139-146 | an event is shown iff it was loaded, the term occurs case-insensitively in its title, description or location, and the selector is `"all"` or its type |
| `EventsList.EmptySearchShowsAll` | app/events/page.tsx:38-39 | with the initial empty term and the `"all"` selector, every event is shown, in order, because the empty string occurs in every string |
| `EventsList.CaseInsensitive` | app/events/page.tsx:140-142 | two search terms that differ only in letter case give the same list |
| `EventsList.UpperOrLowerTermSameResult` | app/events/page.tsx:140-142 | typing the term in capitals or in small letters gives the same list as the term itself |
| `EventsList.SearchThenType` | app/events/page.tsx:144-145 | a search-only filter followed by a type-only filter gives the combined list |
| `EventsList.TypeThenSearch` | app/events/page.tsx:144-145 | a type-only filter followed by a search-only filter gives the combined list too |
| `EventsList.FilterIdempotent` | app/events/page.tsx:139-146 | filtering the shown list again with the same term and selector changes nothing |
| `EventsList.FilterSplits` | app/events/page.tsx:139-146 | the filter decides event by event: the list shown for two concatenated batches is the concatenation of the lists shown for each |
| `EventsList.TypeOptions` | app/events/page.tsx:200 | the selector's options are exactly the values among the events' types, with no value twice |
| `EventsList.TypeOptionsSpec` | app/events/page.tsx:200 | the type options are exactly the types of the loaded events, without duplicates, in first-occurrence order |
| `EventsList.SelectedTypeShowsThatType` | app/events/page.tsx:145 | a non-`"all"` type taken from the options shows only events of that type, and at least one of them when the term is empty |
| `CreateEvent.ParseEventType` | app/create-event/page.tsx:30 | the enum check accepts a string iff it is the label of one of the types, and returns that type |
| `CreateEvent.EventTypesComplete` | app/create-event/page.tsx:13-23 | the list `EventTypes` has nine entries and contains every type, the texts given by `Label` are pairwise different, and parsing a label gives its type back |
| `CreateEvent.ShowCustomType` | app/create-event/page.tsx:66 | the custom-type field is shown iff the selected value parses as `"Other"` |
| `CreateEvent.InitialFormHidesCustomType` | app/create-event/page.tsx:58 | the initial selection is `"Social Gathering"`, a valid type, and the custom field starts hidden |
| `CreateEvent.RequiredError` | app/create-event/page.tsx:26-29 | the error of a `min(1)` rule is a "required" error reported on that rule's own field (its body holds the schema's message text) |
| `CreateEvent.SchemaErrors` | app/create-event/page.tsx:25-32 | there are no violations iff the four text fields are non-empty and the type is one of the nine labels; each empty field and an invalid type is reported, and nothing else is |
| `CreateEvent.Validate` | app/create-event/page.tsx:25-32 | validation succeeds iff the four text fields are non-empty and the type is one of the nine labels; on success it returns the inputs unchanged with the parsed type; on failure it returns the schema's violations |
| `CreateEvent.BlankTitleAccepted` | app/create-event/page.tsx:26 | `min(1)` accepts a title made only of blanks |
| `CreateEvent.EventTypeToSave` | app/create-event/page.tsx:118 | the type to save is the custom text, possibly absent, when `"Other"` is chosen, and otherwise the chosen label unchanged, which parses back to the chosen type |
| `CreateEvent.NewEventRecord` | app/create-event/page.tsx:119-124 | for every form, the document carries the submitting user's id and the creation time, copies title, description, date, location and custom type unchanged, and holds the type to save |
| `CreateEvent.StoredRecordRoundTrip` | app/create-event/page.tsx:118-124 | the document determines the form: the inverse `RecoverForm` (a stored listed label other than `"Other"` names its type, anything else came from the custom field) gives the form data back, except when `"Other"` comes with a custom text that spells a listed type |
| `CreateEvent.CustomTypeCollision` | app/create-event/page.tsx:118 | `"Other"` with the custom text `"Graduation"` stores `"Graduation"`, and the document equals the one made from the same form with the listed type Graduation, so no inverse can recover the form |
| `CreateEvent.OtherStoresCustomText` | app/create-event/page.tsx:118 | `"Other"` with the custom text `"Hackathon"` stores `"Hackathon"`, not `"Other"` |
| `CreateEvent.SubmitTrace` | app/create-event/page.tsx:113-131 | with no user there are no steps; otherwise the steps start by raising the loading flag and writing the record built for that user, and end by lowering the flag |
| `CreateEvent.WriteIffSignedIn` | app/create-event/page.tsx:113-124 | a document write happens iff a user is signed in; with no user nothing happens at all; otherwise the write is of the record built from the form for that user |
| `CreateEvent.LoadingBracketsWrite` | app/create-event/page.tsx:116-130 | the loading flag is raised before the write and lowered as the last step on success and on failure; an id is set after a successful write and never after a failed one |
| `CreateEvent.CreateEventPage.constructor` | app/create-event/page.tsx:39-40 | the page starts with no event id, not loading, no form errors and nothing done |
| `CreateEvent.CreateEventPage.OnSubmit` | app/create-event/page.tsx:113-131 | without a user nothing changes; otherwise the steps of `SubmitTrace` are logged, loading is false afterwards, and the event id is the written document's id on success and unchanged on failure |
| `CreateEvent.CreateEventPage.HandleSubmit` | app/create-event/page.tsx:25-32 | invalid input records the schema errors and changes nothing else; valid input clears the errors and runs the submit handler on the parsed data |
| `Register.PasswordCheck` | app/register/page.tsx:31-39 | the mismatch error iff the passwords differ; the length error iff they are equal and shorter than 6; no error iff they are equal and at least 6 long |
| `Register.RegisterTrace` | app/register/page.tsx:29-53 | the first step clears the error; a failed check adds only its error; otherwise the next steps raise the loading flag and request the account with the entered email and password, and the last step lowers the flag |
| `Register.ReplayConcat` | app/register/page.tsx:27-54 | replaying two step sequences one after the other equals replaying their concatenation |
| `Register.AttemptIff` | app/register/page.tsx:31-44 | account creation is attempted iff the passwords are equal and at least 6 characters long, and then with the entered email and password |
| `Register.MismatchStops` | app/register/page.tsx:31-34 | different passwords end with the mismatch error, loading untouched and no attempt, whatever the password's length: the mismatch check comes first |
| `Register.ShortPasswordStops` | app/register/page.tsx:36-39 | equal passwords shorter than 6 characters end with the length error, loading untouched and no attempt |
| `Register.ClearedBeforeAttempt` | app/register/page.tsx:29-44 | when both checks pass, the first three steps are: clear the error, raise the loading flag, request the account; at that point the error line is empty |
| `Register.AttemptOutcome` | app/register/page.tsx:41-53 | after an attempt the loading flag is down; a failure of account creation or of the profile update shows its message and never navigates; a success navigates to the events page with no error |
| `Register.LoadingOnlyWhenAttempting` | app/register/page.tsx:41 | the loading flag is raised iff an account creation is attempted |
| `Register.RegisterPage.constructor` | app/register/page.tsx:14-19 | all fields start empty, loading false, nothing done |
| `Register.RegisterPage.HandleRegister` | app/register/page.tsx:27-54 | the form values are unchanged, the steps of `RegisterTrace` are logged, and the error line and loading flag are those obtained by replaying those steps from their previous values |

## Left out

- Loading the events (`fetchEvents`, app/events/page.tsx:52-72): a query against the document service and React state updates. The model starts from the loaded list.
- Photo fetching for the events list (app/events/page.tsx:74-93): unused or empty, and only I/O.
- QR code rendering and PNG download (app/events/page.tsx:95-137, app/create-event/page.tsx:69-111): drawing in the browser.
- Redirects on authentication state (the `useEffect` blocks of the three pages) and all rendering: framework lifecycle and markup.
- Unicode case mapping: `toLowerCase` is modelled on ASCII letters only; other characters are left unchanged.
- Password length: JavaScript's `length` counts UTF-16 code units, while the model counts characters. They differ only for characters outside the Basic Multilingual Plane.
- The wording of the schema's message for an invalid event type is library text and is not modelled. `InvalidEventType` records the rejected value.
- The creation time (`new Date().toISOString()`), the user's id and the new document's id come from the clock and the services. They are parameters, or part of the outcome.
- The ghost log of the create-event page records the steps of the submit handler only. The form errors set by a failed validation are proved as the new value of `errors` but are not logged, and the `console.error` call on a failed write (app/create-event/page.tsx:127) is not modelled.
- A write that the document service refuses, for example because the value to save is absent, is covered by the abstract `WriteFailed` outcome.
- Concurrency: each handler is modelled as running to completion. Overlapping submissions, and the intermediate render while a request is pending, are not modelled beyond the order of the logged steps.
- The `onChange` handlers of the registration inputs (app/register/page.tsx:92, 110, 128, 146) only copy the input into the field. Callers of the model assign the fields directly.
- A custom event type literally named `"all"` would clash with the "All Types" value of the selector. `SelectedTypeShowsThatType` excludes that value rather than modelling the clash.
- The upload and gallery pages, the slideshows, the navigation bar, the login page, the layout and the language context are not part of this model.
