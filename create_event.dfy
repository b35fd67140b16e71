/** The create-event page: a form validated by a schema, turned into the
    event document that is written for the signed-in user. */
module CreateEvent {
  import opened Wrappers

  /** The closed list of event types the form offers. */
  datatype EventType =
    | Wedding
    | BirthdayParty
    | Conference
    | Concert
    | CorporateEvent
    | Graduation
    | Workshop
    | SocialGathering
    | Other

  /** The nine types in the order of the selector. */
  const EventTypes: seq<EventType> :=
    [Wedding, BirthdayParty, Conference, Concert, CorporateEvent, Graduation, Workshop, SocialGathering, Other]

  /** The text of each type, which is also the value the selector submits. */
  function Label(t: EventType): string {
    match t
    case Wedding => "Wedding"
    case BirthdayParty => "Birthday Party"
    case Conference => "Conference"
    case Concert => "Concert"
    case CorporateEvent => "Corporate Event"
    case Graduation => "Graduation"
    case Workshop => "Workshop"
    case SocialGathering => "Social Gathering"
    case Other => "Other"
  }

  /** `z.enum(eventTypes)`: accepts exactly the nine labels. */
  function ParseEventType(s: string): (r: Option<EventType>)
    ensures r.Some? ==> Label(r.value) == s
    ensures r.None? ==> forall t :: Label(t) != s
  {
    if s == "Wedding" then Some(Wedding)
    else if s == "Birthday Party" then Some(BirthdayParty)
    else if s == "Conference" then Some(Conference)
    else if s == "Concert" then Some(Concert)
    else if s == "Corporate Event" then Some(CorporateEvent)
    else if s == "Graduation" then Some(Graduation)
    else if s == "Workshop" then Some(Workshop)
    else if s == "Social Gathering" then Some(SocialGathering)
    else if s == "Other" then Some(Other)
    else None
  }

  /** The list holds every type once, and parsing a label gives its type back. */
  lemma EventTypesComplete()
    ensures |EventTypes| == 9
    ensures forall t :: t in EventTypes
    ensures forall i, j :: 0 <= i < j < |EventTypes| ==> Label(EventTypes[i]) != Label(EventTypes[j])
    ensures forall t :: ParseEventType(Label(t)) == Some(t)
  {
    forall t ensures t in EventTypes && ParseEventType(Label(t)) == Some(t) {
      match t
      case Wedding =>
      case BirthdayParty =>
      case Conference =>
      case Concert =>
      case CorporateEvent =>
      case Graduation =>
      case Workshop =>
      case SocialGathering =>
      case Other =>
    }
  }

  /** The form's initial type (`defaultValues.eventType`). */
  const DefaultEventType: EventType := SocialGathering

  /** The custom-type field is shown while the selected value is "Other". */
  function ShowCustomType(selected: string): (r: bool)
    ensures r <==> ParseEventType(selected) == Some(Other)
  {
    selected == "Other"
  }

  /** The freshly opened form selects "Social Gathering" and hides the custom field. */
  lemma InitialFormHidesCustomType()
    ensures Label(DefaultEventType) == "Social Gathering"
    ensures ParseEventType(Label(DefaultEventType)) == Some(SocialGathering)
    ensures !ShowCustomType(Label(DefaultEventType))
  {
  }

  /** The raw values of the form's inputs. Text inputs always yield a string;
      the custom type may never have been registered. */
  datatype FormInput = FormInput(
    title: string,
    description: string,
    date: string,
    location: string,
    eventType: string,
    customEventType: Option<string>)

  /** What the schema yields when the input is valid. */
  datatype EventFormData = EventFormData(
    title: string,
    description: string,
    date: string,
    location: string,
    eventType: EventType,
    customEventType: Option<string>)

  datatype Field = Title | Description | Date | Location | EventTypeField

  /** One schema violation, reported on its field with the message shown under it. */
  datatype FieldError =
    | Required(field: Field, message: string)
    | InvalidEventType(received: string)

  /** The error of a `min(1)` rule, with the message the schema gives it. */
  function RequiredError(f: Field): (e: FieldError)
    requires f != EventTypeField
    ensures e.Required? && e.field == f
  {
    match f
    case Title => Required(f, "Title is required")
    case Description => Required(f, "Description is required")
    case Date => Required(f, "Date is required")
    case Location => Required(f, "Location is required")
  }

  /** One rule of the schema: no error when it holds, its error otherwise. */
  function Check(ok: bool, e: FieldError): (errs: seq<FieldError>)
    ensures e in errs <==> !ok
    ensures forall x :: x in errs ==> x == e
  {
    if ok then [] else [e]
  }

  /** The violations of `eventSchema`: every field is checked and every
      violation is reported, in the order the fields are declared. */
  function SchemaErrors(input: FormInput): (errs: seq<FieldError>)
    ensures errs == [] <==>
      input.title != "" && input.description != "" && input.date != "" &&
      input.location != "" && ParseEventType(input.eventType).Some?
    ensures RequiredError(Title) in errs <==> input.title == ""
    ensures RequiredError(Description) in errs <==> input.description == ""
    ensures RequiredError(Date) in errs <==> input.date == ""
    ensures RequiredError(Location) in errs <==> input.location == ""
    ensures InvalidEventType(input.eventType) in errs <==> ParseEventType(input.eventType).None?
    ensures forall e :: e in errs ==>
      e == InvalidEventType(input.eventType) ||
      (e.Required? && e.field != EventTypeField && e == RequiredError(e.field))
  {
    var titleErrors := Check(input.title != "", RequiredError(Title));
    var descriptionErrors := Check(input.description != "", RequiredError(Description));
    var dateErrors := Check(input.date != "", RequiredError(Date));
    var locationErrors := Check(input.location != "", RequiredError(Location));
    var typeErrors := Check(ParseEventType(input.eventType).Some?, InvalidEventType(input.eventType));
    var errs := titleErrors + descriptionErrors + dateErrors + locationErrors + typeErrors;
    assert forall x :: x in errs <==>
      x in titleErrors || x in descriptionErrors || x in dateErrors || x in locationErrors || x in typeErrors;
    errs
  }

  /** `zodResolver(eventSchema)`: the parsed form data, or all the violations. */
  function Validate(input: FormInput): (r: Result<EventFormData, seq<FieldError>>)
    ensures r.Success? <==>
      |input.title| >= 1 && |input.description| >= 1 && |input.date| >= 1 &&
      |input.location| >= 1 && ParseEventType(input.eventType).Some?
    ensures r.Success? ==>
      r.value.title == input.title && r.value.description == input.description &&
      r.value.date == input.date && r.value.location == input.location &&
      Label(r.value.eventType) == input.eventType &&
      r.value.customEventType == input.customEventType
    ensures r.Failure? ==> r.error == SchemaErrors(input)
  {
    var errors := SchemaErrors(input);
    if errors == [] then
      Success(EventFormData(input.title, input.description, input.date, input.location,
                            ParseEventType(input.eventType).value, input.customEventType))
    else
      Failure(errors)
  }

  /** `min(1)` only asks for one character, so a title of blanks passes. */
  lemma BlankTitleAccepted(input: FormInput)
    requires input.title == "   "
    requires |input.description| >= 1 && |input.date| >= 1 && |input.location| >= 1
    requires input.eventType == "Wedding"
    ensures Validate(input).Success?
  {
  }

  /** The document written to the events collection: the form data, with the
      type to save in place of the selected one, the creation time and the owner. */
  datatype StoredEvent = StoredEvent(
    title: string,
    description: string,
    date: string,
    location: string,
    eventType: Option<string>,
    customEventType: Option<string>,
    createdAt: string,
    userId: string)

  /** `eventTypeToSave`: the custom text for "Other" (possibly absent), the
      label otherwise. */
  function EventTypeToSave(data: EventFormData): (r: Option<string>)
    ensures data.eventType == Other ==> r == data.customEventType
    ensures data.eventType != Other ==> r == Some(Label(data.eventType)) && ParseEventType(r.value) == Some(data.eventType)
  {
    EventTypesComplete();
    if data.eventType == Other then data.customEventType else Some(Label(data.eventType))
  }

  /** The object passed to the write: `{...data, eventType, createdAt, userId}`. */
  function NewEventRecord(data: EventFormData, createdAt: string, userId: string): (r: StoredEvent)
    ensures r.userId == userId && r.createdAt == createdAt
    ensures r.title == data.title && r.description == data.description
    ensures r.date == data.date && r.location == data.location
    ensures r.customEventType == data.customEventType
    ensures r.eventType == EventTypeToSave(data)
  {
    StoredEvent(data.title, data.description, data.date, data.location,
                EventTypeToSave(data), data.customEventType, createdAt, userId)
  }

  /** The inverse of `NewEventRecord` on the form data: a stored label other
      than "Other" names its type; anything else came from the custom field. */
  function RecoverForm(doc: StoredEvent): (r: EventFormData)
    ensures r.title == doc.title && r.description == doc.description
    ensures r.date == doc.date && r.location == doc.location
    ensures r.customEventType == doc.customEventType
  {
    var t :=
      if doc.eventType.Some? && ParseEventType(doc.eventType.value).Some? &&
         ParseEventType(doc.eventType.value).value != Other
      then ParseEventType(doc.eventType.value).value
      else Other;
    EventFormData(doc.title, doc.description, doc.date, doc.location, t, doc.customEventType)
  }

  /** The custom text could be taken for one of the listed types. */
  predicate CustomTypeLooksListed(data: EventFormData) {
    data.customEventType.Some? &&
    ParseEventType(data.customEventType.value).Some? &&
    ParseEventType(data.customEventType.value).value != Other
  }

  /** The stored document determines the form: reading it back gives the form
      data, unless "Other" was chosen with a custom text that spells a listed type. */
  lemma StoredRecordRoundTrip(data: EventFormData, createdAt: string, userId: string)
    requires !(data.eventType == Other && CustomTypeLooksListed(data))
    ensures RecoverForm(NewEventRecord(data, createdAt, userId)) == data
  {
  }

  /** With "Other" and the custom text "Graduation" the document is
      indistinguishable from one made with the listed type. */
  lemma CustomTypeCollision()
    ensures var data := EventFormData("t", "d", "2024-01-01", "l", Other, Some("Graduation"));
      NewEventRecord(data, "c", "u").eventType == Some("Graduation") &&
      NewEventRecord(data, "c", "u") == NewEventRecord(data.(eventType := Graduation), "c", "u") &&
      RecoverForm(NewEventRecord(data, "c", "u")) != data
  {
  }

  /** "Other" with a custom text stores that text, never the literal "Other"
      unless it was typed. */
  lemma OtherStoresCustomText(data: EventFormData, createdAt: string, userId: string)
    requires data.eventType == Other && data.customEventType == Some("Hackathon")
    ensures NewEventRecord(data, createdAt, userId).eventType == Some("Hackathon")
  {
  }

  /** What the outside world sees of a submission, in order. */
  datatype Effect =
    | SetLoading(loading: bool)
    | AddDoc(doc: StoredEvent)
    | SetEventId(id: string)

  /** The result of the abstract document write. */
  datatype WriteOutcome = Written(docId: string) | WriteFailed

  /** The steps of `onSubmit` for the signed-in user `user` (absent when no
      one is signed in) at time `now`. */
  function SubmitTrace(data: EventFormData, user: Option<string>, now: string, outcome: WriteOutcome): (r: seq<Effect>)
    ensures user.None? ==> r == []
    ensures user.Some? ==>
      |r| >= 3 && r[..2] == [SetLoading(true), AddDoc(NewEventRecord(data, now, user.value))] &&
      r[|r| - 1] == SetLoading(false)
  {
    if user.None? then []
    else
      [SetLoading(true), AddDoc(NewEventRecord(data, now, user.value))] +
      (if outcome.Written? then [SetEventId(outcome.docId)] else []) +
      [SetLoading(false)]
  }

  /** A write happens exactly when someone is signed in, and it is of the
      record built from the form for that user. */
  lemma WriteIffSignedIn(data: EventFormData, user: Option<string>, now: string, outcome: WriteOutcome)
    ensures (exists k :: 0 <= k < |SubmitTrace(data, user, now, outcome)| &&
               SubmitTrace(data, user, now, outcome)[k].AddDoc?) <==> user.Some?
    ensures user.None? ==> SubmitTrace(data, user, now, outcome) == []
    ensures user.Some? ==> SubmitTrace(data, user, now, outcome)[1] == AddDoc(NewEventRecord(data, now, user.value))
  {
    if user.Some? {
      assert SubmitTrace(data, user, now, outcome)[1].AddDoc?;
    }
  }

  /** The loading flag is raised before the write and lowered as the last step,
      whether or not the write succeeded; an id is set only after a successful write. */
  lemma LoadingBracketsWrite(data: EventFormData, user: Option<string>, now: string, outcome: WriteOutcome)
    requires user.Some?
    ensures var tr := SubmitTrace(data, user, now, outcome);
      tr[0] == SetLoading(true) && tr[|tr| - 1] == SetLoading(false) &&
      (outcome.Written? ==> tr[2] == SetEventId(outcome.docId)) &&
      (outcome.WriteFailed? ==> forall k :: 0 <= k < |tr| ==> !tr[k].SetEventId?)
  {
  }

  /** The page's state: the form's errors, the created event's id (which
      shows the QR code), the loading flag, and a log of the effects so far. */
  class CreateEventPage {
    var errors: seq<FieldError>
    var eventId: Option<string>
    var isLoading: bool
    ghost var effects: seq<Effect>

    constructor ()
      ensures errors == [] && eventId == None && !isLoading && effects == []
    {
      errors := [];
      eventId := None;
      isLoading := false;
      effects := [];
    }

    /** `onSubmit`, called with valid data. */
    method OnSubmit(data: EventFormData, user: Option<string>, now: string, outcome: WriteOutcome)
      modifies this
      ensures effects == old(effects) + SubmitTrace(data, user, now, outcome)
      ensures errors == old(errors)
      ensures user.None? ==> eventId == old(eventId) && isLoading == old(isLoading)
      ensures user.Some? ==> !isLoading
      ensures user.Some? ==> eventId == if outcome.Written? then Some(outcome.docId) else old(eventId)
    {
      if user.None? {
        return;
      }
      isLoading := true;
      effects := effects + [SetLoading(true)];
      var eventTypeToSave := EventTypeToSave(data);
      var doc := StoredEvent(data.title, data.description, data.date, data.location,
                             eventTypeToSave, data.customEventType, now, user.value);
      effects := effects + [AddDoc(doc)];
      if outcome.Written? {
        eventId := Some(outcome.docId);
        effects := effects + [SetEventId(outcome.docId)];
      }
      isLoading := false;
      effects := effects + [SetLoading(false)];
    }

    /** `handleSubmit(onSubmit)`: validate, show the errors, and submit only valid data. */
    method HandleSubmit(input: FormInput, user: Option<string>, now: string, outcome: WriteOutcome)
      modifies this
      ensures Validate(input).Failure? ==>
        errors == Validate(input).error && effects == old(effects) &&
        eventId == old(eventId) && isLoading == old(isLoading)
      ensures Validate(input).Success? ==>
        errors == [] &&
        effects == old(effects) + SubmitTrace(Validate(input).value, user, now, outcome) &&
        eventId == (if user.Some? && outcome.Written? then Some(outcome.docId) else old(eventId)) &&
        isLoading == (if user.Some? then false else old(isLoading))
    {
      var result := Validate(input);
      if result.Failure? {
        errors := result.error;
        return;
      }
      errors := [];
      OnSubmit(result.value, user, now, outcome);
    }
  }
}
