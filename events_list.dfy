/** The events page: the signed-in user's events, narrowed on the client by a
    search term and an event-type selector. */
module EventsList {
  import opened Text
  import opened Seqs

  /** One loaded event document. Every field is a string, as the page declares it. */
  datatype Event = Event(
    id: string,
    title: string,
    description: string,
    date: string,
    location: string,
    eventType: string,
    createdAt: string,
    userId: string)

  /** The selector value that stands for "All Types"; it is also the initial filter. */
  const AllTypes: string := "all"

  /** The search term occurs, ignoring case, in the title, the description or the location. */
  function MatchesSearch(e: Event, searchTerm: string): (r: bool)
    ensures r <==>
      ContainsIgnoringCase(e.title, searchTerm) ||
      ContainsIgnoringCase(e.description, searchTerm) ||
      ContainsIgnoringCase(e.location, searchTerm)
  {
    var term := Lower(searchTerm);
    IncludesIff(Lower(e.title), term);
    IncludesIff(Lower(e.description), term);
    IncludesIff(Lower(e.location), term);
    Includes(Lower(e.title), term) ||
    Includes(Lower(e.description), term) ||
    Includes(Lower(e.location), term)
  }

  /** The type selector admits the event. */
  predicate MatchesType(e: Event, filter: string) {
    filter == AllTypes || e.eventType == filter
  }

  /** The callback handed to `events.filter`: with the selector on "all" only
      the search decides; otherwise the type must also be the selected one. */
  function Keeps(e: Event, searchTerm: string, filter: string): (r: bool)
    ensures r <==> MatchesType(e, filter) && MatchesSearch(e, searchTerm)
    ensures r <==>
      (filter == AllTypes || e.eventType == filter) &&
      (ContainsIgnoringCase(e.title, searchTerm) ||
       ContainsIgnoringCase(e.description, searchTerm) ||
       ContainsIgnoringCase(e.location, searchTerm))
  {
    var matchesSearch := MatchesSearch(e, searchTerm);
    if filter == AllTypes then matchesSearch
    else e.eventType == filter && matchesSearch
  }

  /** `filteredEvents`: the events the grid shows. */
  function FilteredEvents(events: seq<Event>, searchTerm: string, filter: string): (r: seq<Event>)
    ensures IsSubsequence(r, events) && |r| <= |events|
    ensures forall e :: e in r <==> e in events && Keeps(e, searchTerm, filter)
  {
    FilterIsSubsequence(events, e => Keeps(e, searchTerm, filter));
    Filter(events, e => Keeps(e, searchTerm, filter))
  }

  /** The search condition alone, as a filter of its own. */
  function SearchFiltered(events: seq<Event>, searchTerm: string): seq<Event> {
    Filter(events, e => MatchesSearch(e, searchTerm))
  }

  /** The type condition alone, as a filter of its own. */
  function TypeFiltered(events: seq<Event>, filter: string): seq<Event> {
    Filter(events, e => MatchesType(e, filter))
  }

  /** `events.map(event => event.eventType)`. */
  function EventTypesOf(events: seq<Event>): (r: seq<string>)
    ensures |r| == |events|
    ensures forall i :: 0 <= i < |events| ==> r[i] == events[i].eventType
  {
    if events == [] then [] else [events[0].eventType] + EventTypesOf(events[1..])
  }

  /** The values offered by the type selector after "All Types". */
  function TypeOptions(events: seq<Event>): (r: seq<string>)
    ensures forall t :: t in r <==> t in EventTypesOf(events)
    ensures forall i, j :: 0 <= i < j < |r| ==> r[i] != r[j]
  {
    Distinct(EventTypesOf(events))
  }

  /** An event is shown exactly when it passes both conditions. */
  lemma KeptIff(events: seq<Event>, searchTerm: string, filter: string, e: Event)
    ensures e in FilteredEvents(events, searchTerm, filter) <==>
      e in events &&
      (ContainsIgnoringCase(e.title, searchTerm) ||
       ContainsIgnoringCase(e.description, searchTerm) ||
       ContainsIgnoringCase(e.location, searchTerm)) &&
      (filter == AllTypes || e.eventType == filter)
  {
  }

  /** The initial state (empty search, "All Types") shows every event, in order. */
  lemma EmptySearchShowsAll(events: seq<Event>)
    ensures FilteredEvents(events, "", AllTypes) == events
  {
    forall e | e in events ensures Keeps(e, "", AllTypes) {
      EmptyIncluded(Lower(e.title));
    }
    FilterKeepsAll(events, e => Keeps(e, "", AllTypes));
  }

  /** Two search terms that differ only in letter case give the same list. */
  lemma CaseInsensitive(events: seq<Event>, term1: string, term2: string, filter: string)
    requires SameIgnoringCase(term1, term2)
    ensures FilteredEvents(events, term1, filter) == FilteredEvents(events, term2, filter)
  {
    FilterAgree(events, e => Keeps(e, term1, filter), e => Keeps(e, term2, filter));
  }

  /** In particular, typing the term in capitals or in small letters changes nothing. */
  lemma UpperOrLowerTermSameResult(events: seq<Event>, searchTerm: string, filter: string)
    ensures FilteredEvents(events, Upper(searchTerm), filter) == FilteredEvents(events, searchTerm, filter)
    ensures FilteredEvents(events, Lower(searchTerm), filter) == FilteredEvents(events, searchTerm, filter)
  {
    LowerOfUpper(searchTerm);
    LowerIdempotent(searchTerm);
    CaseInsensitive(events, Upper(searchTerm), searchTerm, filter);
    CaseInsensitive(events, Lower(searchTerm), searchTerm, filter);
  }

  /** Searching first and selecting the type afterwards gives the combined filter. */
  lemma SearchThenType(events: seq<Event>, searchTerm: string, filter: string)
    ensures TypeFiltered(SearchFiltered(events, searchTerm), filter) == FilteredEvents(events, searchTerm, filter)
  {
    FilterFilter(events, e => MatchesSearch(e, searchTerm), e => MatchesType(e, filter),
                 e => Keeps(e, searchTerm, filter));
  }

  /** Selecting the type first and searching afterwards gives the combined filter too. */
  lemma TypeThenSearch(events: seq<Event>, searchTerm: string, filter: string)
    ensures SearchFiltered(TypeFiltered(events, filter), searchTerm) == FilteredEvents(events, searchTerm, filter)
  {
    FilterFilter(events, e => MatchesType(e, filter), e => MatchesSearch(e, searchTerm),
                 e => Keeps(e, searchTerm, filter));
  }

  /** Filtering the filtered list again with the same term and selector changes nothing. */
  lemma FilterIdempotent(events: seq<Event>, searchTerm: string, filter: string)
    ensures FilteredEvents(FilteredEvents(events, searchTerm, filter), searchTerm, filter) ==
            FilteredEvents(events, searchTerm, filter)
  {
    var keep := e => Keeps(e, searchTerm, filter);
    FilterFilter(events, keep, keep, keep);
  }

  /** The filter works event by event: the shown list of two loaded batches is
      the shown list of the first followed by that of the second. */
  lemma FilterSplits(first: seq<Event>, second: seq<Event>, searchTerm: string, filter: string)
    ensures FilteredEvents(first + second, searchTerm, filter) ==
            FilteredEvents(first, searchTerm, filter) + FilteredEvents(second, searchTerm, filter)
  {
    FilterConcat(first, second, e => Keeps(e, searchTerm, filter));
  }

  /** The type options are the event types that occur, each once, in the order
      in which they first occur among the loaded events. */
  lemma TypeOptionsSpec(events: seq<Event>)
    ensures forall t :: t in TypeOptions(events) <==> exists e :: e in events && e.eventType == t
    ensures forall i, j :: 0 <= i < j < |TypeOptions(events)| ==> TypeOptions(events)[i] != TypeOptions(events)[j]
    ensures forall i, j :: 0 <= i < j < |TypeOptions(events)| ==>
      FirstIndex(EventTypesOf(events), TypeOptions(events)[i]) <
      FirstIndex(EventTypesOf(events), TypeOptions(events)[j])
  {
    var types := EventTypesOf(events);
    DistinctFirstOccurrenceOrder(types);
    forall t ensures t in types <==> exists e :: e in events && e.eventType == t {
      if t in types {
        var k :| 0 <= k < |types| && types[k] == t;
        assert events[k] in events;
      }
    }
  }

  /** A type picked from the selector shows only events of that type and, with
      an empty search term, at least one of them. */
  lemma SelectedTypeShowsThatType(events: seq<Event>, searchTerm: string, t: string)
    requires t in TypeOptions(events) && t != AllTypes
    ensures forall e :: e in FilteredEvents(events, searchTerm, t) ==> e.eventType == t
    ensures FilteredEvents(events, "", t) != []
  {
    TypeOptionsSpec(events);
    var e :| e in events && e.eventType == t;
    EmptyIncluded(Lower(e.title));
    assert e in FilteredEvents(events, "", t);
  }
}
