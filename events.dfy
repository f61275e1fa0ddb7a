/**
 * The events catalogue page (src/pages/Events.tsx): a dialog form that
 * creates an event or replaces an existing one in the shared store.
 */
module Events {
  import opened Wrappers
  import opened Types
  import opened Seqs
  import opened AppStore

  /** `formData`: the date and time inputs hold the texts of the two timestamps. */
  datatype EventForm = EventForm(
    name: string,
    description: string,
    startDate: string,
    startTime: string,
    endDate: string,
    endTime: string,
    attendanceEnabled: bool)

  /** The form of `resetForm`: every text empty, attendance switched on. */
  const EmptyEventForm := EventForm("", "", "", "", "", "", true)

  /** The form `handleOpenDialog` fills in from an existing event. */
  function PrefillEventForm(e: Event): (f: EventForm)
    ensures f.name == e.name && f.description == e.description
    ensures f.attendanceEnabled == e.attendanceEnabled
    ensures f.startDate == e.startDate.day && f.startTime == e.startDate.time
    ensures f.endDate == e.endDate.day && f.endTime == e.endDate.time
  {
    EventForm(e.name, e.description, e.startDate.day, e.startDate.time,
              e.endDate.day, e.endDate.time, e.attendanceEnabled)
  }

  /** The fresh id `evt-<Date.now()>`, the stamp being the clock's reading. */
  function FreshEventId(stamp: string): string {
    "evt-" + stamp
  }

  /**
   * `newEvent` of `handleSubmit`: the id of the event being edited unless
   * there is none or it is empty, and otherwise a fresh one.
   */
  function BuildEvent(form: EventForm, editing: Option<Event>, stamp: string): (e: Event)
    ensures editing.Some? && editing.value.id != "" ==> e.id == editing.value.id
    ensures editing.None? || editing.value.id == "" ==> e.id == FreshEventId(stamp)
    ensures e.name == form.name && e.description == form.description
    ensures e.startDate == Timestamp(form.startDate, form.startTime)
    ensures e.endDate == Timestamp(form.endDate, form.endTime)
    ensures e.attendanceEnabled == form.attendanceEnabled
  {
    var id := if editing.Some? && editing.value.id != "" then editing.value.id else FreshEventId(stamp);
    Event(id, form.name, form.description,
          Timestamp(form.startDate, form.startTime), Timestamp(form.endDate, form.endTime),
          form.attendanceEnabled)
  }

  /**
   * The new catalogue: creating appends the event at the end; editing puts
   * it in place of every event carrying the edited id, and nowhere else.
   */
  function SubmitEvents(events: seq<Event>, editing: Option<Event>, newEvent: Event): (r: seq<Event>)
    ensures editing.None? ==> |r| == |events| + 1 && r[..|events|] == events && r[|events|] == newEvent
    ensures editing.Some? ==> |r| == |events|
    ensures editing.Some? ==> forall i :: 0 <= i < |events| ==>
              r[i] == if events[i].id == editing.value.id then newEvent else events[i]
  {
    if editing.None? then events + [newEvent]
    else ReplaceWhere(events, (e: Event) => e.id == editing.value.id, newEvent)
  }

  /** The ids of a catalogue, in order. */
  function EventIds(events: seq<Event>): seq<string> {
    Map(events, (e: Event) => e.id)
  }

  /** Opening an event and submitting the unchanged form gives back the very same event. */
  lemma PrefillSubmitRoundTrip(e: Event, stamp: string)
    requires e.id != ""
    ensures BuildEvent(PrefillEventForm(e), Some(e), stamp) == e
  {
  }

  /**
   * Submitting an edit of an event with a non-empty id keeps the list of
   * ids exactly as it was; a creation adds the fresh id at the end.
   */
  lemma SubmitKeepsIds(events: seq<Event>, editing: Option<Event>, form: EventForm, stamp: string)
    ensures var r := SubmitEvents(events, editing, BuildEvent(form, editing, stamp));
            (editing.Some? && editing.value.id != "" ==> EventIds(r) == EventIds(events)) &&
            (editing.None? ==> EventIds(r) == EventIds(events) + [FreshEventId(stamp)])
  {
  }

  /**
   * Submitting the edit of an event that is in the catalogue puts the new
   * event in the catalogue and removes every event it replaces.
   */
  lemma SubmitEditReplaces(events: seq<Event>, edited: Event, form: EventForm, stamp: string)
    requires edited in events
    ensures var e := BuildEvent(form, Some(edited), stamp);
            var r := SubmitEvents(events, Some(edited), e);
            e in r && forall x :: x in r && x != e ==> x in events && x.id != edited.id
  {
    var k :| 0 <= k < |events| && events[k] == edited;
    var r := SubmitEvents(events, Some(edited), BuildEvent(form, Some(edited), stamp));
    assert r[k] == BuildEvent(form, Some(edited), stamp);
  }

  /** The page's state: the dialog, the event being edited and the form. */
  class EventsPage {
    const store: Store
    var isDialogOpen: bool
    var editing: Option<Event>
    var form: EventForm

    constructor (store: Store)
      ensures this.store == store
      ensures !isDialogOpen && editing == None && form == EmptyEventForm
    {
      this.store := store;
      isDialogOpen := false;
      editing := None;
      form := EmptyEventForm;
    }

    /** `resetForm`. */
    method ResetForm()
      modifies this`form, this`editing
      ensures form == EmptyEventForm && editing == None
    {
      form := EmptyEventForm;
      editing := None;
    }

    /** `handleOpenDialog`: prefilled for an existing event, reset for a new one. */
    method OpenDialog(event: Option<Event>)
      modifies this
      ensures isDialogOpen
      ensures event.Some? ==> editing == event && form == PrefillEventForm(event.value)
      ensures event.None? ==> editing == None && form == EmptyEventForm
    {
      if event.Some? {
        editing := event;
        form := PrefillEventForm(event.value);
      } else {
        ResetForm();
      }
      isDialogOpen := true;
    }

    /** The inputs' change handlers, which replace the form as a whole. */
    method EditForm(f: EventForm)
      modifies this`form
      ensures form == f
    {
      form := f;
    }

    /** `handleSubmit`: write the new catalogue to the store, close the dialog and reset. */
    method Submit(stamp: string)
      modifies this, store`events
      ensures store.events == SubmitEvents(old(store.events), old(editing), BuildEvent(old(form), old(editing), stamp))
      ensures !isDialogOpen && editing == None && form == EmptyEventForm
    {
      var newEvent := BuildEvent(form, editing, stamp);
      store.events := SubmitEvents(store.events, editing, newEvent);
      isDialogOpen := false;
      ResetForm();
    }
  }
}
