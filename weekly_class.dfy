/**
 * The weekly-class catalogue page (src/pages/WeeklyClass.tsx): a dialog
 * form that creates a class or replaces an existing one in the shared
 * store.
 */
module WeeklyClasses {
  import opened Wrappers
  import opened Types
  import opened Seqs
  import opened AppStore

  /** `formData`: the date input holds the class day's text; the times are kept as text. */
  datatype ClassForm = ClassForm(
    name: string,
    topic: string,
    description: string,
    date: string,
    startTime: string,
    endTime: string)

  /** The form of `resetForm`: every field empty. */
  const EmptyClassForm := ClassForm("", "", "", "", "", "")

  /** The time of day `new Date('yyyy-MM-dd')` carries: midnight. */
  const Midnight := "00:00"

  /** The form `handleOpenDialog` fills in from an existing class. */
  function PrefillClassForm(c: WeeklyClass): (f: ClassForm)
    ensures f.name == c.name && f.topic == c.topic && f.description == c.description
    ensures f.date == c.date.day
    ensures f.startTime == c.startTime && f.endTime == c.endTime
  {
    ClassForm(c.name, c.topic, c.description, c.date.day, c.startTime, c.endTime)
  }

  /** The fresh id `wc-<Date.now()>`, the stamp being the clock's reading. */
  function FreshClassId(stamp: string): string {
    "wc-" + stamp
  }

  /**
   * `newClass` of `handleSubmit`: the id of the class being edited unless
   * there is none or it is empty, and otherwise a fresh one; the date is
   * the form's day at midnight.
   */
  function BuildClass(form: ClassForm, editing: Option<WeeklyClass>, stamp: string): (c: WeeklyClass)
    ensures editing.Some? && editing.value.id != "" ==> c.id == editing.value.id
    ensures editing.None? || editing.value.id == "" ==> c.id == FreshClassId(stamp)
    ensures c.name == form.name && c.topic == form.topic && c.description == form.description
    ensures c.date == Timestamp(form.date, Midnight)
    ensures c.startTime == form.startTime && c.endTime == form.endTime
  {
    var id := if editing.Some? && editing.value.id != "" then editing.value.id else FreshClassId(stamp);
    WeeklyClass(id, form.name, form.topic, form.description, Timestamp(form.date, Midnight),
                form.startTime, form.endTime)
  }

  /**
   * The new catalogue: creating appends the class at the end; editing puts
   * it in place of every class carrying the edited id, and nowhere else.
   */
  function SubmitClasses(classes: seq<WeeklyClass>, editing: Option<WeeklyClass>, newClass: WeeklyClass): (r: seq<WeeklyClass>)
    ensures editing.None? ==> |r| == |classes| + 1 && r[..|classes|] == classes && r[|classes|] == newClass
    ensures editing.Some? ==> |r| == |classes|
    ensures editing.Some? ==> forall i :: 0 <= i < |classes| ==>
              r[i] == if classes[i].id == editing.value.id then newClass else classes[i]
  {
    if editing.None? then classes + [newClass]
    else ReplaceWhere(classes, (c: WeeklyClass) => c.id == editing.value.id, newClass)
  }

  /** The ids of a catalogue, in order. */
  function ClassIds(classes: seq<WeeklyClass>): seq<string> {
    Map(classes, (c: WeeklyClass) => c.id)
  }

  /**
   * Opening a class and submitting the unchanged form keeps every field but
   * the time of day of its date, which becomes midnight; so the class comes
   * back unchanged exactly when its date already was at midnight.
   */
  lemma PrefillSubmitRoundTrip(c: WeeklyClass, stamp: string)
    requires c.id != ""
    ensures BuildClass(PrefillClassForm(c), Some(c), stamp) == c.(date := Timestamp(c.date.day, Midnight))
    ensures BuildClass(PrefillClassForm(c), Some(c), stamp) == c <==> c.date.time == Midnight
  {
  }

  /**
   * Submitting an edit of a class with a non-empty id keeps the list of ids
   * exactly as it was; a creation adds the fresh id at the end.
   */
  lemma SubmitKeepsIds(classes: seq<WeeklyClass>, editing: Option<WeeklyClass>, form: ClassForm, stamp: string)
    ensures var r := SubmitClasses(classes, editing, BuildClass(form, editing, stamp));
            (editing.Some? && editing.value.id != "" ==> ClassIds(r) == ClassIds(classes)) &&
            (editing.None? ==> ClassIds(r) == ClassIds(classes) + [FreshClassId(stamp)])
  {
  }

  /**
   * Submitting the edit of a class that is in the catalogue puts the new
   * class in the catalogue and removes every class it replaces.
   */
  lemma SubmitEditReplaces(classes: seq<WeeklyClass>, edited: WeeklyClass, form: ClassForm, stamp: string)
    requires edited in classes
    ensures var c := BuildClass(form, Some(edited), stamp);
            var r := SubmitClasses(classes, Some(edited), c);
            c in r && forall x :: x in r && x != c ==> x in classes && x.id != edited.id
  {
    var k :| 0 <= k < |classes| && classes[k] == edited;
    var r := SubmitClasses(classes, Some(edited), BuildClass(form, Some(edited), stamp));
    assert r[k] == BuildClass(form, Some(edited), stamp);
  }

  /** The page's state: the dialog, the class being edited and the form. */
  class WeeklyClassPage {
    const store: Store
    var isDialogOpen: bool
    var editing: Option<WeeklyClass>
    var form: ClassForm

    constructor (store: Store)
      ensures this.store == store
      ensures !isDialogOpen && editing == None && form == EmptyClassForm
    {
      this.store := store;
      isDialogOpen := false;
      editing := None;
      form := EmptyClassForm;
    }

    /** `resetForm`. */
    method ResetForm()
      modifies this`form, this`editing
      ensures form == EmptyClassForm && editing == None
    {
      form := EmptyClassForm;
      editing := None;
    }

    /** `handleOpenDialog`: prefilled for an existing class, reset for a new one. */
    method OpenDialog(weeklyClass: Option<WeeklyClass>)
      modifies this
      ensures isDialogOpen
      ensures weeklyClass.Some? ==> editing == weeklyClass && form == PrefillClassForm(weeklyClass.value)
      ensures weeklyClass.None? ==> editing == None && form == EmptyClassForm
    {
      if weeklyClass.Some? {
        editing := weeklyClass;
        form := PrefillClassForm(weeklyClass.value);
      } else {
        ResetForm();
      }
      isDialogOpen := true;
    }

    /** The inputs' change handlers, which replace the form as a whole. */
    method EditForm(f: ClassForm)
      modifies this`form
      ensures form == f
    {
      form := f;
    }

    /** `handleSubmit`: write the new catalogue to the store, close the dialog and reset. */
    method Submit(stamp: string)
      modifies this, store`weeklyClasses
      ensures store.weeklyClasses ==
                SubmitClasses(old(store.weeklyClasses), old(editing), BuildClass(old(form), old(editing), stamp))
      ensures !isDialogOpen && editing == None && form == EmptyClassForm
    {
      var newClass := BuildClass(form, editing, stamp);
      store.weeklyClasses := SubmitClasses(store.weeklyClasses, editing, newClass);
      isDialogOpen := false;
      ResetForm();
    }
  }
}
