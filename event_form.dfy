/**
 * The three-step event form (src/components/EventForm.jsx): the form's
 * initial payload, the preload of the record being edited, the per-input
 * change handler, the step navigation with its step-1 gate, and the submit
 * dispatch to the store.
 */
module EventForm {
  import opened Records
  import App

  /** Whether the form creates a record (`/events/new`) or edits the one with an id (`/events/edit/:id`). */
  datatype Mode = Creating | Editing(id: int)

  const TotalSteps := 3

  /** The payload a fresh form starts from. */
  const InitialData := EventData("", "", "", "", Attendees(0, 0), 0.0, "Library Budget", "")

  // ---------------------------------------------------------------------------
  // Preloading the edited record

  /** `events.find(e => e.id === id)`: the first record with the id, if any. */
  function FindById(es: seq<Event>, id: int): (r: Option<Event>)
    ensures r.None? <==> forall e :: e in es ==> e.id != id
    ensures r.Some? ==> r.value in es && r.value.id == id
  {
    if es == [] then None
    else if es[0].id == id then Some(es[0])
    else
      var r := FindById(es[1..], id);
      assert forall e :: e in es[1..] ==> e in es;
      assert es == [es[0]] + es[1..];
      r
  }

  /** The record found is the first one with the id. */
  lemma {:induction false} FindFirst(es: seq<Event>, id: int)
    requires FindById(es, id).Some?
    ensures exists i :: 0 <= i < |es| && es[i] == FindById(es, id).value && forall j :: 0 <= j < i ==> es[j].id != id
  {
    if es[0].id != id {
      FindFirst(es[1..], id);
      var i :| 0 <= i < |es| - 1 && es[1..][i] == FindById(es[1..], id).value && forall j :: 0 <= j < i ==> es[1..][j].id != id;
      assert es[i + 1] == FindById(es, id).value;
      forall j | 0 <= j < i + 1
        ensures es[j].id != id
      {
        if j > 0 {
          assert es[j] == es[1..][j - 1];
        }
      }
    }
  }

  /** The payload the form holds once the preload effect has run. */
  function Preload(mode: Mode, events: seq<Event>): EventData {
    match mode
    case Creating => InitialData
    case Editing(id) =>
      match FindById(events, id)
      case None => InitialData
      case Some(e) => e.data
  }

  /**
   * A new form starts from the initial payload; so does an edit form whose
   * id no record has; otherwise the edit form holds the payload of the
   * record with the id.
   */
  lemma PreloadSpec(mode: Mode, events: seq<Event>)
    ensures mode.Creating? ==> Preload(mode, events) == InitialData
    ensures mode.Editing? && (forall e :: e in events ==> e.id != mode.id) ==> Preload(mode, events) == InitialData
    ensures mode.Editing? && App.UniqueIds(events) ==>
      forall e :: e in events && e.id == mode.id ==> Preload(mode, events) == e.data
  {
    if mode.Editing? && App.UniqueIds(events) {
      forall e | e in events && e.id == mode.id
        ensures Preload(mode, events) == e.data
      {
        var f := FindById(events, mode.id).value;
        FindFirst(events, mode.id);
        var i :| 0 <= i < |events| && events[i] == f;
        var k :| 0 <= k < |events| && events[k] == e;
        assert !(i < k) && !(k < i);
      }
    }
  }

  /**
   * Opening the edit form of a record and submitting it unchanged leaves
   * the collection as it was, when ids are unique.
   */
  lemma EditUnchangedIsNoOp(events: seq<Event>, id: int)
    requires App.UniqueIds(events)
    ensures App.ReplaceById(events, id, Preload(Editing(id), events)) == events
  {
    var d := Preload(Editing(id), events);
    var r := App.ReplaceById(events, id, d);
    forall i | 0 <= i < |events|
      ensures r[i] == events[i]
    {
      if events[i].id == id {
        assert events[i] in events;
        PreloadSpec(Editing(id), events);
      }
    }
  }

  // ---------------------------------------------------------------------------
  // Changing one input

  /** The inputs that hold text verbatim. */
  datatype TextField = Title | LibraryName | CategoryName | DateText | FundingSource | Description

  datatype Who = Adults | Children

  /**
   * One change event. Numeric inputs carry what `parseInt` / `parseFloat`
   * made of the typed text, `None` when it was not a number.
   */
  datatype Change =
    | SetText(field: TextField, value: string)
    | SetAttendees(who: Who, parsed: Option<int>)
    | SetCost(amount: Option<real>)

  function TextOf(d: EventData, f: TextField): string {
    match f
    case Title => d.title
    case LibraryName => d.library
    case CategoryName => d.category
    case DateText => d.date
    case FundingSource => d.fundingSource
    case Description => d.description
  }

  function CountOf(a: Attendees, who: Who): int {
    match who
    case Adults => a.adults
    case Children => a.children
  }

  /** `parsed || 0`: a number that did not parse is stored as 0. */
  function OrZero(parsed: Option<int>): int {
    if parsed.Some? then parsed.value else 0
  }

  function OrZeroReal(parsed: Option<real>): real {
    if parsed.Some? then parsed.value else 0.0
  }

  /**
   * `handleChange`: the changed input takes its new value (a text verbatim,
   * a number parsed or else 0) and every other field of the payload keeps
   * its value.
   */
  function Apply(d: EventData, c: Change): (r: EventData)
    ensures c.SetText? ==>
      && TextOf(r, c.field) == c.value
      && (forall g :: g != c.field ==> TextOf(r, g) == TextOf(d, g))
      && r.attendees == d.attendees && r.cost == d.cost
    ensures c.SetAttendees? ==>
      && CountOf(r.attendees, c.who) == (if c.parsed.Some? then c.parsed.value else 0)
      && (forall w :: w != c.who ==> CountOf(r.attendees, w) == CountOf(d.attendees, w))
      && (forall g :: TextOf(r, g) == TextOf(d, g)) && r.cost == d.cost
    ensures c.SetCost? ==>
      && r.cost == (if c.amount.Some? then c.amount.value else 0.0)
      && (forall g :: TextOf(r, g) == TextOf(d, g)) && r.attendees == d.attendees
  {
    match c
    case SetText(f, v) =>
      (match f
       case Title => d.(title := v)
       case LibraryName => d.(library := v)
       case CategoryName => d.(category := v)
       case DateText => d.(date := v)
       case FundingSource => d.(fundingSource := v)
       case Description => d.(description := v))
    case SetAttendees(who, parsed) =>
      (match who
       case Adults => d.(attendees := d.attendees.(adults := OrZero(parsed)))
       case Children => d.(attendees := d.attendees.(children := OrZero(parsed))))
    case SetCost(parsed) => d.(cost := OrZeroReal(parsed))
  }

  /** The payload is determined by its text fields, its two counts and its cost. */
  lemma PayloadExtensionality(d: EventData, e: EventData)
    requires forall g :: TextOf(d, g) == TextOf(e, g)
    requires forall w :: CountOf(d.attendees, w) == CountOf(e.attendees, w)
    requires d.cost == e.cost
    ensures d == e
  {
    assert TextOf(d, Title) == TextOf(e, Title) && TextOf(d, LibraryName) == TextOf(e, LibraryName);
    assert TextOf(d, CategoryName) == TextOf(e, CategoryName) && TextOf(d, DateText) == TextOf(e, DateText);
    assert TextOf(d, FundingSource) == TextOf(e, FundingSource) && TextOf(d, Description) == TextOf(e, Description);
    assert CountOf(d.attendees, Adults) == CountOf(e.attendees, Adults);
    assert CountOf(d.attendees, Children) == CountOf(e.attendees, Children);
  }

  /** Whether two changes write the same field of the payload. */
  predicate SameTarget(c: Change, k: Change) {
    match c
    case SetText(f, _) => k.SetText? && k.field == f
    case SetAttendees(w, _) => k.SetAttendees? && k.who == w
    case SetCost(_) => k.SetCost?
  }

  /**
   * Repeating a change changes nothing more, and changes to different
   * fields can be made in either order.
   */
  lemma ApplyLaws(d: EventData, c: Change, k: Change)
    ensures Apply(Apply(d, c), c) == Apply(d, c)
    ensures !SameTarget(c, k) ==> Apply(Apply(d, c), k) == Apply(Apply(d, k), c)
  {
    PayloadExtensionality(Apply(Apply(d, c), c), Apply(d, c));
    if !SameTarget(c, k) {
      var x, y := Apply(Apply(d, c), k), Apply(Apply(d, k), c);
      forall g
        ensures TextOf(x, g) == TextOf(y, g)
      {
      }
      forall w
        ensures CountOf(x.attendees, w) == CountOf(y.attendees, w)
      {
      }
      PayloadExtensionality(x, y);
    }
  }

  /** The step whose panel shows the input a change comes from. */
  function StepOf(c: Change): (s: int)
    ensures 1 <= s <= TotalSteps
    ensures s == 1 <==> c.SetText? && c.field != FundingSource
    ensures s == 2 <==> c.SetAttendees?
  {
    match c
    case SetText(f, _) => if f == FundingSource then 3 else 1
    case SetAttendees(_, _) => 2
    case SetCost(_) => 3
  }

  // ---------------------------------------------------------------------------
  // Step gates

  /** `canProceedStep1`: title, library, category and date are all filled in. */
  predicate CanProceedStep1(d: EventData) {
    d.title != "" && d.library != "" && d.category != "" && d.date != ""
  }

  /** `canProceedStep2`: neither count is negative. No button consults it. */
  predicate CanProceedStep2(d: EventData) {
    d.attendees.adults >= 0 && d.attendees.children >= 0
  }

  /** Whether a change edits one of the four inputs `canProceedStep1` looks at. */
  predicate GatesStep1(c: Change) {
    c.SetText? && (c.field == Title || c.field == LibraryName || c.field == CategoryName || c.field == DateText)
  }

  /**
   * A fresh form cannot leave step 1 until the four gated inputs are filled;
   * every gated input is on step 1; and any other change, the description
   * on step 1 or an input of a later step, never touches them.
   */
  lemma GateLaws(d: EventData, c: Change)
    ensures !CanProceedStep1(InitialData) && CanProceedStep2(InitialData)
    ensures GatesStep1(c) ==> StepOf(c) == 1
    ensures !GatesStep1(c) ==> (CanProceedStep1(Apply(d, c)) <==> CanProceedStep1(d))
  {
    if !GatesStep1(c) {
      assert TextOf(Apply(d, c), Title) == TextOf(d, Title);
      assert TextOf(Apply(d, c), LibraryName) == TextOf(d, LibraryName);
      assert TextOf(Apply(d, c), CategoryName) == TextOf(d, CategoryName);
      assert TextOf(Apply(d, c), DateText) == TextOf(d, DateText);
    }
  }

  // ---------------------------------------------------------------------------
  // The form

  class FormWizard {
    const mode: Mode
    var currentStep: int
    var formData: EventData

    /** The step is one of the three, and steps 2 and 3 are reached only with step 1 complete. */
    ghost predicate Valid()
      reads this
    {
      1 <= currentStep <= TotalSteps && (currentStep >= 2 ==> CanProceedStep1(formData))
    }

    /** The form as the route opens it, once the preload effect has run. */
    constructor Open(mode: Mode, events: seq<Event>)
      ensures Valid() && currentStep == 1
      ensures this.mode == mode && formData == Preload(mode, events)
    {
      this.mode := mode;
      currentStep := 1;
      formData := Preload(mode, events);
    }

    /** `handleChange`: one field of the payload changes; the step does not. */
    method HandleChange(c: Change)
      modifies this
      ensures formData == Apply(old(formData), c) && currentStep == old(currentStep)
      ensures old(Valid()) && StepOf(c) == currentStep ==> Valid()
      ensures old(Valid()) && !GatesStep1(c) ==> Valid()
    {
      GateLaws(formData, c);
      formData := Apply(formData, c);
    }

    /** `nextStep`: one step on, except on the last step. */
    method NextStep()
      modifies this
      ensures currentStep == (if old(currentStep) < TotalSteps then old(currentStep) + 1 else old(currentStep))
      ensures 1 <= old(currentStep) <= TotalSteps ==> 1 <= currentStep <= TotalSteps
      ensures formData == old(formData)
    {
      if currentStep < TotalSteps {
        currentStep := currentStep + 1;
      }
    }

    /** `prevStep`: one step back, except on the first step. */
    method PrevStep()
      modifies this
      ensures currentStep == (if old(currentStep) > 1 then old(currentStep) - 1 else old(currentStep))
      ensures 1 <= old(currentStep) <= TotalSteps ==> 1 <= currentStep <= TotalSteps
      ensures old(Valid()) ==> Valid()
      ensures formData == old(formData)
    {
      if currentStep > 1 {
        currentStep := currentStep - 1;
      }
    }

    /**
     * A click on "Next": the button is shown before the last step and is
     * disabled on step 1 until step 1 is complete. Step 2 lets the user on
     * whatever the counts are.
     */
    method PressNext()
      modifies this
      ensures var enabled := old(currentStep) < TotalSteps && !(old(currentStep) == 1 && !CanProceedStep1(formData));
        currentStep == (if enabled then old(currentStep) + 1 else old(currentStep))
      ensures old(Valid()) ==> Valid()
      ensures formData == old(formData)
    {
      if currentStep < TotalSteps && !(currentStep == 1 && !CanProceedStep1(formData)) {
        NextStep();
      }
    }

    /**
     * `handleSubmit`: an edit form replaces the record with its id by the
     * payload (nothing, when no record has the id); a new form adds the
     * payload with a fresh id. Either way the new collection is saved, and
     * the form itself does not change.
     */
    method Submit(store: App.EventStore)
      modifies store
      ensures mode.Editing? ==> store.events == App.ReplaceById(old(store.events), mode.id, formData)
      ensures mode.Creating? ==> store.events == old(store.events) + [Event(App.NextId(old(store.events)), formData)]
      ensures store.libraries == old(store.libraries)
      ensures store.savedEvents == Some(store.events) && store.savedLibraries == old(store.savedLibraries)
    {
      match mode
      case Editing(id) => store.UpdateEvent(id, formData);
      case Creating => store.AddEvent(formData);
    }
  }
}
