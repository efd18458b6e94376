/**
 The professor navigation bar's local state: the "Courses" dropdown and the
 "Create New Course" modal with its one-field form. Each user action is an
 event; `Step` gives the state after its handler has run, together with the
 effects it produced outside the component (the parent's `onCreateCourse`
 callback, or the `alert` used when no callback was passed).
 */
module ProfessorNavbar {
  import opened Text

  /** `coursesDropdownOpen`, `createCourseModalOpen`, `courseName`, `error`. */
  datatype NavState = NavState(
    dropdownOpen: bool,
    modalOpen: bool,
    courseName: string,
    error: string
  )

  /** The state on mount. */
  const Initial := NavState(false, false, "", "")

  /** The message shown for a blank course name. */
  const EmptyNameError := "Please enter a course name."

  /** What a handler does outside the component's own state: call the
      parent's `onCreateCourse` with a name, or, without one, show the alert
      `Creating course: ` followed by that name. */
  datatype Effect =
    | CallOnCreateCourse(courseName: string)
    | CreateAlert(courseName: string)

  /** The user actions the component handles. */
  datatype NavEvent =
    | ToggleDropdown          // the "Courses" button
    | DropdownBackdrop        // the transparent layer behind the open dropdown
    | FollowCourseLink        // a course entry in the dropdown
    | OpenCreateModal         // the dropdown's "Create Course" button
    | EditName(value: string) // typing in the course-name input
    | Submit                  // submitting the form
    | Cancel                  // the "Cancel" button
    | CloseButton             // the X in the modal header
    | ModalBackdrop           // a click on the dark layer around the modal

  /** An event can only fire while its control is on screen: the dropdown's
      parts while it is open, the modal's parts while the modal is open. */
  predicate Enabled(s: NavState, e: NavEvent) {
    match e
    case ToggleDropdown => true
    case DropdownBackdrop => s.dropdownOpen
    case FollowCourseLink => s.dropdownOpen
    case OpenCreateModal => s.dropdownOpen
    case EditName(_) => s.modalOpen
    case Submit => s.modalOpen
    case Cancel => s.modalOpen
    case CloseButton => s.modalOpen
    case ModalBackdrop => s.modalOpen
  }

  /** A handler's outcome: the new state and the effects, in order. */
  datatype Outcome = Outcome(state: NavState, effects: seq<Effect>)

  /** `handleCreateCourse`: clear the error; reject a name that trims to
      `""`; otherwise emit one create effect with the trimmed name, clear
      the field and close the modal. */
  function SubmitForm(s: NavState, hasHandler: bool): (o: Outcome)
    ensures |o.effects| <= 1
    ensures |o.effects| == 1 <==> !AllWhitespace(s.courseName)
    ensures o.effects == [] ==> o.state == s.(error := EmptyNameError)
    ensures o.effects != [] ==>
              && o.effects[0].courseName == Trim(s.courseName)
              && (o.effects[0].CallOnCreateCourse? <==> hasHandler)
              && o.state == s.(modalOpen := false, courseName := "", error := "")
  {
    var cleared := s.(error := "");
    var name := Trim(cleared.courseName);
    TrimEmptyIff(s.courseName);
    if name == "" then
      Outcome(cleared.(error := EmptyNameError), [])
    else
      var effect := if hasHandler then CallOnCreateCourse(name) else CreateAlert(name);
      Outcome(cleared.(courseName := "", modalOpen := false), [effect])
  }

  /** The reset shared by Cancel, the X button and the modal backdrop. */
  function CloseModal(s: NavState): NavState {
    s.(modalOpen := false, courseName := "", error := "")
  }

  /** The component's response to one enabled event. `hasHandler` says
      whether the parent passed `onCreateCourse`. */
  function Step(s: NavState, e: NavEvent, hasHandler: bool): (o: Outcome)
    requires Enabled(s, e)
    ensures !e.Submit? ==> o.effects == []
    ensures e.ToggleDropdown? ==> o.state == s.(dropdownOpen := !s.dropdownOpen)
    ensures e.DropdownBackdrop? || e.FollowCourseLink? ==> o.state == s.(dropdownOpen := false)
    ensures e.OpenCreateModal? ==> o.state == s.(dropdownOpen := false, modalOpen := true)
    ensures e.EditName? ==> o.state == s.(courseName := e.value)
    ensures e.Cancel? || e.CloseButton? || e.ModalBackdrop? ==>
              !o.state.modalOpen && o.state.courseName == "" && o.state.error == ""
              && o.state.dropdownOpen == s.dropdownOpen
  {
    match e
    case ToggleDropdown => Outcome(s.(dropdownOpen := !s.dropdownOpen), [])
    case DropdownBackdrop => Outcome(s.(dropdownOpen := false), [])
    case FollowCourseLink => Outcome(s.(dropdownOpen := false), [])
    case OpenCreateModal => Outcome(s.(dropdownOpen := false, modalOpen := true), [])
    case EditName(v) => Outcome(s.(courseName := v), [])
    case Submit => SubmitForm(s, hasHandler)
    case Cancel => Outcome(CloseModal(s), [])
    case CloseButton => Outcome(CloseModal(s), [])
    case ModalBackdrop => Outcome(CloseModal(s), [])
  }

  /** A closed modal holds an empty form, and the only error ever shown is
      the blank-name message. */
  ghost predicate Invariant(s: NavState) {
    && (!s.modalOpen ==> s.courseName == "" && s.error == "")
    && (s.error == "" || s.error == EmptyNameError)
  }

  lemma InitialInvariant()
    ensures Invariant(Initial)
  {
  }

  /** Every enabled event preserves the invariant. */
  lemma StepPreservesInvariant(s: NavState, e: NavEvent, hasHandler: bool)
    requires Enabled(s, e) && Invariant(s)
    ensures Invariant(Step(s, e, hasHandler).state)
  {
  }

  /** The end of a sequence of events: `ok` is false when the run stopped
      at an event whose control was not on screen; `state` and `effects`
      are then those of the events handled before it. */
  datatype Run = Run(ok: bool, state: NavState, effects: seq<Effect>)

  /** Feeds `events` to the component one at a time, collecting effects,
      and stops at the first event that cannot fire. */
  function RunEvents(s: NavState, events: seq<NavEvent>, hasHandler: bool): (r: Run)
    ensures |r.effects| <= |events|
    ensures |events| > 0 && Enabled(s, events[0]) ==>
              var first := Step(s, events[0], hasHandler).effects;
              |first| <= |r.effects| && r.effects[..|first|] == first
    decreases |events|
  {
    if |events| == 0 then Run(true, s, [])
    else if !Enabled(s, events[0]) then Run(false, s, [])
    else
      var o := Step(s, events[0], hasHandler);
      var rest := RunEvents(o.state, events[1..], hasHandler);
      Run(rest.ok, rest.state, o.effects + rest.effects)
  }

  /** Running `a + b` is running `a`, then, if it got through, running `b`
      from where `a` ended, with the effects of both in order. */
  lemma {:induction false} RunConcat(s: NavState, a: seq<NavEvent>, b: seq<NavEvent>, hasHandler: bool)
    ensures var ra := RunEvents(s, a, hasHandler);
            var rb := RunEvents(ra.state, b, hasHandler);
            RunEvents(s, a + b, hasHandler)
            == if ra.ok then Run(rb.ok, rb.state, ra.effects + rb.effects) else ra
    decreases |a|
  {
    if |a| == 0 {
      assert a + b == b;
    } else {
      assert (a + b)[0] == a[0];
      if Enabled(s, a[0]) {
        var o := Step(s, a[0], hasHandler);
        assert (a + b)[1..] == a[1..] + b;
        RunConcat(o.state, a[1..], b, hasHandler);
        var rest := RunEvents(o.state, a[1..], hasHandler);
        var rb := RunEvents(rest.state, b, hasHandler);
        assert o.effects + (rest.effects + rb.effects) == (o.effects + rest.effects) + rb.effects;
      }
    }
  }

  /** Every state reachable from a state satisfying the invariant satisfies it. */
  lemma {:induction false} RunPreservesInvariant(s: NavState, events: seq<NavEvent>, hasHandler: bool)
    requires Invariant(s)
    ensures Invariant(RunEvents(s, events, hasHandler).state)
    decreases |events|
  {
    if |events| > 0 && Enabled(s, events[0]) {
      var o := Step(s, events[0], hasHandler);
      StepPreservesInvariant(s, events[0], hasHandler);
      RunPreservesInvariant(o.state, events[1..], hasHandler);
    }
  }

  /** A name with something other than whitespace in it and no whitespace
      at either end. */
  ghost predicate TrimmedName(n: string) {
    n != "" && Trim(n) == n
  }

  /** A create effect whose course name is trimmed. */
  ghost predicate CarriesTrimmedName(e: Effect) {
    TrimmedName(e.courseName)
  }

  /** Every effect in `effects` carries a trimmed name. */
  ghost predicate AllTrimmed(effects: seq<Effect>) {
    forall k :: 0 <= k < |effects| ==> CarriesTrimmedName(effects[k])
  }

  lemma AllTrimmedAppend(a: seq<Effect>, b: seq<Effect>)
    requires AllTrimmed(a) && AllTrimmed(b)
    ensures AllTrimmed(a + b)
  {
    forall k | 0 <= k < |a + b|
      ensures CarriesTrimmedName((a + b)[k])
    {
      if k < |a| {
        assert (a + b)[k] == a[k];
      } else {
        assert (a + b)[k] == b[k - |a|];
      }
    }
  }

  /** A submit emits only a trimmed name. */
  lemma SubmitEmitsTrimmedName(s: NavState, hasHandler: bool)
    ensures AllTrimmed(SubmitForm(s, hasHandler).effects)
  {
    var o := SubmitForm(s, hasHandler);
    if o.effects != [] {
      var n := Trim(s.courseName);
      TrimEmptyIff(s.courseName);
      TrimIdempotent(s.courseName);
      forall k | 0 <= k < |o.effects|
        ensures CarriesTrimmedName(o.effects[k])
      {
        assert k == 0;
      }
    }
  }

  /** A single event emits only trimmed names. */
  lemma StepEmitsTrimmedNames(s: NavState, e: NavEvent, hasHandler: bool)
    requires Enabled(s, e)
    ensures AllTrimmed(Step(s, e, hasHandler).effects)
  {
    if e.Submit? {
      SubmitEmitsTrimmedName(s, hasHandler);
    }
  }

  /** Every create effect of a run carries a trimmed name. */
  lemma {:induction false} RunEmitsTrimmedNames(s: NavState, events: seq<NavEvent>, hasHandler: bool)
    ensures AllTrimmed(RunEvents(s, events, hasHandler).effects)
    decreases |events|
  {
    if |events| > 0 && Enabled(s, events[0]) {
      var o := Step(s, events[0], hasHandler);
      var rest := RunEvents(o.state, events[1..], hasHandler);
      StepEmitsTrimmedNames(s, events[0], hasHandler);
      RunEmitsTrimmedNames(o.state, events[1..], hasHandler);
      AllTrimmedAppend(o.effects, rest.effects);
    }
  }

  /** A rejected submit does not change anything but the error, so
      submitting a blank name again changes nothing at all. */
  lemma BlankSubmitIdempotent(s: NavState, hasHandler: bool)
    requires s.modalOpen && AllWhitespace(s.courseName)
    ensures var o := Step(s, Submit, hasHandler);
            o.effects == [] && o.state.modalOpen && o.state.courseName == s.courseName
            && Step(o.state, Submit, hasHandler) == o
  {
  }

  /** `n course`/`n courses`, `n student`/`n students`: the noun takes an
      `s` exactly when the count is not 1. */
  function Plural(count: nat, noun: string): (r: string)
    ensures count == 1 <==> r == noun
    ensures count != 1 <==> r == noun + "s"
  {
    if count != 1 then noun + "s" else noun
  }

  /** A count followed by the noun in the matching number. */
  function CountLabel(count: nat, noun: string): string {
    Decimal(count) + " " + Plural(count, noun)
  }

  /** The count at the start of the dropdown header, e.g. the `3 courses`
      of `3 courses you manage`. */
  function CourseCountLabel(count: nat): string {
    CountLabel(count, "course")
  }

  /** A course entry's student count, e.g. `1 student`. */
  function StudentCountLabel(count: nat): string {
    CountLabel(count, "student")
  }

  /** A label reads back as its count, a space and the noun, which is bare
      exactly when the count is 1. */
  lemma CountLabelReadsBack(count: nat, noun: string)
    ensures var d := Decimal(count);
            var shown := CountLabel(count, noun);
            && shown[..|d|] == d && AllDigits(shown[..|d|]) && ParseDecimal(shown[..|d|]) == count
            && shown[|d|] == ' '
            && (shown[|d| + 1..] == noun <==> count == 1)
  {
    ParseDecimalOfDecimal(count);
    var d := Decimal(count);
    var shown := CountLabel(count, noun);
    assert shown[..|d|] == d;
    assert shown[|d| + 1..] == Plural(count, noun);
  }

  /** The course and student labels use the singular exactly for a count of 1. */
  lemma CountLabelsReadBack(count: nat)
    ensures var d := Decimal(count);
            && ParseDecimal(CourseCountLabel(count)[..|d|]) == count
            && ParseDecimal(StudentCountLabel(count)[..|d|]) == count
            && (CourseCountLabel(count)[|d| + 1..] == "course" <==> count == 1)
            && (StudentCountLabel(count)[|d| + 1..] == "student" <==> count == 1)
  {
    CountLabelReadsBack(count, "course");
    CountLabelReadsBack(count, "student");
  }
}
