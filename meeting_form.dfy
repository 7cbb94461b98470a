/**
 * The meeting form shared by `react/src/pages/meeting/MeetingInsert.js` and
 * `react/src/pages/meeting/MeetingUpdate.js`: the form record, its
 * per-field change handlers and the two-step time check run before the
 * meeting is sent.
 *
 * A time is a number of minutes; `None` is a `datetime-local` value that
 * does not parse (for instance the empty string), which JavaScript turns
 * into an invalid date whose comparisons are all false.
 */
module MeetingForm {
  import opened Wrappers

  /** `formData`; `status` is present only on the update form. */
  datatype FormData = FormData(
    name: string,
    meetingType: string,
    startTime: Option<int>,
    endTime: Option<int>,
    students: seq<int>,
    tutors: seq<int>,
    status: Option<string>)

  /** The text inputs of the form, by their `name` attribute. */
  datatype TextField = NameField | TypeField

  /** The `datetime-local` inputs of the form. */
  datatype TimeField = StartField | EndField

  /** The two multi-selects. */
  datatype ListField = StudentsField | TutorsField

  /** One entry of a multi-select: what it shows and the id it stands for. */
  datatype SelectOption = SelectOption(caption: string, value: int)

  /** `handleChange` on a text input: that field takes the typed value. */
  function WithText(form: FormData, field: TextField, value: string): (r: FormData)
    ensures field == NameField ==> r == form.(name := value)
    ensures field == TypeField ==> r == form.(meetingType := value)
  {
    match field
    case NameField => form.(name := value)
    case TypeField => form.(meetingType := value)
  }

  /** `handleChange` on a time input. */
  function WithTime(form: FormData, field: TimeField, value: Option<int>): (r: FormData)
    ensures field == StartField ==> r == form.(startTime := value)
    ensures field == EndField ==> r == form.(endTime := value)
  {
    match field
    case StartField => form.(startTime := value)
    case EndField => form.(endTime := value)
  }

  /** `selected ? selected.map(option => option.value) : []`. */
  function SelectedValues(selected: Option<seq<SelectOption>>): (values: seq<int>)
    ensures selected.None? ==> values == []
    ensures selected.Some? ==> |values| == |selected.value|
    ensures selected.Some? ==> forall i :: 0 <= i < |values| ==> values[i] == selected.value[i].value
  {
    match selected
    case None => []
    case Some(options) => seq(|options|, i requires 0 <= i < |options| => options[i].value)
  }

  /** `handleMultiSelectChange(selected, field)`. */
  function WithSelection(form: FormData, field: ListField, selected: Option<seq<SelectOption>>): (r: FormData)
    ensures field == StudentsField ==> r == form.(students := SelectedValues(selected))
    ensures field == TutorsField ==> r == form.(tutors := SelectedValues(selected))
  {
    match field
    case StudentsField => form.(students := SelectedValues(selected))
    case TutorsField => form.(tutors := SelectedValues(selected))
  }

  /** Each change handler writes only its own field. */
  lemma ChangesTouchOneField(form: FormData, text: TextField, s: string, time: TimeField, t: Option<int>, list: ListField, sel: Option<seq<SelectOption>>)
    ensures WithText(form, text, s).(name := form.name, meetingType := form.meetingType) == form
    ensures WithTime(form, time, t).(startTime := form.startTime, endTime := form.endTime) == form
    ensures WithSelection(form, list, sel).(students := form.students, tutors := form.tutors) == form
    ensures text == NameField ==> WithText(form, text, s).meetingType == form.meetingType
    ensures time == StartField ==> WithTime(form, time, t).endTime == form.endTime
    ensures list == StudentsField ==> WithSelection(form, list, sel).tutors == form.tutors
  {
  }

  /** What the submit handler decides about the two times. */
  datatype TimeVerdict = StartInPast | EndNotAfterStart | TimesOk

  /** `startTime < currentTime`, false when the start does not parse. */
  predicate Before(t: Option<int>, now: int) {
    t.Some? && t.value < now
  }

  /** `endTime <= startTime`, false when either time does not parse. */
  predicate NotAfter(end: Option<int>, start: Option<int>) {
    end.Some? && start.Some? && end.value <= start.value
  }

  /** The two checks of `handleSubmit`, start first. */
  function CheckTimes(start: Option<int>, end: Option<int>, now: int): (verdict: TimeVerdict)
    ensures verdict == TimesOk && start.Some? ==> start.value >= now
    ensures verdict == TimesOk && start.Some? && end.Some? ==> end.value > start.value
    ensures verdict == EndNotAfterStart ==> start.Some? && end.Some? && end.value <= start.value
    ensures verdict == StartInPast ==> start.Some? && start.value < now
  {
    if Before(start, now) then StartInPast
    else if NotAfter(end, start) then EndNotAfterStart
    else TimesOk
  }

  /**
   * For times that parse, the form is sent exactly when the meeting starts
   * now or later and ends after it starts; a start in the past is reported
   * first, whatever the end.
   */
  lemma CheckTimesSpec(start: int, end: int, now: int)
    ensures CheckTimes(Some(start), Some(end), now) == TimesOk <==> start >= now && end > start
    ensures start < now ==> CheckTimes(Some(start), Some(end), now) == StartInPast
    ensures start >= now && end <= start ==> CheckTimes(Some(start), Some(end), now) == EndNotAfterStart
  {
  }

  /** A time that does not parse fails no check: only the inputs' `required` attribute keeps it out. */
  lemma UnparsedTimesPass(start: Option<int>, end: Option<int>, now: int)
    requires start.None? || end.None?
    ensures CheckTimes(start, end, now) != EndNotAfterStart
    ensures start.None? ==> CheckTimes(start, end, now) == TimesOk
  {
  }

  /** The call a meeting form makes to the meeting service. */
  datatype FormRequest =
    | CreateMeeting(form: FormData)
    | UpdateMeeting(id: int, form: FormData)
}
