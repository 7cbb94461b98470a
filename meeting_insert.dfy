/**
 * The "Add Meeting" form of `react/src/pages/meeting/MeetingInsert.js`:
 * a tutor starts with themself among the tutors, the times are checked
 * before the meeting is created, and a created meeting empties the form.
 */
module MeetingInsert {
  import opened Wrappers
  import opened MeetingForm

  /** The form as the page mounts: empty, with the user as the only tutor when the user is a tutor. */
  function InitialForm(role: string, userId: int): (form: FormData)
    ensures form.tutors == if role == "tutor" then [userId] else []
    ensures form.name == "" && form.meetingType == "" && form.startTime == None && form.endTime == None
    ensures form.students == [] && form.status == None
  {
    FormData("", "", None, None, [], if role == "tutor" then [userId] else [], None)
  }

  /** The form after a meeting was created: empty, with no tutor whatever the role. */
  const ClearedForm: FormData := FormData("", "", None, None, [], [], None)

  /** Only a tutor's fresh form differs from the cleared one, by the tutor's own id. */
  lemma InitialFormIsCleared(role: string, userId: int)
    ensures role != "tutor" ==> InitialForm(role, userId) == ClearedForm
    ensures role == "tutor" ==> InitialForm(role, userId) == ClearedForm.(tutors := [userId])
  {
  }

  /** `o` is the first of the options whose value is `id`. */
  ghost predicate FirstWithValue(options: seq<SelectOption>, id: int, o: SelectOption) {
    exists k :: 0 <= k < |options| && options[k] == o && o.value == id && (forall j :: 0 <= j < k ==> options[j].value != id)
  }

  /** `options.find(option => option.value === id)`. */
  function FindOption(options: seq<SelectOption>, id: int): (found: Option<SelectOption>)
    ensures found.Some? ==> found.value in options && found.value.value == id
    ensures found.None? ==> forall o :: o in options ==> o.value != id
    ensures found.Some? ==> FirstWithValue(options, id, found.value)
    decreases |options|
  {
    if options == [] then None
    else if options[0].value == id then Some(options[0])
    else
      var r := FindOption(options[1..], id);
      FirstInTail(options, id, r);
      r
  }

  /** A first match in the tail is a first match in the list when the head does not match. */
  lemma FirstInTail(options: seq<SelectOption>, id: int, r: Option<SelectOption>)
    requires options != [] && options[0].value != id
    requires r.Some? ==> FirstWithValue(options[1..], id, r.value)
    ensures r.Some? ==> FirstWithValue(options, id, r.value)
  {
    if r.Some? {
      var k :| 0 <= k < |options[1..]| && options[1..][k] == r.value
        && forall j :: 0 <= j < k ==> options[1..][j].value != id;
      assert options[k + 1] == r.value;
      forall j | 0 <= j < k + 1 ensures options[j].value != id {
        if j > 0 { assert options[j] == options[1..][j - 1]; }
      }
    }
  }

  /** When option values are distinct, looking up a listed option's value finds that option. */
  lemma {:induction false} FindListedOption(options: seq<SelectOption>, o: SelectOption)
    requires forall i, j :: 0 <= i < j < |options| ==> options[i].value != options[j].value
    requires o in options
    ensures FindOption(options, o.value) == Some(o)
    decreases |options|
  {
    if options[0] != o {
      assert o in options[1..];
      var k :| 0 <= k < |options[1..]| && options[1..][k] == o;
      assert options[0].value != options[k + 1].value;
      FindListedOption(options[1..], o);
    }
  }

  /** `formData.students.map(id => options.find(option => option.value === id))`: what a multi-select shows. */
  function Shown(options: seq<SelectOption>, ids: seq<int>): (shown: seq<Option<SelectOption>>)
    ensures |shown| == |ids|
  {
    seq(|ids|, i requires 0 <= i < |ids| => FindOption(options, ids[i]))
  }

  /**
   * A multi-select shows back exactly the options just chosen in it, in the
   * order chosen, as long as the option values are distinct.
   */
  lemma ShownAfterSelection(options: seq<SelectOption>, selected: seq<SelectOption>)
    requires forall i, j :: 0 <= i < j < |options| ==> options[i].value != options[j].value
    requires forall o :: o in selected ==> o in options
    ensures forall i :: 0 <= i < |selected| ==> Shown(options, SelectedValues(Some(selected)))[i] == Some(selected[i])
  {
    forall i | 0 <= i < |selected| ensures Shown(options, SelectedValues(Some(selected)))[i] == Some(selected[i]) {
      assert selected[i] in selected;
      FindListedOption(options, selected[i]);
    }
  }

  /** The page's form and the calls it has made. */
  class InsertPage {
    const role: string
    const userId: int
    var form: FormData
    var requests: seq<FormRequest>

    constructor (role: string, userId: int)
      ensures this.role == role && this.userId == userId
      ensures form == InitialForm(role, userId) && requests == []
    {
      this.role, this.userId := role, userId;
      form, requests := InitialForm(role, userId), [];
    }

    /** `handleChange` on a text input. */
    method HandleTextChange(field: TextField, value: string)
      modifies this`form
      ensures form == WithText(old(form), field, value)
    {
      form := WithText(form, field, value);
    }

    /** `handleChange` on a time input. */
    method HandleTimeChange(field: TimeField, value: Option<int>)
      modifies this`form
      ensures form == WithTime(old(form), field, value)
    {
      form := WithTime(form, field, value);
    }

    /** `handleMultiSelectChange`. */
    method HandleMultiSelectChange(selected: Option<seq<SelectOption>>, field: ListField)
      modifies this`form
      ensures form == WithSelection(old(form), field, selected)
    {
      form := WithSelection(form, field, selected);
    }

    /**
     * `handleSubmit`: the times are checked at `now`; only when both checks
     * pass is the meeting created, and only a successful creation empties
     * the form.
     */
    method HandleSubmit(now: int, callOk: bool) returns (verdict: TimeVerdict)
      modifies this`form, this`requests
      ensures verdict == CheckTimes(old(form).startTime, old(form).endTime, now)
      ensures requests == old(requests) + (if verdict == TimesOk then [CreateMeeting(old(form))] else [])
      ensures form == if verdict == TimesOk && callOk then ClearedForm else old(form)
    {
      if Before(form.startTime, now) {
        return StartInPast;
      }
      if NotAfter(form.endTime, form.startTime) {
        return EndNotAfterStart;
      }
      verdict := TimesOk;
      requests := requests + [CreateMeeting(form)];
      if callOk {
        form := ClearedForm;
      }
    }
  }
}
