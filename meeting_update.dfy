/**
 * The "Meeting Update" form of `react/src/pages/meeting/MeetingUpdate.js`:
 * the stored meeting is loaded into the form, the multi-selects show the
 * options whose ids the form holds, and the same time checks guard the
 * update, which leaves the form as it is.
 */
module MeetingUpdate {
  import opened Wrappers
  import opened Lists
  import opened MeetingForm
  import MeetingInsert

  /** A participant of a stored meeting. */
  datatype Participant = Participant(id: int, name: string)

  /** The stored meeting as the service returns it. */
  datatype MeetingDetails = MeetingDetails(
    name: string,
    meetingType: string,
    startTime: Option<int>,
    endTime: Option<int>,
    students: seq<Participant>,
    tutors: seq<Participant>,
    status: string)

  /** `people.map(p => p.id)`. */
  function IdsOf(people: seq<Participant>): (ids: seq<int>)
    ensures |ids| == |people|
    ensures forall i :: 0 <= i < |people| ==> ids[i] == people[i].id
  {
    seq(|people|, i requires 0 <= i < |people| => people[i].id)
  }

  /** The form before the stored meeting arrives. */
  function InitialForm(role: string, userId: int): (form: FormData)
    ensures form.tutors == if role == "tutor" then [userId] else []
    ensures form.name == "" && form.meetingType == "" && form.startTime == None && form.endTime == None
    ensures form.students == [] && form.status == Some("")
  {
    FormData("", "", None, None, [], if role == "tutor" then [userId] else [], Some(""))
  }

  /**
   * The update form starts as the create form does, tutor included, except
   * that it also holds an empty status.
   */
  lemma InitialFormMatchesInsert(role: string, userId: int)
    ensures InitialForm(role, userId) == MeetingInsert.InitialForm(role, userId).(status := Some(""))
    ensures InitialForm(role, userId).(status := None) == MeetingInsert.InitialForm(role, userId)
  {
  }

  /** The form filled from the stored meeting: participants become their ids, in the same order. */
  function LoadedForm(data: MeetingDetails): (form: FormData)
    ensures form.students == IdsOf(data.students) && form.tutors == IdsOf(data.tutors)
    ensures form.name == data.name && form.meetingType == data.meetingType && form.status == Some(data.status)
    ensures form.startTime == data.startTime && form.endTime == data.endTime
  {
    FormData(data.name, data.meetingType, data.startTime, data.endTime, IdsOf(data.students), IdsOf(data.tutors), Some(data.status))
  }

  /** `options.filter(option => ids.includes(option.value))`: what a multi-select shows as chosen. */
  function ChosenOptions(options: seq<SelectOption>, ids: seq<int>): (chosen: seq<SelectOption>)
    ensures forall o :: o in chosen <==> o in options && o.value in ids
  {
    Filter(options, (o: SelectOption) => o.value in ids)
  }

  /**
   * Right after loading, a multi-select shows as chosen exactly the options
   * for the meeting's participants.
   */
  lemma LoadedChoices(options: seq<SelectOption>, data: MeetingDetails)
    ensures forall o :: o in ChosenOptions(options, LoadedForm(data).students) <==>
      o in options && exists p :: p in data.students && p.id == o.value
  {
    var ids := IdsOf(data.students);
    forall o: SelectOption ensures o.value in ids <==> exists p :: p in data.students && p.id == o.value {
      if o.value in ids {
        var i :| 0 <= i < |ids| && ids[i] == o.value;
        assert data.students[i] in data.students;
      }
      if exists p :: p in data.students && p.id == o.value {
        var p :| p in data.students && p.id == o.value;
        var i :| 0 <= i < |data.students| && data.students[i] == p;
        assert ids[i] == o.value;
      }
    }
  }

  /** Choosing options and showing them again gives back exactly the chosen options. */
  lemma ChosenAfterSelection(options: seq<SelectOption>, selected: seq<SelectOption>)
    requires forall o :: o in selected ==> o in options
    requires forall o, o' :: o in options && o' in options && o.value == o'.value ==> o == o'
    ensures forall o :: o in ChosenOptions(options, SelectedValues(Some(selected))) <==> o in selected
  {
    var values := SelectedValues(Some(selected));
    forall o: SelectOption ensures o in ChosenOptions(options, values) <==> o in selected {
      if o in selected {
        var i :| 0 <= i < |selected| && selected[i] == o;
        assert values[i] == o.value;
      }
      if o in options && o.value in values {
        var i :| 0 <= i < |values| && values[i] == o.value;
        assert selected[i] in selected;
      }
    }
  }

  /** The page's form and the calls it has made. */
  class UpdatePage {
    /** The meeting id from the address. */
    const meetingId: int
    var form: FormData
    var requests: seq<FormRequest>

    constructor (meetingId: int, role: string, userId: int)
      ensures this.meetingId == meetingId && form == InitialForm(role, userId) && requests == []
    {
      this.meetingId := meetingId;
      form, requests := InitialForm(role, userId), [];
    }

    /** The stored meeting arrives; when it cannot be read the form stays as it was. */
    method Load(data: Option<MeetingDetails>)
      modifies this`form
      ensures form == if data.Some? then LoadedForm(data.value) else old(form)
    {
      if data.Some? {
        form := LoadedForm(data.value);
      }
    }

    /** `handleChange` on a text input. */
    method HandleTextChange(field: TextField, value: string)
      modifies this`form
      ensures form == WithText(old(form), field, value)
    {
      form := WithText(form, field, value);
    }

    /** `handleChange` on a time input. */
    method HandleTimeChange(field: TimeField, value: Option<int>)
      modifies this`form
      ensures form == WithTime(old(form), field, value)
    {
      form := WithTime(form, field, value);
    }

    /** `handleMultiSelectChange`. */
    method HandleMultiSelectChange(selected: Option<seq<SelectOption>>, field: ListField)
      modifies this`form
      ensures form == WithSelection(old(form), field, selected)
    {
      form := WithSelection(form, field, selected);
    }

    /** `handleSubmit`: the same two checks; the update is sent only when both pass, and the form is kept. */
    method HandleSubmit(now: int) returns (verdict: TimeVerdict)
      modifies this`requests
      ensures verdict == CheckTimes(form.startTime, form.endTime, now)
      ensures requests == old(requests) + (if verdict == TimesOk then [UpdateMeeting(meetingId, form)] else [])
    {
      if Before(form.startTime, now) {
        return StartInPast;
      }
      if NotAfter(form.endTime, form.startTime) {
        return EndNotAfterStart;
      }
      requests := requests + [UpdateMeeting(meetingId, form)];
      return TimesOk;
    }
  }
}
