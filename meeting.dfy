/**
 * The meeting list of `react/src/pages/Meeting.js`: search by name or type,
 * pagination, the per-row status select and the delete button offered to
 * staff and administrators.
 */
module Meeting {
  import opened Wrappers
  import opened Lists
  import opened Text
  import opened Paging

  /** `const perPage = 5`. */
  const PerPage: nat := 5

  /** A meeting row; `name` and `meetingType` (the `type` field) may be missing. */
  datatype Meeting = Meeting(id: int, name: Option<string>, meetingType: Option<string>, status: string, startTime: string, endTime: string)

  /** `meeting.name?.toLowerCase().includes(t) || meeting.type?.toLowerCase().includes(t)`. */
  predicate MeetingMatches(m: Meeting, term: string) {
    MatchesCI(m.name, term) || MatchesCI(m.meetingType, term)
  }

  /** `filteredMeetings`: the matching meetings in list order, or none when the state is not an array. */
  function FilteredMeetings(meetings: ListState<Meeting>, term: string): (found: seq<Meeting>)
    ensures meetings.NotArray? ==> found == []
    ensures meetings.Items? ==> forall m :: m in found <==> m in meetings.items && MeetingMatches(m, term)
  {
    FilterState(meetings, (m: Meeting) => MeetingMatches(m, term))
  }

  /** The filter never reorders: it is a sub-sequence, so filtering a list that is already filtered changes nothing. */
  lemma FilteredMeetingsIdempotent(items: seq<Meeting>, term: string)
    ensures FilteredMeetings(Items(FilteredMeetings(Items(items), term)), term) == FilteredMeetings(Items(items), term)
  {
    FilterKeepsAll(FilteredMeetings(Items(items), term), (m: Meeting) => MeetingMatches(m, term));
  }

  /** The rows of the current page: at most five, each a listed meeting that matches the search. */
  function MeetingRows(meetings: ListState<Meeting>, term: string, currentPage: int): (rows: seq<Meeting>)
    ensures |rows| <= PerPage
    ensures meetings.NotArray? ==> rows == []
    ensures forall m :: m in rows ==> meetings.Items? && m in meetings.items && MeetingMatches(m, term)
  {
    Paginate(FilteredMeetings(meetings, term), currentPage, PerPage)
  }

  /**
   * A page shows at most five meetings, each of them a listed meeting that
   * matches the search; walking the pager from page 1 to the page count
   * shows every match once, in order, and the pager is shown exactly when
   * the matches do not fit on one page.
   */
  lemma MeetingRowsMatch(meetings: ListState<Meeting>, term: string, currentPage: int)
    requires currentPage >= 1
    ensures |MeetingRows(meetings, term, currentPage)| <= PerPage
    ensures forall m :: m in MeetingRows(meetings, term, currentPage) ==>
      meetings.Items? && m in meetings.items && MeetingMatches(m, term)
    ensures Pages(FilteredMeetings(meetings, term), PerPage, PageCount(|FilteredMeetings(meetings, term)|, PerPage)) ==
      FilteredMeetings(meetings, term)
    ensures ShowPager(|FilteredMeetings(meetings, term)|, PerPage) <==> |FilteredMeetings(meetings, term)| > PerPage
  {
    PagesCoverAll(FilteredMeetings(meetings, term), PerPage);
    ShowPagerIff(|FilteredMeetings(meetings, term)|, PerPage);
    var found := FilteredMeetings(meetings, term);
    PageWindow(found, currentPage, PerPage);
    forall m | m in MeetingRows(meetings, term, currentPage) ensures m in found {
      var start := PageStart(currentPage, PerPage);
      assert MeetingRows(meetings, term, currentPage) == found[start..Min(start + PerPage, |found|)];
    }
  }

  /** The number in the `#` column of a row is its position among the matching meetings. */
  lemma MeetingRowNumber(meetings: ListState<Meeting>, term: string, currentPage: int, index: int)
    requires currentPage >= 1
    requires 0 <= index < |MeetingRows(meetings, term, currentPage)|
    ensures 1 <= RowNumber(currentPage, PerPage, index) <= |FilteredMeetings(meetings, term)|
    ensures MeetingRows(meetings, term, currentPage)[index] ==
      FilteredMeetings(meetings, term)[RowNumber(currentPage, PerPage, index) - 1]
  {
    RowNumberIsPosition(FilteredMeetings(meetings, term), currentPage, PerPage, index);
  }

  /** `meetings.map(m => m.id === id ? {...m, status} : m)`. */
  function SetStatus(meetings: seq<Meeting>, id: int, status: string): (r: seq<Meeting>)
    ensures |r| == |meetings|
  {
    seq(|meetings|, i requires 0 <= i < |meetings| => if meetings[i].id == id then meetings[i].(status := status) else meetings[i])
  }

  /**
   * A status change touches only the `status` of the meetings with that id:
   * the list keeps its length and order, and every other field and every
   * other meeting are unchanged.
   */
  lemma SetStatusSpec(meetings: seq<Meeting>, id: int, status: string)
    ensures forall i :: 0 <= i < |meetings| ==>
      && SetStatus(meetings, id, status)[i].(status := meetings[i].status) == meetings[i]
      && (meetings[i].id == id ==> SetStatus(meetings, id, status)[i].status == status)
      && (meetings[i].id != id ==> SetStatus(meetings, id, status)[i] == meetings[i])
  {
  }

  /** Choosing a status and then another is the same as choosing only the second. */
  lemma SetStatusLastWins(meetings: seq<Meeting>, id: int, first: string, second: string)
    ensures SetStatus(SetStatus(meetings, id, first), id, second) == SetStatus(meetings, id, second)
  {
  }

  /** Choosing the status a meeting already has changes nothing. */
  lemma SetStatusSame(meetings: seq<Meeting>, id: int, status: string)
    requires forall m :: m in meetings && m.id == id ==> m.status == status
    ensures SetStatus(meetings, id, status) == meetings
  {
    forall i | 0 <= i < |meetings| ensures SetStatus(meetings, id, status)[i] == meetings[i] {
      assert meetings[i] in meetings;
    }
  }

  /** `meetings.filter(m => m.id !== id)`. */
  function RemoveMeeting(meetings: seq<Meeting>, id: int): (r: seq<Meeting>)
    ensures |r| <= |meetings|
    ensures forall m :: m in r <==> m in meetings && m.id != id
  {
    Filter(meetings, (m: Meeting) => m.id != id)
  }

  /** Removing a meeting that is not listed changes nothing, and removing twice is removing once. */
  lemma RemoveMeetingSpec(meetings: seq<Meeting>, id: int)
    ensures (forall m :: m in meetings ==> m.id != id) ==> RemoveMeeting(meetings, id) == meetings
    ensures RemoveMeeting(RemoveMeeting(meetings, id), id) == RemoveMeeting(meetings, id)
  {
    FilterKeepsAll(RemoveMeeting(meetings, id), (m: Meeting) => m.id != id);
    if forall m :: m in meetings ==> m.id != id {
      FilterKeepsAll(meetings, (m: Meeting) => m.id != id);
    }
  }

  /** `user.role !== "student" && user.role !== "tutor"`: the Delete button is offered. */
  predicate CanDeleteMeetings(role: string) {
    role != "student" && role != "tutor"
  }

  /**
   * The Delete button is shut off for two roles only: staff and
   * administrators get it, and so does any other role, the stand-in guest
   * included.
   */
  lemma DeleteIsDenyList(role: string)
    ensures !CanDeleteMeetings("student") && !CanDeleteMeetings("tutor")
    ensures CanDeleteMeetings("staff") && CanDeleteMeetings("admin") && CanDeleteMeetings("guest")
    ensures role != "student" && role != "tutor" ==> CanDeleteMeetings(role)
  {
  }

  /** A call the page makes to the meeting service. */
  datatype MeetingRequest =
    | DeleteMeeting(id: int)
    | UpdateStatus(id: int, status: string)

  /** The page's state fields and the service calls it has made. */
  class MeetingPage {
    /** `meetings`, as fetched: possibly not an array. */
    var meetings: ListState<Meeting>
    var searchTerm: string
    var currentPage: int
    var requests: seq<MeetingRequest>

    /** The page mounts with the fetched meetings, on page 1, with an empty search. */
    constructor (meetings: ListState<Meeting>)
      ensures this.meetings == meetings && searchTerm == "" && currentPage == 1 && requests == []
    {
      this.meetings, searchTerm, currentPage, requests := meetings, "", 1, [];
    }

    /**
     * `handleDelete`: nothing happens unless the user confirms; the service is
     * then called, and only when it succeeds are the meetings with that id
     * removed from the list.
     */
    method HandleDelete(id: int, confirmed: bool, callOk: bool)
      modifies this`meetings, this`requests
      ensures requests == old(requests) + (if confirmed then [DeleteMeeting(id)] else [])
      ensures meetings == if confirmed && callOk && old(meetings).Items?
        then Items(RemoveMeeting(old(meetings).items, id)) else old(meetings)
    {
      if !confirmed {
        return;
      }
      requests := requests + [DeleteMeeting(id)];
      if callOk && meetings.Items? {
        meetings := Items(RemoveMeeting(meetings.items, id));
      }
    }

    /** `handleStatusChange`: the service is called, and the list is updated only when it succeeds. */
    method HandleStatusChange(id: int, status: string, callOk: bool)
      modifies this`meetings, this`requests
      ensures requests == old(requests) + [UpdateStatus(id, status)]
      ensures meetings == if callOk && old(meetings).Items?
        then Items(SetStatus(old(meetings).items, id, status)) else old(meetings)
    {
      requests := requests + [UpdateStatus(id, status)];
      if callOk && meetings.Items? {
        meetings := Items(SetStatus(meetings.items, id, status));
      }
    }

    /** The search box: the page number is kept as it is. */
    method SetSearchTerm(term: string)
      modifies this`searchTerm
      ensures searchTerm == term && currentPage == old(currentPage)
    {
      searchTerm := term;
    }

    /** A click on the pager, which is shown only when there is more than one page of matches. */
    method ClickPager(click: PagerClick)
      requires OnPager(click, PageCount(|FilteredMeetings(meetings, searchTerm)|, PerPage))
      modifies this`currentPage
      ensures currentPage == Navigate(old(currentPage), PageCount(|FilteredMeetings(meetings, searchTerm)|, PerPage), click)
    {
      currentPage := Navigate(currentPage, PageCount(|FilteredMeetings(meetings, searchTerm)|, PerPage), click);
    }
  }
}
