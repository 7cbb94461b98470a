/**
 * The tutor list of `react/src/pages/Tutor.js`: the shared name-or-e-mail
 * search, pagination, the page count and the row numbers.
 */
module Tutor {
  import opened Wrappers
  import opened Paging
  import opened People

  /** `const perPage = 5`. */
  const PerPage: nat := 5

  /** `paginate(filteredUsers, currentPage, perPage)`. */
  function TutorRows(tutors: seq<Person>, term: string, currentPage: int): (rows: seq<Person>)
    ensures |rows| <= PerPage
    ensures forall t :: t in rows ==> t in tutors && PersonMatches(t, term)
  {
    Paginate(SearchPeople(tutors, term), currentPage, PerPage)
  }

  /** `Math.ceil(filteredUsers.length / perPage)`. */
  function TutorPageCount(tutors: seq<Person>, term: string): (pages: nat)
    ensures pages * PerPage >= |SearchPeople(tutors, term)|
    ensures pages > 0 ==> (pages - 1) * PerPage < |SearchPeople(tutors, term)|
  {
    PageCount(|SearchPeople(tutors, term)|, PerPage)
  }

  /**
   * The number in the `#` column is the row's position among all matching
   * tutors, every page holds at most five rows, and the pages from 1 to the
   * page count list every matching tutor once, in order.
   */
  lemma TutorRowsSpec(tutors: seq<Person>, term: string, currentPage: int, index: int)
    requires currentPage >= 1
    requires 0 <= index < |TutorRows(tutors, term, currentPage)|
    ensures |TutorRows(tutors, term, currentPage)| <= PerPage
    ensures 1 <= RowNumber(currentPage, PerPage, index) <= |SearchPeople(tutors, term)|
    ensures TutorRows(tutors, term, currentPage)[index] == SearchPeople(tutors, term)[RowNumber(currentPage, PerPage, index) - 1]
    ensures Pages(SearchPeople(tutors, term), PerPage, TutorPageCount(tutors, term)) == SearchPeople(tutors, term)
  {
    var found := SearchPeople(tutors, term);
    assert TutorRows(tutors, term, currentPage) == Paginate(found, currentPage, PerPage);
    RowNumberIsPosition(found, currentPage, PerPage, index);
    PagesCoverAll(found, PerPage);
  }

  /** The page's state fields: the fetched tutors, the search, the page and the details dialog. */
  class TutorPage {
    var users: seq<Person>
    var searchTerm: string
    var currentPage: int
    var showModal: bool
    var selectedUser: Option<Person>
    var students: seq<Person>

    /** The page mounts with the fetched tutors (`data?.data || []`), on page 1, with the dialog closed. */
    constructor (users: seq<Person>)
      ensures this.users == users && searchTerm == "" && currentPage == 1
      ensures !showModal && selectedUser == None && students == []
    {
      this.users, searchTerm, currentPage := users, "", 1;
      showModal, selectedUser, students := false, None, [];
    }

    /** The search box: the page number is kept as it is. */
    method SetSearchTerm(term: string)
      modifies this`searchTerm
      ensures searchTerm == term && currentPage == old(currentPage)
    {
      searchTerm := term;
    }

    /** A click on the pager, which is shown only when there is more than one page of matches. */
    method ClickPager(click: PagerClick)
      requires OnPager(click, TutorPageCount(users, searchTerm))
      modifies this`currentPage
      ensures currentPage == Navigate(old(currentPage), TutorPageCount(users, searchTerm), click)
    {
      currentPage := Navigate(currentPage, TutorPageCount(users, searchTerm), click);
    }

    /**
     * `handleShowDetails`: the dialog opens on the tutor, then shows the
     * students the service returned for that tutor (`data?.data || []`).
     * When the call throws (`fetched == None`) the student list is left as it
     * was, so the dialog shows the previous tutor's students.
     */
    method HandleShowDetails(user: Person, fetched: Option<seq<Person>>)
      modifies this`selectedUser, this`showModal, this`students
      ensures selectedUser == Some(user) && showModal
      ensures students == if fetched.Some? then fetched.value else old(students)
    {
      selectedUser := Some(user);
      showModal := true;
      if fetched.Some? {
        students := fetched.value;
      }
    }

    /** The dialog's close and Cancel buttons: the tutor and its students stay loaded. */
    method CloseModal()
      modifies this`showModal
      ensures !showModal
    {
      showModal := false;
    }
  }
}
