/**
 * The student management page of `react/src/pages/Student.js`: the
 * searchable, paginated student list, the check-box selection with its
 * "select the whole page" toggle, per-student tutor assignment and the bulk
 * assignment of one tutor to every selected student.
 */
module Student {
  import opened Lists
  import opened Paging
  import opened People

  /** `const perPage = 5`. */
  const PerPage: nat := 5

  /** `filteredUsers.slice((currentPage - 1) * perPage, currentPage * perPage)`. */
  function StudentRows(users: seq<Person>, term: string, currentPage: int): (rows: seq<Person>)
    ensures |rows| <= |users|
    ensures |rows| <= PerPage
    ensures forall u :: u in rows ==> u in users && PersonMatches(u, term)
  {
    Slice(SearchPeople(users, term), (currentPage - 1) * PerPage, currentPage * PerPage)
  }

  /**
   * The page's own slice is the shared `paginate` window, so for a real page
   * number it holds at most five rows; the pager is shown exactly when the
   * matches do not fit on one page.
   */
  lemma StudentRowsArePages(users: seq<Person>, term: string, currentPage: int)
    requires currentPage >= 1
    ensures StudentRows(users, term, currentPage) == Paginate(SearchPeople(users, term), currentPage, PerPage)
    ensures |StudentRows(users, term, currentPage)| <= PerPage
    ensures ShowPager(|SearchPeople(users, term)|, PerPage) <==> |SearchPeople(users, term)| > PerPage
  {
    ShowPagerIff(|SearchPeople(users, term)|, PerPage);
    assert PageStart(currentPage, PerPage) + PerPage == currentPage * PerPage;
    PageWindow(SearchPeople(users, term), currentPage, PerPage);
  }

  /** The number in the `#` column of a row is its position among the matching students. */
  lemma StudentRowNumber(users: seq<Person>, term: string, currentPage: int, index: int)
    requires currentPage >= 1
    requires 0 <= index < |StudentRows(users, term, currentPage)|
    ensures 1 <= RowNumber(currentPage, PerPage, index) <= |SearchPeople(users, term)|
    ensures StudentRows(users, term, currentPage)[index] == SearchPeople(users, term)[RowNumber(currentPage, PerPage, index) - 1]
  {
    StudentRowsArePages(users, term, currentPage);
    RowNumberIsPosition(SearchPeople(users, term), currentPage, PerPage, index);
  }

  /** `paginatedUsers.map(user => user.id)`. */
  function Ids(rows: seq<Person>): (ids: seq<int>)
    ensures |ids| == |rows|
    ensures forall i :: 0 <= i < |rows| ==> ids[i] == rows[i].id
  {
    seq(|rows|, i requires 0 <= i < |rows| => rows[i].id)
  }

  /** `handleStudentSelect`: a selected id is unselected (every copy), another one is appended. */
  function Toggle(selected: seq<int>, id: int): (r: seq<int>)
    ensures id in r <==> id !in selected
    ensures forall x :: x != id ==> (x in r <==> x in selected)
    ensures id !in selected ==> r == selected + [id]
  {
    if id in selected then Without(selected, [id]) else selected + [id]
  }

  /** Toggling the same student twice restores exactly who is selected. */
  lemma ToggleTwice(selected: seq<int>, id: int)
    ensures forall x :: x in Toggle(Toggle(selected, id), id) <==> x in selected
    ensures id !in selected ==> Toggle(Toggle(selected, id), id) == selected
  {
    if id !in selected {
      WithoutSnoc(selected, id, [id]);
      WithoutUntouched(selected, [id]);
    }
  }

  /** The selection never lists a student twice. */
  lemma ToggleKeepsDistinct(selected: seq<int>, id: int)
    requires Distinct(selected)
    ensures Distinct(Toggle(selected, id))
  {
    if id in selected {
      WithoutDistinct(selected, [id]);
    } else {
      var r := selected + [id];
      forall i, j | 0 <= i < j < |r| ensures r[i] != r[j] {
        if j == |selected| { assert r[i] in selected; }
      }
    }
  }

  /** `currentPageIds.every(id => selectedStudents.includes(id))`. */
  predicate AllSelected(pageIds: seq<int>, selected: seq<int>) {
    forall id :: id in pageIds ==> id in selected
  }

  /** `handleSelectAll`. */
  function SelectAll(selected: seq<int>, pageIds: seq<int>): (r: seq<int>)
    ensures forall x :: x in r <==> if AllSelected(pageIds, selected) then x in selected && x !in pageIds else x in selected || x in pageIds
  {
    if AllSelected(pageIds, selected) then Without(selected, pageIds) else Dedup(selected + pageIds)
  }

  /**
   * When not every row of the page is selected, select-all keeps the
   * current selection as it is and appends the page's unselected ids, once
   * each, in page order.
   */
  lemma SelectAllAppendsNew(selected: seq<int>, pageIds: seq<int>)
    requires Distinct(selected) && !AllSelected(pageIds, selected)
    ensures SelectAll(selected, pageIds) == selected + Dedup(Without(pageIds, selected))
  {
    DedupAppend(selected, pageIds);
  }

  /** On an empty page every id is vacuously selected, and select-all changes nothing. */
  lemma SelectAllEmptyPage(selected: seq<int>)
    ensures SelectAll(selected, []) == selected
  {
    WithoutNothing(selected);
  }

  /**
   * Pressing select-all twice on a page none of whose rows was selected
   * returns the selection to what it was.
   */
  lemma SelectAllTwice(selected: seq<int>, pageIds: seq<int>)
    requires Distinct(selected) && pageIds != []
    requires forall id :: id in pageIds ==> id !in selected
    ensures SelectAll(SelectAll(selected, pageIds), pageIds) == selected
  {
    assert !AllSelected(pageIds, selected) by {
      var first := pageIds[0];
      assert first in pageIds;
    }
    var added := Dedup(pageIds);
    assert SelectAll(selected, pageIds) == selected + added by {
      SelectAllAppendsNew(selected, pageIds);
      WithoutUntouched(pageIds, selected);
    }
    var once := selected + added;
    assert AllSelected(pageIds, once);
    calc {
      SelectAll(once, pageIds);
      Without(once, pageIds);
      { WithoutAppend(selected, added, pageIds); }
      Without(selected, pageIds) + Without(added, pageIds);
      { WithoutUntouched(selected, pageIds); WithoutAll(added, pageIds); }
      selected + [];
      selected;
    }
  }

  /** Select-all keeps the selection free of duplicates. */
  lemma SelectAllKeepsDistinct(selected: seq<int>, pageIds: seq<int>)
    requires Distinct(selected)
    ensures Distinct(SelectAll(selected, pageIds))
  {
    if AllSelected(pageIds, selected) {
      WithoutDistinct(selected, pageIds);
    } else {
      DedupDistinct(selected + pageIds);
    }
  }

  /** The background of a student's tutor select after a choice: white only for "Choose a Tutor" ("0"). */
  function TutorColour(tutorId: string): (colour: string)
    ensures colour == "white" <==> tutorId == "0"
  {
    if tutorId != "0" then "#d1ecf1" else "white"
  }

  /** A call the page makes to the user service. */
  datatype StudentRequest =
    | AssignTutor(studentId: int, tutorId: string)
    | BulkAssign(tutorId: string, studentIds: seq<int>)

  /** The page's state fields and the service calls it has made. */
  class StudentPage {
    var users: seq<Person>
    var selectedStudents: seq<int>
    var selectedTutors: map<int, string>
    var tutorColors: map<int, string>
    var selectedTutor: string
    var searchTerm: string
    var currentPage: int
    var requests: seq<StudentRequest>

    /**
     * The selection lists each student at most once, and every student whose
     * tutor was chosen on this page has the colour of that choice.
     */
    ghost predicate Valid()
      reads this
    {
      && Distinct(selectedStudents)
      && tutorColors.Keys == selectedTutors.Keys
      && forall id :: id in selectedTutors ==> tutorColors[id] == TutorColour(selectedTutors[id])
    }

    /** The page mounts with the fetched students, on page 1, with nothing selected. */
    constructor (users: seq<Person>)
      ensures Valid()
      ensures this.users == users && selectedStudents == [] && selectedTutors == map[] && tutorColors == map[]
      ensures selectedTutor == "" && searchTerm == "" && currentPage == 1 && requests == []
    {
      this.users := users;
      selectedStudents, selectedTutors, tutorColors := [], map[], map[];
      selectedTutor, searchTerm, currentPage, requests := "", "", 1, [];
    }

    /** A student's check box. */
    method HandleStudentSelect(id: int)
      requires Valid()
      modifies this`selectedStudents
      ensures Valid()
      ensures selectedStudents == Toggle(old(selectedStudents), id)
    {
      ToggleKeepsDistinct(selectedStudents, id);
      if id in selectedStudents {
        selectedStudents := Without(selectedStudents, [id]);
      } else {
        selectedStudents := selectedStudents + [id];
      }
    }

    /** The header check box: select or unselect the rows of the current page. */
    method HandleSelectAll()
      requires Valid()
      modifies this`selectedStudents
      ensures Valid()
      ensures selectedStudents == SelectAll(old(selectedStudents), Ids(StudentRows(users, searchTerm, currentPage)))
    {
      var pageIds := Ids(StudentRows(users, searchTerm, currentPage));
      SelectAllKeepsDistinct(selectedStudents, pageIds);
      if AllSelected(pageIds, selectedStudents) {
        selectedStudents := Without(selectedStudents, pageIds);
      } else {
        selectedStudents := Dedup(selectedStudents + pageIds);
      }
    }

    /** `handleTutorSelect`: records the choice and its colour for that student only, then calls the service. */
    method HandleTutorSelect(studentId: int, tutorId: string)
      requires Valid()
      modifies this`selectedTutors, this`tutorColors, this`requests
      ensures Valid()
      ensures selectedTutors == old(selectedTutors)[studentId := tutorId]
      ensures tutorColors == old(tutorColors)[studentId := TutorColour(tutorId)]
      ensures requests == old(requests) + [AssignTutor(studentId, tutorId)]
    {
      selectedTutors := selectedTutors[studentId := tutorId];
      tutorColors := tutorColors[studentId := TutorColour(tutorId)];
      requests := requests + [AssignTutor(studentId, tutorId)];
    }

    /**
     * `handleBulkAssignTutor`: with no tutor chosen it only warns; otherwise
     * it sends the whole selection and, when the call succeeds, clears it.
     */
    method HandleBulkAssignTutor(callOk: bool) returns (warned: bool)
      requires Valid()
      modifies this`selectedStudents, this`requests
      ensures Valid()
      ensures warned <==> selectedTutor == ""
      ensures warned ==> requests == old(requests) && selectedStudents == old(selectedStudents)
      ensures !warned ==> requests == old(requests) + [BulkAssign(selectedTutor, old(selectedStudents))]
      ensures !warned ==> selectedStudents == if callOk then [] else old(selectedStudents)
    {
      if selectedTutor == "" {
        return true;
      }
      requests := requests + [BulkAssign(selectedTutor, selectedStudents)];
      if callOk {
        selectedStudents := [];
      }
      return false;
    }

    /** The search box: the page number is kept as it is. */
    method SetSearchTerm(term: string)
      requires Valid()
      modifies this`searchTerm
      ensures Valid()
      ensures searchTerm == term && currentPage == old(currentPage)
    {
      searchTerm := term;
    }

    /** The tutor drop-down of the bulk assignment. */
    method SetSelectedTutor(tutorId: string)
      requires Valid()
      modifies this`selectedTutor
      ensures Valid()
      ensures selectedTutor == tutorId
    {
      selectedTutor := tutorId;
    }

    /** A click on the pager, which is shown only when there is more than one page of matches. */
    method ClickPager(click: PagerClick)
      requires Valid()
      requires OnPager(click, PageCount(|SearchPeople(users, searchTerm)|, PerPage))
      modifies this`currentPage
      ensures Valid()
      ensures currentPage == Navigate(old(currentPage), PageCount(|SearchPeople(users, searchTerm)|, PerPage), click)
    {
      currentPage := Navigate(currentPage, PageCount(|SearchPeople(users, searchTerm)|, PerPage), click);
    }
  }
}
