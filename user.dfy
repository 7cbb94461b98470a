/**
 * The user list of `react/src/pages/User.js`: the shared name-or-e-mail
 * search over a state that may not be an array, pagination and delete.
 */
module User {
  import opened Lists
  import opened Paging
  import opened People

  /** `const perPage = 5`. */
  const PerPage: nat := 5

  /** `filteredUsers`: the search results, or none when the state is not an array. */
  function FilteredUsers(users: ListState<Person>, term: string): (found: seq<Person>)
    ensures users.NotArray? ==> found == []
    ensures users.Items? ==> found == SearchPeople(users.items, term)
  {
    match users
    case NotArray => []
    case Items(items) => SearchPeople(items, term)
  }

  /** The rows of the current page: at most five, each a listed user who matches the search. */
  function UserRows(users: ListState<Person>, term: string, currentPage: int): (rows: seq<Person>)
    ensures |rows| <= PerPage
    ensures users.NotArray? ==> rows == []
    ensures forall u :: u in rows ==> users.Items? && u in users.items && PersonMatches(u, term)
  {
    Paginate(FilteredUsers(users, term), currentPage, PerPage)
  }

  /**
   * A page shows at most five users, none past the end of the results, and
   * the pager is shown exactly when the results do not fit on one page.
   */
  lemma UserRowsSpec(users: ListState<Person>, term: string, currentPage: int)
    requires currentPage >= 1
    ensures |UserRows(users, term, currentPage)| <= PerPage
    ensures PageStart(currentPage, PerPage) >= |FilteredUsers(users, term)| ==> UserRows(users, term, currentPage) == []
    ensures ShowPager(|FilteredUsers(users, term)|, PerPage) <==> |FilteredUsers(users, term)| > PerPage
  {
    PageWindow(FilteredUsers(users, term), currentPage, PerPage);
    ShowPagerIff(|FilteredUsers(users, term)|, PerPage);
  }

  /** `users.filter(user => user.id !== id)`. */
  function RemoveUser(users: seq<Person>, id: int): (r: seq<Person>)
    ensures |r| <= |users|
    ensures forall p :: p in r <==> p in users && p.id != id
  {
    Filter(users, (p: Person) => p.id != id)
  }

  /** Deleting a user never brings another into the search results and only drops that user from them. */
  lemma RemoveUserSearch(users: seq<Person>, id: int, term: string)
    ensures forall p :: p in SearchPeople(RemoveUser(users, id), term) <==> p in SearchPeople(users, term) && p.id != id
  {
  }

  /** A call the page makes to the user service. */
  datatype UserRequest = DeleteUser(id: int)

  /** The page's state fields and the service calls it has made. */
  class UserPage {
    var users: ListState<Person>
    var searchTerm: string
    var currentPage: int
    var requests: seq<UserRequest>

    /** The page mounts with the fetched users, on page 1, with an empty search. */
    constructor (users: ListState<Person>)
      ensures this.users == users && searchTerm == "" && currentPage == 1 && requests == []
    {
      this.users, searchTerm, currentPage, requests := users, "", 1, [];
    }

    /** `handleDelete`: only after confirmation, and the list changes only when the call succeeds. */
    method HandleDelete(id: int, confirmed: bool, callOk: bool)
      modifies this`users, this`requests
      ensures requests == old(requests) + (if confirmed then [DeleteUser(id)] else [])
      ensures users == if confirmed && callOk && old(users).Items?
        then Items(RemoveUser(old(users).items, id)) else old(users)
    {
      if !confirmed {
        return;
      }
      requests := requests + [DeleteUser(id)];
      if callOk && users.Items? {
        users := Items(RemoveUser(users.items, id));
      }
    }

    /** The search box: the page number is kept as it is. */
    method SetSearchTerm(term: string)
      modifies this`searchTerm
      ensures searchTerm == term && currentPage == old(currentPage)
    {
      searchTerm := term;
    }

    /** A click on the pager, which is shown only when there is more than one page of matches. */
    method ClickPager(click: PagerClick)
      requires OnPager(click, PageCount(|FilteredUsers(users, searchTerm)|, PerPage))
      modifies this`currentPage
      ensures currentPage == Navigate(old(currentPage), PageCount(|FilteredUsers(users, searchTerm)|, PerPage), click)
    {
      currentPage := Navigate(currentPage, PageCount(|FilteredUsers(users, searchTerm)|, PerPage), click);
    }
  }
}
