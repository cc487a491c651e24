/**
  The user-directory view: the state it keeps (users, loading, error, search
  term, current page), the handlers that change that state, and the choice of
  what is rendered from it. The network request is an outcome delivered to
  `ResolveFetch`; the markup is reduced to the data each screen shows.
 */
module UserList {
  import opened SearchFilter
  import opened Paginator

  datatype Option<T> = None | Some(value: T)

  /** What the awaited request ends with: the decoded users, or the message of the error it threw. */
  datatype FetchOutcome = Success(data: seq<User>) | Failure(message: string)

  /** The Previous / "Page X of Y" / Next row. */
  datatype PageControls = PageControls(page: int, totalPages: nat, previousDisabled: bool, nextDisabled: bool)

  /** The three screens the component can return, with the data each one shows. */
  datatype View =
    | Spinner
    | ErrorPanel(message: string)
    | Listing(searchTerm: string, rows: seq<User>, noUsersNotice: bool, controls: Option<PageControls>,
              shownCount: nat, matchedCount: nat)

  /** `if (error)`: the error state is truthy when it holds a non-empty message. */
  predicate ErrorShown(error: Option<string>)
    ensures ErrorShown(error) <==> error != None && error != Some("")
  {
    error.Some? && error.value != ""
  }

  /**
    The render: the spinner while loading, else the error panel when the error
    is truthy, else the search box, the current page of the filtered users
    ("No users found" when it is empty), the page controls when there is more
    than one page, and the "Showing X of Y users" line.
   */
  function Render(users: seq<User>, loading: bool, error: Option<string>, searchTerm: string, page: int): (v: View)
    ensures v.Spinner? <==> loading
    ensures v.ErrorPanel? <==> !loading && ErrorShown(error)
    ensures v.ErrorPanel? ==> Some(v.message) == error
    ensures v.Listing? ==> v.searchTerm == searchTerm
    ensures v.Listing? ==> v.rows == PageSlice(Filter(users, searchTerm), page)
    ensures v.Listing? ==> v.matchedCount == |Filter(users, searchTerm)| <= |users|
    ensures v.Listing? ==> v.shownCount == |v.rows| <= PageSize && v.shownCount <= v.matchedCount
    ensures v.Listing? ==> (v.noUsersNotice <==> v.rows == [])
    ensures v.Listing? ==> (v.controls.Some? <==> TotalPages(v.matchedCount) > 1)
    ensures v.Listing? && v.controls.Some? ==>
              v.controls.value.page == page && v.controls.value.totalPages == TotalPages(v.matchedCount)
              && (v.controls.value.previousDisabled <==> page == 1)
              && (v.controls.value.nextDisabled <==> page == TotalPages(v.matchedCount))
  {
    if loading then
      Spinner
    else if ErrorShown(error) then
      ErrorPanel(error.value)
    else
      var filtered := Filter(users, searchTerm);
      var current := PageSlice(filtered, page);
      var totalPages := TotalPages(|filtered|);
      var controls := if totalPages > 1 then Some(PageControls(page, totalPages, page == 1, page == totalPages)) else None;
      Listing(searchTerm, current, |current| == 0, controls, |current|, |filtered|)
  }

  /** The largest page the controller can be on: the page count, or 1 when there are no pages. */
  function LastPage(totalPages: nat): (r: nat)
    ensures r >= 1 && r >= totalPages
  {
    if totalPages == 0 then 1 else totalPages
  }

  /** The component's state cells and the handlers that update them. */
  class UserListState {
    var users: seq<User>
    var loading: bool
    var error: Option<string>
    var searchTerm: string
    var currentPage: int

    /** `filteredUsers`: the stored users that match the search term, in their order. */
    function FilteredUsers(): (r: seq<User>)
      reads this
      ensures |r| <= |users|
      ensures forall u :: u in r <==> u in users && Matches(u, searchTerm)
    {
      Filter(users, searchTerm)
    }

    /** `currentUsers`: the window of the filtered users at the current page. */
    function CurrentUsers(): (r: seq<User>)
      reads this
      ensures |r| <= PageSize && |r| <= |FilteredUsers()|
      ensures currentPage >= 1 ==>
                r == FilteredUsers()[Min((currentPage - 1) * PageSize, |FilteredUsers()|)..Min(currentPage * PageSize, |FilteredUsers()|)]
    {
      PageSlice(FilteredUsers(), currentPage)
    }

    /** `totalPages`: the number of five-user pages the filtered users fill. */
    function PageCount(): (r: nat)
      reads this
      ensures r * PageSize >= |FilteredUsers()| && (r > 0 ==> (r - 1) * PageSize < |FilteredUsers()|)
      ensures r == 0 <==> FilteredUsers() == []
    {
      TotalPages(|FilteredUsers()|)
    }

    /** What the component renders now. */
    function Screen(): (v: View)
      reads this
      ensures v.Spinner? <==> loading
      ensures v.Listing? ==> v.rows == CurrentUsers() && v.matchedCount == |FilteredUsers()|
    {
      Render(users, loading, error, searchTerm, currentPage)
    }

    /**
      The states the handlers can reach: the page is between 1 and the last
      page; while the request is outstanding nothing can have moved the page,
      no error is recorded and no users are stored; and since the request is
      made only once, an error is never stored beside a list of users.
     */
    ghost predicate Valid()
      reads this
      ensures Valid() ==> currentPage >= 1 && (PageCount() > 0 ==> currentPage <= PageCount())
    {
      && 1 <= currentPage <= LastPage(PageCount())
      && (loading ==> currentPage == 1 && error == None && users == [])
      && (error != None ==> users == [])
    }

    /**
      The Previous button is on screen (the listing, with more than one page)
      and not disabled (`currentPage === 1`).
     */
    predicate PreviousEnabled()
      reads this
      ensures PreviousEnabled() <==> !loading && !ErrorShown(error) && PageCount() > 1 && currentPage != 1
    {
      var v := Screen();
      v.Listing? && v.controls.Some? && !v.controls.value.previousDisabled
    }

    /**
      The Next button is on screen (the listing, with more than one page) and
      not disabled (`currentPage === totalPages`).
     */
    predicate NextEnabled()
      reads this
      ensures NextEnabled() <==> !loading && !ErrorShown(error) && PageCount() > 1 && currentPage != PageCount()
    {
      var v := Screen();
      v.Listing? && v.controls.Some? && !v.controls.value.nextDisabled
    }

    /**
      Because the page stays in range, the listing never lands on an empty page
      past the last one: "No users found" shows exactly when no user matches.
     */
    lemma NoticeOnlyWhenNoMatch()
      requires Valid() && !loading && !ErrorShown(error)
      ensures Screen().Listing?
      ensures Screen().noUsersNotice <==> FilteredUsers() == []
    {
      var f := FilteredUsers();
      if f != [] {
        assert (currentPage - 1) * PageSize < |f|;
      }
    }

    /**
      A failed fetch never leaves an old list on screen: whenever an error is
      recorded no users are stored, so a listing (an empty message is not
      truthy) has no rows and counts no matches.
     */
    lemma NoStaleListWithError()
      requires Valid()
      ensures error != None ==> users == []
      ensures error != None && Screen().Listing? ==> Screen().rows == [] && Screen().matchedCount == 0
    {
    }

    /** Mounting: the initial values of the state cells. */
    constructor ()
      ensures Valid()
      ensures users == [] && loading && error == None && searchTerm == "" && currentPage == 1
    {
      users := [];
      loading := true;
      error := None;
      searchTerm := "";
      currentPage := 1;
    }

    /**
      The part of `fetchUsers` before the request is awaited. The effect has an
      empty dependency list, so it runs once, on mount, while the page is 1 and
      no users are stored yet.
     */
    method BeginFetch()
      requires Valid() && currentPage == 1 && users == []
      modifies this
      ensures Valid()
      ensures loading && error == None
      ensures users == old(users) && searchTerm == old(searchTerm) && currentPage == old(currentPage)
    {
      loading := true;
      error := None;
    }

    /**
      The rest of `fetchUsers` once the request settles: the users on success,
      the error message on failure, and in either case loading ends.
     */
    method ResolveFetch(outcome: FetchOutcome)
      requires Valid() && loading
      modifies this
      ensures Valid() && !loading
      ensures outcome.Success? ==> users == outcome.data && error == None
      ensures outcome.Failure? ==> users == old(users) && error == Some(outcome.message)
      ensures searchTerm == old(searchTerm) && currentPage == old(currentPage)
    {
      match outcome {
        case Success(data) =>
          users := data;
        case Failure(message) =>
          error := Some(message);
      }
      loading := false;
    }

    /** The search box's `onChange`: the new term, and back to page 1. */
    method Search(term: string)
      requires Valid()
      modifies this
      ensures Valid()
      ensures searchTerm == term && currentPage == 1
      ensures users == old(users) && loading == old(loading) && error == old(error)
    {
      searchTerm := term;
      currentPage := 1;
    }

    /** `handlePageChange`: moves to the given page, whatever it is. */
    method HandlePageChange(pageNumber: int)
      modifies this
      ensures currentPage == pageNumber
      ensures users == old(users) && loading == old(loading) && error == old(error) && searchTerm == old(searchTerm)
    {
      currentPage := pageNumber;
    }

    /** A click on Previous: one page back when the button is shown and enabled, nothing otherwise. */
    method ClickPrevious()
      requires Valid()
      modifies this
      ensures Valid()
      ensures currentPage == if old(PreviousEnabled()) then old(currentPage) - 1 else old(currentPage)
      ensures old(PreviousEnabled()) ==> 1 <= currentPage < PageCount()
      ensures users == old(users) && loading == old(loading) && error == old(error) && searchTerm == old(searchTerm)
    {
      if PreviousEnabled() {
        HandlePageChange(currentPage - 1);
      }
    }

    /** A click on Next: one page on when the button is shown and enabled, nothing otherwise. */
    method ClickNext()
      requires Valid()
      modifies this
      ensures Valid()
      ensures currentPage == if old(NextEnabled()) then old(currentPage) + 1 else old(currentPage)
      ensures old(NextEnabled()) ==> 1 < currentPage <= PageCount()
      ensures users == old(users) && loading == old(loading) && error == old(error) && searchTerm == old(searchTerm)
    {
      if NextEnabled() {
        HandlePageChange(currentPage + 1);
      }
    }
  }
}

module UserListScenarios {
  import opened SearchFilter
  import opened Paginator
  import opened UserList

  /**
    Mount, fetch once and render. A successful fetch shows the first page of
    all the users; a failed one shows its message, unless the message is
    empty, which `if (error)` reads as no error, leaving the empty listing.
   */
  method FetchOnce(outcome: FetchOutcome) returns (v: View)
    ensures outcome.Success? ==>
              v.Listing? && v.rows == outcome.data[..Min(PageSize, |outcome.data|)]
              && v.shownCount == Min(PageSize, |outcome.data|) && v.matchedCount == |outcome.data|
    ensures outcome == Success([]) ==> v == Listing("", [], true, None, 0, 0)
    ensures outcome.Failure? && outcome.message != "" ==> v == ErrorPanel(outcome.message)
    ensures outcome == Failure("") ==> v == Listing("", [], true, None, 0, 0)
  {
    var ui := new UserListState();
    ui.BeginFetch();
    ui.ResolveFetch(outcome);
    if outcome.Success? {
      FilterEmptyTerm(outcome.data);
    }
    v := ui.Screen();
  }

  /** With ten users and no search term, page 1 or 2 of 2 shows its five users and disables the button at its end. */
  lemma TenUsersPage(data: seq<User>, page: int)
    requires |data| == 10 && 1 <= page <= 2
    ensures Render(data, false, None, "", page)
            == Listing("", if page == 1 then data[..5] else data[5..], false,
                       Some(PageControls(page, 2, page == 1, page == 2)), 5, 10)
  {
    FilterEmptyTerm(data);
    var rows := PageSlice(data, page);
    if page == 1 {
      assert rows == data[..5];
    } else {
      assert rows == data[5..10] == data[5..];
    }
    assert TotalPages(|data|) == 2;
    var v := Render(data, false, None, "", page);
    assert v.Listing? && v.rows == rows && v.matchedCount == 10;
  }

  /**
    Ten users and no search: page 1 of 2 shows the first five with Previous
    disabled; a click on Next shows the other five with Next disabled, and a
    second click changes nothing.
   */
  method BrowseTenUsers(data: seq<User>) returns (first: View, second: View, third: View)
    requires |data| == 10
    ensures first == Listing("", data[..5], false, Some(PageControls(1, 2, true, false)), 5, 10)
    ensures second == Listing("", data[5..], false, Some(PageControls(2, 2, false, true)), 5, 10)
    ensures third == second
  {
    var ui := new UserListState();
    ui.BeginFetch();
    ui.ResolveFetch(Success(data));
    TenUsersPage(data, 1);
    TenUsersPage(data, 2);
    first := ui.Screen();
    ui.ClickNext();
    assert ui.currentPage == 2;
    second := ui.Screen();
    ui.ClickNext();
    third := ui.Screen();
  }

  /**
    Fetch, step forward a page when that is possible, then type a search term:
    the listing is back on page 1 of the users that match the term, and its
    counts are those of the matching users, not of all the users.
   */
  method SearchAfterPaging(data: seq<User>, term: string) returns (v: View)
    ensures v.Listing? && v.searchTerm == term
    ensures v.rows == Filter(data, term)[..Min(PageSize, |Filter(data, term)|)]
    ensures v.shownCount == |v.rows| && v.matchedCount == |Filter(data, term)|
    ensures v.controls.Some? ==> v.controls.value.page == 1 && v.controls.value.previousDisabled
  {
    var ui := new UserListState();
    ui.BeginFetch();
    ui.ResolveFetch(Success(data));
    ui.ClickNext();
    ui.Search(term);
    v := ui.Screen();
  }
}
