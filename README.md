# User directory: search, pagination and view state

A Dafny model of the `UserList` component of a React dashboard. The component
fetches a list of users once, when it mounts. It keeps five pieces of state:
`users`, `loading`, `error`, `searchTerm` and `currentPage`. On every render it
derives three values:

- `filteredUsers`: the users whose lower-cased name or e-mail includes the lower-cased search term;
- `currentUsers`: the five-user page at `currentPage`;
- `totalPages`: `Math.ceil` of the filtered count over five.

It then shows a spinner, an error panel, or the list. The list comes with a
search box, Previous/Next buttons and a "Showing X of Y users" line.

Modules:

- `Text` (`text.dfy`): ASCII lower-casing and `String.prototype.includes`. `Includes` is proved equal to "the term occurs at some position".
- `SearchFilter` (`search_filter.dfy`): the `User` record, the match test and `Filter`. The lemmas prove that the result is an order-preserving subsequence, give each user's exact count, show that filtering distributes over concatenation, and cover the empty term, case-insensitivity and idempotence.
- `Paginator` (`paginator.dfy`): JavaScript's `slice`, including negative positions, plus the page window and the page count. The lemmas prove that the pages laid end to end give back the whole list, and which page and row shows each item.
- `UserList` (`user_list.dfy`): the pure `Render` that picks the screen, and the class `UserListState`. The class holds the state cells. Its methods are the mount, the two halves of `fetchUsers`, the search handler, `handlePageChange` and the guarded Previous/Next clicks. Every method except the raw setter `HandlePageChange` keeps the invariant `Valid()`: the page stays in `[1, max(1, totalPages)]`; while loading the page is 1 and neither an error nor any users are recorded; and an error is never recorded beside a list of users, because the fetch runs only once. `HandlePageChange` accepts any page number, as `setCurrentPage` does; the guarded clicks that call it keep `Valid()`. Because of the invariant, the listing never lands on an empty page past the last one.
- `UserListScenarios` (`user_list.dfy`): client methods that drive the class through a fetch, a paging sequence and a search, and prove what is then on screen.

Where the component's behaviour may be unexpected, the model follows the code:

- The error panel is chosen by `if (error)`, which is JavaScript truthiness. A failure whose message is the empty string therefore renders the (empty) list, not the error panel. `ErrorShown` and `FetchOnce` state this.
- There is no idle state: `loading` starts out true.
- The Retry button reloads the browser page (`window.location.reload()`). It does not re-run the fetch inside the component.
- The three error kinds (transport, HTTP status, decoding) are not told apart. Each reaches the state only as the message of the thrown error, modelled as `Failure(message)`.
- Previous is disabled when `currentPage === 1`, not when `currentPage <= 1`. Under `Valid()` the two are the same.

## Model

| member | source | states |
|---|---|---|
| Text.LowerChar | src/components/UserList.jsx:42-43 | `toLowerCase` on one character: an ASCII capital becomes the matching small letter, every other character is kept, and no capital is left |
| Text.Lower | src/components/UserList.jsx:42-43 | `toLowerCase` on a string: same length, each character lower-cased by `LowerChar`, no ASCII capital left, every non-capital kept |
| Text.Includes | src/components/UserList.jsx:42-43 | `s.includes(t)` is true exactly when `t` occurs in `s` at some position |
| Text.IncludesEmpty | src/components/UserList.jsx:41-44 | the empty term is included in every string |
| Text.LowerIdempotent | src/components/UserList.jsx:42-43 | lower-casing an already lower-cased string changes nothing |
| SearchFilter.Matches | src/components/UserList.jsx:41-44 | the filter callback holds exactly when the lower-cased term occurs in the lower-cased name or in the lower-cased e-mail |
| SearchFilter.Filter | src/components/UserList.jsx:41-44 | the filtered list is no longer than the users; a user is in it iff it is among the users and its lower-cased name or e-mail includes the lower-cased term |
| SearchFilter.FilterIsSubsequence | src/components/UserList.jsx:41-44 | the filtered list is an order-preserving subsequence of the users |
| SearchFilter.FilterCounts | src/components/UserList.jsx:41-44 | each matching user appears as many times as among the users; a non-matching one does not appear |
| SearchFilter.FilterAppend | src/components/UserList.jsx:41-44 | filtering a concatenation is concatenating the filtered parts, so each user is judged on its own and in order |
| SearchFilter.FilterEmptyTerm | src/components/UserList.jsx:41-44 | with the empty search term the filter returns the users unchanged |
| SearchFilter.FilterCaseInsensitive | src/components/UserList.jsx:41-44 | a term and its lower-cased form select the same users |
| SearchFilter.FilterIdempotent | src/components/UserList.jsx:41-44 | filtering the filtered list again by the same term changes nothing |
| Paginator.ClampIndex | src/components/UserList.jsx:49 | how `slice` turns an argument into a position: a negative one counts back from the end and stops at 0, a non-negative one stops at the length |
| Paginator.Slice | src/components/UserList.jsx:49 | `slice` returns a contiguous run of the list, never longer than `end - start`; for `0 <= start <= end` it is the run between the two positions clipped to the length |
| Paginator.TotalPages | src/components/UserList.jsx:50 | `Math.ceil(n / 5)` is the least page count whose pages hold `n` items; it is 0 exactly when `n` is 0 |
| Paginator.PageSlice | src/components/UserList.jsx:47-49 | a page holds at most 5 items and at most the list; for a page from 1 on it is the window `[(page-1)*5, page*5)` clipped to the list; past the last page it is empty |
| Paginator.PagesUpToIsPrefix | src/components/UserList.jsx:47-50 | pages 1 to `k` laid end to end are exactly the first `min(5k, n)` items |
| Paginator.PagesCoverAll | src/components/UserList.jsx:47-50 | pages 1 to `totalPages` laid end to end reconstruct the filtered list, with no gap and no overlap |
| Paginator.ItemPage | src/components/UserList.jsx:47-50 | item `i` is on page `i/5 + 1`, which lies in `[1, totalPages]`, at row `i % 5` |
| UserList.ErrorShown | src/components/UserList.jsx:70 | `if (error)`: true exactly when a message is stored and it is not the empty string |
| UserList.Render | src/components/UserList.jsx:58-157 | spinner iff loading; else the error panel with the message iff the error is truthy; else the page of the filtered users, "No users found" iff it is empty, the controls iff there is more than one page (Previous disabled iff page 1, Next disabled iff the last page), and the count of shown rows (at most 5) against the filtered count |
| UserList.UserListState.FilteredUsers | src/components/UserList.jsx:41-44 | `filteredUsers` of the current state: no longer than the users, and holding exactly the stored users that match the current term |
| UserList.UserListState.CurrentUsers | src/components/UserList.jsx:47-49 | `currentUsers` of the current state: at most 5 users and at most the filtered list; from page 1 on, the window `[(page-1)*5, page*5)` of the filtered users |
| UserList.UserListState.PageCount | src/components/UserList.jsx:50 | `totalPages` of the current state: the least page count holding the filtered users, 0 exactly when none match |
| UserList.UserListState.Screen | src/components/UserList.jsx:58-157 | the screen of the current state: the spinner iff loading; a listing shows `currentUsers` and counts `filteredUsers` |
| UserList.UserListState.Valid | src/components/UserList.jsx:129-151 | the reachable states: the page is at least 1 and, when there are pages, at most `totalPages`; while loading the page is 1, there is no error and no users are stored; an error is never stored beside users |
| UserList.UserListState.PreviousEnabled | src/components/UserList.jsx:129-138 | Previous can be clicked iff the listing is shown (not loading, no truthy error), there is more than one page and the page is not 1 |
| UserList.UserListState.NextEnabled | src/components/UserList.jsx:129-151 | Next can be clicked iff the listing is shown (not loading, no truthy error), there is more than one page and the page is not the last |
| UserList.UserListState.NoticeOnlyWhenNoMatch | src/components/UserList.jsx:100-103 | in a reachable state that shows the listing, "No users found" appears exactly when no user matches the term, never for a page past the last |
| UserList.UserListState.NoStaleListWithError | src/components/UserList.jsx:29-31 | in a reachable state, a recorded error means no users are stored, so a listing shown next to an (empty) error message has no rows and a zero match count: no old list survives a failed fetch |
| UserList.UserListState.constructor | src/components/UserList.jsx:9-13 | the initial state: no users, loading, no error, empty term, page 1 |
| UserList.UserListState.BeginFetch | src/components/UserList.jsx:20-21 | starting the fetch (once, on mount, with no users stored yet) sets loading and clears the error; nothing else changes |
| UserList.UserListState.ResolveFetch | src/components/UserList.jsx:28-34 | success stores the users; failure stores the message and keeps the users; either way loading ends and the invariant holds |
| UserList.UserListState.Search | src/components/UserList.jsx:91-94 | typing sets the term and resets the page to 1, whatever it was; users, loading and error do not change |
| UserList.UserListState.HandlePageChange | src/components/UserList.jsx:53-55 | the page becomes the given number; nothing else changes |
| UserList.UserListState.ClickPrevious | src/components/UserList.jsx:131-138 | when Previous is shown and enabled the page drops by exactly 1 and stays in `[1, totalPages)`; otherwise nothing changes; the invariant holds |
| UserList.UserListState.ClickNext | src/components/UserList.jsx:144-151 | when Next is shown and enabled the page rises by exactly 1 and stays in `(1, totalPages]`; otherwise nothing changes; the invariant holds |
| UserListScenarios.FetchOnce | src/components/UserList.jsx:18-81 | after one fetch: success shows the first page of all the users, an empty success shows "No users found" with no controls, a failure shows its message (an empty message shows the empty list) |
| UserListScenarios.TenUsersPage | src/components/UserList.jsx:129-157 | with ten users and no term, page 1 of 2 shows the first five (Previous disabled) and page 2 of 2 the last five (Next disabled), "Showing 5 of 10" |
| UserListScenarios.BrowseTenUsers | src/components/UserList.jsx:129-157 | with ten users: page 1 of 2 shows the first five with Previous disabled; Next shows the last five with Next disabled; a further Next changes nothing |
| UserListScenarios.SearchAfterPaging | src/components/UserList.jsx:91-94 | after paging and then searching, the listing is on page 1 of the matching users and counts the matching users |

## Left out

- The request itself (`fetch`, the `response.ok` check and `response.json()`): network I/O. It is modelled as the outcome handed to `ResolveFetch`: either `Success(users)` or `Failure(message)`. Decoded data that is not a list of users is not modelled.
- Asynchronous scheduling, `useEffect` and React's re-rendering. Each handler is one atomic method, and the render is a pure function of the state. Discarding a response that arrives after unmount is not in the code and not in the model.
- UserList.UserListState.BeginFetch: requires the page to be 1 and no users to be stored. The effect has an empty dependency list, so it runs only on mount, before any users are stored, and the search box and buttons are not on screen while loading.
- UserList.UserListState.ClickPrevious, UserList.UserListState.ClickNext: assume that the `Button` component does not call `onClick` while `disabled`. `Button` is not part of this model. If it did call it, Previous on page 1 would go to page 0, where `slice(-5, 0)` is empty, and then to negative pages, where `slice` counts from the end of the list.
- The Retry button's `window.location.reload()`: a browser side effect that rebuilds the whole page.
- Text.Lower: maps only the ASCII letters A-Z to lower case, not the full Unicode case mapping of `toLowerCase`.
- The markup and styling. Each screen is reduced to the data it shows: the rows, the notice, the controls and the two counts.
- Footer, Navbar and App: static markup, the theme toggle passthrough (an external theme provider) and page composition. The footer's clock read is among them. The task manager, the theme context, Card and Button are not part of this model.
