/**
  The search filter of the user directory: the users whose name or e-mail,
  lower-cased, contains the lower-cased search term, in their original order.
 */
module SearchFilter {
  import opened Text

  /** One record of the remote collection, immutable once fetched. */
  datatype User = User(id: int, name: string, email: string, phone: string, website: string)

  /** The filter's test: the lower-cased name or the lower-cased e-mail includes the lower-cased term. */
  predicate Matches(u: User, term: string)
    ensures Matches(u, term) <==>
              (exists i :: OccursAt(Lower(u.name), Lower(term), i)) || (exists i :: OccursAt(Lower(u.email), Lower(term), i))
  {
    Includes(Lower(u.name), Lower(term)) || Includes(Lower(u.email), Lower(term))
  }

  /** `users.filter(...)`: keeps each matching user, front to back. */
  function Filter(users: seq<User>, term: string): (r: seq<User>)
    ensures |r| <= |users|
    ensures forall u :: u in r <==> u in users && Matches(u, term)
  {
    if users == [] then
      []
    else
      var rest := Filter(users[1..], term);
      assert forall u :: u in users <==> u == users[0] || u in users[1..];
      if Matches(users[0], term) then [users[0]] + rest else rest
  }

  /** `r` is `s` with some elements dropped and the rest kept in their order. */
  ghost predicate IsSubsequence<T>(r: seq<T>, s: seq<T>)
    decreases |s|
  {
    if r == [] then true
    else if s == [] then false
    else (r[0] == s[0] && IsSubsequence(r[1..], s[1..])) || IsSubsequence(r, s[1..])
  }

  /** The filtered list is an order-preserving subsequence of the users. */
  lemma {:induction false} FilterIsSubsequence(users: seq<User>, term: string)
    ensures IsSubsequence(Filter(users, term), users)
  {
    if users != [] {
      FilterIsSubsequence(users[1..], term);
      var r := Filter(users, term);
      if Matches(users[0], term) {
        assert r[0] == users[0] && r[1..] == Filter(users[1..], term);
      } else {
        assert r == Filter(users[1..], term);
      }
    }
  }

  /** Each user occurs in the filtered list as often as in the users when it matches, and not at all otherwise. */
  lemma {:induction false} FilterCounts(users: seq<User>, term: string, u: User)
    ensures multiset(Filter(users, term))[u] == if Matches(u, term) then multiset(users)[u] else 0
  {
    if users != [] {
      FilterCounts(users[1..], term, u);
      assert users == [users[0]] + users[1..];
      assert multiset(users) == multiset([users[0]]) + multiset(users[1..]);
    }
  }

  /** Filtering distributes over concatenation: the filter looks at each user on its own, in order. */
  lemma {:induction false} FilterAppend(a: seq<User>, b: seq<User>, term: string)
    ensures Filter(a + b, term) == Filter(a, term) + Filter(b, term)
  {
    if a == [] {
      assert a + b == b;
    } else {
      assert (a + b)[1..] == a[1..] + b;
      FilterAppend(a[1..], b, term);
    }
  }

  /** With an empty search term every user is kept, in the same order. */
  lemma {:induction false} FilterEmptyTerm(users: seq<User>)
    ensures Filter(users, "") == users
  {
    if users != [] {
      IncludesEmpty(Lower(users[0].name));
      FilterEmptyTerm(users[1..]);
    }
  }

  /** The filter depends on the term only through its lower-cased form: "U1" and "u1" select the same users. */
  lemma {:induction false} FilterCaseInsensitive(users: seq<User>, term: string)
    ensures Filter(users, term) == Filter(users, Lower(term))
  {
    LowerIdempotent(term);
    if users != [] {
      FilterCaseInsensitive(users[1..], term);
    }
  }

  /** Filtering an already filtered list by the same term changes nothing. */
  lemma {:induction false} FilterIdempotent(users: seq<User>, term: string)
    ensures Filter(Filter(users, term), term) == Filter(users, term)
  {
    if users != [] {
      FilterIdempotent(users[1..], term);
      if Matches(users[0], term) {
        var r := Filter(users, term);
        assert r[1..] == Filter(users[1..], term);
      }
    }
  }
}
