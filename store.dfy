/**
 * The global client store: the employee list, the bookmarked ids, the search
 * query and the two filter selections, the theme flag, the actions that
 * replace them, and the filtered-users query.
 */
module Store {
  import opened Seqs
  import opened Text
  import opened Employees
  import opened Wrappers

  /** A snapshot of every store field. */
  datatype StoreState = StoreState(
    users: seq<User>,
    loading: bool,
    error: Option<string>,
    bookmarks: seq<int>,
    searchQuery: string,
    selectedDepartments: seq<string>,
    selectedRatings: seq<int>,
    isDarkMode: bool)

  const Initial := StoreState([], false, None, [], "", [], [], false)

  // ---------------------------------------------------------------------
  // getFilteredUsers, as a function of the fields it reads

  /** Case-insensitive search: the query occurs in the first name, the last
      name, the e-mail or the department. */
  predicate MatchesQuery(u: User, query: string)
  {
    var q := Lower(query);
    Contains(Lower(u.firstName), q) || Contains(Lower(u.lastName), q)
    || Contains(Lower(u.email), q) || Contains(Lower(u.department), q)
  }

  /** The search stage runs only for a non-empty (truthy) query. */
  function SearchStage(users: seq<User>, query: string): seq<User>
  {
    if query != "" then Filter(users, (u: User) => MatchesQuery(u, query)) else users
  }

  /** The department stage runs only when some department is selected. */
  function DepartmentStage(users: seq<User>, departments: seq<string>): seq<User>
  {
    if |departments| > 0 then Filter(users, (u: User) => u.department in departments) else users
  }

  /** The rating stage runs only when some rating is selected. */
  function RatingStage(users: seq<User>, ratings: seq<int>): seq<User>
  {
    if |ratings| > 0 then Filter(users, (u: User) => u.rating in ratings) else users
  }

  /** The three conditions a user must meet to be listed. */
  predicate Selected(u: User, query: string, departments: seq<string>, ratings: seq<int>)
  {
    && (query == "" || MatchesQuery(u, query))
    && (departments == [] || u.department in departments)
    && (ratings == [] || u.rating in ratings)
  }

  /** `getFilteredUsers`: the three stages in turn. */
  function FilterUsers(users: seq<User>, query: string, departments: seq<string>, ratings: seq<int>): (r: seq<User>)
    ensures IsSubseq(r, users)
    ensures forall u :: u in r <==> u in users && Selected(u, query, departments, ratings)
  {
    var r := RatingStage(DepartmentStage(SearchStage(users, query), departments), ratings);
    FilterUsersOnePass(users, query, departments, ratings);
    FilterIsSubseq(users, (u: User) => Selected(u, query, departments, ratings));
    r
  }

  /** The staged filter is one filter by `Selected`: same users, same order. */
  lemma FilterUsersOnePass(users: seq<User>, query: string, departments: seq<string>, ratings: seq<int>)
    ensures RatingStage(DepartmentStage(SearchStage(users, query), departments), ratings)
         == Filter(users, (u: User) => Selected(u, query, departments, ratings))
  {
    var p := (u: User) => query == "" || MatchesQuery(u, query);
    var q := (u: User) => departments == [] || u.department in departments;
    var t := (u: User) => ratings == [] || u.rating in ratings;
    var pq := (u: User) => p(u) && q(u);
    var s1 := SearchStage(users, query);
    if query == "" {
      FilterKeepsAll(users, p);
    } else {
      FilterAgree(users, p, (u: User) => MatchesQuery(u, query));
    }
    assert s1 == Filter(users, p);
    var s2 := DepartmentStage(s1, departments);
    if departments == [] {
      FilterKeepsAll(s1, q);
    } else {
      FilterAgree(s1, q, (u: User) => u.department in departments);
    }
    assert s2 == Filter(s1, q);
    FilterTwice(users, p, q, pq);
    var s3 := RatingStage(s2, ratings);
    if ratings == [] {
      FilterKeepsAll(s2, t);
    } else {
      FilterAgree(s2, t, (u: User) => u.rating in ratings);
    }
    assert s3 == Filter(s2, t);
    FilterTwice(users, pq, t, (u: User) => Selected(u, query, departments, ratings));
  }

  /** With no query and no selection, every user is listed, in order. */
  lemma NoFiltersListsAll(users: seq<User>)
    ensures FilterUsers(users, "", [], []) == users
  {
    FilterUsersOnePass(users, "", [], []);
    FilterKeepsAll(users, (u: User) => Selected(u, "", [], []));
  }

  // ---------------------------------------------------------------------
  // The store object

  class Store {
    var users: seq<User>
    var loading: bool
    var error: Option<string>
    var bookmarks: seq<int>
    var searchQuery: string
    var selectedDepartments: seq<string>
    var selectedRatings: seq<int>
    var isDarkMode: bool

    function State(): StoreState
      reads this
    {
      StoreState(users, loading, error, bookmarks, searchQuery, selectedDepartments, selectedRatings, isDarkMode)
    }

    constructor()
      ensures State() == Initial
    {
      users := [];
      loading := false;
      error := None;
      bookmarks := [];
      searchQuery := "";
      selectedDepartments := [];
      selectedRatings := [];
      isDarkMode := false;
    }

    method SetUsers(us: seq<User>)
      modifies this
      ensures State() == old(State()).(users := us)
    {
      users := us;
    }

    method SetLoading(b: bool)
      modifies this
      ensures State() == old(State()).(loading := b)
    {
      loading := b;
    }

    method SetError(e: Option<string>)
      modifies this
      ensures State() == old(State()).(error := e)
    {
      error := e;
    }

    /** Appends the id, even when it is already bookmarked. */
    method AddBookmark(id: int)
      modifies this
      ensures State() == old(State()).(bookmarks := old(bookmarks) + [id])
      ensures IsBookmarked(id)
      ensures |bookmarks| == |old(bookmarks)| + 1
    {
      bookmarks := bookmarks + [id];
    }

    /** Drops every occurrence of the id; the other ids keep their order. */
    method RemoveBookmark(id: int)
      modifies this
      ensures State() == old(State()).(bookmarks := Without(old(bookmarks), id))
      ensures !IsBookmarked(id)
      ensures forall x :: x != id ==> (IsBookmarked(x) <==> x in old(bookmarks))
      ensures IsSubseq(bookmarks, old(bookmarks))
    {
      WithoutSpec(bookmarks, id);
      bookmarks := Without(bookmarks, id);
    }

    /** `bookmarks.includes(id)`: some position of the list holds the id. */
    predicate IsBookmarked(id: int)
      reads this
      ensures IsBookmarked(id) <==> exists k | 0 <= k < |bookmarks| :: bookmarks[k] == id
    {
      id in bookmarks
    }

    method SetSearchQuery(q: string)
      modifies this
      ensures State() == old(State()).(searchQuery := q)
    {
      searchQuery := q;
    }

    method SetSelectedDepartments(ds: seq<string>)
      modifies this
      ensures State() == old(State()).(selectedDepartments := ds)
    {
      selectedDepartments := ds;
    }

    method SetSelectedRatings(rs: seq<int>)
      modifies this
      ensures State() == old(State()).(selectedRatings := rs)
    {
      selectedRatings := rs;
    }

    method ToggleTheme()
      modifies this
      ensures State() == old(State()).(isDarkMode := !old(isDarkMode))
    {
      isDarkMode := !isDarkMode;
    }

    /** The users that pass the current query and selections. */
    function GetFilteredUsers(): (r: seq<User>)
      reads this
      ensures IsSubseq(r, users)
      ensures forall u :: u in r <==> u in users && Selected(u, searchQuery, selectedDepartments, selectedRatings)
    {
      FilterUsers(users, searchQuery, selectedDepartments, selectedRatings)
    }
  }

  /** Two theme toggles restore every field. */
  method ToggleThemeTwice(s: Store)
    modifies s
    ensures s.State() == old(s.State())
  {
    s.ToggleTheme();
    s.ToggleTheme();
  }
}
