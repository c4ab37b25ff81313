/**
 * The dashboard page: the four summary figures, the filter count and its
 * wording, the "Showing X of Y" line and the empty-state message.
 */
module Dashboard {
  import opened Seqs
  import opened Text
  import opened Employees
  import opened Store
  import opened FilterDropdown

  /** The `stats` object; the average is exact (no rounding to one decimal). */
  datatype Stats = Stats(total: nat, departments: nat, avgRating: real, topPerformers: nat)

  function ComputeStats(users: seq<User>): (s: Stats)
    ensures s.total == |users|
    ensures s.departments <= s.total
    ensures s.departments == 0 <==> users == []
    ensures s.topPerformers <= s.total
    ensures forall u | u in users :: u.rating >= 4 ==> s.topPerformers > 0
    ensures users == [] ==> s.avgRating == 0.0
    ensures users != [] ==> s.avgRating * |users| as real == RatingSum(users) as real
  {
    var top := CountWhere(users, IsTopPerformer);
    Stats(|users|,
          |Distinct(DepartmentsOf(users))|,
          if |users| > 0 then RatingSum(users) as real / |users| as real else 0.0,
          top)
  }

  /** A top performer is rated 4 or more. */
  predicate IsTopPerformer(u: User)
  {
    u.rating >= 4
  }

  /** `topPerformers` counts the users rated 4 or more: one user counts
      once exactly when rated 4 or more, the counts of two lists add, and
      the count is zero exactly when nobody is rated 4 or more. */
  lemma TopPerformersCount(a: seq<User>, b: seq<User>, u: User)
    ensures ComputeStats([u]).topPerformers == if u.rating >= 4 then 1 else 0
    ensures ComputeStats(a + b).topPerformers == ComputeStats(a).topPerformers + ComputeStats(b).topPerformers
    ensures ComputeStats(a).topPerformers == 0 <==> forall v | v in a :: v.rating < 4
  {
    CountWhereAppend(a, b, u, IsTopPerformer);
    CountWhereNone(a, IsTopPerformer);
  }

  /** With every rating between 1 and 5, so is the average of a non-empty list. */
  lemma AverageInRange(users: seq<User>)
    requires users != []
    requires forall u | u in users :: 1 <= u.rating <= 5
    ensures 1.0 <= ComputeStats(users).avgRating <= 5.0
  {
    RatingSumBounds(users, 1, 5);
    MeanBounds(RatingSum(users), |users|, 1, 5);
  }

  lemma MeanBounds(sum: int, n: int, lo: int, hi: int)
    requires n > 0 && lo * n <= sum <= hi * n
    ensures lo as real <= sum as real / n as real <= hi as real
  {
    var a := sum as real / n as real;
    var m := n as real;
    assert a * m == sum as real;
    assert (a - lo as real) * m == sum as real - (lo * n) as real;
    assert (hi as real - a) * m == (hi * n) as real - sum as real;
  }

  /** The departments figure agrees with the distinct departments listed. */
  lemma DepartmentsFigure(users: seq<User>, d: string)
    ensures ComputeStats(users).departments == |Distinct(DepartmentsOf(users))|
    ensures d in Distinct(DepartmentsOf(users)) <==> exists u | u in users :: u.department == d
  {
    if d in DepartmentsOf(users) {
      var i :| 0 <= i < |users| && DepartmentsOf(users)[i] == d;
      assert users[i] in users;
    }
    if exists u | u in users :: u.department == d {
      var u :| u in users && u.department == d;
      var i :| 0 <= i < |users| && users[i] == u;
      assert DepartmentsOf(users)[i] == d;
    }
  }

  /** The "with N filter(s) applied" note; empty when no filter is on. */
  function FiltersNote(count: nat): (note: string)
    ensures count == 0 <==> note == ""
  {
    if count > 0 then "with " + NatToString(count) + " filter" + (if count > 1 then "s" else "") + " applied" else ""
  }

  /** One filter is "filter"; more are "filters". */
  lemma FiltersNoteWording(count: nat)
    ensures count == 1 ==> FiltersNote(count) == "with 1 filter applied"
    ensures count > 1 ==> FiltersNote(count) == "with " + NatToString(count) + " filters applied"
  {
  }

  /** "Showing X of Y employees": the shown number never exceeds the total. */
  lemma ShownAtMostTotal(users: seq<User>, query: string, departments: seq<string>, ratings: seq<int>)
    ensures |FilterUsers(users, query, departments, ratings)| <= |users|
  {
    SubseqLength(FilterUsers(users, query, departments, ratings), users);
  }

  const AdjustHint := "Try adjusting your search or filters"
  const NoDataHint := "No employee data available"

  /** The message under "No employees found". */
  function EmptyStateHint(query: string, departments: seq<string>, ratings: seq<int>): (hint: string)
    ensures hint == AdjustHint <==> query != "" || ActiveFiltersCount(departments, ratings) > 0
    ensures hint == AdjustHint || hint == NoDataHint
  {
    if query != "" || ActiveFiltersCount(departments, ratings) > 0 then AdjustHint else NoDataHint
  }

  /** The no-data hint is truthful: when it is shown over an empty list,
      there are no employees at all. */
  lemma NoDataHintIsTruthful(users: seq<User>, query: string, departments: seq<string>, ratings: seq<int>)
    requires FilterUsers(users, query, departments, ratings) == []
    requires EmptyStateHint(query, departments, ratings) == NoDataHint
    ensures users == []
  {
    NoFiltersListsAll(users);
  }
}
