/**
 * The filter drop-down: the department and rating options it offers, the
 * toggles that edit the two selections in the store, clearing both, and
 * the badge count.
 */
module FilterDropdown {
  import opened Seqs
  import opened Text
  import opened Employees
  import opened Store

  /** The departments offered: each department of the employees once, in
      ascending order. */
  function DepartmentOptions(users: seq<User>): (r: seq<string>)
    ensures Sorted(r)
    ensures NoDups(r)
    ensures forall d :: d in r <==> d in DepartmentsOf(users)
  {
    var ds := Distinct(DepartmentsOf(users));
    var r := Sort(ds);
    DistinctNoDups(DepartmentsOf(users));
    MultisetNoDups(ds, r);
    assert forall d :: d in r <==> d in multiset(ds);
    r
  }

  /** The ratings offered: every rating an employee can have, ascending. */
  function RatingOptions(): (r: seq<int>)
    ensures forall x :: x in r <==> 1 <= x <= 5
    ensures forall i, j | 0 <= i < j < |r| :: r[i] < r[j]
  {
    [1, 2, 3, 4, 5]
  }

  /** `toggleDepartment`: drop every occurrence of a selected department,
      or append an unselected one. */
  method ToggleDepartment(store: Store, dept: string)
    modifies store
    ensures store.State() == old(store.State()).(selectedDepartments := Toggled(old(store.selectedDepartments), dept))
  {
    if dept in store.selectedDepartments {
      store.SetSelectedDepartments(Without(store.selectedDepartments, dept));
    } else {
      store.SetSelectedDepartments(store.selectedDepartments + [dept]);
    }
  }

  /** `toggleRating`: the same on the selected ratings. */
  method ToggleRating(store: Store, rating: int)
    modifies store
    ensures store.State() == old(store.State()).(selectedRatings := Toggled(old(store.selectedRatings), rating))
  {
    if rating in store.selectedRatings {
      store.SetSelectedRatings(Without(store.selectedRatings, rating));
    } else {
      store.SetSelectedRatings(store.selectedRatings + [rating]);
    }
  }

  /** `clearAllFilters`: both selections emptied, nothing else touched. */
  method ClearAllFilters(store: Store)
    modifies store
    ensures store.State() == old(store.State()).(selectedDepartments := [], selectedRatings := [])
    ensures ActiveFiltersCount(store.selectedDepartments, store.selectedRatings) == 0
  {
    store.SetSelectedDepartments([]);
    store.SetSelectedRatings([]);
  }

  /** The badge number: the two selection lengths added. */
  function ActiveFiltersCount(departments: seq<string>, ratings: seq<int>): (n: nat)
    ensures n == 0 <==> departments == [] && ratings == []
    ensures n >= |Distinct(departments)| + |Distinct(ratings)|
  {
    |departments| + |ratings|
  }

  /** A zero badge means neither selection narrows the employee list. */
  lemma ZeroCountSelectsAll(users: seq<User>, query: string, departments: seq<string>, ratings: seq<int>)
    requires ActiveFiltersCount(departments, ratings) == 0
    ensures FilterUsers(users, query, departments, ratings) == SearchStage(users, query)
  {
  }

  /** Toggling an unselected department twice restores the store. */
  method ToggleDepartmentTwice(store: Store, dept: string)
    requires dept !in store.selectedDepartments
    modifies store
    ensures store.State() == old(store.State())
  {
    ToggleDepartment(store, dept);
    ToggleDepartment(store, dept);
    ToggledTwiceAbsent(old(store.selectedDepartments), dept);
  }
}
