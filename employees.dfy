/**
 * The employee record the dashboard holds after enrichment, and the
 * projections of a list of employees that several pages count over.
 */
module Employees {
  import opened Seqs

  datatype Feedback = Feedback(date: string, comment: string, rating: int)

  /** An enriched employee: identity and contact fields from the user API,
      plus the derived department, rating, salary, bio, projects, feedback
      and six months of performance ratings. */
  datatype User = User(
    id: int,
    firstName: string,
    lastName: string,
    email: string,
    department: string,
    rating: int,
    salary: int,
    bio: string,
    projects: seq<string>,
    feedback: seq<Feedback>,
    performanceHistory: seq<int>)

  function DepartmentsOf(users: seq<User>): (ds: seq<string>)
    ensures |ds| == |users|
  {
    MapSeq(users, (u: User) => u.department)
  }

  function RatingsOf(users: seq<User>): (rs: seq<int>)
    ensures |rs| == |users|
  {
    MapSeq(users, (u: User) => u.rating)
  }

  function IdsOf(users: seq<User>): (ids: seq<int>)
    ensures |ids| == |users|
  {
    MapSeq(users, (u: User) => u.id)
  }

  /** The sum of the users' ratings (`reduce((sum, u) => sum + u.rating, 0)`). */
  function RatingSum(users: seq<User>): int
  {
    if users == [] then 0 else RatingSum(users[..|users| - 1]) + users[|users| - 1].rating
  }

  /** Each rating between `lo` and `hi` makes the sum lie between `lo·n` and `hi·n`. */
  lemma {:induction false} RatingSumBounds(users: seq<User>, lo: int, hi: int)
    requires forall u | u in users :: lo <= u.rating <= hi
    ensures lo * |users| <= RatingSum(users) <= hi * |users|
  {
    if users != [] {
      var init := users[..|users| - 1];
      var n := |init|;
      assert forall u | u in init :: u in users;
      RatingSumBounds(init, lo, hi);
      var r := users[n].rating;
      assert users[n] in users;
      assert RatingSum(users) == RatingSum(init) + r;
      assert |users| == n + 1;
      assert lo * (n + 1) == lo * n + lo && hi * (n + 1) == hi * n + hi;
    }
  }
}
