/**
 * The data layer: deterministic enrichment of a user returned by the user
 * API (`generateMockData`) and the per-department / per-rating aggregation
 * (`generateAnalyticsData`). Fetching itself is not modelled.
 */
module Api {
  import opened Seqs
  import opened Text
  import opened Employees

  /** The eight departments enrichment cycles through, in index order. */
  const Departments: seq<string> := [
    "Engineering", "Marketing", "Sales", "HR", "Finance",
    "Operations", "Design", "Customer Support"]

  /** The fields of an API user that the model follows; every other field of
      the API record is copied through unchanged by the spread `...user`. */
  datatype ApiUser = ApiUser(id: int, firstName: string, lastName: string, email: string)

  function Bio(department: string): string
  {
    "Experienced professional in " + department + " with a passion for innovation and teamwork."
  }

  function ProjectNames(department: string): seq<string>
  {
    ["Project Alpha - " + department, "Initiative Beta - Team Lead", "Campaign Gamma - Contributor"]
  }

  function FeedbackFor(seed: nat): seq<Feedback>
  {
    [Feedback("2024-01-15", "Excellent performance and great team collaboration.", (seed * 13) % 5 + 1),
     Feedback("2023-09-10", "Shows strong leadership skills and attention to detail.", (seed * 19) % 5 + 1)]
  }

  function HistoryFor(seed: nat): seq<int>
  {
    seq(6, i requires 0 <= i < 6 => ((seed + i) * 11) % 5 + 1)
  }

  /** `generateMockData`: everything derived from the id, with the ranges
      the dashboard relies on. */
  function GenerateMockData(user: ApiUser): (u: User)
    requires user.id >= 0
    ensures u.id == user.id && u.firstName == user.firstName
    ensures u.lastName == user.lastName && u.email == user.email
    ensures u.department in Departments
    ensures Contains(u.bio, u.department)
    ensures 1 <= u.rating <= 5
    ensures 50000 <= u.salary <= 149000 && u.salary % 1000 == 0
    ensures 1 <= |u.projects| <= 3 && u.projects[0] == "Project Alpha - " + u.department
    ensures |u.feedback| == 2 && forall f | f in u.feedback :: 1 <= f.rating <= 5
    ensures |u.performanceHistory| == 6
    ensures forall r | r in u.performanceHistory :: 1 <= r <= 5
  {
    var seed: nat := user.id;
    var department := Departments[seed % |Departments|];
    SalaryForm(seed);
    assert OccursAt(Bio(department), department, |"Experienced professional in "|);
    User(seed, user.firstName, user.lastName, user.email,
         department,
         (seed * 17) % 5 + 1,
         50000 + (seed * 1000) % 100000,
         Bio(department),
         ProjectNames(department)[..seed % 3 + 1],
         FeedbackFor(seed),
         HistoryFor(seed))
  }

  lemma SalaryForm(seed: nat)
    ensures (seed * 1000) % 100000 == (seed % 100) * 1000
  {
    var q := seed / 100;
    var r := seed % 100;
    assert seed * 1000 == q * 100000 + r * 1000;
  }

  /** The salary is fixed by the last two decimal digits of the id. */
  lemma SalaryByLastTwoDigits(user: ApiUser)
    requires user.id >= 0
    ensures GenerateMockData(user).salary == 50000 + 1000 * (user.id % 100)
  {
    SalaryForm(user.id);
  }

  /** Two users with the same id get the same derived fields. */
  lemma MockDataDependsOnlyOnId(a: ApiUser, b: ApiUser)
    requires a.id >= 0 && a.id == b.id
    ensures var ua, ub := GenerateMockData(a), GenerateMockData(b);
      ua.department == ub.department && ua.rating == ub.rating && ua.salary == ub.salary
      && ua.bio == ub.bio && ua.projects == ub.projects && ua.feedback == ub.feedback
      && ua.performanceHistory == ub.performanceHistory
  {
  }

  /** Every one of the eight departments is produced, by the ids 0..7 and
      then again every eight ids. */
  lemma DepartmentCycle(user: ApiUser, k: nat)
    requires user.id >= 0 && k < 8 && user.id % 8 == k
    ensures GenerateMockData(user).department == Departments[k]
  {
  }

  // ---------------------------------------------------------------------
  // generateAnalyticsData

  /** Running sums kept per department while scanning the users. */
  datatype Tally = Tally(total: int, count: nat)

  /** One `departmentAverages` entry; the average is `total / count`. */
  datatype DepartmentAverage = DepartmentAverage(department: string, total: int, count: nat)
  {
    function Average(): real
      requires count > 0
    {
      total as real / count as real
    }
  }

  datatype RatingBucket = RatingBucket(rating: string, count: nat)

  function InDepartment(users: seq<User>, d: string): seq<User>
  {
    Filter(users, (u: User) => u.department == d)
  }

  function TallyOf(users: seq<User>, d: string): Tally
  {
    Tally(RatingSum(InDepartment(users, d)), |InDepartment(users, d)|)
  }

  function AverageOf(users: seq<User>, d: string): DepartmentAverage
  {
    DepartmentAverage(d, TallyOf(users, d).total, TallyOf(users, d).count)
  }

  /** The `departmentAverages` list: one entry per distinct department in
      order of first appearance, with the number of its users and the sum of
      their ratings. */
  function DepartmentAverages(users: seq<User>): (r: seq<DepartmentAverage>)
    ensures |r| == |Distinct(DepartmentsOf(users))|
    ensures forall k | 0 <= k < |r| :: r[k].department == Distinct(DepartmentsOf(users))[k]
    ensures forall k | 0 <= k < |r| :: r[k].count >= 1
  {
    var ds := Distinct(DepartmentsOf(users));
    var r := MapSeq(ds, d => AverageOf(users, d));
    assert forall k | 0 <= k < |r| :: r[k].count >= 1 by {
      forall k | 0 <= k < |r| ensures r[k].count >= 1 {
        var d := ds[k];
        assert d in DepartmentsOf(users);
        var i :| 0 <= i < |users| && DepartmentsOf(users)[i] == d;
        assert users[i] in InDepartment(users, d);
      }
    }
    r
  }

  /** `"1 Star"`, `"2 Stars"`, ... */
  function StarLabel(r: nat): string
  {
    NatToString(r) + " Star" + (if r > 1 then "s" else "")
  }

  function RatingCount(users: seq<User>, r: int): nat
  {
    CountWhere(users, (u: User) => u.rating == r)
  }

  /** The `ratingDistribution` list: the five buckets, ascending. */
  function RatingDistribution(users: seq<User>): (r: seq<RatingBucket>)
    ensures |r| == 5
    ensures r[0].rating == "1 Star" && r[1].rating == "2 Stars" && r[2].rating == "3 Stars"
    ensures r[3].rating == "4 Stars" && r[4].rating == "5 Stars"
    ensures forall i | 0 <= i < 5 :: r[i].count == RatingCount(users, i + 1)
  {
    StarLabels();
    seq(5, i requires 0 <= i < 5 => RatingBucket(StarLabel(i + 1), RatingCount(users, i + 1)))
  }

  lemma StarLabels()
    ensures StarLabel(1) == "1 Star" && StarLabel(2) == "2 Stars" && StarLabel(3) == "3 Stars"
    ensures StarLabel(4) == "4 Stars" && StarLabel(5) == "5 Stars"
  {
    assert NatToString(1) == "1" && NatToString(2) == "2" && NatToString(3) == "3";
    assert NatToString(4) == "4" && NatToString(5) == "5";
  }

  /** The state of the `generateAnalyticsData` loop: the departments in the
      order they were first met, the dictionary of their tallies, and the five
      rating counters. */
  datatype Scan = Scan(order: seq<string>, stats: map<string, Tally>, buckets: map<int, nat>)

  const EmptyScan := Scan([], map[], map[1 := 0, 2 := 0, 3 := 0, 4 := 0, 5 := 0])

  /** One loop iteration: create the department's tally if it is new, add the
      rating and one to it, and bump the rating's counter when there is one. */
  function Visit(s: Scan, u: User): (r: Scan)
    ensures u.department in r.stats
    ensures r.buckets.Keys == s.buckets.Keys
  {
    var t := if u.department in s.stats then s.stats[u.department] else Tally(0, 0);
    Scan(if u.department in s.stats then s.order else s.order + [u.department],
         s.stats[u.department := Tally(t.total + u.rating, t.count + 1)],
         if u.rating in s.buckets then s.buckets[u.rating := s.buckets[u.rating] + 1] else s.buckets)
  }

  /** `generateAnalyticsData`: one pass over the users, then the two lists
      are read off the dictionary and the counters. */
  method GenerateAnalyticsData(users: seq<User>)
    returns (departmentAverages: seq<DepartmentAverage>, ratingDistribution: seq<RatingBucket>)
    ensures departmentAverages == DepartmentAverages(users)
    ensures ratingDistribution == RatingDistribution(users)
  {
    var scan := EmptyScan;
    for i := 0 to |users|
      invariant Scanned(users[..i], scan)
    {
      ScanNext(users, i, scan);
      scan := Visit(scan, users[i]);
    }
    ScanComplete(users, scan);
    departmentAverages := AveragesFrom(scan.order, scan.stats);
    ratingDistribution := BucketsFrom(scan.buckets);
  }

  /** The `departmentAverages` list read off the dictionary, in the order
      the departments were met. */
  function AveragesFrom(order: seq<string>, stats: map<string, Tally>): (r: seq<DepartmentAverage>)
    requires forall d | d in order :: d in stats
    ensures |r| == |order|
    ensures forall k | 0 <= k < |r| :: r[k].department == order[k]
  {
    seq(|order|, k requires 0 <= k < |order| =>
      DepartmentAverage(order[k], stats[order[k]].total, stats[order[k]].count))
  }

  /** The `ratingDistribution` list read off the five counters. */
  function BucketsFrom(buckets: map<int, nat>): (r: seq<RatingBucket>)
    requires buckets.Keys == {1, 2, 3, 4, 5}
    ensures |r| == 5
  {
    seq(5, i requires 0 <= i < 5 => RatingBucket(StarLabel(i + 1), buckets[i + 1]))
  }

  /** What the loop has built after reading `prefix`. */
  ghost predicate Scanned(prefix: seq<User>, s: Scan)
  {
    && s.order == Distinct(DepartmentsOf(prefix))
    && (forall d :: d in s.stats <==> d in s.order)
    && (forall d | d in s.stats :: s.stats[d] == TallyOf(prefix, d))
    && s.buckets.Keys == {1, 2, 3, 4, 5}
    && (forall r | r in s.buckets :: s.buckets[r] == RatingCount(prefix, r))
  }

  /** The loop step, stated on the prefixes of `users`. */
  lemma ScanNext(users: seq<User>, i: int, s: Scan)
    requires 0 <= i < |users|
    requires Scanned(users[..i], s)
    ensures Scanned(users[..i + 1], Visit(s, users[i]))
  {
    assert users[..i + 1] == users[..i] + [users[i]];
    ScanStep(users[..i], users[i], s);
  }

  /** Reading one more user keeps `Scanned`. */
  lemma ScanStep(prefix: seq<User>, u: User, s: Scan)
    requires Scanned(prefix, s)
    ensures Scanned(prefix + [u], Visit(s, u))
  {
    OrderStep(prefix, u, s);
    StatsStep(prefix, u, s);
    BucketsStep(prefix, u, s);
  }

  lemma OrderStep(prefix: seq<User>, u: User, s: Scan)
    requires Scanned(prefix, s)
    ensures Visit(s, u).order == Distinct(DepartmentsOf(prefix + [u]))
    ensures forall d :: d in Visit(s, u).stats <==> d in Visit(s, u).order
  {
    DepartmentsSnoc(prefix, u);
    DistinctSnoc(DepartmentsOf(prefix), u.department);
  }

  lemma StatsStep(prefix: seq<User>, u: User, s: Scan)
    requires Scanned(prefix, s)
    ensures forall d | d in Visit(s, u).stats :: Visit(s, u).stats[d] == TallyOf(prefix + [u], d)
  {
    var s' := Visit(s, u);
    if u.department !in s.stats {
      TallyOfAbsent(prefix, u.department);
    }
    forall d | d in s'.stats ensures s'.stats[d] == TallyOf(prefix + [u], d) {
      TallyStep(prefix, u, d);
    }
  }

  lemma BucketsStep(prefix: seq<User>, u: User, s: Scan)
    requires Scanned(prefix, s)
    ensures forall r | r in Visit(s, u).buckets :: Visit(s, u).buckets[r] == RatingCount(prefix + [u], r)
  {
    var s' := Visit(s, u);
    forall r | r in s'.buckets ensures s'.buckets[r] == RatingCount(prefix + [u], r) {
      RatingCountStep(prefix, u, r);
    }
  }

  /** Once every user is read, the dictionary and counters hold the
      analytics lists. */
  lemma ScanComplete(users: seq<User>, s: Scan)
    requires Scanned(users[..|users|], s)
    ensures forall d | d in s.order :: d in s.stats
    ensures s.buckets.Keys == {1, 2, 3, 4, 5}
    ensures AveragesFrom(s.order, s.stats) == DepartmentAverages(users)
    ensures BucketsFrom(s.buckets) == RatingDistribution(users)
  {
    assert users[..|users|] == users;
    AveragesComplete(users, s);
    BucketsComplete(users, s);
  }

  lemma AveragesComplete(users: seq<User>, s: Scan)
    requires Scanned(users, s)
    ensures forall d | d in s.order :: d in s.stats
    ensures AveragesFrom(s.order, s.stats) == DepartmentAverages(users)
  {
  }

  lemma BucketsComplete(users: seq<User>, s: Scan)
    requires Scanned(users, s)
    ensures BucketsFrom(s.buckets) == RatingDistribution(users)
  {
  }

  /** A department no user belongs to has an empty tally. */
  lemma TallyOfAbsent(users: seq<User>, d: string)
    requires d !in DepartmentsOf(users)
    ensures TallyOf(users, d) == Tally(0, 0)
  {
    if InDepartment(users, d) != [] {
      DepartmentOfMember(users, d);
    }
  }

  lemma DepartmentOfMember(users: seq<User>, d: string)
    requires InDepartment(users, d) != []
    ensures d in DepartmentsOf(users)
  {
    var x := InDepartment(users, d)[0];
    assert x in users;
    var i :| 0 <= i < |users| && users[i] == x;
    assert DepartmentsOf(users)[i] == d;
  }

  lemma DepartmentsSnoc(prefix: seq<User>, u: User)
    ensures DepartmentsOf(prefix + [u]) == DepartmentsOf(prefix) + [u.department]
  {
  }

  /** One more user adds its rating and one to the tally of its own
      department and leaves every other tally alone. */
  lemma TallyStep(prefix: seq<User>, u: User, d: string)
    ensures TallyOf(prefix + [u], d) ==
      (if d == u.department then Tally(TallyOf(prefix, d).total + u.rating, TallyOf(prefix, d).count + 1)
       else TallyOf(prefix, d))
  {
    FilterAppend(prefix, [u], (v: User) => v.department == d);
    var f := InDepartment(prefix, d);
    if d == u.department {
      assert InDepartment(prefix + [u], d) == f + [u];
      assert (f + [u])[..|f + [u]| - 1] == f;
    } else {
      assert InDepartment(prefix + [u], d) == f + [];
      assert f + [] == f;
    }
  }

  lemma RatingCountStep(prefix: seq<User>, u: User, r: int)
    ensures RatingCount(prefix + [u], r) == RatingCount(prefix, r) + (if u.rating == r then 1 else 0)
  {
    FilterAppend(prefix, [u], (v: User) => v.rating == r);
  }

  function TotalCount(entries: seq<DepartmentAverage>): nat
  {
    if entries == [] then 0 else entries[0].count + TotalCount(entries[1..])
  }

  lemma {:induction false} TotalCountOverDepartments(users: seq<User>, ds: seq<string>)
    ensures TotalCount(MapSeq(ds, d => AverageOf(users, d))) == SumOfCounts(DepartmentsOf(users), ds)
  {
    if ds != [] {
      TotalCountOverDepartments(users, ds[1..]);
      assert MapSeq(ds, d => AverageOf(users, d))[1..] == MapSeq(ds[1..], d => AverageOf(users, d));
      CountWhereKey(users, (u: User) => u.department, ds[0], (u: User) => u.department == ds[0]);
    }
  }

  /** The department counts add up to the number of users. */
  lemma DepartmentCountsSum(users: seq<User>)
    ensures TotalCount(DepartmentAverages(users)) == |users|
  {
    var ds := Distinct(DepartmentsOf(users));
    TotalCountOverDepartments(users, ds);
    DistinctNoDups(DepartmentsOf(users));
    SumOfCountsCovers(DepartmentsOf(users), ds);
  }

  function BucketTotal(buckets: seq<RatingBucket>): nat
  {
    if buckets == [] then 0 else buckets[0].count + BucketTotal(buckets[1..])
  }

  /** With every rating in 1..5, the five buckets add up to the number of users. */
  lemma RatingDistributionSum(users: seq<User>)
    requires forall u | u in users :: 1 <= u.rating <= 5
    ensures BucketTotal(RatingDistribution(users)) == |users|
  {
    var rs := RatingsOf(users);
    var ds := [1, 2, 3, 4, 5];
    forall r | 1 <= r <= 5 ensures RatingCount(users, r) == multiset(rs)[r] {
      CountWhereKey(users, (u: User) => u.rating, r, (u: User) => u.rating == r);
    }
    forall k | k in rs ensures k in ds {
      var i :| 0 <= i < |rs| && rs[i] == k;
      assert users[i] in users;
    }
    SumOfCountsCovers(rs, ds);
    BucketTotalOfFive(RatingDistribution(users));
    SumOfCountsOfFive(rs);
  }

  lemma BucketTotalOfFive(b: seq<RatingBucket>)
    requires |b| == 5
    ensures BucketTotal(b) == b[0].count + b[1].count + b[2].count + b[3].count + b[4].count
  {
    var b1 := b[1..];
    var b2 := b1[1..];
    var b3 := b2[1..];
    var b4 := b3[1..];
    assert b4[1..] == [];
    assert BucketTotal(b4) == b[4].count;
    assert BucketTotal(b3) == b[3].count + BucketTotal(b4);
    assert BucketTotal(b2) == b[2].count + BucketTotal(b3);
    assert BucketTotal(b1) == b[1].count + BucketTotal(b2);
  }

  lemma SumOfCountsOfFive(rs: seq<int>)
    ensures SumOfCounts(rs, [1, 2, 3, 4, 5]) ==
      multiset(rs)[1] + multiset(rs)[2] + multiset(rs)[3] + multiset(rs)[4] + multiset(rs)[5]
  {
    var ds := [1, 2, 3, 4, 5];
    assert ds[1..] == [2, 3, 4, 5];
    assert [2, 3, 4, 5][1..] == [3, 4, 5];
    assert [3, 4, 5][1..] == [4, 5];
    assert [4, 5][1..] == [5];
    assert [5][1..] == [];
    assert SumOfCounts(rs, [5]) == multiset(rs)[5];
    assert SumOfCounts(rs, [4, 5]) == multiset(rs)[4] + SumOfCounts(rs, [5]);
    assert SumOfCounts(rs, [3, 4, 5]) == multiset(rs)[3] + SumOfCounts(rs, [4, 5]);
    assert SumOfCounts(rs, [2, 3, 4, 5]) == multiset(rs)[2] + SumOfCounts(rs, [3, 4, 5]);
  }
}
