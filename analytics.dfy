/**
 * The analytics page once the random enrichment is given as input: the
 * per-department rows over a fixed list of nine departments, the rating
 * histogram without empty buckets, the headline figures, the star strip,
 * the performance labels and colours, the top department and the table
 * order.
 */
module Analytics {
  import opened Seqs
  import opened Wrappers
  import Api

  /** The nine departments the page assigns from. */
  const AnalyticsDepartments: seq<string> :=
    ["Engineering", "Marketing", "Sales", "HR", "Finance", "Operations", "Design", "Legal", "IT Support"]

  /** An employee after enrichment: the chosen department, rating and
      bookmark flag are inputs here. */
  datatype Staff = Staff(department: string, rating: int, isBookmarked: bool)

  /** A `departmentRatings` row; the average is exact. */
  datatype DepartmentRating = DepartmentRating(department: string, avgRating: real, employeeCount: nat, totalRating: int)

  /** A `performanceDistribution` entry. */
  datatype PerformanceBucket = PerformanceBucket(rating: string, count: nat, value: int)

  datatype AnalyticsData = AnalyticsData(
    departmentRatings: seq<DepartmentRating>,
    performanceDistribution: seq<PerformanceBucket>,
    totalEmployees: nat,
    avgRating: Option<real>,
    totalBookmarks: nat)

  function StaffIn(staff: seq<Staff>, d: string): seq<Staff>
  {
    Filter(staff, (s: Staff) => s.department == d)
  }

  function TotalRating(staff: seq<Staff>): int
  {
    if staff == [] then 0 else staff[0].rating + TotalRating(staff[1..])
  }

  /** The row of one department, before empty ones are dropped. */
  function DepartmentRow(staff: seq<Staff>, d: string): (row: DepartmentRating)
    ensures row.department == d && row.employeeCount == |StaffIn(staff, d)|
    ensures row.employeeCount == 0 <==> forall s | s in staff :: s.department != d
    ensures row.employeeCount > 0 ==> row.avgRating * row.employeeCount as real == row.totalRating as real
  {
    var ds := StaffIn(staff, d);
    var total := TotalRating(ds);
    if |ds| == 0 then
      assert forall s | s in staff :: s.department != d;
      DepartmentRating(d, 0.0, 0, total)
    else
      assert ds[0] in staff;
      DepartmentRating(d, total as real / |ds| as real, |ds|, total)
  }

  function AllRows(staff: seq<Staff>): seq<DepartmentRating>
  {
    MapSeq(AnalyticsDepartments, (d: string) => DepartmentRow(staff, d))
  }

  /** `departmentRatings`: the rows of the nine departments, in list order,
      without the departments nobody was assigned to. */
  function DepartmentRatings(staff: seq<Staff>): (r: seq<DepartmentRating>)
    ensures IsSubseq(r, AllRows(staff))
    ensures forall row | row in r :: row.employeeCount > 0 && row == DepartmentRow(staff, row.department)
    ensures forall d :: (exists row | row in r :: row.department == d) <==>
      d in AnalyticsDepartments && exists s | s in staff :: s.department == d
  {
    var all := AllRows(staff);
    var r := Filter(all, (row: DepartmentRating) => row.employeeCount > 0);
    FilterIsSubseq(all, (row: DepartmentRating) => row.employeeCount > 0);
    assert forall row | row in all :: row == DepartmentRow(staff, row.department) && row.department in AnalyticsDepartments;
    forall d ensures (exists row | row in r :: row.department == d) <==>
      d in AnalyticsDepartments && exists s | s in staff :: s.department == d
    {
      if d in AnalyticsDepartments && exists s | s in staff :: s.department == d {
        var k :| 0 <= k < |AnalyticsDepartments| && AnalyticsDepartments[k] == d;
        assert all[k] in r;
      }
    }
    r
  }

  function EmployeeCountTotal(rows: seq<DepartmentRating>): nat
  {
    if rows == [] then 0 else rows[0].employeeCount + EmployeeCountTotal(rows[1..])
  }

  /** Dropping the empty rows does not change the total. */
  lemma {:induction false} DropEmptyRows(rows: seq<DepartmentRating>)
    ensures EmployeeCountTotal(Filter(rows, (row: DepartmentRating) => row.employeeCount > 0)) == EmployeeCountTotal(rows)
  {
    if rows != [] {
      DropEmptyRows(rows[1..]);
      var rest := Filter(rows[1..], (row: DepartmentRating) => row.employeeCount > 0);
      var f := Filter(rows, (row: DepartmentRating) => row.employeeCount > 0);
      if rows[0].employeeCount > 0 {
        assert f == [rows[0]] + rest;
        assert f[1..] == rest;
        assert EmployeeCountTotal(f) == rows[0].employeeCount + EmployeeCountTotal(rest);
      } else {
        assert f == rest;
      }
      assert EmployeeCountTotal(rows) == rows[0].employeeCount + EmployeeCountTotal(rows[1..]);
    }
  }

  lemma {:induction false} RowsCountDepartments(staff: seq<Staff>, ds: seq<string>)
    ensures EmployeeCountTotal(MapSeq(ds, (d: string) => DepartmentRow(staff, d)))
         == SumOfCounts(MapSeq(staff, (s: Staff) => s.department), ds)
  {
    if ds != [] {
      RowsCountDepartments(staff, ds[1..]);
      assert MapSeq(ds, (d: string) => DepartmentRow(staff, d))[1..] == MapSeq(ds[1..], (d: string) => DepartmentRow(staff, d));
      CountWhereKey(staff, (s: Staff) => s.department, ds[0], (s: Staff) => s.department == ds[0]);
    }
  }

  /** When every employee was assigned one of the nine departments, the row
      counts add up to `totalEmployees`. */
  lemma DepartmentCountsSum(staff: seq<Staff>)
    requires forall s | s in staff :: s.department in AnalyticsDepartments
    ensures EmployeeCountTotal(DepartmentRatings(staff)) == |staff|
  {
    DropEmptyRows(AllRows(staff));
    RowsCountDepartments(staff, AnalyticsDepartments);
    var keys := MapSeq(staff, (s: Staff) => s.department);
    forall k | k in keys ensures k in AnalyticsDepartments {
      var i :| 0 <= i < |keys| && keys[i] == k;
      assert staff[i] in staff;
    }
    DepartmentListDistinct();
    SumOfCountsCovers(keys, AnalyticsDepartments);
  }

  lemma DepartmentListDistinct()
    ensures NoDups(AnalyticsDepartments)
  {
    var a := AnalyticsDepartments;
    forall i, j | 0 <= i < j < |a| ensures a[i] != a[j] {
      assert a[i][0] != a[j][0];
    }
  }

  function RatingCount(staff: seq<Staff>, r: int): nat
  {
    CountWhere(staff, (s: Staff) => s.rating == r)
  }

  function AllBuckets(staff: seq<Staff>): (b: seq<PerformanceBucket>)
    ensures |b| == 5
  {
    seq(5, i requires 0 <= i < 5 => PerformanceBucket(Api.StarLabel(i + 1), RatingCount(staff, i + 1), i + 1))
  }

  /** `performanceDistribution`: the five buckets in ascending order, the
      empty ones dropped. */
  function PerformanceDistribution(staff: seq<Staff>): (r: seq<PerformanceBucket>)
    ensures IsSubseq(r, AllBuckets(staff))
    ensures forall b | b in r :: b.count > 0 && 1 <= b.value <= 5 && b.count == RatingCount(staff, b.value)
    ensures forall v | 1 <= v <= 5 :: (exists b | b in r :: b.value == v) <==> RatingCount(staff, v) > 0
  {
    var all := AllBuckets(staff);
    FilterIsSubseq(all, (b: PerformanceBucket) => b.count > 0);
    var r := Filter(all, (b: PerformanceBucket) => b.count > 0);
    forall v | 1 <= v <= 5 ensures (exists b | b in r :: b.value == v) <==> RatingCount(staff, v) > 0 {
      if RatingCount(staff, v) > 0 {
        assert all[v - 1] in r;
      }
    }
    r
  }

  function BucketTotal(buckets: seq<PerformanceBucket>): nat
  {
    if buckets == [] then 0 else buckets[0].count + BucketTotal(buckets[1..])
  }

  lemma {:induction false} DropEmptyBuckets(buckets: seq<PerformanceBucket>)
    ensures BucketTotal(Filter(buckets, (b: PerformanceBucket) => b.count > 0)) == BucketTotal(buckets)
  {
    if buckets != [] {
      DropEmptyBuckets(buckets[1..]);
      var rest := Filter(buckets[1..], (b: PerformanceBucket) => b.count > 0);
      var f := Filter(buckets, (b: PerformanceBucket) => b.count > 0);
      if buckets[0].count > 0 {
        assert f == [buckets[0]] + rest;
        assert f[1..] == rest;
        assert BucketTotal(f) == buckets[0].count + BucketTotal(rest);
      } else {
        assert f == rest;
      }
      assert BucketTotal(buckets) == buckets[0].count + BucketTotal(buckets[1..]);
    }
  }

  /** The five buckets together count each rating once. */
  lemma AllBucketsTotal(staff: seq<Staff>)
    ensures BucketTotal(AllBuckets(staff)) ==
      RatingCount(staff, 1) + RatingCount(staff, 2) + RatingCount(staff, 3) + RatingCount(staff, 4) + RatingCount(staff, 5)
  {
    var b := AllBuckets(staff);
    var b1 := b[1..];
    var b2 := b1[1..];
    var b3 := b2[1..];
    var b4 := b3[1..];
    assert b4[1..] == [];
    assert BucketTotal(b4) == b[4].count;
    assert BucketTotal(b3) == b[3].count + BucketTotal(b4);
    assert BucketTotal(b2) == b[2].count + BucketTotal(b3);
    assert BucketTotal(b1) == b[1].count + BucketTotal(b2);
  }

  /** With every rating between 1 and 5, the histogram adds up to
      `totalEmployees`. */
  lemma DistributionSum(staff: seq<Staff>)
    requires forall s | s in staff :: 1 <= s.rating <= 5
    ensures BucketTotal(PerformanceDistribution(staff)) == |staff|
  {
    var keys := MapSeq(staff, (s: Staff) => s.rating);
    var ds := [1, 2, 3, 4, 5];
    forall r | 1 <= r <= 5 ensures RatingCount(staff, r) == multiset(keys)[r] {
      CountWhereKey(staff, (s: Staff) => s.rating, r, (s: Staff) => s.rating == r);
    }
    forall k | k in keys ensures k in ds {
      var i :| 0 <= i < |keys| && keys[i] == k;
      assert staff[i] in staff;
    }
    SumOfCountsCovers(keys, ds);
    Api.SumOfCountsOfFive(keys);
    DropEmptyBuckets(AllBuckets(staff));
    AllBucketsTotal(staff);
  }

  /** `processAnalyticsData` after enrichment. The average is `None` for
      an empty list, where the page divides zero by zero. */
  function ProcessAnalyticsData(staff: seq<Staff>): (r: AnalyticsData)
    ensures r.totalEmployees == |staff|
    ensures r.departmentRatings == DepartmentRatings(staff)
    ensures r.performanceDistribution == PerformanceDistribution(staff)
    ensures r.totalBookmarks <= r.totalEmployees
    ensures r.avgRating.None? <==> staff == []
    ensures r.avgRating == AverageRating(staff)
  {
    AnalyticsData(
      DepartmentRatings(staff),
      PerformanceDistribution(staff),
      |staff|,
      AverageRating(staff),
      CountWhere(staff, IsFlagged))
  }

  /** The `isBookmarked` flag the enrichment step sets. */
  predicate IsFlagged(s: Staff)
  {
    s.isBookmarked
  }

  /** `totalBookmarks` counts the flagged employees: one employee counts
      once exactly when flagged, the counts of two lists add, and the count
      is zero exactly when nobody is flagged. */
  lemma TotalBookmarksCount(a: seq<Staff>, b: seq<Staff>, s: Staff)
    ensures ProcessAnalyticsData([s]).totalBookmarks == if s.isBookmarked then 1 else 0
    ensures ProcessAnalyticsData(a + b).totalBookmarks ==
            ProcessAnalyticsData(a).totalBookmarks + ProcessAnalyticsData(b).totalBookmarks
    ensures ProcessAnalyticsData(a).totalBookmarks == 0 <==> forall t | t in a :: !t.isBookmarked
  {
    CountWhereAppend(a, b, s, IsFlagged);
    CountWhereNone(a, IsFlagged);
  }

  /** The mean rating; none for an empty list, where the page divides zero
      by zero. */
  function AverageRating(staff: seq<Staff>): (avg: Option<real>)
    ensures avg.None? <==> staff == []
    ensures avg.Some? ==> avg.value * |staff| as real == TotalRating(staff) as real
  {
    if |staff| > 0 then Some(TotalRating(staff) as real / |staff| as real) else None
  }

  // ---------------------------------------------------------------------
  // Rendering helpers

  function Repeat(c: char, n: nat): (s: string)
    ensures |s| == n && forall i | 0 <= i < n :: s[i] == c
  {
    if n == 0 then [] else [c] + Repeat(c, n - 1)
  }

  /** `renderStars(rating)`: `repeat` throws a RangeError on a negative
      count, which happens below 0 and from 6 up. */
  function RenderStars(rating: real): (r: Result<string>)
    ensures r.Success? <==> 0 <= rating.Floor <= 5
    ensures r.Success? ==> |r.value| == 5
    ensures r.Success? ==> forall i | 0 <= i < 5 :: r.value[i] == (if i < rating.Floor then '★' else '☆')
  {
    var f := rating.Floor;
    if f < 0 || 5 - f < 0 then Failure("RangeError: Invalid count value")
    else Success(Repeat('★', f) + Repeat('☆', 5 - f))
  }

  /** The table's performance label. */
  function PerformanceLabel(avg: real): (name: string)
    ensures name in {"Excellent", "Good", "Average", "Needs Improvement"}
    ensures name == "Excellent" <==> avg >= 4.5
    ensures name == "Needs Improvement" <==> avg < 2.5
  {
    if avg >= 4.5 then "Excellent" else if avg >= 3.5 then "Good" else if avg >= 2.5 then "Average" else "Needs Improvement"
  }

  /** `getPerformanceBadgeColor`. */
  function BadgeColor(avg: real): (color: string)
    ensures color in {"bg-green-100 text-green-800", "bg-blue-100 text-blue-800",
                      "bg-yellow-100 text-yellow-800", "bg-red-100 text-red-800"}
    ensures color == "bg-green-100 text-green-800" <==> avg >= 4.5
  {
    if avg >= 4.5 then "bg-green-100 text-green-800"
    else if avg >= 3.5 then "bg-blue-100 text-blue-800"
    else if avg >= 2.5 then "bg-yellow-100 text-yellow-800"
    else "bg-red-100 text-red-800"
  }

  function LabelRank(name: string): nat
  {
    if name == "Excellent" then 3 else if name == "Good" then 2 else if name == "Average" then 1 else 0
  }

  /** The colour and the label come from the same thresholds: green goes with
      Excellent, blue with Good, yellow with Average, red with Needs
      Improvement. */
  lemma ColorMatchesLabel(avg: real)
    ensures BadgeColor(avg) == "bg-green-100 text-green-800" <==> PerformanceLabel(avg) == "Excellent"
    ensures BadgeColor(avg) == "bg-blue-100 text-blue-800" <==> PerformanceLabel(avg) == "Good"
    ensures BadgeColor(avg) == "bg-yellow-100 text-yellow-800" <==> PerformanceLabel(avg) == "Average"
    ensures BadgeColor(avg) == "bg-red-100 text-red-800" <==> PerformanceLabel(avg) == "Needs Improvement"
  {
  }

  /** A higher average never gets a lower label. */
  lemma LabelMonotone(a: real, b: real)
    requires a <= b
    ensures LabelRank(PerformanceLabel(a)) <= LabelRank(PerformanceLabel(b))
  {
  }

  // ---------------------------------------------------------------------
  // Top department and table order

  /** The `reduce` without a seed: start from the first row, move to a later
      row only on a strictly higher average. */
  function BestIndex(rows: seq<DepartmentRating>): (k: nat)
    requires rows != []
    ensures k < |rows|
    ensures forall j | 0 <= j < |rows| :: rows[j].avgRating <= rows[k].avgRating
    ensures forall j | 0 <= j < k :: rows[j].avgRating < rows[k].avgRating
  {
    if |rows| == 1 then 0
    else
      var m := BestIndex(rows[..|rows| - 1]);
      assert forall j | 0 <= j < |rows| - 1 :: rows[..|rows| - 1][j] == rows[j];
      if rows[|rows| - 1].avgRating > rows[m].avgRating then |rows| - 1 else m
  }

  /** "Top Performing Department". */
  function TopDepartment(rows: seq<DepartmentRating>): (name: string)
    ensures rows == [] ==> name == "N/A"
    ensures rows != [] ==> (exists k | 0 <= k < |rows| ::
      && name == rows[k].department
      && (forall j | 0 <= j < |rows| :: rows[j].avgRating <= rows[k].avgRating)
      && (forall j | 0 <= j < k :: rows[j].avgRating < rows[k].avgRating))
  {
    if rows == [] then "N/A" else rows[BestIndex(rows)].department
  }

  ghost predicate SortedDesc(rows: seq<DepartmentRating>)
  {
    forall i, j | 0 <= i < j < |rows| :: rows[i].avgRating >= rows[j].avgRating
  }

  function InsertDesc(x: DepartmentRating, rows: seq<DepartmentRating>): (r: seq<DepartmentRating>)
    requires SortedDesc(rows)
    ensures SortedDesc(r)
    ensures multiset(r) == multiset(rows) + multiset{x}
  {
    if rows == [] then [x]
    else if x.avgRating >= rows[0].avgRating then
      InsertDescFront(x, rows);
      [x] + rows
    else
      var rest := InsertDesc(x, rows[1..]);
      InsertDescLater(x, rows, rest);
      [rows[0]] + rest
  }

  /** `x` goes first when it is at least the head. */
  lemma InsertDescFront(x: DepartmentRating, rows: seq<DepartmentRating>)
    requires SortedDesc(rows) && rows != [] && x.avgRating >= rows[0].avgRating
    ensures SortedDesc([x] + rows)
  {
    forall y | y in multiset(rows) ensures y.avgRating <= x.avgRating {
      var k :| 0 <= k < |rows| && rows[k] == y;
    }
    ConsSortedDesc(x, rows);
  }

  /** Otherwise the head stays in front of the sorted rest. */
  lemma InsertDescLater(x: DepartmentRating, rows: seq<DepartmentRating>, rest: seq<DepartmentRating>)
    requires rows != [] && SortedDesc(rows) && x.avgRating < rows[0].avgRating
    requires SortedDesc(rest) && multiset(rest) == multiset(rows[1..]) + multiset{x}
    ensures SortedDesc([rows[0]] + rest)
    ensures multiset([rows[0]] + rest) == multiset(rows) + multiset{x}
  {
    TailBelowHead(x, rows, rest);
    ConsSortedDesc(rows[0], rest);
    assert rows == [rows[0]] + rows[1..];
  }

  lemma TailBelowHead(x: DepartmentRating, rows: seq<DepartmentRating>, rest: seq<DepartmentRating>)
    requires rows != [] && SortedDesc(rows) && x.avgRating < rows[0].avgRating
    requires multiset(rest) == multiset(rows[1..]) + multiset{x}
    ensures forall y | y in multiset(rest) :: y.avgRating <= rows[0].avgRating
  {
    forall y | y in multiset(rest) ensures y.avgRating <= rows[0].avgRating {
      if y != x {
        assert y in multiset(rows[1..]);
        var k :| 0 <= k < |rows[1..]| && rows[1..][k] == y;
        assert rows[k + 1] == y;
      }
    }
  }

  lemma ConsSortedDesc(x: DepartmentRating, rows: seq<DepartmentRating>)
    requires SortedDesc(rows)
    requires forall y | y in multiset(rows) :: y.avgRating <= x.avgRating
    ensures SortedDesc([x] + rows)
  {
    var r := [x] + rows;
    forall i, j | 0 <= i < j < |r| ensures r[i].avgRating >= r[j].avgRating {
      assert r[j] == rows[j - 1];
      assert rows[j - 1] in multiset(rows);
      if i > 0 {
        assert r[i] == rows[i - 1];
      }
    }
  }

  /** The table order: a copy sorted by descending average. */
  function SortByAvgDesc(rows: seq<DepartmentRating>): (r: seq<DepartmentRating>)
    ensures SortedDesc(r)
    ensures multiset(r) == multiset(rows)
  {
    if rows == [] then []
    else
      assert rows == [rows[0]] + rows[1..];
      InsertDesc(rows[0], SortByAvgDesc(rows[1..]))
  }
}
