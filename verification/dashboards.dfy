/** The two statistics screens. The dashboard page shows totals over the
    `GET /vacations/stats` rows and a chart of those rows by decreasing
    count. The admin dashboard joins the vacation listing with the stats
    by destination, sorts by decreasing count and shows the total, the
    rounded average, the largest and the smallest count. Both export the
    chart rows as CSV. */
module Dashboards {

  import opened Wrappers
  import Sorting
  import VacationRoutes
  import CsvExport
  import JsText

  type StatRow = VacationRoutes.StatRow

  function Count(r: StatRow): int { r.followerCount }

  /** `rows.reduce((sum, row) => sum + row.followerCount, 0)`. */
  /** `reduce((sum, s) => sum + s.followerCount, 0)`. */
  function Sum(rows: seq<StatRow>): (total: nat)
    ensures forall i :: 0 <= i < |rows| ==> rows[i].followerCount <= total
    ensures total == 0 <==> forall i :: 0 <= i < |rows| ==> rows[i].followerCount == 0
  {
    if |rows| == 0 then 0
    else
      var rest := Sum(rows[1..]);
      assert forall i :: 1 <= i < |rows| ==> rows[i] == rows[1..][i - 1];
      rows[0].followerCount + rest
  }

  lemma {:induction false} SumAppend(a: seq<StatRow>, b: seq<StatRow>)
    ensures Sum(a + b) == Sum(a) + Sum(b)
  {
    if |a| > 0 {
      SumAppend(a[1..], b);
      assert (a + b)[1..] == a[1..] + b;
    } else {
      assert a + b == b;
    }
  }

  /** Reordering the rows does not change the total. */
  lemma {:induction false} SumPermutation(a: seq<StatRow>, b: seq<StatRow>)
    requires multiset(a) == multiset(b)
    ensures Sum(a) == Sum(b)
  {
    Sorting.PermutationLength(a, b);
    if |a| > 0 {
      assert a == [a[0]] + a[1..];
      assert a[0] in multiset(b);
      var j :| 0 <= j < |b| && b[j] == a[0];
      var rest := b[..j] + b[j + 1..];
      assert b == b[..j] + [b[j]] + b[j + 1..];
      assert multiset(rest) == multiset(b) - multiset{a[0]};
      assert multiset(a[1..]) == multiset(a) - multiset{a[0]};
      SumPermutation(a[1..], rest);
      SumAppend(b[..j] + [b[j]], b[j + 1..]);
      SumAppend(b[..j], [b[j]]);
      SumAppend(b[..j], b[j + 1..]);
    }
  }

  /** Every count lies between the bounds, so the total lies between the
      row count times each bound. */
  lemma {:induction false} SumBounds(rows: seq<StatRow>, lo: nat, hi: nat)
    requires forall i :: 0 <= i < |rows| ==> lo <= rows[i].followerCount <= hi
    ensures |rows| * lo <= Sum(rows) <= |rows| * hi
  {
    if |rows| > 0 {
      var tail := rows[1..];
      assert forall i :: 0 <= i < |tail| ==> tail[i] == rows[i + 1];
      SumBounds(tail, lo, hi);
      MulSucc(|tail|, lo);
      MulSucc(|tail|, hi);
    }
  }

  lemma MulSucc(n: nat, k: nat)
    ensures (n + 1) * k == k + n * k
  {
  }

  /** The three figures of the dashboard page. */
  datatype Summary = Summary(totalVacations: nat, totalUsers: nat, totalFollowers: nat)

  /** The user count is a fixed placeholder, not read from the data. */
  const PlaceholderUsers: nat := 42

  /** The summary figures: one vacation per stats row, the placeholder user
      count, and the total of the counts. */
  function Summarize(stats: seq<StatRow>): (s: Summary)
    ensures s.totalVacations == |stats| && s.totalUsers == PlaceholderUsers
    ensures s.totalFollowers == Sum(stats)
    ensures s.totalFollowers == 0 <==> forall i :: 0 <= i < |stats| ==> stats[i].followerCount == 0
  {
    Summary(|stats|, PlaceholderUsers, Sum(stats))
  }

  /** The chart rows: the stats (with `followerCount || 0`, which leaves a
      count unchanged) by decreasing count. */
  function ChartData(stats: seq<StatRow>): (r: seq<StatRow>)
    ensures multiset(r) == multiset(stats)
    ensures Sorting.SortedDescBy(r, Count)
  {
    Sorting.SortDescBy(stats, Count)
  }

  /** The chart shows exactly the summarised rows: as many of them, with the
      same total, and the user figure does not depend on the data. */
  lemma ChartAgreesWithSummary(stats: seq<StatRow>, other: seq<StatRow>)
    ensures |ChartData(stats)| == Summarize(stats).totalVacations
    ensures Sum(ChartData(stats)) == Summarize(stats).totalFollowers
    ensures Summarize(stats).totalUsers == Summarize(other).totalUsers == 42
  {
    Sorting.PermutationLength(ChartData(stats), stats);
    SumPermutation(ChartData(stats), stats);
  }

  /** The dashboard page's CSV export. */
  /** The dashboard's export of its chart rows. */
  function DashboardCsv(stats: seq<StatRow>): (text: string)
    ensures JsText.Split(text, '\n')[0] == CsvExport.Header
    ensures |JsText.Split(text, '\n')| >= |stats| + 1
  {
    Sorting.PermutationLength(ChartData(stats), stats);
    CsvExport.Csv(ChartData(stats))
  }

  /** The export reads back as the chart rows exactly when no destination
      holds a quote or a newline. */
  lemma DashboardCsvRoundTrip(stats: seq<StatRow>)
    ensures CsvExport.ParseCsv(DashboardCsv(stats)) == Some(ChartData(stats)) <==>
            forall i :: 0 <= i < |stats| ==> CsvExport.Clean(stats[i])
  {
    var chart := ChartData(stats);
    CsvExport.CsvRoundTrip(chart);
    Sorting.PermutationLength(chart, stats);
    if forall i :: 0 <= i < |stats| ==> CsvExport.Clean(stats[i]) {
      forall i | 0 <= i < |chart| ensures CsvExport.Clean(chart[i]) {
        assert chart[i] in multiset(stats);
      }
    } else {
      var i :| 0 <= i < |stats| && !CsvExport.Clean(stats[i]);
      assert stats[i] in multiset(chart);
    }
  }

  /** The position of the first stats row for destination `d`, as
      `stats.find(s => s.destination === d)`. */
  function StatIndex(stats: seq<StatRow>, d: string): (r: Option<nat>)
    ensures r.None? <==> forall i :: 0 <= i < |stats| ==> stats[i].destination != d
    ensures r.Some? ==> (r.value < |stats| && stats[r.value].destination == d &&
                         forall j :: 0 <= j < r.value ==> stats[j].destination != d)
  {
    if |stats| == 0 then None
    else if stats[0].destination == d then Some(0)
    else
      match StatIndex(stats[1..], d)
      case None => None
      case Some(k) => Some(k + 1)
  }

  /** `stat ? stat.followerCount : 0`. */
  function CountFor(stats: seq<StatRow>, d: string): (n: nat)
    ensures (forall i :: 0 <= i < |stats| ==> stats[i].destination != d) ==> n == 0
    ensures forall k :: 0 <= k < |stats| && stats[k].destination == d
                        && (forall j :: 0 <= j < k ==> stats[j].destination != d)
                        ==> n == stats[k].followerCount
  {
    match StatIndex(stats, d)
    case None => 0
    case Some(k) => stats[k].followerCount
  }

  /** One output row per listed vacation, in listing order: its destination
      with the count of the first stats row for that destination, or 0. */
  function Combine(vs: seq<VacationRoutes.ListedVacation>, stats: seq<StatRow>): (r: seq<StatRow>)
    ensures |r| == |vs|
    ensures forall i :: 0 <= i < |vs| ==> r[i].destination == vs[i].vacation.destination
    ensures forall i :: 0 <= i < |vs| ==>
              ((forall j :: 0 <= j < |stats| ==> stats[j].destination != vs[i].vacation.destination) ==>
               r[i].followerCount == 0)
    ensures forall i, j ::
              (0 <= i < |vs| && 0 <= j < |stats| &&
               stats[j].destination == vs[i].vacation.destination &&
               (forall k :: 0 <= k < j ==> stats[k].destination != stats[j].destination)) ==>
              r[i].followerCount == stats[j].followerCount
  {
    seq(|vs|, i requires 0 <= i < |vs| =>
      VacationRoutes.StatRow(vs[i].vacation.destination, CountFor(stats, vs[i].vacation.destination)))
  }

  /** The admin chart: the combined rows by decreasing count. */
  function AdminData(vs: seq<VacationRoutes.ListedVacation>, stats: seq<StatRow>): (r: seq<StatRow>)
    ensures multiset(r) == multiset(Combine(vs, stats))
    ensures Sorting.SortedDescBy(r, Count)
    ensures |r| == |vs|
  {
    var r := Sorting.SortDescBy(Combine(vs, stats), Count);
    Sorting.PermutationLength(r, Combine(vs, stats));
    r
  }

  /** `Math.round(t / n)`, half rounding up, as exact integer arithmetic. */
  function RoundedAverage(t: nat, n: nat): (r: nat)
    ensures n == 0 ==> r == 0
    ensures n > 0 ==> n * (2 * r - 1) <= 2 * t < n * (2 * r + 1)
  {
    if n == 0 then 0
    else
      var r := (2 * t + n) / (2 * n);
      assert 2 * n * r <= 2 * t + n < 2 * n * r + 2 * n;
      assert n * (2 * r - 1) == 2 * n * r - n;
      assert n * (2 * r + 1) == 2 * n * r + n;
      r
  }

  datatype Metrics = Metrics(totalFollowers: nat, averageFollowers: nat, mostFollowed: nat, leastFollowed: nat)

  /** The four figures over the admin chart rows: the total, the rounded
      average (0 with no rows), the first row's count and the last row's
      count (each 0 with no rows). */
  function ComputeMetrics(data: seq<StatRow>): (m: Metrics)
    ensures m.totalFollowers == Sum(data)
    ensures m.averageFollowers == RoundedAverage(m.totalFollowers, |data|)
    ensures |data| == 0 ==> m == Metrics(0, 0, 0, 0)
    ensures |data| > 0 ==> m.mostFollowed == data[0].followerCount &&
                           m.leastFollowed == data[|data| - 1].followerCount
  {
    var total := Sum(data);
    var most := if |data| > 0 then data[0].followerCount else 0;
    var least := if |data| > 0 then data[|data| - 1].followerCount else 0;
    Metrics(total, RoundedAverage(total, |data|), most, least)
  }

  /** Over rows sorted by decreasing count, the first count is the largest,
      the last the smallest, and the average lies between them. */
  lemma MetricsOfSorted(data: seq<StatRow>)
    requires Sorting.SortedDescBy(data, Count)
    ensures var m := ComputeMetrics(data);
            (forall i :: 0 <= i < |data| ==> m.leastFollowed <= data[i].followerCount <= m.mostFollowed) &&
            m.leastFollowed <= m.averageFollowers <= m.mostFollowed
  {
    if |data| > 0 {
      var m := ComputeMetrics(data);
      assert forall i :: 0 <= i < |data| ==> m.leastFollowed <= data[i].followerCount <= m.mostFollowed by {
        forall i | 0 <= i < |data| ensures m.leastFollowed <= data[i].followerCount <= m.mostFollowed {
          assert Count(data[0]) >= Count(data[i]) >= Count(data[|data| - 1]);
        }
      }
      SumBounds(data, m.leastFollowed, m.mostFollowed);
      AverageBetween(m.totalFollowers, |data|, m.leastFollowed, m.mostFollowed);
    }
  }

  /** Multiplying by a natural number keeps the order. */
  lemma MulMonotone(n: nat, x: int, y: int)
    requires x <= y
    ensures n * x <= n * y
  {
    assert n * y - n * x == n * (y - x);
  }

  /** The rounded average reaches a lower bound of the mean. */
  lemma RoundingKeepsLowerBound(t: nat, n: nat, r: int, lo: nat)
    requires n > 0 && n * lo <= t && 2 * t < n * (2 * r + 1)
    ensures lo <= r
  {
    if r < lo {
      MulMonotone(n, 2 * r + 1, 2 * lo - 1);
    }
  }

  /** The rounded average does not pass an upper bound of the mean. */
  lemma RoundingKeepsUpperBound(t: nat, n: nat, r: int, hi: nat)
    requires n > 0 && t <= n * hi && n * (2 * r - 1) <= 2 * t
    ensures r <= hi
  {
    if r > hi {
      MulMonotone(n, 2 * hi + 1, 2 * r - 1);
    }
  }

  /** A rounded average of a total between n·lo and n·hi lies between lo and
      hi. */
  lemma AverageBetween(t: nat, n: nat, lo: nat, hi: nat)
    requires n > 0 && n * lo <= t <= n * hi
    ensures lo <= RoundedAverage(t, n) <= hi
  {
    var r := RoundedAverage(t, n);
    RoundingKeepsLowerBound(t, n, r, lo);
    RoundingKeepsUpperBound(t, n, r, hi);
  }

  /** The admin dashboard's CSV export, over its sorted rows. */
  /** The admin dashboard's export: one line per listed vacation after the
      header. */
  function AdminCsv(vs: seq<VacationRoutes.ListedVacation>, stats: seq<StatRow>): (text: string)
    ensures JsText.Split(text, '\n')[0] == CsvExport.Header
    ensures |JsText.Split(text, '\n')| >= |vs| + 1
  {
    CsvExport.Csv(AdminData(vs, stats))
  }

  /** The total is at least the sum of any two of its rows. */
  lemma {:induction false} SumAtLeastTwo(c: seq<StatRow>, i: nat, j: nat)
    requires i < j < |c|
    ensures Sum(c) >= c[i].followerCount + c[j].followerCount
  {
    if i > 0 {
      SumAtLeastTwo(c[1..], i - 1, j - 1);
    } else {
      SumAtLeastOne(c[1..], j - 1);
    }
  }

  lemma {:induction false} SumAtLeastOne(c: seq<StatRow>, j: nat)
    requires j < |c|
    ensures Sum(c) >= c[j].followerCount
  {
    if j > 0 {
      SumAtLeastOne(c[1..], j - 1);
    }
  }

  /** Two vacations sharing a destination both show its count, so the
      admin total counts it twice. */
  lemma SharedDestinationCountedTwice(vs: seq<VacationRoutes.ListedVacation>, stats: seq<StatRow>, i: nat, j: nat)
    requires i < j < |vs| && vs[i].vacation.destination == vs[j].vacation.destination
    ensures Sum(AdminData(vs, stats)) >= 2 * CountFor(stats, vs[i].vacation.destination)
  {
    var c := Combine(vs, stats);
    SumPermutation(AdminData(vs, stats), c);
    SumAtLeastTwo(c, i, j);
  }

  const ParisA: VacationRoutes.Vacation := VacationRoutes.Vacation(1, "Paris", "", 0, 1, 100, "")
  const ParisB: VacationRoutes.Vacation := VacationRoutes.Vacation(2, "Paris", "", 0, 1, 200, "")

  /** With two Paris vacations and one follower of the first, the server
      reports a single Paris row with one follower. */
  lemma TwoParisStats()
    ensures VacationRoutes.Stats([ParisA, ParisB], {(7, 1)}) == [VacationRoutes.StatRow("Paris", 1)]
  {
    var vs := [ParisA, ParisB];
    var ledger := {(7, 1)};
    assert VacationRoutes.PairsOf(ledger, 1) == {(7, 1)};
    assert VacationRoutes.PairsOf(ledger, 2) == {};
    assert VacationRoutes.JoinedCount([], ledger, "Paris") == 0;
    assert [ParisB][1..] == [];
    assert VacationRoutes.JoinedCount([ParisB], ledger, "Paris") == 0;
    assert vs[1..] == [ParisB];
    assert VacationRoutes.JoinedCount(vs, ledger, "Paris") == 1;
    assert VacationRoutes.DestinationsOf(vs) == ["Paris", "Paris"];
    var paris: seq<string> := ["Paris"];
    assert paris[..0] == [];
    assert VacationRoutes.Distinct(paris) == paris;
    assert ["Paris", "Paris"][..1] == paris;
    assert VacationRoutes.Distinct(["Paris", "Paris"]) == paris;
  }

  /** On that data the admin dashboard shows Paris twice with one follower
      each: its total is 2 while the ledger holds one follow. */
  lemma SharedDestinationExample()
    ensures var listed := [VacationRoutes.ListedVacation(ParisA, false), VacationRoutes.ListedVacation(ParisB, false)];
            var stats := VacationRoutes.Stats([ParisA, ParisB], {(7, 1)});
            ComputeMetrics(AdminData(listed, stats)).totalFollowers == 2 > |{(7, 1)}|
  {
    TwoParisStats();
    var stats := [VacationRoutes.StatRow("Paris", 1)];
    var listed := [VacationRoutes.ListedVacation(ParisA, false), VacationRoutes.ListedVacation(ParisB, false)];
    var c := Combine(listed, stats);
    var p := VacationRoutes.StatRow("Paris", 1);
    assert c == [p, p];
    SumPermutation(AdminData(listed, stats), c);
    assert [p][1..] == [];
    assert Sum([p]) == 1;
    assert [p, p][1..] == [p];
    assert Sum(c) == 2;
  }
}
