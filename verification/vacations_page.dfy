/** The user's vacation browser: the rows of `GET /vacations` filtered
    ("followed", "upcoming" or all), optionally sorted by price, cut into
    pages of ten, and the follow toggle that calls the server and flips the
    row's `isFollowed` flag. Dates are integers on the scale of the listing's
    `startDate`; `today` is a parameter. */
module VacationsPage {

  import opened Wrappers
  import JsText
  import Sorting
  import ClientApi
  import VacationRoutes
  import opened Subsequence

  type Row = VacationRoutes.ListedVacation

  const ItemsPerPage: nat := 10

  /** `rows.filter(keep)`. */
  function Keep(rows: seq<Row>, keep: Row -> bool): (r: seq<Row>)
    ensures IsSubseq(r, rows)
    ensures forall i :: 0 <= i < |r| ==> keep(r[i])
    ensures forall x :: multiset(r)[x] == if keep(x) then multiset(rows)[x] else 0
  {
    if |rows| == 0 then []
    else
      var rest := Keep(rows[1..], keep);
      assert rows == [rows[0]] + rows[1..];
      if keep(rows[0]) then
        assert ([rows[0]] + rest)[1..] == rest;
        [rows[0]] + rest
      else rest
  }

  predicate Followed(v: Row) { v.isFollowed }

  predicate Upcoming(v: Row, today: int) { v.vacation.startDate > today }

  /** The filter step of the view effect: "followed" keeps the followed
      rows, "upcoming" those starting after today, anything else all rows;
      the survivors keep their order and their multiplicity. */
  function ApplyFilter(rows: seq<Row>, filter: string, today: int): (r: seq<Row>)
    ensures IsSubseq(r, rows)
    ensures filter == "followed" ==>
              forall x :: multiset(r)[x] == if Followed(x) then multiset(rows)[x] else 0
    ensures filter == "upcoming" ==>
              forall x :: multiset(r)[x] == if Upcoming(x, today) then multiset(rows)[x] else 0
    ensures filter != "followed" && filter != "upcoming" ==> r == rows
  {
    if filter == "followed" then Keep(rows, Followed)
    else if filter == "upcoming" then Keep(rows, v => Upcoming(v, today))
    else SubseqOfItself(rows); rows
  }

  function Price(v: Row): int { v.vacation.price }

  /** The sort step: "price_asc" and "price_desc" reorder by price, any other
      value keeps the order. */
  function ApplySort(rows: seq<Row>, sortType: string): (r: seq<Row>)
    ensures multiset(r) == multiset(rows)
    ensures sortType == "price_asc" ==> Sorting.SortedBy(r, Price)
    ensures sortType == "price_desc" ==> Sorting.SortedDescBy(r, Price)
    ensures sortType != "price_asc" && sortType != "price_desc" ==> r == rows
  {
    if sortType == "price_asc" then Sorting.SortBy(rows, Price)
    else if sortType == "price_desc" then Sorting.SortDescBy(rows, Price)
    else rows
  }

  /** The page's state: the fetched rows, the chosen filter and sort, the
      rows on display and the current page number. */
  datatype View = View(
    vacations: seq<Row>,
    filter: string,
    sortType: string,
    shown: seq<Row>,
    page: int)

  /** Whether a row passes the filter: "followed" keeps the followed rows,
      "upcoming" those starting after today, anything else every row. */
  predicate Selected(x: Row, filter: string, today: int) {
    if filter == "followed" then Followed(x)
    else if filter == "upcoming" then Upcoming(x, today)
    else true
  }

  /** What the page must display for the given rows, filter and sort: each
      selected row exactly as often as it was fetched and nothing else,
      ordered by price when a price sort is chosen and in fetch order
      otherwise. */
  ghost predicate Displays(shown: seq<Row>, rows: seq<Row>, filter: string, sortType: string, today: int) {
    && (forall x :: multiset(shown)[x] == if Selected(x, filter, today) then multiset(rows)[x] else 0)
    && (sortType == "price_asc" ==> Sorting.SortedBy(shown, Price))
    && (sortType == "price_desc" ==> Sorting.SortedDescBy(shown, Price))
    && (sortType != "price_asc" && sortType != "price_desc" ==> IsSubseq(shown, rows))
  }

  /** The effect that runs whenever the rows, the filter or the sort change:
      recompute the displayed rows and go back to page 1. */
  function Refresh(v: View, today: int): (r: View)
    ensures r.page == 1
    ensures r.vacations == v.vacations && r.filter == v.filter && r.sortType == v.sortType
    ensures Displays(r.shown, v.vacations, v.filter, v.sortType, today)
  {
    var filtered := ApplyFilter(v.vacations, v.filter, today);
    var r := v.(shown := ApplySort(filtered, v.sortType), page := 1);
    assert multiset(r.shown) == multiset(filtered);
    r
  }

  /** Choosing a filter re-runs the effect with the current sort. */
  function SetFilter(v: View, filter: string, today: int): (r: View)
    ensures r.page == 1 && r.filter == filter && r.sortType == v.sortType && r.vacations == v.vacations
    ensures Displays(r.shown, v.vacations, filter, v.sortType, today)
  {
    Refresh(v.(filter := filter), today)
  }

  /** Choosing a sort re-runs the effect with the current filter. */
  function SetSort(v: View, sortType: string, today: int): (r: View)
    ensures r.page == 1 && r.sortType == sortType && r.filter == v.filter && r.vacations == v.vacations
    ensures Displays(r.shown, v.vacations, v.filter, sortType, today)
  {
    Refresh(v.(sortType := sortType), today)
  }

  /** The mount fetch: on success the rows are replaced (which re-runs the
      effect); on failure the error is only logged. */
  function Load(v: View, fetched: ClientApi.ApiOutcome<seq<Row>>, today: int): (r: View)
    ensures fetched.Failure? ==> r == v
    ensures fetched.Success? ==>
            && r.vacations == fetched.data && r.page == 1
            && r.filter == v.filter && r.sortType == v.sortType
            && Displays(r.shown, fetched.data, v.filter, v.sortType, today)
  {
    match fetched
    case Success(rows) => Refresh(v.(vacations := rows), today)
    case Failure(_) => v
  }

  /** The pagination control sets the page and nothing else. */
  function ChangePage(v: View, page: int): (r: View)
    ensures r.page == page && r.shown == v.shown && r.vacations == v.vacations
    ensures r.filter == v.filter && r.sortType == v.sortType
  {
    v.(page := page)
  }

  /** The rows on page `page`: `slice((page - 1) * 10, (page - 1) * 10 + 10)`. */
  function PageItems<T>(rows: seq<T>, page: int): (r: seq<T>)
    ensures page >= 1 ==> |r| <= ItemsPerPage
    ensures page >= 1 && (page - 1) * ItemsPerPage >= |rows| ==> r == []
  {
    var start := (page - 1) * ItemsPerPage;
    JsText.Slice(rows, start, start + ItemsPerPage)
  }

  /** `Math.ceil(n / 10)`: the fewest pages of ten that hold `n` rows. */
  function TotalPages(n: nat): (r: nat)
    ensures r * ItemsPerPage >= n
    ensures r == 0 || (r - 1) * ItemsPerPage < n
    ensures r == 0 <==> n == 0
  {
    (n + ItemsPerPage - 1) / ItemsPerPage
  }

  /** Pages 1 to k laid end to end. */
  function PagesUpTo<T>(rows: seq<T>, k: nat): seq<T> {
    if k == 0 then [] else PagesUpTo(rows, k - 1) + PageItems(rows, k)
  }

  function Min(a: int, b: int): int { if a <= b then a else b }

  /** The first k pages are the first 10k rows. */
  lemma {:induction false} PagesUpToPrefix<T>(rows: seq<T>, k: nat)
    ensures PagesUpTo(rows, k) == rows[..Min(k * ItemsPerPage, |rows|)]
  {
    if k > 0 {
      PagesUpToPrefix(rows, k - 1);
      var lo := Min((k - 1) * ItemsPerPage, |rows|);
      var hi := Min(k * ItemsPerPage, |rows|);
      JsText.SliceWindow(rows, (k - 1) * ItemsPerPage, k * ItemsPerPage);
      assert PageItems(rows, k) == rows[lo..hi];
      assert rows[..lo] + rows[lo..hi] == rows[..hi];
    }
  }

  /** The pages partition the displayed list: laid end to end, pages 1 to
      `totalPages` give back every row exactly once, in order. */
  lemma PagesPartition<T>(rows: seq<T>)
    ensures PagesUpTo(rows, TotalPages(|rows|)) == rows
  {
    PagesUpToPrefix(rows, TotalPages(|rows|));
    assert rows[..|rows|] == rows;
  }

  /** Row i is shown on page i / 10 + 1, at position i % 10. */
  lemma RowOnItsPage<T>(rows: seq<T>, i: nat)
    requires i < |rows|
    ensures var p := i / ItemsPerPage + 1;
            p <= TotalPages(|rows|) && i % ItemsPerPage < |PageItems(rows, p)| &&
            PageItems(rows, p)[i % ItemsPerPage] == rows[i]
  {
    var p := i / ItemsPerPage + 1;
    JsText.SliceWindow(rows, (p - 1) * ItemsPerPage, p * ItemsPerPage);
  }

  /** The request `handleFollow` sends. */
  datatype FollowCall = NoCall | DeleteFollow(id: int) | PostFollow(id: int)

  /** The position of the first row with the id: `Array.prototype.find`
      reports that row. */
  function FindIndex(rows: seq<Row>, id: int): (r: Option<nat>)
    ensures r.None? <==> forall i :: 0 <= i < |rows| ==> rows[i].vacation.id != id
    ensures r.Some? ==> (r.value < |rows| && rows[r.value].vacation.id == id &&
                         forall j :: 0 <= j < r.value ==> rows[j].vacation.id != id)
  {
    if |rows| == 0 then None
    else if rows[0].vacation.id == id then Some(0)
    else
      match FindIndex(rows[1..], id)
      case None => None
      case Some(k) => Some(k + 1)
  }

  function FindRow(rows: seq<Row>, id: int): Option<Row> {
    match FindIndex(rows, id)
    case None => None
    case Some(k) => Some(rows[k])
  }

  /** `vacations.map(v => v.vacation_id === id ? {...v, isFollowed: !v.isFollowed} : v)`. */
  function FlipFollowed(rows: seq<Row>, id: int): (r: seq<Row>)
    ensures |r| == |rows|
    ensures forall i :: 0 <= i < |rows| ==>
              r[i] == if rows[i].vacation.id == id
                      then rows[i].(isFollowed := !rows[i].isFollowed) else rows[i]
  {
    seq(|rows|, i requires 0 <= i < |rows| =>
      if rows[i].vacation.id == id then rows[i].(isFollowed := !rows[i].isFollowed) else rows[i])
  }

  /** `handleFollow(id)` on the fetched rows: an unknown id sends nothing;
      a followed vacation gets DELETE, any other POST; `outcome` is the
      server's answer, and only a success flips the matching rows. */
  function HandleFollow(rows: seq<Row>, id: int, outcome: ClientApi.ApiOutcome<()>): (r: (FollowCall, seq<Row>))
    ensures r.0.DeleteFollow? <==> FindRow(rows, id).Some? && FindRow(rows, id).value.isFollowed
    ensures r.0.PostFollow? <==> FindRow(rows, id).Some? && !FindRow(rows, id).value.isFollowed
    ensures r.0 != NoCall ==> r.0.id == id
    ensures r.0 == NoCall || outcome.Failure? ==> r.1 == rows
    ensures r.0 != NoCall && outcome.Success? ==>
              |r.1| == |rows| &&
              forall i :: 0 <= i < |rows| ==>
                r.1[i].vacation == rows[i].vacation &&
                (r.1[i].isFollowed <==> (rows[i].isFollowed != (rows[i].vacation.id == id)))
  {
    match FindRow(rows, id)
    case None => (NoCall, rows)
    case Some(v) =>
      var call := if v.isFollowed then DeleteFollow(id) else PostFollow(id);
      if outcome.Success? then (call, FlipFollowed(rows, id)) else (call, rows)
  }

  /** Two successful toggles of the same vacation send POST then DELETE (or
      DELETE then POST) and give back the original rows. */
  lemma FollowTwiceRestores(rows: seq<Row>, id: int)
    requires FindRow(rows, id).Some?
    ensures var (c1, once) := HandleFollow(rows, id, ClientApi.Success(()));
            var (c2, twice) := HandleFollow(once, id, ClientApi.Success(()));
            twice == rows && c1 != NoCall && c2 != NoCall && (c1.DeleteFollow? <==> c2.PostFollow?)
  {
    var i := FindIndex(rows, id).value;
    var once := FlipFollowed(rows, id);
    var k := FindIndex(once, id).value;
    assert k == i;
    assert FlipFollowed(once, id) == rows;
  }

  /** The page-level toggle: a successful toggle replaces the rows, which
      re-runs the view effect and so returns to page 1. */
  function ToggleFollow(v: View, id: int, outcome: ClientApi.ApiOutcome<()>, today: int): (r: (FollowCall, View))
    ensures r.1.vacations == HandleFollow(v.vacations, id, outcome).1
    ensures r.0 == NoCall || outcome.Failure? ==> r.1 == v
    ensures r.0 != NoCall && outcome.Success? ==>
            && r.1.page == 1 && r.1.filter == v.filter && r.1.sortType == v.sortType
            && Displays(r.1.shown, r.1.vacations, v.filter, v.sortType, today)
  {
    var (call, rows) := HandleFollow(v.vacations, id, outcome);
    if call != NoCall && outcome.Success? then (call, Refresh(v.(vacations := rows), today))
    else (call, v)
  }
}
