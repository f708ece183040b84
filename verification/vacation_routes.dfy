/** The vacation routes of the server: the listing with the per-user
    `isFollowed` flag, admin add/update/delete, follow/unfollow over the
    follower ledger, and the per-destination follower statistics. The
    vacations table is a sequence of rows; the follower ledger is a set of
    `(user_id, vacation_id)` pairs (the table's key makes a pair unique).
    Dates are integers (days) and prices integers. */
module VacationRoutes {

  import opened Wrappers
  import JsText
  import Sorting
  import opened Subsequence

  datatype Vacation = Vacation(
    id: int,
    destination: string,
    description: string,
    startDate: int,
    endDate: int,
    price: int,
    image: string)

  /** A pair `(user_id, vacation_id)` of the `followers` table. */
  type Ledger = set<(int, int)>

  /** A row of `GET /vacations`: the vacation plus `isFollowed`. */
  datatype ListedVacation = ListedVacation(vacation: Vacation, isFollowed: bool)

  /** A row of `GET /vacations/stats`. */
  datatype StatRow = StatRow(destination: string, followerCount: nat)

  /** The six body fields of add and update. A field is None when it is
      missing from the body; a date is None also when it is the empty
      string. */
  datatype VacationInput = VacationInput(
    destination: Option<string>,
    description: Option<string>,
    startDate: Option<int>,
    endDate: Option<int>,
    price: Option<int>,
    image: Option<string>)

  datatype Reply =
    | Added(vacationId: int)       // 201 {message, vacation_id}
    | Updated                      // 200 {message}
    | Followed(vacationId: int)    // 200 {followed: true, vacationId}
    | Unfollowed(vacationId: int)  // 200 {unfollowed: true, vacationId}
    | Rejected(status: int, message: string)

  /** No two vacations share an id (the table's primary key). */
  predicate UniqueIds(vs: seq<Vacation>) {
    forall i, j :: 0 <= i < j < |vs| ==> vs[i].id != vs[j].id
  }

  predicate HasVacation(vs: seq<Vacation>, id: int) {
    exists i :: 0 <= i < |vs| && vs[i].id == id
  }

  function StartKey(v: Vacation): int { v.startDate }

  function VacationsOf(rows: seq<ListedVacation>): (r: seq<Vacation>)
    ensures |r| == |rows| && forall i :: 0 <= i < |rows| ==> r[i] == rows[i].vacation
  {
    seq(|rows|, i requires 0 <= i < |rows| => rows[i].vacation)
  }

  /** `GET /vacations`: every vacation once, ordered by start date, flagged
      with whether the requesting user follows it (a correlated EXISTS). */
  function ListVacations(vs: seq<Vacation>, ledger: Ledger, userId: int): (r: seq<ListedVacation>)
    ensures |r| == |vs|
    ensures multiset(VacationsOf(r)) == multiset(vs)
    ensures Sorting.SortedBy(VacationsOf(r), StartKey)
    ensures forall i :: 0 <= i < |r| ==> (r[i].isFollowed <==> (userId, r[i].vacation.id) in ledger)
  {
    var sorted := Sorting.SortBy(vs, StartKey);
    Sorting.PermutationLength(sorted, vs);
    var r := seq(|sorted|, i requires 0 <= i < |sorted| =>
                   ListedVacation(sorted[i], (userId, sorted[i].id) in ledger));
    assert VacationsOf(r) == sorted;
    r
  }

  /** JavaScript truthiness of each body field: a missing field, the empty
      string and the price 0 are falsy. */
  predicate AllFieldsPresent(input: VacationInput) {
    && input.destination.Some? && input.destination.value != ""
    && input.description.Some? && input.description.value != ""
    && input.startDate.Some?
    && input.endDate.Some?
    && input.price.Some? && input.price.value != 0
    && input.image.Some? && input.image.value != ""
  }

  /** The row the input describes, under id `id`. */
  function FromInput(id: int, input: VacationInput): Vacation
    requires AllFieldsPresent(input)
  {
    Vacation(id, input.destination.value, input.description.value, input.startDate.value,
             input.endDate.value, input.price.value, input.image.value)
  }

  /** One more than the largest stored id (1 for an empty table). */
  function NextVacationId(vs: seq<Vacation>): (r: int)
    ensures !HasVacation(vs, r)
    ensures forall j :: 0 <= j < |vs| ==> vs[j].id < r
  {
    if |vs| == 0 then 1
    else
      var rest := NextVacationId(vs[1..]);
      assert forall j :: 1 <= j < |vs| ==> vs[j] == vs[1..][j - 1];
      if vs[0].id + 1 > rest then vs[0].id + 1 else rest
  }

  /** Every stored id lies below the auto-increment counter. */
  predicate IdsBelow(vs: seq<Vacation>, counter: int) {
    forall j :: 0 <= j < |vs| ==> vs[j].id < counter
  }

  /** `POST /vacations/add`. `counter` is the table's auto-increment value:
      it only grows, so an id is never handed out twice, even after the row
      holding it was deleted. The insert takes the counter, or one past the
      largest stored id when that is larger, and moves the counter past the
      id it took. */
  function AddVacation(vs: seq<Vacation>, counter: int, input: VacationInput): (r: (Reply, seq<Vacation>, int))
    ensures !AllFieldsPresent(input) ==> r == (Rejected(400, "All fields are required."), vs, counter)
    ensures AllFieldsPresent(input) ==>
            && r.0.Added?
            && counter <= r.0.vacationId && IdsBelow(vs, r.0.vacationId)
            && r.1 == vs + [FromInput(r.0.vacationId, input)]
            && r.2 == r.0.vacationId + 1
  {
    if !AllFieldsPresent(input) then (Rejected(400, "All fields are required."), vs, counter)
    else
      var next := NextVacationId(vs);
      var id := if counter > next then counter else next;
      (Added(id), vs + [FromInput(id, input)], id + 1)
  }

  /** An id handed out before (any id below the counter) is never handed
      out again, whatever rows were deleted since. */
  lemma AddNeverReusesIssuedIds(vs: seq<Vacation>, counter: int, input: VacationInput, issued: int)
    requires issued < counter
    requires AllFieldsPresent(input)
    ensures AddVacation(vs, counter, input).0.vacationId != issued
    ensures AddVacation(vs, counter, input).2 > counter
  {
  }

  /** The insert keeps the primary key unique and the counter above every
      stored id. */
  lemma AddKeepsUniqueIds(vs: seq<Vacation>, counter: int, input: VacationInput)
    requires UniqueIds(vs)
    ensures var (_, vs1, counter1) := AddVacation(vs, counter, input);
            UniqueIds(vs1) && (IdsBelow(vs, counter) ==> IdsBelow(vs1, counter1))
  {
  }

  /** A follower pair can only name an id handed out earlier, so a new
      vacation starts with no followers: it is listed unfollowed for every
      user. */
  lemma NewVacationHasNoFollowers(vs: seq<Vacation>, counter: int, ledger: Ledger, input: VacationInput, userId: int)
    requires forall p :: p in ledger ==> p.1 < counter
    requires AllFieldsPresent(input)
    ensures var (reply, vs1, _) := AddVacation(vs, counter, input);
            && PairsOf(ledger, reply.vacationId) == {}
            && forall row :: row in ListVacations(vs1, ledger, userId) && row.vacation.id == reply.vacationId
                 ==> !row.isFollowed
  {
    var (reply, vs1, _) := AddVacation(vs, counter, input);
    assert (userId, reply.vacationId) !in ledger;
    var rows := ListVacations(vs1, ledger, userId);
    forall row | row in rows && row.vacation.id == reply.vacationId
      ensures !row.isFollowed
    {
      var i :| 0 <= i < |rows| && rows[i] == row;
    }
  }

  /** `PUT /vacations/:id`: every row with that id takes the new fields; an
      unknown id still answers 200. */
  function UpdateVacation(vs: seq<Vacation>, id: int, input: VacationInput): (r: (Reply, seq<Vacation>))
    ensures !AllFieldsPresent(input) ==> r == (Rejected(400, "All fields are required."), vs)
    ensures AllFieldsPresent(input) ==>
            && r.0 == Updated && |r.1| == |vs|
            && (forall i :: 0 <= i < |vs| && vs[i].id == id ==> r.1[i] == FromInput(id, input))
            && (forall i :: 0 <= i < |vs| && vs[i].id != id ==> r.1[i] == vs[i])
  {
    if !AllFieldsPresent(input) then (Rejected(400, "All fields are required."), vs)
    else (Updated, seq(|vs|, i requires 0 <= i < |vs| => if vs[i].id == id then FromInput(id, input) else vs[i]))
  }

  /** An update rewrites fields but no id, so the key stays unique. */
  lemma UpdateKeepsUniqueIds(vs: seq<Vacation>, id: int, input: VacationInput)
    requires UniqueIds(vs)
    ensures var vs1 := UpdateVacation(vs, id, input).1;
            |vs1| == |vs| && (forall i :: 0 <= i < |vs| ==> vs1[i].id == vs[i].id) && UniqueIds(vs1)
  {
  }

  /** `DELETE /vacations/:id`: the rows with that id go, the others stay,
      in their order. The route always answers 200 with a fixed message,
      even for an unknown id, so only the rows are returned. */
  function DeleteVacation(vs: seq<Vacation>, id: int): (r: seq<Vacation>)
    ensures IsSubseq(r, vs)
    ensures forall v :: multiset(r)[v] == if v.id != id then multiset(vs)[v] else 0
    ensures |r| <= |vs|
  {
    if |vs| == 0 then []
    else
      var rest := DeleteVacation(vs[1..], id);
      assert vs == [vs[0]] + vs[1..];
      if vs[0].id == id then rest
      else
        assert ([vs[0]] + rest)[1..] == rest;
        [vs[0]] + rest
  }

  /** The rows a delete leaves are exactly those whose id differs. */
  lemma DeleteKeepsOthers(vs: seq<Vacation>, id: int)
    ensures forall v :: v in DeleteVacation(vs, id) <==> v in vs && v.id != id
  {
    var r := DeleteVacation(vs, id);
    forall v
      ensures v in r <==> v in vs && v.id != id
    {
      assert v in r <==> multiset(r)[v] > 0;
      assert v in vs <==> multiset(vs)[v] > 0;
    }
  }

  /** Deleting keeps the key unique. */
  lemma {:induction false} DeleteKeepsUniqueIds(vs: seq<Vacation>, id: int)
    requires UniqueIds(vs)
    ensures UniqueIds(DeleteVacation(vs, id))
  {
    if |vs| > 0 {
      assert UniqueIds(vs[1..]);
      DeleteKeepsUniqueIds(vs[1..], id);
      var rest := DeleteVacation(vs[1..], id);
      if vs[0].id != id {
        DeleteKeepsOthers(vs[1..], id);
        forall j | 0 <= j < |rest|
          ensures vs[0].id != rest[j].id
        {
          assert rest[j] in vs[1..];
        }
      }
    }
  }

  /** After a delete the listing shows no row with that id. */
  lemma DeletedVacationNotListed(vs: seq<Vacation>, id: int, ledger: Ledger, userId: int)
    ensures forall row :: row in ListVacations(DeleteVacation(vs, id), ledger, userId) ==> row.vacation.id != id
  {
    var left := DeleteVacation(vs, id);
    var rows := ListVacations(left, ledger, userId);
    forall row | row in rows
      ensures row.vacation.id != id
    {
      var i :| 0 <= i < |rows| && rows[i] == row;
      assert VacationsOf(rows)[i] == row.vacation;
      assert row.vacation in multiset(VacationsOf(rows));
      assert multiset(left)[row.vacation] > 0;
    }
  }

  /** `!userId || !vacationId`: a missing or zero user id, or a path segment
      that parses to NaN or 0. Negative ids pass. */
  predicate BadFollowRequest(userId: Option<int>, vacationId: Option<int>) {
    userId.None? || userId.value == 0 || vacationId.None? || vacationId.value == 0
  }

  /** `POST /vacations/:id/follow`: existence-checked `INSERT IGNORE`. */
  function Follow(vs: seq<Vacation>, ledger: Ledger, userId: Option<int>, idSegment: string): (r: (Reply, Ledger))
    ensures var vid := JsText.ParseInt(idSegment);
            BadFollowRequest(userId, vid) ==> r == (Rejected(400, "Missing user or vacation"), ledger)
    ensures var vid := JsText.ParseInt(idSegment);
            !BadFollowRequest(userId, vid) && !HasVacation(vs, vid.value)
            ==> r == (Rejected(404, "Vacation not found"), ledger)
    ensures var vid := JsText.ParseInt(idSegment);
            !BadFollowRequest(userId, vid) && HasVacation(vs, vid.value)
            ==> r == (Followed(vid.value), ledger + {(userId.value, vid.value)})
  {
    var vid := JsText.ParseInt(idSegment);
    if BadFollowRequest(userId, vid) then (Rejected(400, "Missing user or vacation"), ledger)
    else if !HasVacation(vs, vid.value) then (Rejected(404, "Vacation not found"), ledger)
    else (Followed(vid.value), ledger + {(userId.value, vid.value)})
  }

  /** `DELETE /vacations/:id/follow`: a plain delete, no existence check. */
  function Unfollow(ledger: Ledger, userId: Option<int>, idSegment: string): (r: (Reply, Ledger))
    ensures var vid := JsText.ParseInt(idSegment);
            BadFollowRequest(userId, vid) ==> r == (Rejected(400, "Missing user or vacation"), ledger)
    ensures var vid := JsText.ParseInt(idSegment);
            !BadFollowRequest(userId, vid) ==> r == (Unfollowed(vid.value), ledger - {(userId.value, vid.value)})
  {
    var vid := JsText.ParseInt(idSegment);
    if BadFollowRequest(userId, vid) then (Rejected(400, "Missing user or vacation"), ledger)
    else (Unfollowed(vid.value), ledger - {(userId.value, vid.value)})
  }

  /** Follow then unfollow of a pair the ledger did not hold gives the ledger
      back; a repeated follow changes nothing. */
  lemma FollowUnfollowLaws(vs: seq<Vacation>, ledger: Ledger, u: int, vid: int)
    requires u != 0 && vid != 0 && HasVacation(vs, vid)
    requires (u, vid) !in ledger
    ensures var seg := JsText.IntToString(vid);
            var followed := Follow(vs, ledger, Some(u), seg);
            && followed.0 == Followed(vid)
            && Unfollow(followed.1, Some(u), seg).1 == ledger
            && Follow(vs, followed.1, Some(u), seg) == followed
  {
    JsText.ParseIntOfIntToString(vid);
  }

  /** Only the pair `(u, vid)` is touched: every other pair keeps its
      membership through follow and unfollow. */
  lemma FollowTouchesOnePair(vs: seq<Vacation>, ledger: Ledger, userId: Option<int>, idSegment: string, p: (int, int))
    requires !BadFollowRequest(userId, JsText.ParseInt(idSegment))
    requires p != (userId.value, JsText.ParseInt(idSegment).value)
    ensures p in Follow(vs, ledger, userId, idSegment).1 <==> p in ledger
    ensures p in Unfollow(ledger, userId, idSegment).1 <==> p in ledger
  {
  }

  /** After a successful follow the listing for that user flags exactly the
      followed vacation in addition to the ones it flagged before, in the
      same order; after an unfollow it clears exactly that flag. */
  lemma ListingAfterFollow(vs: seq<Vacation>, ledger: Ledger, u: int, vid: int)
    ensures var before := ListVacations(vs, ledger, u);
            var after := ListVacations(vs, ledger + {(u, vid)}, u);
            var unf := ListVacations(vs, ledger - {(u, vid)}, u);
            && VacationsOf(after) == VacationsOf(before) == VacationsOf(unf)
            && (forall i :: 0 <= i < |after| ==>
                  after[i].isFollowed == (before[i].isFollowed || after[i].vacation.id == vid))
            && (forall i :: 0 <= i < |unf| ==>
                  unf[i].isFollowed == (before[i].isFollowed && unf[i].vacation.id != vid))
  {
  }

  /** The distinct elements of `s` in order of first appearance. */
  function Distinct(s: seq<string>): (r: seq<string>)
    ensures forall x :: x in r <==> x in s
    ensures forall i, j :: 0 <= i < j < |r| ==> r[i] != r[j]
  {
    if |s| == 0 then []
    else
      var r := Distinct(s[..|s| - 1]);
      assert forall x :: x in s <==> x in s[..|s| - 1] || x == s[|s| - 1] by {
        assert s == s[..|s| - 1] + [s[|s| - 1]];
      }
      if s[|s| - 1] in r then r else r + [s[|s| - 1]]
  }

  function DestinationsOf(vs: seq<Vacation>): (r: seq<string>)
    ensures |r| == |vs| && forall i :: 0 <= i < |vs| ==> r[i] == vs[i].destination
  {
    seq(|vs|, i requires 0 <= i < |vs| => vs[i].destination)
  }

  /** The ledger pairs of one vacation. */
  function PairsOf(ledger: Ledger, vid: int): set<(int, int)> {
    set p | p in ledger && p.1 == vid
  }

  /** `COUNT(f.user_id)` over the LEFT JOIN rows of the vacations with
      destination `d`. */
  function JoinedCount(vs: seq<Vacation>, ledger: Ledger, d: string): nat {
    if |vs| == 0 then 0
    else (if vs[0].destination == d then |PairsOf(ledger, vs[0].id)| else 0) + JoinedCount(vs[1..], ledger, d)
  }

  /** The ledger pairs whose vacation has destination `d`. */
  function PairsToDestination(vs: seq<Vacation>, ledger: Ledger, d: string): set<(int, int)> {
    set p | p in ledger && exists i :: 0 <= i < |vs| && vs[i].id == p.1 && vs[i].destination == d
  }

  /** With vacation ids unique, the joined count is the number of ledger
      pairs whose vacation has that destination: each pair is counted once. */
  lemma {:induction false} JoinedCountCountsPairs(vs: seq<Vacation>, ledger: Ledger, d: string)
    requires UniqueIds(vs)
    ensures JoinedCount(vs, ledger, d) == |PairsToDestination(vs, ledger, d)|
  {
    if |vs| > 0 {
      var rest := vs[1..];
      assert UniqueIds(rest) by {
        forall i, j | 0 <= i < j < |rest| ensures rest[i].id != rest[j].id {
          assert rest[i] == vs[i + 1] && rest[j] == vs[j + 1];
        }
      }
      JoinedCountCountsPairs(rest, ledger, d);
      PairsToDestinationSplit(vs, ledger, d);
    }
  }

  /** The pairs reaching `d` through the first vacation and through the
      others are disjoint and together make up all pairs reaching `d`. */
  lemma PairsToDestinationSplit(vs: seq<Vacation>, ledger: Ledger, d: string)
    requires UniqueIds(vs) && |vs| > 0
    ensures var head := if vs[0].destination == d then PairsOf(ledger, vs[0].id) else {};
            var tail := PairsToDestination(vs[1..], ledger, d);
            head * tail == {} && PairsToDestination(vs, ledger, d) == head + tail
  {
    var rest := vs[1..];
    var head := if vs[0].destination == d then PairsOf(ledger, vs[0].id) else {};
    var tail := PairsToDestination(rest, ledger, d);
    forall p | p in tail ensures p.1 != vs[0].id {
      var i :| 0 <= i < |rest| && rest[i].id == p.1 && rest[i].destination == d;
      assert rest[i] == vs[i + 1];
    }
    forall p | p in PairsToDestination(vs, ledger, d) ensures p in head + tail {
      var i :| 0 <= i < |vs| && vs[i].id == p.1 && vs[i].destination == d;
      if i > 0 {
        assert rest[i - 1] == vs[i];
      }
    }
    forall p | p in tail ensures p in PairsToDestination(vs, ledger, d) {
      var i :| 0 <= i < |rest| && rest[i].id == p.1 && rest[i].destination == d;
      assert vs[i + 1] == rest[i];
    }
  }

  function RowDestinations(r: seq<StatRow>): (ds: seq<string>)
    ensures |ds| == |r| && forall i :: 0 <= i < |r| ==> ds[i] == r[i].destination
  {
    seq(|r|, i requires 0 <= i < |r| => r[i].destination)
  }

  /** `GET /vacations/stats`: one row per distinct destination (rows sharing
      a destination merged by GROUP BY), with its joined follower count. */
  function Stats(vs: seq<Vacation>, ledger: Ledger): (r: seq<StatRow>)
    ensures forall i, j :: 0 <= i < j < |r| ==> r[i].destination != r[j].destination
    ensures forall d :: d in RowDestinations(r) <==> d in DestinationsOf(vs)
    ensures forall i :: 0 <= i < |r| ==> r[i].followerCount == JoinedCount(vs, ledger, r[i].destination)
  {
    var ds := Distinct(DestinationsOf(vs));
    var r := seq(|ds|, i requires 0 <= i < |ds| => StatRow(ds[i], JoinedCount(vs, ledger, ds[i])));
    assert RowDestinations(r) == ds;
    r
  }

  /** A new follow of a vacation raises its destination's count by one and
      leaves every other destination's count as it was. */
  lemma FollowRaisesOneCount(vs: seq<Vacation>, ledger: Ledger, u: int, k: nat, d: string)
    requires UniqueIds(vs) && k < |vs|
    requires (u, vs[k].id) !in ledger
    ensures JoinedCount(vs, ledger + {(u, vs[k].id)}, d)
            == JoinedCount(vs, ledger, d) + (if vs[k].destination == d then 1 else 0)
  {
    var p := (u, vs[k].id);
    JoinedCountCountsPairs(vs, ledger, d);
    JoinedCountCountsPairs(vs, ledger + {p}, d);
    if vs[k].destination == d {
      assert PairsToDestination(vs, ledger + {p}, d) == PairsToDestination(vs, ledger, d) + {p};
    } else {
      assert PairsToDestination(vs, ledger + {p}, d) == PairsToDestination(vs, ledger, d);
    }
  }
}
