/**
 * The global leaderboard endpoint (GET /api/leaderboard). The database is
 * abstracted as the sequence `users` of every stored user document; the
 * result of `find().sort({xp: -1, level: -1})` is the sequence `ordered`,
 * which may be any reordering of `users` that ranks higher xp first and,
 * among equal xp, higher level first. The database promises no order among
 * users with equal xp and level, so the model fixes none.
 */
module LeaderboardRoute {
  import opened Wrappers
  import opened Users
  import opened SeqCounting

  /** A stored user document, restricted to the fields the endpoint selects. */
  datatype UserRecord = UserRecord(
    id: Id, name: string, avatar: Option<string>,
    level: int, xp: int, totalTasksCompleted: int)

  /** The `limit` query parameter as `Number(...)` sees it. */
  datatype LimitParam = Absent | Numeric(n: int) | NotANumber

  datatype LimitError = LimitOutOfRange

  /** One row of the response's `leaderboard` array. */
  datatype Entry = Entry(
    rank: nat, id: Id, name: string, avatar: Option<string>,
    level: int, xp: int, totalTasksCompleted: int, isCurrentUser: bool)

  /** The response's `data` object. */
  datatype Response = Response(leaderboard: seq<Entry>, currentUserRank: nat, totalUsers: nat)

  const DefaultLimit: nat := 20
  const MinLimit: nat := 1
  const MaxLimit: nat := 100

  // ---------------------------------------------------------------------
  // The limit parameter
  // ---------------------------------------------------------------------

  /**
   * `Number(req.query['limit']) || 20` as the handler computes it, for integer readings:
   * an absent or non-numeric parameter gives NaN, and NaN and 0 are falsy.
   * Nothing rejects values outside 1..100 (see UnvalidatedLimitAccepted).
   */
  function LimitAsWritten(p: LimitParam): (n: int)
    ensures n != 0
    ensures p.Numeric? && p.n != 0 ==> n == p.n
    ensures !(p.Numeric? && p.n != 0) ==> n == DefaultLimit
  {
    match p
    case Numeric(k) => if k != 0 then k else DefaultLimit
    case _ => DefaultLimit
  }

  /**
   * The limit with the declared rule `optional().isInt({min: 1, max: 100})`
   * enforced: an absent parameter defaults to 20, a present one is accepted
   * only when it is an integer in 1..100.
   */
  function ValidateLimit(p: LimitParam): (r: Result<nat, LimitError>)
    ensures r.Ok? ==> MinLimit <= r.value <= MaxLimit
    ensures r.Ok? ==> r.value == LimitAsWritten(p)
    ensures r.Err? <==> p.NotANumber? || (p.Numeric? && !(MinLimit <= p.n <= MaxLimit))
  {
    match p
    case Absent => Ok(DefaultLimit)
    case Numeric(k) => if MinLimit <= k <= MaxLimit then Ok(k) else Err(LimitOutOfRange)
    case NotANumber => Err(LimitOutOfRange)
  }

  // ---------------------------------------------------------------------
  // The query order
  // ---------------------------------------------------------------------

  /** `a` may be listed before `b` under `sort({xp: -1, level: -1})`. */
  predicate RanksAhead(a: UserRecord, b: UserRecord)
  {
    a.xp > b.xp || (a.xp == b.xp && a.level >= b.level)
  }

  predicate SortedByXpLevel(s: seq<UserRecord>)
  {
    forall i, j :: 0 <= i < j < |s| ==> RanksAhead(s[i], s[j])
  }

  /** `ordered` is a possible result of the sorted query over `users`. */
  predicate IsQueryOrder(users: seq<UserRecord>, ordered: seq<UserRecord>)
  {
    multiset(ordered) == multiset(users) && SortedByXpLevel(ordered)
  }

  function InsertByXpLevel(x: UserRecord, t: seq<UserRecord>): (r: seq<UserRecord>)
    ensures multiset(r) == multiset(t) + multiset{x}
  {
    if t == [] then [x]
    else if RanksAhead(x, t[0]) then
      assert t == [t[0]] + t[1..];
      [x] + t
    else
      assert t == [t[0]] + t[1..];
      [t[0]] + InsertByXpLevel(x, t[1..])
  }

  lemma {:induction false} InsertKeepsSorted(x: UserRecord, t: seq<UserRecord>)
    requires SortedByXpLevel(t)
    ensures SortedByXpLevel(InsertByXpLevel(x, t))
  {
    if t != [] && !RanksAhead(x, t[0]) {
      var rest := InsertByXpLevel(x, t[1..]);
      InsertKeepsSorted(x, t[1..]);
      forall k | 0 <= k < |rest|
        ensures RanksAhead(t[0], rest[k])
      {
        assert rest[k] in multiset(rest);
        if rest[k] != x {
          assert rest[k] in multiset(t[1..]);
          var m :| 0 <= m < |t[1..]| && t[1..][m] == rest[k];
          assert RanksAhead(t[0], t[m + 1]);
        }
      }
      assert InsertByXpLevel(x, t) == [t[0]] + rest;
    }
  }

  /**
   * One ordering the database may return: insertion sort on (xp, level),
   * both descending. It shows that every collection has a query order.
   */
  function SortByXpLevel(users: seq<UserRecord>): (r: seq<UserRecord>)
    ensures IsQueryOrder(users, r)
  {
    if users == [] then []
    else
      assert users == [users[0]] + users[1..];
      InsertKeepsSorted(users[0], SortByXpLevel(users[1..]));
      InsertByXpLevel(users[0], SortByXpLevel(users[1..]))
  }

  // ---------------------------------------------------------------------
  // The handler
  // ---------------------------------------------------------------------

  /** `.limit(limit)` on the sorted query; the handler never passes 0, which the database reads as "no limit". */
  function TopUsers(ordered: seq<UserRecord>, limit: nat): (top: seq<UserRecord>)
    requires limit >= 1
    ensures |top| == Min(limit, |ordered|)
    ensures top == ordered[..|top|]
  {
    if limit <= |ordered| then ordered[..limit] else ordered
  }

  /** The filter `{xp: {$gt: x}}`. */
  function MoreXp(x: int): UserRecord -> bool
  {
    (u: UserRecord) => u.xp > x
  }

  /** `User.findById(id)`: the first document with that id, if any. */
  function FindById(users: seq<UserRecord>, id: Id): (r: Option<UserRecord>)
    ensures r.Some? ==> r.value in users && r.value.id == id
    ensures r.None? <==> forall k :: 0 <= k < |users| ==> users[k].id != id
  {
    if users == [] then None
    else if users[0].id == id then Some(users[0])
    else FindById(users[1..], id)
  }

  /** `currentUser?.xp || 0`: a caller without a stored document counts as 0 xp. */
  function CallerXp(users: seq<UserRecord>, callerId: Id): (x: int)
    ensures (forall k :: 0 <= k < |users| ==> users[k].id != callerId) ==> x == 0
    ensures (exists k :: 0 <= k < |users| && users[k].id == callerId) ==>
      exists k :: 0 <= k < |users| && users[k].id == callerId && users[k].xp == x
  {
    match FindById(users, callerId)
    case Some(u) => u.xp
    case None => 0
  }

  /** Competition rank of a score: one more than the number of users strictly above it. */
  function RankForXp(users: seq<UserRecord>, x: int): (r: nat)
    ensures 1 <= r <= |users| + 1
  {
    1 + Count(users, MoreXp(x))
  }

  /** `usersWithMoreXp + 1` for the caller. */
  function CurrentUserRank(users: seq<UserRecord>, callerId: Id): nat
  {
    RankForXp(users, CallerXp(users, callerId))
  }

  /** The entry built for the user at `index` of the returned list. */
  function ToEntry(u: UserRecord, index: nat, callerId: Id): Entry
  {
    Entry(index + 1, u.id, u.name, u.avatar, u.level, u.xp, u.totalTasksCompleted, u.id == callerId)
  }

  /** The entry `e` carries the fields of the document `u`. */
  predicate Describes(e: Entry, u: UserRecord)
  {
    e.id == u.id && e.name == u.name && e.avatar == u.avatar &&
    e.level == u.level && e.xp == u.xp && e.totalTasksCompleted == u.totalTasksCompleted
  }

  /** The response data for a validated `limit`. */
  function GetLeaderboard(users: seq<UserRecord>, ordered: seq<UserRecord>, limit: nat, callerId: Id)
    : (resp: Response)
    requires IsQueryOrder(users, ordered) && limit >= 1
    ensures |resp.leaderboard| == Min(limit, |users|)
    ensures forall i :: 0 <= i < |resp.leaderboard| ==>
      resp.leaderboard[i].rank == i + 1 && Describes(resp.leaderboard[i], ordered[i])
    ensures forall i, j :: 0 <= i < j < |resp.leaderboard| ==>
      resp.leaderboard[i].xp > resp.leaderboard[j].xp ||
      (resp.leaderboard[i].xp == resp.leaderboard[j].xp && resp.leaderboard[i].level >= resp.leaderboard[j].level)
    ensures forall i :: 0 <= i < |resp.leaderboard| ==>
      (resp.leaderboard[i].isCurrentUser <==> resp.leaderboard[i].id == callerId)
    ensures resp.currentUserRank == 1 + Count(users, MoreXp(CallerXp(users, callerId)))
    ensures (forall k :: 0 <= k < |users| ==> users[k].id != callerId) ==>
      resp.currentUserRank == 1 + Count(users, MoreXp(0))
    ensures resp.totalUsers == |users|
  {
    assert |multiset(ordered)| == |multiset(users)|;
    var top := TopUsers(ordered, limit);
    var entries := seq(|top|, i requires 0 <= i < |top| => ToEntry(top[i], i, callerId));
    Response(entries, CurrentUserRank(users, callerId), |users|)
  }

  /** The whole handler with the limit rule enforced. */
  function HandleGet(users: seq<UserRecord>, ordered: seq<UserRecord>, p: LimitParam, callerId: Id)
    : (r: Result<Response, LimitError>)
    requires IsQueryOrder(users, ordered)
    ensures r.Err? <==> ValidateLimit(p).Err?
    ensures r.Ok? ==> |r.value.leaderboard| <= MaxLimit
    ensures p.Absent? ==> r.Ok? && |r.value.leaderboard| == Min(DefaultLimit, |users|)
    ensures r.Ok? ==> |r.value.leaderboard| == Min(LimitAsWritten(p), |users|)
    ensures r.Ok? ==> r.value == GetLeaderboard(users, ordered, ValidateLimit(p).value, callerId)
  {
    match ValidateLimit(p)
    case Ok(limit) => Ok(GetLeaderboard(users, ordered, limit, callerId))
    case Err(e) => Err(e)
  }

  // ---------------------------------------------------------------------
  // Properties of the ranks
  // ---------------------------------------------------------------------

  predicate UniqueIds(users: seq<UserRecord>)
  {
    forall i, j :: 0 <= i < j < |users| ==> users[i].id != users[j].id
  }

  /** With unique ids, the lookup finds the one document carrying the id. */
  lemma {:induction false} FindByIdUnique(users: seq<UserRecord>, k: nat)
    requires UniqueIds(users) && k < |users|
    ensures FindById(users, users[k].id) == Some(users[k])
  {
    if k > 0 {
      assert users[0].id != users[k].id;
      FindByIdUnique(users[1..], k - 1);
    }
  }

  /** A caller who has a document is ranked within the collection. */
  lemma CurrentUserRankWithinTotal(users: seq<UserRecord>, callerId: Id)
    requires exists k :: 0 <= k < |users| && users[k].id == callerId
    ensures 1 <= CurrentUserRank(users, callerId) <= |users|
  {
    var u := FindById(users, callerId).value;
    var k :| 0 <= k < |users| && users[k] == u;
    CountBelowLength(users, MoreXp(u.xp), k);
  }

  /** A higher score never gets a worse rank; equal scores share a rank. */
  lemma RankMonotone(users: seq<UserRecord>, x: int, y: int)
    requires x <= y
    ensures RankForXp(users, y) <= RankForXp(users, x)
  {
    CountMonotone(users, MoreXp(y), MoreXp(x));
  }

  /** A user of the collection with strictly more xp than `x` has a strictly better rank. */
  lemma RankStrictlyBetter(users: seq<UserRecord>, k: nat, x: int)
    requires k < |users| && users[k].xp > x
    ensures RankForXp(users, users[k].xp) < RankForXp(users, x)
  {
    var y := users[k].xp;
    var between := (u: UserRecord) => x < u.xp <= y;
    CountSplit(users, MoreXp(x), MoreXp(y), between);
    CountPositive(users, between, k);
  }

  /** In a query order, nobody after position `i` has more xp than the user at `i`. */
  lemma {:induction false} NoMoreXpAfter(ordered: seq<UserRecord>, i: nat)
    requires SortedByXpLevel(ordered) && i < |ordered|
    ensures Count(ordered, MoreXp(ordered[i].xp)) <= i
  {
    var x := ordered[i].xp;
    assert ordered == ordered[..i] + ordered[i..];
    CountConcat(ordered[..i], ordered[i..], MoreXp(x));
    forall j | 0 <= j < |ordered[i..]|
      ensures !MoreXp(x)(ordered[i..][j])
    {
      if j > 0 {
        assert RanksAhead(ordered[i], ordered[i + j]);
      }
    }
    CountNone(ordered[i..], MoreXp(x));
  }

  /**
   * The caller's positional entry rank is never better than the
   * count-based `currentUserRank`; with ties above the caller it is worse.
   */
  lemma EntryRankNotAboveCurrentUserRank(
    users: seq<UserRecord>, ordered: seq<UserRecord>, limit: nat, callerId: Id, i: nat)
    requires IsQueryOrder(users, ordered) && UniqueIds(users) && limit >= 1
    requires i < |GetLeaderboard(users, ordered, limit, callerId).leaderboard|
    requires GetLeaderboard(users, ordered, limit, callerId).leaderboard[i].isCurrentUser
    ensures GetLeaderboard(users, ordered, limit, callerId).leaderboard[i].rank
            >= GetLeaderboard(users, ordered, limit, callerId).currentUserRank
  {
    var u := ordered[i];
    assert u.id == callerId;
    assert u in multiset(users);
    var k :| 0 <= k < |users| && users[k] == u;
    FindByIdUnique(users, k);
    assert CallerXp(users, callerId) == u.xp;
    CountPermutation(users, ordered, MoreXp(u.xp));
    NoMoreXpAfter(ordered, i);
  }

  /** Two users tied on xp and level: the second one listed has entry rank 2 but rank 1. */
  lemma TiedCallerExample()
    ensures var a := UserRecord("a", "Ann", None, 3, 100, 1);
            var b := UserRecord("b", "Ben", None, 3, 100, 2);
            var resp := GetLeaderboard([a, b], [a, b], 20, "b");
            resp.leaderboard[1].isCurrentUser &&
            resp.leaderboard[1].rank == 2 && resp.currentUserRank == 1
  {
    var a := UserRecord("a", "Ann", None, 3, 100, 1);
    var b := UserRecord("b", "Ben", None, 3, 100, 2);
    assert FindById([a, b], "b") == Some(b);
    assert Count([a, b], MoreXp(100)) == 0;
  }

  // ---------------------------------------------------------------------
  // The limit as written
  // ---------------------------------------------------------------------

  /**
   * The handler never consults the validator's result, so a limit above 100
   * reaches the query: with more than 100 users, `?limit=<number of users>`
   * returns every user, although the declared rule rejects it.
   */
  lemma UnvalidatedLimitAccepted(users: seq<UserRecord>, ordered: seq<UserRecord>, callerId: Id)
    requires IsQueryOrder(users, ordered) && |users| > MaxLimit
    ensures LimitAsWritten(Numeric(|users|)) == |users|
    ensures |GetLeaderboard(users, ordered, |users|, callerId).leaderboard| == |users| > MaxLimit
    ensures ValidateLimit(Numeric(|users|)).Err?
  {
  }
}
