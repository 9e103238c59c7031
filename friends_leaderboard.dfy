/**
 * The friends leaderboard card: the top five friends by xp and the
 * signed-in user's position among their friends. Sorting is JavaScript's
 * `Array.prototype.sort`, which is stable, with the comparator
 * `(b.xp || 0) - (a.xp || 0)`; the model sorts by insertion, which places
 * each element after every earlier one of equal xp, and proves that it
 * keeps equal-xp elements in their input order. A stable sort's output is
 * determined by its input, so this is the order the browser produces.
 */
module FriendsLeaderboard {
  import opened Wrappers
  import opened Users
  import opened SeqCounting
  import opened LeaderboardDisplay

  /** Number of friends the card lists. */
  const TopCount: nat := 5

  predicate XpNonIncreasing(s: seq<User>)
  {
    forall i, j :: 0 <= i < j < |s| ==> XpOrZero(s[i]) >= XpOrZero(s[j])
  }

  function XpAtLeast(x: int): User -> bool
  {
    (u: User) => XpOrZero(u) >= x
  }

  function XpAbove(x: int): User -> bool
  {
    (u: User) => XpOrZero(u) > x
  }

  function XpEquals(x: int): User -> bool
  {
    (u: User) => XpOrZero(u) == x
  }

  // ---------------------------------------------------------------------
  // The stable sort
  // ---------------------------------------------------------------------

  /** Inserts `x`, which came later in the input, after every element whose xp is at least its own. */
  function InsertByXp(x: User, t: seq<User>): (r: seq<User>)
    ensures |r| == |t| + 1
    ensures multiset(r) == multiset(t) + multiset{x}
  {
    if t == [] then [x]
    else
      assert t == [t[0]] + t[1..];
      if XpOrZero(t[0]) >= XpOrZero(x) then [t[0]] + InsertByXp(x, t[1..]) else [x] + t
  }

  /** `[...s].sort((a, b) => (b.xp || 0) - (a.xp || 0))`. */
  function SortByXp(s: seq<User>): (r: seq<User>)
    ensures |r| == |s|
    ensures multiset(r) == multiset(s)
  {
    if s == [] then []
    else
      assert s == s[..|s| - 1] + [s[|s| - 1]];
      InsertByXp(s[|s| - 1], SortByXp(s[..|s| - 1]))
  }

  /** Into a sorted list, `x` lands right after the elements with at least its xp. */
  lemma {:induction false} InsertSplice(x: User, t: seq<User>)
    requires XpNonIncreasing(t)
    ensures var c := Count(t, XpAtLeast(XpOrZero(x)));
            InsertByXp(x, t) == t[..c] + [x] + t[c..]
  {
    if t != [] {
      if XpOrZero(t[0]) >= XpOrZero(x) {
        SortedTail(t);
        InsertSplice(x, t[1..]);
        assert InsertByXp(x, t) == [t[0]] + InsertByXp(x, t[1..]);
        assert Count(t, XpAtLeast(XpOrZero(x))) == 1 + Count(t[1..], XpAtLeast(XpOrZero(x)));
        ConsSplice(t, Count(t[1..], XpAtLeast(XpOrZero(x))), x);
      } else {
        NoneAtLeastBelowHead(t, XpOrZero(x));
      }
    }
  }

  lemma SortedTail(t: seq<User>)
    requires XpNonIncreasing(t) && t != []
    ensures XpNonIncreasing(t[1..])
  {
    forall i, j | 0 <= i < j < |t| - 1
      ensures XpOrZero(t[1..][i]) >= XpOrZero(t[1..][j])
    {
      assert t[1..][i] == t[i + 1] && t[1..][j] == t[j + 1];
    }
  }

  /** Splicing into the tail of a list is splicing one place further into the list. */
  lemma ConsSplice(t: seq<User>, c: nat, x: User)
    requires t != [] && c <= |t| - 1
    ensures [t[0]] + (t[1..][..c] + [x] + t[1..][c..]) == t[..c + 1] + [x] + t[c + 1..]
  {
    assert t[..c + 1] == [t[0]] + t[1..][..c];
    assert t[c + 1..] == t[1..][c..];
  }

  lemma {:induction false} InsertKeepsOrder(x: User, t: seq<User>)
    requires XpNonIncreasing(t)
    ensures XpNonIncreasing(InsertByXp(x, t))
  {
    var c := Count(t, XpAtLeast(XpOrZero(x)));
    InsertSplice(x, t);
    var r := InsertByXp(x, t);
    assert |r| == |t| + 1;
    forall i | 0 <= i < c
      ensures XpOrZero(t[i]) >= XpOrZero(x)
    {
      PrefixAtLeast(t, XpOrZero(x), i);
    }
    forall i | c <= i < |t|
      ensures XpOrZero(t[i]) < XpOrZero(x)
    {
      SuffixBelow(t, XpOrZero(x), i);
    }
    forall i, j | 0 <= i < j < |r|
      ensures XpOrZero(r[i]) >= XpOrZero(r[j])
    {
      SpliceIndex(t, x, c, i);
      SpliceIndex(t, x, c, j);
    }
  }

  lemma SpliceIndex(t: seq<User>, x: User, c: nat, i: nat)
    requires c <= |t| && i <= |t|
    ensures (t[..c] + [x] + t[c..])[i] == if i < c then t[i] else if i == c then x else t[i - 1]
  {
  }

  /** In a sorted list, the elements with xp at least `x` form a prefix: here, its inside. */
  lemma {:induction false} PrefixAtLeast(t: seq<User>, x: int, i: nat)
    requires XpNonIncreasing(t) && i < Count(t, XpAtLeast(x))
    ensures XpOrZero(t[i]) >= x
  {
    if i > 0 {
      if XpOrZero(t[0]) >= x {
        PrefixAtLeast(t[1..], x, i - 1);
      } else {
        NoneAtLeastBelowHead(t, x);
      }
    } else if XpOrZero(t[0]) < x {
      NoneAtLeastBelowHead(t, x);
    }
  }

  /** In a sorted list whose head has less than `x`, nothing has at least `x`. */
  lemma NoneAtLeastBelowHead(t: seq<User>, x: int)
    requires XpNonIncreasing(t) && t != [] && XpOrZero(t[0]) < x
    ensures Count(t, XpAtLeast(x)) == 0
  {
    forall k | 0 <= k < |t|
      ensures !XpAtLeast(x)(t[k])
    {
      if k > 0 {
        assert XpOrZero(t[0]) >= XpOrZero(t[k]);
      }
    }
    CountNone(t, XpAtLeast(x));
  }

  /** ... and its outside. */
  lemma {:induction false} SuffixBelow(t: seq<User>, x: int, i: nat)
    requires XpNonIncreasing(t) && Count(t, XpAtLeast(x)) <= i < |t|
    ensures XpOrZero(t[i]) < x
  {
    if XpOrZero(t[0]) >= x {
      SuffixBelow(t[1..], x, i - 1);
    } else if i > 0 {
      assert XpOrZero(t[0]) >= XpOrZero(t[i]);
    }
  }

  /** The sort orders by xp, highest first. */
  lemma {:induction false} SortByXpOrders(s: seq<User>)
    ensures XpNonIncreasing(SortByXp(s))
  {
    if s != [] {
      SortByXpOrders(s[..|s| - 1]);
      InsertKeepsOrder(s[|s| - 1], SortByXp(s[..|s| - 1]));
    }
  }

  /** Filtering a list that starts with `y`. */
  lemma FilterCons(y: User, rest: seq<User>, p: User -> bool)
    ensures Filter([y] + rest, p) == (if p(y) then [y] else []) + Filter(rest, p)
  {
    assert ([y] + rest)[1..] == rest;
  }

  /** A sorted list whose head has less xp than `x` has no element with x's xp. */
  lemma NoTieBelow(x: User, t: seq<User>)
    requires XpNonIncreasing(t) && t != [] && XpOrZero(t[0]) < XpOrZero(x)
    ensures Filter(t, XpEquals(XpOrZero(x))) == []
  {
    forall i | 0 <= i < |t|
      ensures !XpEquals(XpOrZero(x))(t[i])
    {
      if i > 0 {
        assert XpOrZero(t[0]) >= XpOrZero(t[i]);
      }
    }
    CountNone(t, XpEquals(XpOrZero(x)));
  }

  lemma {:induction false} InsertKeepsTies(x: User, t: seq<User>, k: int)
    requires XpNonIncreasing(t)
    ensures Filter(InsertByXp(x, t), XpEquals(k)) ==
            Filter(t, XpEquals(k)) + (if XpOrZero(x) == k then [x] else [])
  {
    var p := XpEquals(k);
    if t == [] {
      FilterCons(x, [], p);
    } else if XpOrZero(t[0]) >= XpOrZero(x) {
      InsertKeepsTies(x, t[1..], k);
      InsertBehindKeepsTies(x, t, k);
    } else {
      assert InsertByXp(x, t) == [x] + t;
      FilterCons(x, t, p);
      if XpOrZero(x) == k {
        NoTieBelow(x, t);
      }
    }
  }

  /** The step of InsertKeepsTies where `x` goes behind the head. */
  lemma InsertBehindKeepsTies(x: User, t: seq<User>, k: int)
    requires t != [] && XpOrZero(t[0]) >= XpOrZero(x)
    requires Filter(InsertByXp(x, t[1..]), XpEquals(k)) ==
             Filter(t[1..], XpEquals(k)) + (if XpOrZero(x) == k then [x] else [])
    ensures Filter(InsertByXp(x, t), XpEquals(k)) ==
            Filter(t, XpEquals(k)) + (if XpOrZero(x) == k then [x] else [])
  {
    var p := XpEquals(k);
    var head := if p(t[0]) then [t[0]] else [];
    FilterBehindHead(x, t, p);
    assert Filter(t, p) == head + Filter(t[1..], p);
    AppendAssociates(head, Filter(t[1..], p), if XpOrZero(x) == k then [x] else []);
  }

  /**
   * Kept apart from InsertBehindKeepsTies: stated inline there, the
   * regrouping costs more than the resource limit allows.
   */
  lemma AppendAssociates(a: seq<User>, b: seq<User>, c: seq<User>)
    ensures a + (b + c) == (a + b) + c
  {
  }

  lemma FilterBehindHead(x: User, t: seq<User>, p: User -> bool)
    requires t != [] && XpOrZero(t[0]) >= XpOrZero(x)
    ensures Filter(InsertByXp(x, t), p) ==
            (if p(t[0]) then [t[0]] else []) + Filter(InsertByXp(x, t[1..]), p)
  {
    assert InsertByXp(x, t) == [t[0]] + InsertByXp(x, t[1..]);
    FilterCons(t[0], InsertByXp(x, t[1..]), p);
  }

  /** Stability: for every xp value, the users with that xp keep their input order. */
  lemma {:induction false} SortByXpStable(s: seq<User>, k: int)
    ensures Filter(SortByXp(s), XpEquals(k)) == Filter(s, XpEquals(k))
  {
    if s != [] {
      var init, last := s[..|s| - 1], s[|s| - 1];
      var p := XpEquals(k);
      var tie := if XpOrZero(last) == k then [last] else [];
      assert s == init + [last];
      calc {
        Filter(SortByXp(s), p);
        { SortSnoc(init, last); }
        Filter(InsertByXp(last, SortByXp(init)), p);
        { SortByXpOrders(init); InsertKeepsTies(last, SortByXp(init), k); }
        Filter(SortByXp(init), p) + tie;
        { SortByXpStable(init, k); }
        Filter(init, p) + tie;
        { FilterSnoc(init, last, p); }
        Filter(s, p);
      }
    }
  }

  /** Sorting a list with one more element at the end inserts that element into the sorted rest. */
  lemma SortSnoc(init: seq<User>, last: User)
    ensures SortByXp(init + [last]) == InsertByXp(last, SortByXp(init))
  {
    var s := init + [last];
    assert s[..|s| - 1] == init && s[|s| - 1] == last;
  }

  lemma FilterSnoc(init: seq<User>, last: User, p: User -> bool)
    ensures Filter(init + [last], p) == Filter(init, p) + (if p(last) then [last] else [])
  {
    FilterCons(last, [], p);
    FilterConcat(init, [last], p);
  }

  // ---------------------------------------------------------------------
  // The top five
  // ---------------------------------------------------------------------

  /** `sortedFriends`: the sorted copy cut to five. */
  function SortedFriends(friends: seq<User>): (top: seq<User>)
    ensures |top| == Min(TopCount, |friends|)
    ensures multiset(top) <= multiset(friends)
    ensures XpNonIncreasing(top)
  {
    var sorted := SortByXp(friends);
    SortByXpOrders(friends);
    assert sorted == sorted[..Min(TopCount, |friends|)] + sorted[Min(TopCount, |friends|)..];
    sorted[..Min(TopCount, |friends|)]
  }

  /** The friends the card leaves out. */
  function HiddenFriends(friends: seq<User>): seq<User>
  {
    SortByXp(friends)[Min(TopCount, |friends|)..]
  }

  /**
   * The shown and hidden friends together are exactly the friends, and no
   * hidden friend has more xp than any shown one.
   */
  lemma ShownAndHiddenPartitionFriends(friends: seq<User>)
    ensures multiset(SortedFriends(friends)) + multiset(HiddenFriends(friends)) == multiset(friends)
    ensures forall i, j :: 0 <= i < |SortedFriends(friends)| && 0 <= j < |HiddenFriends(friends)| ==>
      XpOrZero(HiddenFriends(friends)[j]) <= XpOrZero(SortedFriends(friends)[i])
  {
    var sorted := SortByXp(friends);
    var n := Min(TopCount, |friends|);
    SortByXpOrders(friends);
    assert sorted == sorted[..n] + sorted[n..];
    forall i, j | 0 <= i < n && 0 <= j < |sorted| - n
      ensures XpOrZero(sorted[n..][j]) <= XpOrZero(sorted[..n][i])
    {
      assert sorted[n..][j] == sorted[n + j];
    }
  }

  /** "Showing top 5 of N friends" appears exactly when some friend is left out. */
  function ShowsTopFiveNote(friends: seq<User>): (shown: bool)
    ensures shown <==> |HiddenFriends(friends)| > 0
  {
    |friends| > TopCount
  }

  /** One row of the card. */
  datatype Row = Row(badge: RankBadge, friend: User, level: int, xp: int)

  /** `friend.level || 1`: a missing or zero level shows as 1. */
  function LevelOrOne(u: User): (l: int)
    ensures l != 0
    ensures u.level.Some? && u.level.value != 0 ==> l == u.level.value
    ensures !(u.level.Some? && u.level.value != 0) ==> l == 1
  {
    match u.level
    case Some(l) => if l != 0 then l else 1
    case None => 1
  }

  /** The rows the card renders: badge `index + 1`, `level || 1`, `xp || 0`. */
  function Rows(friends: seq<User>): (rows: seq<Row>)
    ensures |rows| == |SortedFriends(friends)| <= TopCount
    ensures forall i :: 0 <= i < |rows| ==>
      && rows[i].badge == BadgeFor(i + 1)
      && BadgeLabel(rows[i].badge) == i + 1
      && (rows[i].badge.MedalBadge? <==> i < 3)
      && rows[i].friend == SortedFriends(friends)[i]
      && rows[i].xp == XpOrZero(rows[i].friend)
      && rows[i].level == LevelOrOne(rows[i].friend)
    ensures forall i, j :: 0 <= i < j < |rows| ==> rows[i].xp >= rows[j].xp
  {
    var top := SortedFriends(friends);
    seq(|top|, i requires 0 <= i < |top| =>
      Row(BadgeFor(i + 1), top[i], LevelOrOne(top[i]), XpOrZero(top[i])))
  }

  // ---------------------------------------------------------------------
  // The signed-in user's rank among friends
  // ---------------------------------------------------------------------

  /** `findIndex(u => u._id === id)`: the first position carrying the id, or -1. */
  function FindIndex(s: seq<User>, id: Id): (k: int)
    ensures -1 <= k < |s|
    ensures k >= 0 ==> s[k].id == id && forall j :: 0 <= j < k ==> s[j].id != id
    ensures k == -1 <==> !HasId(s, id)
  {
    if s == [] then -1
    else if s[0].id == id then 0
    else
      var k := FindIndex(s[1..], id);
      assert HasId(s[1..], id) ==> HasId(s, id) by {
        if HasId(s[1..], id) {
          var j :| 0 <= j < |s[1..]| && s[1..][j].id == id;
          assert s[j + 1].id == id;
        }
      }
      if k < 0 then -1 else k + 1
  }

  /**
   * `getCurrentUserRank()`: null without a signed-in user, otherwise one
   * more than the user's position in the friends plus the user, sorted.
   */
  function CurrentUserRank(friends: seq<User>, currentUser: Option<User>): (r: Option<int>)
    ensures r.None? <==> currentUser.None?
    ensures r.Some? ==> 1 <= r.value <= |friends| + 1
  {
    match currentUser
    case None => None
    case Some(u) =>
      var all := friends + [u];
      assert all[|friends|].id == u.id;
      HasIdPermutation(all, SortByXp(all), u.id);
      Some(FindIndex(SortByXp(all), u.id) + 1)
  }

  /**
   * A user who is not among their friends ranks right after every friend
   * with at least their xp: ties go to the friends.
   */
  lemma RankCountsFriendsAtOrAbove(friends: seq<User>, u: User)
    requires !HasId(friends, u.id)
    ensures CurrentUserRank(friends, Some(u)) == Some(1 + Count(friends, XpAtLeast(XpOrZero(u))))
  {
    var all := friends + [u];
    var t := SortByXp(friends);
    var c := Count(t, XpAtLeast(XpOrZero(u)));
    SortSnoc(friends, u);
    SortByXpOrders(friends);
    InsertSplice(u, t);
    HasIdPermutation(friends, t, u.id);
    HasIdPrefix(t, c, u.id);
    FindIndexAfterOthers(t[..c], u, t[c..]);
    CountPermutation(t, friends, XpAtLeast(XpOrZero(u)));
  }

  /** The first element carrying `u`'s id, placed after elements that do not carry it. */
  lemma FindIndexAfterOthers(a: seq<User>, u: User, b: seq<User>)
    requires !HasId(a, u.id)
    ensures FindIndex(a + [u] + b, u.id) == |a|
  {
    var r := a + [u] + b;
    assert r[|a|] == u;
    forall j | 0 <= j < |a|
      ensures r[j].id != u.id
    {
      assert r[j] == a[j];
    }
  }

  /** Friends drawn from a list without the user's id do not carry it either. */
  lemma HasIdPrefix(t: seq<User>, c: nat, id: Id)
    requires c <= |t| && !HasId(t, id)
    ensures !HasId(t[..c], id)
  {
  }

  /**
   * Compared with the competition rank over the same people (one more than
   * the number with strictly more xp), the card's positional rank is larger
   * by exactly the number of friends tied with the user.
   */
  lemma PositionalRankVersusCompetitionRank(friends: seq<User>, u: User)
    requires !HasId(friends, u.id)
    ensures CurrentUserRank(friends, Some(u)).value ==
            1 + Count(friends + [u], XpAbove(XpOrZero(u))) + Count(friends, XpEquals(XpOrZero(u)))
    ensures CurrentUserRank(friends, Some(u)).value >= 1 + Count(friends + [u], XpAbove(XpOrZero(u)))
  {
    var x := XpOrZero(u);
    RankCountsFriendsAtOrAbove(friends, u);
    CountSplit(friends, XpAtLeast(x), XpAbove(x), XpEquals(x));
    CountConcat(friends, [u], XpAbove(x));
    assert Count([u], XpAbove(x)) == 0;
  }
}
