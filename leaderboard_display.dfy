/**
 * Display helpers of the leaderboard page: the "Top N% of players" figure,
 * the two-letter initials shown when a user has no avatar, and the rank
 * badge. The friends leaderboard and the friend card carry identical copies
 * of `getInitials`, modelled here once. The friends leaderboard's
 * `getRankBadge` draws smaller circles but tiers the ranks the same way, so
 * `BadgeFor` stands for both.
 */
module LeaderboardDisplay {
  import opened Wrappers

  // ---------------------------------------------------------------------
  // Percentile
  // ---------------------------------------------------------------------

  /**
   * `totalUsers > 0 ? Math.round((currentUserRank / totalUsers) * 100) : 0`,
   * on exact rationals: `Math.round` is floor(v + 1/2), so the result is
   * floor((200 * rank + total) / (2 * total)).
   */
  function Percentile(rank: int, total: nat): (p: int)
    ensures total == 0 ==> p == 0
    // p is the integer nearest to 100 * rank / total, halves rounded up
    ensures total > 0 ==> 2 * p * total - total <= 200 * rank < 2 * p * total + total
  {
    if total > 0 then
      var d := 2 * total;
      var q := (200 * rank + total) / d;
      assert d * q + (200 * rank + total) % d == 200 * rank + total;
      assert 2 * q * total == d * q;
      q
    else 0
  }

  /** A rank within the collection gives a percentage between 0 and 100. */
  lemma PercentileInRange(rank: int, total: nat)
    requires 0 <= rank <= total
    ensures 0 <= Percentile(rank, total) <= 100
  {
    if total > 0 {
      var p := Percentile(rank, total);
      assert (-2 * p - 1) * total == -(2 * p * total + total);
      ProductBelowFactor(-2 * p - 1, total);
      assert (2 * p - 201) * total == 2 * p * total - total - 200 * total;
      ProductBelowFactor(2 * p - 201, total);
    }
  }

  /** A worse rank never shows a smaller percentage. */
  lemma PercentileMonotone(rank1: int, rank2: int, total: nat)
    requires rank1 <= rank2
    ensures Percentile(rank1, total) <= Percentile(rank2, total)
  {
    if total > 0 {
      var p1 := Percentile(rank1, total);
      var p2 := Percentile(rank2, total);
      assert (p1 - p2) * (2 * total) == 2 * p1 * total - 2 * p2 * total;
      ProductBelowFactor(p1 - p2, 2 * total);
    }
  }

  lemma ProductBelowFactor(a: int, t: int)
    requires t > 0 && a * t < t
    ensures a <= 0
  {
    assert (a - 1) * t < 0;
  }

  // ---------------------------------------------------------------------
  // Initials
  // ---------------------------------------------------------------------

  /** `s.split(' ')`: the pieces between single spaces, empty pieces included. */
  function Split(s: string): (words: seq<string>)
    ensures |words| >= 1
    ensures forall k :: 0 <= k < |words| ==> ' ' !in words[k]
  {
    if s == [] then [[]]
    else if s[0] == ' ' then [[]] + Split(s[1..])
    else
      var rest := Split(s[1..]);
      [[s[0]] + rest[0]] + rest[1..]
  }

  /** `words.join(' ')`: the inverse of `Split`. */
  function Join(words: seq<string>): string
  {
    if words == [] then []
    else if |words| == 1 then words[0]
    else words[0] + [' '] + Join(words[1..])
  }

  /** Joining the pieces with single spaces gives back the string that was split. */
  lemma {:induction false} JoinSplit(s: string)
    ensures Join(Split(s)) == s
  {
    if s != [] {
      var rest := Split(s[1..]);
      JoinSplit(s[1..]);
      if s[0] == ' ' {
        assert ([[]] + rest)[1..] == rest;
        assert Join([[]] + rest) == [] + [' '] + Join(rest);
        assert s == [' '] + s[1..];
      } else if |rest| == 1 {
        assert Split(s) == [[s[0]] + rest[0]];
        assert s == [s[0]] + s[1..];
      } else {
        var head := [s[0]] + rest[0];
        assert Split(s) == [head] + rest[1..];
        assert ([head] + rest[1..])[1..] == rest[1..];
        assert Join(Split(s)) == head + [' '] + Join(rest[1..]);
        assert Join(rest) == rest[0] + [' '] + Join(rest[1..]);
        assert s == [s[0]] + s[1..];
      }
    }
  }

  /** `.map(n => n[0]).join('')`: an empty piece maps to undefined, which joins as nothing. */
  function FirstChars(words: seq<string>): string
  {
    if words == [] then []
    else (if words[0] == [] then [] else [words[0][0]]) + FirstChars(words[1..])
  }

  /** `toUpperCase` on one character, for the ASCII range. */
  function UpperChar(c: char): char
  {
    if 'a' <= c <= 'z' then (c as int - 32) as char else c
  }

  function ToUpper(s: string): (r: string)
    ensures |r| == |s|
    ensures forall i :: 0 <= i < |s| ==> r[i] == UpperChar(s[i])
  {
    if s == [] then [] else [UpperChar(s[0])] + ToUpper(s[1..])
  }

  /** `getInitials(name)`. */
  function Initials(name: string): (r: string)
    ensures |r| <= 2
  {
    var joined := ToUpper(FirstChars(Split(name)));
    joined[..Min(2, |joined|)]
  }

  /**
   * Reference definition: the characters of `s` that begin a word, i.e. that
   * are not a space and stand first or right after a space.
   */
  function WordStarts(s: string, atWordStart: bool): string
  {
    if s == [] then []
    else if s[0] == ' ' then WordStarts(s[1..], true)
    else (if atWordStart then [s[0]] else []) + WordStarts(s[1..], false)
  }

  lemma {:induction false} WordStartsAtStart(s: string)
    ensures WordStarts(s, true) ==
            (if s != [] && s[0] != ' ' then [s[0]] else []) + WordStarts(s, false)
  {
  }

  lemma {:induction false} FirstCharsOfSplit(s: string)
    ensures FirstChars(Split(s)) == WordStarts(s, true)
  {
    if s != [] {
      FirstCharsOfSplit(s[1..]);
      var rest := Split(s[1..]);
      if s[0] == ' ' {
        assert FirstChars([[]] + rest) == FirstChars(rest) by {
          assert ([[]] + rest)[1..] == rest;
        }
      } else {
        var head := [s[0]] + rest[0];
        assert Split(s) == [head] + rest[1..];
        assert FirstChars([head] + rest[1..]) == [s[0]] + FirstChars(rest[1..]) by {
          assert ([head] + rest[1..])[1..] == rest[1..];
        }
        assert FirstChars(rest) ==
               (if rest[0] == [] then [] else [rest[0][0]]) + FirstChars(rest[1..]);
        SplitHead(s[1..]);
        WordStartsAtStart(s[1..]);
        var lead := if rest[0] == [] then [] else [rest[0][0]];
        assert lead == (if s[1..] != [] && s[1..][0] != ' ' then [s[1..][0]] else []);
        assert lead + FirstChars(rest[1..]) == lead + WordStarts(s[1..], false);
        assert FirstChars(rest[1..]) == WordStarts(s[1..], false) by {
          assert FirstChars(rest[1..]) == (lead + FirstChars(rest[1..]))[|lead|..];
          assert WordStarts(s[1..], false) == (lead + WordStarts(s[1..], false))[|lead|..];
        }
      }
    }
  }

  /** The first piece of the split is empty exactly when `s` is empty or starts with a space. */
  lemma {:induction false} SplitHead(s: string)
    ensures Split(s)[0] == [] <==> (s == [] || s[0] == ' ')
    ensures s != [] && s[0] != ' ' ==> Split(s)[0][0] == s[0]
  {
  }

  /**
   * The initials are the upper-cased first characters of the words, in order,
   * cut to two; empty words (from leading, trailing or doubled spaces)
   * contribute nothing.
   */
  lemma InitialsAreWordStarts(name: string)
    ensures var starts := ToUpper(WordStarts(name, true));
            Initials(name) == starts[..Min(2, |starts|)]
  {
    FirstCharsOfSplit(name);
  }

  lemma {:induction false} WordStartsOfBlank(s: string, atWordStart: bool)
    requires forall i :: 0 <= i < |s| ==> s[i] == ' '
    ensures WordStarts(s, atWordStart) == []
  {
    if s != [] {
      WordStartsOfBlank(s[1..], true);
    }
  }

  /** An empty or all-space name has no initials. */
  lemma BlankNameHasNoInitials(name: string)
    requires forall i :: 0 <= i < |name| ==> name[i] == ' '
    ensures Initials(name) == []
  {
    InitialsAreWordStarts(name);
    WordStartsOfBlank(name, true);
  }

  // ---------------------------------------------------------------------
  // Rank badge
  // ---------------------------------------------------------------------

  datatype Medal = Gold | Silver | Bronze

  /** The badge `getRankBadge` draws: a coloured medal for the podium, a plain circle otherwise. */
  datatype RankBadge = MedalBadge(medal: Medal) | PlainBadge(number: int)

  /** The number written inside the badge. */
  function BadgeLabel(b: RankBadge): int
  {
    match b
    case MedalBadge(Gold) => 1
    case MedalBadge(Silver) => 2
    case MedalBadge(Bronze) => 3
    case PlainBadge(n) => n
  }

  /** `getRankBadge(rank)`. */
  function BadgeFor(rank: int): (b: RankBadge)
    ensures b.MedalBadge? <==> 1 <= rank <= 3
    ensures BadgeLabel(b) == rank
  {
    match rank
    case 1 => MedalBadge(Gold)
    case 2 => MedalBadge(Silver)
    case 3 => MedalBadge(Bronze)
    case _ => PlainBadge(rank)
  }

  /** Different ranks get different badges; in particular the three medals are distinct. */
  lemma BadgeIdentifiesRank(rank1: int, rank2: int)
    ensures BadgeFor(rank1) == BadgeFor(rank2) <==> rank1 == rank2
  {
    assert BadgeLabel(BadgeFor(rank1)) == rank1;
    assert BadgeLabel(BadgeFor(rank2)) == rank2;
  }
}
