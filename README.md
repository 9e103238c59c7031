# lvl.ai leaderboards and friends — a Dafny model

This project models the ranking and friend-status logic of lvl.ai, a
gamified task app. Users earn xp and levels. They compare themselves on a
global leaderboard and on a friends leaderboard, and they add friends
through a search dialog. The parts modelled are:

- **The global leaderboard endpoint** (`GET /api/leaderboard`, module
  `LeaderboardRoute`):
  - the `limit` parameter and its default of 20;
  - the query sorted by xp, then level, both descending, and cut to `limit`;
  - the entries with their positional `rank` and `isCurrentUser` flag;
  - the count-based `currentUserRank` (one more than the number of users
    with strictly more xp) and `totalUsers`.

  The database appears as the sequence of stored documents. The sorted
  query result is a parameter constrained to be a reordering of it in the
  query's order.
- **The leaderboard page's display helpers** (module `LeaderboardDisplay`):
  - the "Top N% of players" figure;
  - `getInitials`;
  - `getRankBadge` (medals for ranks 1–3, a numbered circle otherwise).
- **The friends leaderboard card** (module `FriendsLeaderboard`):
  - JavaScript's stable sort by `xp || 0`, highest first;
  - the top five, and the rows and note the card renders;
  - `getCurrentUserRank`, which is the signed-in user's position after
    sorting the friends with the user appended last.
- **The Add Friend dialog** (module `AddFriendModal`):
  - `getUserStatus`'s priority classification, and the action each status
    shows;
  - the two-character search gate;
  - removal of a user from the results after a successful request;
  - the error message on a failed request;
  - the reset when the dialog closes.

  The dialog's state is a class whose methods update it.
- **The test-user seed script** (module `SeedUsers`):
  - the eight test users;
  - the creation loop that collects the assigned ids;
  - the loop that gives every created user all the others as friends.

  The script's run is a class with the created ids and the stored
  documents. The friendship loop is a method over the documents map.

Shared modules:

- `Wrappers` holds `Option`, `Result` and `Min`.
- `Users` holds the client-side `User` and the `u.xp || 0` reading.
- `SeqCounting` holds counting and filtering over sequences, with their
  lemmas.

Three points of the code's behaviour that are easy to misread:

- The endpoint orders by xp and level only. Users tied on both are in no
  fixed order, so the model fixes none.
- The endpoint declares the `limit` rule (an integer from 1 to 100) but
  never consults it (see Findings).
- The friends card's rank is positional, not count-based: the signed-in
  user comes after every friend with equal xp. `PositionalRankVersusCompetitionRank`
  states by how much the two ranks differ.

Sorting the friends works on a copy in the source. In the model every
sequence is a value, so the caller's `friends` list is never reordered.

## Model

| member | source | states |
|---|---|---|
| LeaderboardRoute.LimitAsWritten | backend/src/routes/leaderboardRoutes.ts:15 | the limit the handler actually uses is never 0: a nonzero number passes through unchanged, and an absent, non-numeric or zero parameter becomes 20 |
| LeaderboardRoute.CallerXp | backend/src/routes/leaderboardRoutes.ts:25-26 | a caller without a stored document counts as 0 xp; a stored caller's xp is the xp of a document carrying the caller's id |
| LeaderboardRoute.ValidateLimit | backend/src/routes/leaderboardRoutes.ts:12-15 | with the declared rule enforced, a limit is accepted exactly when it is absent or an integer in 1..100; an accepted limit lies in 1..100 and equals the handler's own reading (20 when absent) |
| LeaderboardRoute.InsertByXpLevel | backend/src/routes/leaderboardRoutes.ts:21 | inserting a document yields the same documents plus that one |
| LeaderboardRoute.InsertKeepsSorted | backend/src/routes/leaderboardRoutes.ts:21 | inserting into a list ordered by xp then level, both descending, keeps it so ordered |
| LeaderboardRoute.SortByXpLevel | backend/src/routes/leaderboardRoutes.ts:19-21 | every collection has an ordering the sorted query may return: a reordering of the documents, xp descending and level descending among equal xp |
| LeaderboardRoute.TopUsers | backend/src/routes/leaderboardRoutes.ts:22 | for a positive limit, `.limit(limit)` keeps min(limit, n) documents, and they are a prefix of the sorted order |
| LeaderboardRoute.FindById | backend/src/routes/leaderboardRoutes.ts:25 | the lookup returns a stored document carrying the id, and returns nothing exactly when no document carries it |
| LeaderboardRoute.RankForXp | backend/src/routes/leaderboardRoutes.ts:28-31 | the count-based rank of any score is between 1 and the number of users plus one |
| LeaderboardRoute.GetLeaderboard | backend/src/routes/leaderboardRoutes.ts:15-57 | for a positive limit, the response has min(limit, n) entries; entry i has rank i + 1 and describes the i-th document of the sorted order; entries run xp descending, then level descending; `isCurrentUser` holds exactly when the entry's id is the caller's; `currentUserRank` is 1 + the number of users with more xp than the caller, whose xp counts as 0 when the caller has no document; `totalUsers` is the collection's size |
| LeaderboardRoute.HandleGet | backend/src/routes/leaderboardRoutes.ts:11-22 | with the limit rule enforced, the request fails exactly when the limit is rejected; an accepted request lists min(k, n) entries for its limit k, at most 100, and min(20, n) without `limit`; its response is the leaderboard `GetLeaderboard` describes for that limit |
| LeaderboardRoute.FindByIdUnique | backend/src/routes/leaderboardRoutes.ts:25 | with unique ids, looking up a stored user's id finds that user |
| LeaderboardRoute.CurrentUserRankWithinTotal | backend/src/routes/leaderboardRoutes.ts:28-34 | a caller with a stored document has a rank between 1 and `totalUsers` |
| LeaderboardRoute.RankMonotone | backend/src/routes/leaderboardRoutes.ts:28-31 | more xp never gives a worse rank, so equal xp gives the same rank |
| LeaderboardRoute.RankStrictlyBetter | backend/src/routes/leaderboardRoutes.ts:28-31 | a stored user with strictly more xp than a score has a strictly better rank than that score |
| LeaderboardRoute.NoMoreXpAfter | backend/src/routes/leaderboardRoutes.ts:21 | in the sorted order, fewer than i + 1 users have more xp than the user at position i |
| LeaderboardRoute.EntryRankNotAboveCurrentUserRank | backend/src/routes/leaderboardRoutes.ts:37-47 | with unique ids, the caller's own entry never has a better rank than `currentUserRank` |
| LeaderboardRoute.TiedCallerExample | backend/src/routes/leaderboardRoutes.ts:28-38 | two users tied on xp and level: the one listed second has entry rank 2 but `currentUserRank` 1 |
| LeaderboardRoute.UnvalidatedLimitAccepted | backend/src/routes/leaderboardRoutes.ts:12-22 | a limit above 100 reaches the query and returns more than 100 entries, although the declared rule rejects it |
| LeaderboardDisplay.Percentile | frontend/src/app/leaderboard/page.tsx:124 | the figure is 0 without users; otherwise it is the integer nearest to 100 · rank / total, halves rounded up |
| LeaderboardDisplay.PercentileInRange | frontend/src/app/leaderboard/page.tsx:124 | for a rank between 0 and the total, the figure lies in 0..100 |
| LeaderboardDisplay.PercentileMonotone | frontend/src/app/leaderboard/page.tsx:124 | a worse rank never shows a smaller figure |
| LeaderboardDisplay.Split | frontend/src/app/leaderboard/page.tsx:84 | splitting on single spaces yields at least one piece, and no piece contains a space |
| LeaderboardDisplay.JoinSplit | frontend/src/app/leaderboard/page.tsx:84 | joining the pieces with single spaces gives back the name, so together with the piece contract the split cuts at every space and nowhere else |
| LeaderboardDisplay.ToUpper | frontend/src/app/leaderboard/page.tsx:87 | upper-casing keeps the length and maps each character on its own |
| LeaderboardDisplay.Initials | frontend/src/app/leaderboard/page.tsx:82-89 | the initials have at most two characters |
| LeaderboardDisplay.WordStartsAtStart | frontend/src/app/leaderboard/page.tsx:84-86 | at a word start, the reference scan takes the first character exactly when it is not a space |
| LeaderboardDisplay.FirstCharsOfSplit | frontend/src/app/leaderboard/page.tsx:84-86 | the first characters of the split pieces, with empty pieces giving nothing, are exactly the characters that begin a word |
| LeaderboardDisplay.SplitHead | frontend/src/app/leaderboard/page.tsx:84 | the first piece is empty exactly when the name is empty or starts with a space, and otherwise begins with the name's first character |
| LeaderboardDisplay.InitialsAreWordStarts | frontend/src/app/leaderboard/page.tsx:82-89 | the initials are the upper-cased characters that begin a word, in order, cut to two |
| LeaderboardDisplay.WordStartsOfBlank | frontend/src/app/leaderboard/page.tsx:84-86 | a string of spaces has no word starts |
| LeaderboardDisplay.BlankNameHasNoInitials | frontend/src/app/leaderboard/page.tsx:82-89 | an empty or all-space name has empty initials |
| LeaderboardDisplay.BadgeFor | frontend/src/app/leaderboard/page.tsx:53-80 | ranks 1..3 get a medal and no other rank does; the badge shows the rank's number |
| LeaderboardDisplay.BadgeIdentifiesRank | frontend/src/app/leaderboard/page.tsx:53-80 | two ranks get the same badge exactly when they are equal, so the three medals are distinct |
| FriendsLeaderboard.InsertByXp | frontend/src/components/friends/FriendsLeaderboard.tsx:20 | inserting a later friend yields the same friends plus that one |
| FriendsLeaderboard.SortByXp | frontend/src/components/friends/FriendsLeaderboard.tsx:19-20 | sorting keeps exactly the same friends |
| FriendsLeaderboard.InsertSplice | frontend/src/components/friends/FriendsLeaderboard.tsx:20 | in a sorted list, a later friend lands right after every friend with at least its xp |
| FriendsLeaderboard.InsertKeepsOrder | frontend/src/components/friends/FriendsLeaderboard.tsx:20 | inserting into a list sorted by xp, highest first, keeps it sorted |
| FriendsLeaderboard.PrefixAtLeast | frontend/src/components/friends/FriendsLeaderboard.tsx:20 | in a sorted list, each of the first c friends, c being the number with at least a given xp, has at least that xp |
| FriendsLeaderboard.SuffixBelow | frontend/src/components/friends/FriendsLeaderboard.tsx:20 | in a sorted list, every friend past those first c has less than that xp |
| FriendsLeaderboard.SortByXpOrders | frontend/src/components/friends/FriendsLeaderboard.tsx:19-20 | the sorted copy runs by `xp \|\| 0`, highest first |
| FriendsLeaderboard.InsertKeepsTies | frontend/src/components/friends/FriendsLeaderboard.tsx:20 | inserting a later friend puts it after every friend of equal xp and leaves their order alone |
| FriendsLeaderboard.SortByXpStable | frontend/src/components/friends/FriendsLeaderboard.tsx:19-20 | the sort is stable: for every xp value, the friends with that xp keep their input order |
| FriendsLeaderboard.SortedFriends | frontend/src/components/friends/FriendsLeaderboard.tsx:19-21 | the card lists min(5, number of friends) friends, all drawn from the friends, by xp highest first |
| FriendsLeaderboard.ShownAndHiddenPartitionFriends | frontend/src/components/friends/FriendsLeaderboard.tsx:19-21 | the shown and the left-out friends together are exactly the friends, and no left-out friend has more xp than a shown one |
| FriendsLeaderboard.ShowsTopFiveNote | frontend/src/components/friends/FriendsLeaderboard.tsx:170 | the "Showing top 5" note appears exactly when some friend is left out |
| FriendsLeaderboard.LevelOrOne | frontend/src/components/friends/FriendsLeaderboard.tsx:159 | a missing or zero level shows as 1; any other level shows as it is |
| FriendsLeaderboard.Rows | frontend/src/components/friends/FriendsLeaderboard.tsx:131-165 | at most five rows; row i shows the i-th listed friend under `getRankBadge(i + 1)`, a medal exactly on the first three rows and the number i + 1 on every badge; the row's xp is the friend's `xp \|\| 0` and its level the friend's `level \|\| 1`; xp runs highest first |
| FriendsLeaderboard.FindIndex | frontend/src/components/friends/FriendsLeaderboard.tsx:30 | the search returns the first position carrying the id, or -1 exactly when no element carries it |
| FriendsLeaderboard.CurrentUserRank | frontend/src/components/friends/FriendsLeaderboard.tsx:24-32 | there is a rank exactly when a user is signed in, and it lies in 1..number of friends + 1 |
| FriendsLeaderboard.RankCountsFriendsAtOrAbove | frontend/src/components/friends/FriendsLeaderboard.tsx:28-30 | a user not among their friends ranks 1 + the number of friends with at least their xp |
| FriendsLeaderboard.FindIndexAfterOthers | frontend/src/components/friends/FriendsLeaderboard.tsx:30 | the search finds the user right after a stretch without its id |
| FriendsLeaderboard.PositionalRankVersusCompetitionRank | frontend/src/components/friends/FriendsLeaderboard.tsx:28-30 | the card's rank equals the competition rank over the friends and the user, plus the number of friends tied with the user, so it is never better |
| AddFriendModal.SomeHasId | frontend/src/components/friends/AddFriendModal.tsx:94 | `some` on ids finds an element exactly when the list holds the id |
| AddFriendModal.UserStatus | frontend/src/components/friends/AddFriendModal.tsx:93-98 | 'friend' exactly when the id is a friend; 'pending' exactly when not a friend but an incoming request; 'sent' exactly when neither but an outgoing request; 'none' exactly when in no list |
| AddFriendModal.ActionFor | frontend/src/components/friends/AddFriendModal.tsx:194-218 | the Add button shows exactly for status 'none'; it is disabled exactly while some request is in flight and loading exactly while this user's is |
| AddFriendModal.AddOfferedOnlyToStrangers | frontend/src/components/friends/AddFriendModal.tsx:186-218 | the Add action is offered exactly for users in none of the three lists |
| AddFriendModal.SendErrorMessage | frontend/src/components/friends/AddFriendModal.tsx:86-87 | the error is the server's message when it has one and 'Failed to send friend request' otherwise; it is never empty |
| AddFriendModal.WithoutUser | frontend/src/components/friends/AddFriendModal.tsx:82 | no remaining result carries the removed id |
| AddFriendModal.WithoutUserRemovesOnlyThatUser | frontend/src/components/friends/AddFriendModal.tsx:82 | every entry with the id is gone, every other entry stays as often as it was there, and the order is kept |
| AddFriendModal.Dialog.constructor | frontend/src/components/friends/AddFriendModal.tsx:36-40 | the dialog opens with an empty query, no results, nothing in flight and no error |
| AddFriendModal.Dialog.QueryChanged | frontend/src/components/friends/AddFriendModal.tsx:43-65 | a query of fewer than two characters clears the results without searching; otherwise the search runs, and its results or the search error replace the old ones |
| AddFriendModal.Dialog.BeginSend | frontend/src/components/friends/AddFriendModal.tsx:76-78 | sending marks that user as in flight and clears the error, leaving the results alone |
| AddFriendModal.Dialog.CompleteSend | frontend/src/components/friends/AddFriendModal.tsx:79-91 | a successful send removes the user from the results; a failed one keeps them and shows the error message; nothing is in flight afterwards |
| AddFriendModal.Dialog.Close | frontend/src/components/friends/AddFriendModal.tsx:67-74 | closing clears the query, the results and the error |
| SeedUsers.AllBut | backend/scripts/seedUsers.ts:120 | dropping one position leaves one id fewer |
| SeedUsers.AllButSplices | backend/scripts/seedUsers.ts:120 | a user's friend list is the created ids before and after its own index, in creation order |
| SeedUsers.AllButMembers | backend/scripts/seedUsers.ts:120 | with distinct ids, a user's friends are exactly the other created users |
| SeedUsers.SeededFriendsOf | backend/scripts/seedUsers.ts:117-125 | after the loop, b is a friend of a exactly when b is another stored user |
| SeedUsers.SeededFriendsAreOthers | backend/scripts/seedUsers.ts:117-125 | after the loop, every stored user's friends are exactly the other stored users |
| SeedUsers.OthersAreFriends | backend/scripts/seedUsers.ts:117-125 | that friendship is symmetric, irreflexive and complete |
| SeedUsers.FriendshipLoopResult | backend/scripts/seedUsers.ts:117-125 | a documents map in which each created user's friends are the others by index has each user's friends exactly the other users |
| SeedUsers.SeedRun.constructor | backend/scripts/seedUsers.ts:105 | the run starts with no created ids and no documents |
| SeedUsers.SeedRun.CreateUsers | backend/scripts/seedUsers.ts:105-112 | the created ids follow the test users' order, and each id's document holds its test user with no friends |
| SeedUsers.SeedRun.MakeAllFriends | backend/scripts/seedUsers.ts:116-125 | each created user's friends become all the other created ids in creation order, the profiles stay, and the friendship is each user's others |
| SeedUsers.SetFriendLists | backend/scripts/seedUsers.ts:117-125 | the loop gives the user at index i the friend list of every id but the i-th and changes nothing else about it; documents of other keys stay as they were, and the key set is unchanged |
| SeedUsers.Seed | backend/scripts/seedUsers.ts:105-125 | seeding the eight test users stores each with every other test user as a friend; the friendship is symmetric, irreflexive and complete |

Members without a row are helpers whose behaviour the rows state:

- `LeaderboardRoute.CurrentUserRank` (`leaderboardRoutes.ts:28-31`) is stated by `GetLeaderboard`, `CurrentUserRankWithinTotal`, `RankMonotone` and `RankStrictlyBetter`.
- `LeaderboardRoute.ToEntry` (`leaderboardRoutes.ts:37-48`) is stated by `GetLeaderboard`.
- `LeaderboardDisplay.FirstChars` (`page.tsx:85-86`) is stated by `FirstCharsOfSplit` and `InitialsAreWordStarts`.
- `LeaderboardDisplay.UpperChar` (`page.tsx:87`) is stated by `ToUpper`.
- `LeaderboardDisplay.Join` is the partner of `Split` in `JoinSplit`.
- `Users.XpOrZero` (`FriendsLeaderboard.tsx:20`) is the key the sort and rank rows state their order in.
- `AddFriendModal.Dialog.StatusOf` and `AddFriendModal.Dialog.ActionOf` (`AddFriendModal.tsx:186-218`) apply `UserStatus` and `ActionFor` to the dialog's lists and `sendingTo`.

## Left out

- The server-side friend-request rules (accept, decline, remove, block, unblock) are not in the modelled files; the hook that calls them only forwards to API code that is not part of this model.
- `frontend/src/hooks/useFriends.ts`, the friends page and its list components are loading flags, refetches and JSX, with no logic to state.
- The database and web framework calls are replaced by sequences and maps: `mongoose.connect`, `deleteMany`, `create`, `findByIdAndUpdate`, `express-validator` and the authentication middleware. The ids `create` assigns are a parameter of `SeedUsers.SeedRun.CreateUsers`. The clean-up of earlier test users before seeding is not modelled.
- Console output of the seed script and its error exit are not modelled.
- The 300 ms debounce of the search, the `searching` loading flag, the keyboard and backdrop handlers and the `document.body` style are timing and DOM concerns. `AddFriendModal.Dialog.QueryChanged` takes the search's outcome as a parameter and applies it at once.
- Stale search responses that resolve after a later query are not modelled, because they depend on timing.
- The loading skeleton and empty-list card of the friends leaderboard are rendering only.
- LeaderboardDisplay.Percentile: computes `Math.round` on exact rationals, not on floating-point values; the two can differ where the floating-point quotient lands next to a half.
- AddFriendModal.Dialog.QueryChanged: measures the query in characters, while JavaScript's `length` counts UTF-16 code units. A single character outside the Basic Multilingual Plane, such as an emoji, has length 2 in the source and so triggers a search; in the model it has length 1 and does not.
- LeaderboardDisplay.Initials: takes whole characters, while `n[0]` and `.slice(0, 2)` take UTF-16 code units. For a word starting with a character outside the Basic Multilingual Plane, the source yields half of a surrogate pair; the model yields the whole character.
- LeaderboardDisplay.UpperChar: maps only ASCII letters; full Unicode case mapping, which can change a string's length, is not modelled.
- `toLocaleString` formatting of xp is not modelled.
- LeaderboardRoute.ValidateLimit: decides on the number `Number` reads from the parameter, while `isInt({ min: 1, max: 100 })` checks the string's integer syntax. Strings such as `1e1`, `0x10`, ` 5` and `5.0` are accepted by the model as 10, 16, 5 and 5, but the declared rule rejects them.
- LeaderboardRoute.TopUsers and LeaderboardRoute.GetLeaderboard: require a limit of at least 1. The database reads `.limit(0)` as "no limit", a case the handler never reaches because its limit is never 0.
- LeaderboardRoute.LimitAsWritten: a numeric `limit` is taken to be an integer; `Number` of a fractional string such as `2.5`, and the database's treatment of a negative or fractional limit, are not modelled.
- LeaderboardRoute.GetLeaderboard: the four queries (the sorted `find` at `leaderboardRoutes.ts:19-22`, `findById` at :25, and the two `countDocuments` at :28 and :34) read one snapshot `users`. The handler issues them as separate awaits, so concurrent writes can make `currentUserRank`, `totalUsers` and the entries disagree. For example, users deleted between :28 and :34 can put `currentUserRank` above `totalUsers`, which `CurrentUserRankWithinTotal` rules out for one snapshot.
- LeaderboardRoute.GetLeaderboard: takes the limit as a natural number, so the as-written path with a negative limit is not followed into the query.
- The identical `getInitials` in `frontend/src/components/friends/FriendsLeaderboard.tsx:36-43` and `frontend/src/components/friends/FriendCard.tsx:22-29` is modelled once, in `LeaderboardDisplay`. The `getRankBadge` in `frontend/src/components/friends/FriendsLeaderboard.tsx:45-72` draws smaller circles than the page's, but it tiers ranks the same way, so `LeaderboardDisplay.BadgeFor` stands for both. Markup and styling are not modelled.
- AddFriendModal.Dialog.constructor: the three lists are the component's props and stay fixed for the dialog's lifetime; a parent re-rendering with new lists is not modelled.

## Findings

| source | as written | input that shows it | evidently intended | confidence | as-written member | corrected member |
|---|---|---|---|---|---|---|
| backend/src/routes/leaderboardRoutes.ts:12-22 | the route declares `query('limit').optional().isInt({ min: 1, max: 100 })`, but the handler never reads the validation result, so `Number(limit) \|\| 20` goes to `.limit()` unchecked | `GET /api/leaderboard?limit=500` over a collection of more than 100 users returns more than 100 entries | a limit outside 1..100 is rejected, and at most 100 entries are returned | not executed | LeaderboardRoute.UnvalidatedLimitAccepted | LeaderboardRoute.ValidateLimit |
