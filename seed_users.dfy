/**
 * The test-user seed script: it creates the fixed test users in order,
 * collecting the ids the database assigns, then sets every created user's
 * friend list to all the other created ids. The database calls are
 * replaced by a map from id to stored document; the ids the database
 * assigns are a parameter.
 */
module SeedUsers {
  import opened Users

  /** One entry of the script's `testUsers` array. */
  datatype TestUser = TestUser(
    name: string, email: string, password: string,
    level: int, xp: int, totalTasksCompleted: int)

  const Password := "password123"

  const TestUsers: seq<TestUser> := [
    TestUser("Alice Johnson", "alice@test.com", Password, 5, 450, 25),
    TestUser("Bob Smith", "bob@test.com", Password, 3, 280, 15),
    TestUser("Charlie Brown", "charlie@test.com", Password, 7, 720, 42),
    TestUser("Diana Ross", "diana@test.com", Password, 2, 150, 8),
    TestUser("Edward King", "edward@test.com", Password, 10, 1200, 75),
    TestUser("Fiona Green", "fiona@test.com", Password, 4, 380, 20),
    TestUser("George Wilson", "george@test.com", Password, 6, 550, 32),
    TestUser("Hannah Davis", "hannah@test.com", Password, 1, 50, 3)
  ]

  /** A stored user document: the seeded profile and its `friends` field. */
  datatype StoredUser = StoredUser(profile: TestUser, friends: seq<Id>)

  predicate Distinct(ids: seq<Id>)
  {
    forall i, j :: 0 <= i < j < |ids| ==> ids[i] != ids[j]
  }

  /** `createdUsers.filter((_, index) => index !== i)`. */
  function AllBut(ids: seq<Id>, i: nat): (r: seq<Id>)
    ensures i < |ids| ==> |r| == |ids| - 1
    ensures i >= |ids| ==> r == ids
  {
    if ids == [] then []
    else if i == 0 then ids[1..]
    else [ids[0]] + AllBut(ids[1..], i - 1)
  }

  /** The friend list is the created ids with the user's own position cut out, in creation order. */
  lemma {:induction false} AllButSplices(ids: seq<Id>, i: nat)
    requires i < |ids|
    ensures AllBut(ids, i) == ids[..i] + ids[i + 1..]
  {
    if i > 0 {
      AllButSplices(ids[1..], i - 1);
      assert ids[..i] == [ids[0]] + ids[1..][..i - 1];
      assert ids[i + 1..] == ids[1..][i..];
    }
  }

  /** A distinct id occurs neither before nor after its own position. */
  lemma DistinctAtPosition(ids: seq<Id>, i: nat)
    requires Distinct(ids) && i < |ids|
    ensures ids[i] !in ids[..i] && ids[i] !in ids[i + 1..]
  {
    assert forall k :: 0 <= k < i ==> ids[..i][k] != ids[i];
    assert forall k :: i < k < |ids| ==> ids[k] != ids[i];
  }

  lemma MemberAroundPosition(ids: seq<Id>, i: nat, x: Id)
    requires i < |ids|
    ensures x in ids <==> x in ids[..i] || x == ids[i] || x in ids[i + 1..]
  {
    assert ids == ids[..i] + [ids[i]] + ids[i + 1..];
  }

  /** With distinct ids, a user's friends are exactly the other created users. */
  lemma AllButMembers(ids: seq<Id>, i: nat, x: Id)
    requires Distinct(ids) && i < |ids|
    ensures x in AllBut(ids, i) <==> x in ids && x != ids[i]
  {
    AllButSplices(ids, i);
    DistinctAtPosition(ids, i);
    MemberAroundPosition(ids, i, x);
  }

  /** Every stored friend is stored, and sees the friendship back. */
  ghost predicate FriendsSymmetric(db: map<Id, StoredUser>)
  {
    forall a, b :: a in db && b in db[a].friends ==> b in db && a in db[b].friends
  }

  ghost predicate NoSelfFriendship(db: map<Id, StoredUser>)
  {
    forall a :: a in db ==> a !in db[a].friends
  }

  ghost predicate EveryoneFriends(db: map<Id, StoredUser>)
  {
    forall a, b :: a in db && b in db && a != b ==> b in db[a].friends
  }

  /** What the friendship loop leaves behind: each created user is friends with the ids before and after it. */
  ghost predicate SeededFriends(ids: seq<Id>, db: map<Id, StoredUser>)
  {
    && Distinct(ids)
    && (forall x :: x in db <==> x in ids)
    && (forall k :: 0 <= k < |ids| ==> ids[k] in db && db[ids[k]].friends == ids[..k] + ids[k + 1..])
  }

  lemma SeededFriendsOf(ids: seq<Id>, db: map<Id, StoredUser>, a: Id, b: Id)
    requires SeededFriends(ids, db) && a in db
    ensures b in db[a].friends <==> b in db && b != a
  {
    var i :| 0 <= i < |ids| && ids[i] == a;
    DistinctAtPosition(ids, i);
    MemberAroundPosition(ids, i, b);
  }

  /** Each stored user's friends are exactly the other stored users. */
  ghost predicate FriendsAreOthers(db: map<Id, StoredUser>)
  {
    forall a, b :: a in db ==> (b in db[a].friends <==> b in db && b != a)
  }

  lemma SeededFriendsAreOthers(ids: seq<Id>, db: map<Id, StoredUser>)
    requires SeededFriends(ids, db)
    ensures FriendsAreOthers(db)
  {
    forall a, b | a in db
      ensures b in db[a].friends <==> b in db && b != a
    {
      SeededFriendsOf(ids, db, a, b);
    }
  }

  /** Friendship among the stored users is complete, symmetric and irreflexive. */
  lemma OthersAreFriends(db: map<Id, StoredUser>)
    requires FriendsAreOthers(db)
    ensures FriendsSymmetric(db) && NoSelfFriendship(db) && EveryoneFriends(db)
  {
  }

  /** The state the friendship loop ends in satisfies `SeededFriends`. */
  lemma FriendshipLoopResult(ids: seq<Id>, before: map<Id, StoredUser>, db: map<Id, StoredUser>)
    requires Distinct(ids) && (forall x :: x in before <==> x in ids) && db.Keys == before.Keys
    requires forall k :: 0 <= k < |ids| ==>
      && ids[k] in db && ids[k] in before
      && db[ids[k]] == before[ids[k]].(friends := AllBut(ids, k))
    ensures FriendsAreOthers(db)
  {
    forall k | 0 <= k < |ids|
      ensures db[ids[k]].friends == ids[..k] + ids[k + 1..]
    {
      AllButSplices(ids, k);
    }
    SeededFriendsAreOthers(ids, db);
  }

  /** The script's run: the ids it has created, and the documents it has written. */
  class SeedRun {
    var createdUsers: seq<Id>
    var db: map<Id, StoredUser>

    ghost predicate Valid()
      reads this
    {
      && Distinct(createdUsers)
      && (forall x :: x in db <==> x in createdUsers)
    }

    constructor()
      ensures Valid() && createdUsers == [] && db == map[]
    {
      createdUsers := [];
      db := map[];
    }

    /**
     * The creation loop: each test user is stored in order with no friends
     * and its id appended to `createdUsers`. `newIds[i]` is the id the
     * database assigns to `testUsers[i]`.
     */
    method CreateUsers(testUsers: seq<TestUser>, newIds: seq<Id>)
      requires Valid() && createdUsers == []
      requires |newIds| == |testUsers| && Distinct(newIds)
      modifies this
      ensures Valid() && createdUsers == newIds
      ensures forall i :: 0 <= i < |newIds| ==> newIds[i] in db && db[newIds[i]] == StoredUser(testUsers[i], [])
    {
      var i := 0;
      while i < |testUsers|
        invariant 0 <= i <= |testUsers|
        invariant createdUsers == newIds[..i]
        invariant forall x :: x in db <==> x in newIds[..i]
        invariant forall k :: 0 <= k < i ==> newIds[k] in db && db[newIds[k]] == StoredUser(testUsers[k], [])
      {
        db := db[newIds[i] := StoredUser(testUsers[i], [])];
        createdUsers := createdUsers + [newIds[i]];
        assert newIds[..i + 1] == newIds[..i] + [newIds[i]];
        i := i + 1;
      }
      assert newIds[..|testUsers|] == newIds;
    }

    /**
     * The friendship loop: user `i`'s `friends` field is set to every
     * created id but the one at index `i`; nothing else in the documents
     * changes.
     */
    method MakeAllFriends()
      requires Valid()
      modifies this
      ensures Valid() && createdUsers == old(createdUsers) && db.Keys == old(db).Keys
      ensures forall k :: 0 <= k < |createdUsers| ==>
        && createdUsers[k] in db && createdUsers[k] in old(db)
        && db[createdUsers[k]] == old(db)[createdUsers[k]].(friends := AllBut(createdUsers, k))
      ensures FriendsAreOthers(db)
    {
      var docs := SetFriendLists(createdUsers, db);
      FriendshipLoopResult(createdUsers, db, docs);
      db := docs;
    }
  }

  /**
   * The friendship loop on the stored documents: for each index `i`, the
   * document of `ids[i]` gets `AllBut(ids, i)` as its `friends` field and
   * keeps its profile.
   */
  method SetFriendLists(ids: seq<Id>, docs: map<Id, StoredUser>) returns (updated: map<Id, StoredUser>)
    requires Distinct(ids)
    requires forall k :: 0 <= k < |ids| ==> ids[k] in docs
    ensures updated.Keys == docs.Keys
    ensures forall k :: 0 <= k < |ids| ==>
      && ids[k] in updated && ids[k] in docs
      && updated[ids[k]] == docs[ids[k]].(friends := AllBut(ids, k))
    ensures forall x :: x in docs && x !in ids ==> updated[x] == docs[x]
  {
    updated := docs;
    var i := 0;
    while i < |ids|
      invariant 0 <= i <= |ids|
      invariant updated.Keys == docs.Keys
      invariant forall k :: 0 <= k < i ==>
        && ids[k] in updated
        && updated[ids[k]] == docs[ids[k]].(friends := AllBut(ids, k))
      invariant forall k :: i <= k < |ids| ==> ids[k] in updated && updated[ids[k]] == docs[ids[k]]
      invariant forall x :: x in docs && x !in ids ==> updated[x] == docs[x]
    {
      var userId := ids[i];
      var friendIds := AllBut(ids, i);
      ghost var before := updated;
      updated := updated[userId := updated[userId].(friends := friendIds)];
      forall k | 0 <= k < |ids| && k != i
        ensures ids[k] in updated && updated[ids[k]] == before[ids[k]]
      {
        assert ids[k] != userId;
      }
      forall x | x in docs && x !in ids
        ensures updated[x] == before[x]
      {
        assert userId in ids;
      }
      i := i + 1;
    }
  }

  /** Running the whole script on the test users gives each one every other test user as a friend. */
  method Seed(newIds: seq<Id>) returns (run: SeedRun)
    requires |newIds| == |TestUsers| && Distinct(newIds)
    ensures run.Valid() && run.createdUsers == newIds
    ensures forall i :: 0 <= i < |newIds| ==>
      && newIds[i] in run.db
      && run.db[newIds[i]] == StoredUser(TestUsers[i], AllBut(newIds, i))
    ensures FriendsSymmetric(run.db) && NoSelfFriendship(run.db) && EveryoneFriends(run.db)
  {
    run := new SeedRun();
    run.CreateUsers(TestUsers, newIds);
    run.MakeAllFriends();
    OthersAreFriends(run.db);
  }
}
