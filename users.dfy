/** User identities and the client-side user record shared by the friends screens. */
module Users {
  import opened Wrappers

  /** A user's `_id`, as the string the API sends. */
  type Id = string

  /**
   * The client's `User` object as the friends components read it. `xp` and
   * `level` are optional on the client; absent values are read as 0 through
   * `user.xp || 0`.
   */
  datatype User = User(id: Id, name: string, xp: Option<int>, level: Option<int>)

  /** `u.xp || 0`. */
  function XpOrZero(u: User): int
  {
    match u.xp
    case Some(x) => x
    case None => 0
  }

  /** Some element of `s` carries the id `id`. */
  predicate HasId(s: seq<User>, id: Id)
  {
    exists i :: 0 <= i < |s| && s[i].id == id
  }

  /** Membership by id survives reordering. */
  lemma HasIdPermutation(a: seq<User>, b: seq<User>, id: Id)
    requires multiset(a) == multiset(b)
    ensures HasId(a, id) <==> HasId(b, id)
  {
    if HasId(a, id) {
      var i :| 0 <= i < |a| && a[i].id == id;
      assert a[i] in multiset(b);
      var j :| 0 <= j < |b| && b[j] == a[i];
    }
    if HasId(b, id) {
      var i :| 0 <= i < |b| && b[i].id == id;
      assert b[i] in multiset(a);
      var j :| 0 <= j < |a| && a[j] == b[i];
    }
  }
}
