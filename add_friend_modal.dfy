/**
 * The "Add Friend" dialog: classifying search results against the
 * caller's friend, incoming-request and outgoing-request lists, the
 * two-character gate on the search, and the result list's updates when a
 * friend request is sent. The search call and the send call belong to
 * other components; their outcomes are parameters here.
 */
module AddFriendModal {
  import opened Wrappers
  import opened Users
  import opened SeqCounting

  /** `getUserStatus`'s result: 'friend' | 'pending' | 'sent' | 'none'. */
  datatype Status = Friend | Pending | Sent | NoRelation

  const MinQueryLength: nat := 2
  const SearchFailedMessage := "Failed to search users"
  const SendFailedMessage := "Failed to send friend request"

  /** `list.some(u => u._id === id)`, scanning from the front. */
  function SomeHasId(list: seq<User>, id: Id): (found: bool)
    ensures found <==> HasId(list, id)
  {
    if list == [] then false
    else if list[0].id == id then true
    else
      assert HasId(list[1..], id) <==> HasId(list, id) by {
        if HasId(list[1..], id) {
          var j :| 0 <= j < |list[1..]| && list[1..][j].id == id;
          assert list[j + 1].id == id;
        }
        if HasId(list, id) {
          var j :| 0 <= j < |list| && list[j].id == id;
          assert list[1..][j - 1].id == id;
        }
      }
      SomeHasId(list[1..], id)
  }

  /**
   * `getUserStatus(userId)`: the first list, in the order friends,
   * incoming requests, outgoing requests, that holds the id.
   */
  function UserStatus(friends: seq<User>, pendingRequests: seq<User>, sentRequests: seq<User>, userId: Id)
    : (status: Status)
    ensures status == Friend <==> HasId(friends, userId)
    ensures status == Pending <==> !HasId(friends, userId) && HasId(pendingRequests, userId)
    ensures status == Sent <==>
      !HasId(friends, userId) && !HasId(pendingRequests, userId) && HasId(sentRequests, userId)
    ensures status == NoRelation <==>
      !HasId(friends, userId) && !HasId(pendingRequests, userId) && !HasId(sentRequests, userId)
  {
    if SomeHasId(friends, userId) then Friend
    else if SomeHasId(pendingRequests, userId) then Pending
    else if SomeHasId(sentRequests, userId) then Sent
    else NoRelation
  }

  /** What a result row shows on its right: a badge, or the Add button. */
  datatype Action =
    | FriendsBadge          // status 'friend': "Friends"
    | AwaitingReplyBadge    // status 'sent': "Pending"
    | RequestedYouBadge     // status 'pending': "Sent you a request"
    | AddButton(loading: bool, disabled: bool)

  /** The row's action for a user with the given status while `sendingTo` is in flight. */
  function ActionFor(status: Status, sendingTo: Option<Id>, userId: Id): (a: Action)
    ensures a.AddButton? <==> status == NoRelation
    ensures a.AddButton? ==> (a.disabled <==> sendingTo.Some?)
    ensures a.AddButton? ==> (a.loading <==> sendingTo == Some(userId))
  {
    match status
    case Friend => FriendsBadge
    case Sent => AwaitingReplyBadge
    case Pending => RequestedYouBadge
    case NoRelation => AddButton(sendingTo == Some(userId), sendingTo.Some?)
  }

  /** The Add action is offered exactly for users in none of the three lists. */
  lemma AddOfferedOnlyToStrangers(
    friends: seq<User>, pendingRequests: seq<User>, sentRequests: seq<User>,
    sendingTo: Option<Id>, userId: Id)
    ensures ActionFor(UserStatus(friends, pendingRequests, sentRequests, userId), sendingTo, userId).AddButton?
            <==> !HasId(friends, userId) && !HasId(pendingRequests, userId) && !HasId(sentRequests, userId)
  {
  }

  /** `axiosError.response?.data?.message || 'Failed to send friend request'`. */
  function SendErrorMessage(serverMessage: Option<string>): (msg: string)
    ensures msg != []
    ensures serverMessage.Some? && serverMessage.value != [] ==> msg == serverMessage.value
    ensures serverMessage.None? || serverMessage.value == [] ==> msg == SendFailedMessage
  {
    match serverMessage
    case Some(m) => if m != [] then m else SendFailedMessage
    case None => SendFailedMessage
  }

  function IdIsNot(id: Id): User -> bool
  {
    (u: User) => u.id != id
  }

  /** `prev.filter(u => u._id !== userId)`. */
  function WithoutUser(results: seq<User>, userId: Id): (r: seq<User>)
    ensures !HasId(r, userId)
  {
    Filter(results, IdIsNot(userId))
  }

  /**
   * Removing a user takes out exactly the entries with that id: every other
   * entry stays, as often as it was there, and in its original order.
   */
  lemma WithoutUserRemovesOnlyThatUser(results: seq<User>, userId: Id)
    ensures forall v: User :: v.id == userId ==> multiset(WithoutUser(results, userId))[v] == 0
    ensures forall v: User :: v.id != userId ==>
      multiset(WithoutUser(results, userId))[v] == multiset(results)[v]
    ensures IsSubsequence(WithoutUser(results, userId), results)
  {
    var r := WithoutUser(results, userId);
    forall v: User | v.id == userId
      ensures multiset(r)[v] == 0
    {
      assert forall j :: 0 <= j < |r| ==> r[j] != v;
      assert v !in r;
    }
    forall v: User | v.id != userId
      ensures multiset(r)[v] == multiset(results)[v]
    {
      FilterKeepsMultiplicity(results, IdIsNot(userId), v);
    }
    FilterIsSubsequence(results, IdIsNot(userId));
  }

  /** Outcome of the debounced `searchUsers(query)` call. */
  datatype SearchOutcome = Found(users: seq<User>) | SearchFailed

  /** Outcome of `onSendRequest(userId)`: success, or a failure carrying the server's message if any. */
  datatype SendOutcome = Delivered | Rejected(serverMessage: Option<string>)

  /** The dialog's state. The three lists are the component's props. */
  class Dialog {
    const friends: seq<User>
    const pendingRequests: seq<User>
    const sentRequests: seq<User>
    var searchQuery: string
    var searchResults: seq<User>
    var sendingTo: Option<Id>
    var error: Option<string>

    constructor(friends: seq<User>, pendingRequests: seq<User>, sentRequests: seq<User>)
      ensures this.friends == friends && this.pendingRequests == pendingRequests
      ensures this.sentRequests == sentRequests
      ensures searchQuery == [] && searchResults == [] && sendingTo == None && error == None
    {
      this.friends := friends;
      this.pendingRequests := pendingRequests;
      this.sentRequests := sentRequests;
      searchQuery := [];
      searchResults := [];
      sendingTo := None;
      error := None;
    }

    /** `getUserStatus` over this dialog's lists. */
    function StatusOf(userId: Id): Status
      reads this
    {
      UserStatus(friends, pendingRequests, sentRequests, userId)
    }

    /** The action rendered for one search result. */
    function ActionOf(u: User): Action
      reads this
    {
      ActionFor(StatusOf(u.id), sendingTo, u.id)
    }

    /**
     * The search effect after the query changes to `query`: a query shorter
     * than two characters (the empty one included) clears the results and
     * does not search; otherwise the search runs and its outcome replaces
     * the results. `searched` says whether `searchUsers` was called.
     */
    method QueryChanged(query: string, outcome: SearchOutcome) returns (searched: bool)
      modifies this
      ensures searched <==> |query| >= MinQueryLength
      ensures searchQuery == query && sendingTo == old(sendingTo)
      ensures !searched ==> searchResults == [] && error == old(error)
      ensures searched ==> match outcome
        case Found(users) => searchResults == users && error == None
        case SearchFailed => searchResults == [] && error == Some(SearchFailedMessage)
    {
      searchQuery := query;
      if query == [] || |query| < MinQueryLength {
        searchResults := [];
        searched := false;
      } else {
        searched := true;
        error := None;
        match outcome {
          case Found(users) =>
            searchResults := users;
          case SearchFailed =>
            error := Some(SearchFailedMessage);
            searchResults := [];
        }
      }
    }

    /** `handleSendRequest(userId)` up to the awaited call. */
    method BeginSend(userId: Id)
      modifies this
      ensures sendingTo == Some(userId) && error == None
      ensures searchQuery == old(searchQuery) && searchResults == old(searchResults)
    {
      sendingTo := Some(userId);
      error := None;
    }

    /**
     * `handleSendRequest(userId)` after the awaited call: on success the
     * user leaves the results; on failure the results stay and the error
     * shows the server's message or the fallback text. Either way nothing
     * is in flight afterwards.
     */
    method CompleteSend(userId: Id, outcome: SendOutcome)
      modifies this
      ensures sendingTo == None && searchQuery == old(searchQuery)
      ensures outcome.Delivered? ==>
        searchResults == WithoutUser(old(searchResults), userId) && error == old(error)
      ensures outcome.Rejected? ==>
        searchResults == old(searchResults) && error == Some(SendErrorMessage(outcome.serverMessage))
    {
      match outcome {
        case Delivered =>
          searchResults := WithoutUser(searchResults, userId);
        case Rejected(message) =>
          error := Some(SendErrorMessage(message));
      }
      sendingTo := None;
    }

    /** The reset effect when the dialog closes. */
    method Close()
      modifies this
      ensures searchQuery == [] && searchResults == [] && error == None
      ensures sendingTo == old(sendingTo)
    {
      searchQuery := [];
      searchResults := [];
      error := None;
    }
  }
}
