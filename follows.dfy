/**
 * The follow relationship (app/user/views.py and
 * app/user/signals/handlers.py): the `Follower` table written by the
 * follow endpoint, the mirrored `Following` table written by the signal
 * receiver, and the two list endpoints.
 */
module Follows {
  import opened Accounts
  import opened Ordering

  /** A `Follower` row: `follower_id` follows the user `target`. */
  datatype FollowerRow = FollowerRow(target: int, followerId: int, followerName: string)

  /** A `Following` row: `user` follows the user `followingId`. */
  datatype FollowingRow = FollowingRow(user: int, followingId: int, followingName: string)

  /** The `data` payload sent with the `follow_user` signal. */
  datatype FollowPayload = FollowPayload(user: User, followingId: int, followingName: string)

  /** `get_object_or_404(User, username=...)`: one match, none (404), or several. */
  datatype Lookup = Found(user: User) | Missing | Ambiguous

  datatype FollowError =
    | NotFound        // Http404 from get_object_or_404
    | MultipleFound   // MultipleObjectsReturned from get_object_or_404
    | NotAllowed      // ValidationError({'detail': 'Not allowed'})

  datatype FollowOutcome = Followed(edge: FollowerRow, payload: FollowPayload) | Failed(error: FollowError)

  // ---------------------------------------------------------------------
  // Queries over the user table and the two relationship tables.
  // ---------------------------------------------------------------------

  function HasUsername(username: string): User -> bool
  {
    (u: User) => u.username == username
  }

  function LookupUser(users: seq<User>, username: string): (r: Lookup)
    ensures r.Found? ==> r.user in users && r.user.username == username
    ensures r.Found? ==> forall u :: u in users && u.username == username ==> u == r.user
    ensures r.Missing? <==> forall u :: u in users ==> u.username != username
    ensures r.Ambiguous? ==> exists i, j :: 0 <= i < j < |users| && users[i].username == username
                                           && users[j].username == username
  {
    var matches := Filter(users, HasUsername(username));
    if |matches| == 0 then Missing
    else if |matches| == 1 then
      assert matches[0] in matches;
      Found(matches[0])
    else
      assert matches[0] in matches;
      FilterKeepsTwo(users, HasUsername(username));
      Ambiguous
  }

  /** The user `id` is stored under `username`. */
  predicate IdNamed(users: seq<User>, id: int, username: string)
  {
    exists u :: u in users && u.id == id && u.username == username
  }

  function TargetNamed(users: seq<User>, username: string): FollowerRow -> bool
  {
    (row: FollowerRow) => IdNamed(users, row.target, username)
  }

  function UserNamed(users: seq<User>, username: string): FollowingRow -> bool
  {
    (row: FollowingRow) => IdNamed(users, row.user, username)
  }

  /** `UserFollowerViewSet.get_queryset`: `filter(target_user__username=username)`. */
  function FollowersOf(users: seq<User>, followers: seq<FollowerRow>, username: string): (r: seq<FollowerRow>)
    ensures forall row :: row in r <==> row in followers && IdNamed(users, row.target, username)
  {
    Filter(followers, TargetNamed(users, username))
  }

  /** `UserFollowingViewSet.get_queryset`: `filter(user__username=username)`. */
  function FollowingOf(users: seq<User>, followings: seq<FollowingRow>, username: string): (r: seq<FollowingRow>)
    ensures forall row :: row in r <==> row in followings && IdNamed(users, row.user, username)
  {
    Filter(followings, UserNamed(users, username))
  }

  /** Some row says that `followerId` already follows `target`. */
  predicate HasEdge(followers: seq<FollowerRow>, target: int, followerId: int)
  {
    exists i :: 0 <= i < |followers| && followers[i].target == target && followers[i].followerId == followerId
  }

  // ---------------------------------------------------------------------
  // Invariants of the two tables.
  // ---------------------------------------------------------------------

  predicate NoSelfFollow(followers: seq<FollowerRow>)
  {
    forall i :: 0 <= i < |followers| ==> followers[i].target != followers[i].followerId
  }

  predicate UniquePairs(followers: seq<FollowerRow>)
  {
    forall i, j :: 0 <= i < j < |followers| ==>
      !(followers[i].target == followers[j].target && followers[i].followerId == followers[j].followerId)
  }

  /** Row `i` of `Following` is the mirror of row `i` of `Follower`. */
  predicate Mirrored(followers: seq<FollowerRow>, followings: seq<FollowingRow>)
  {
    |followers| == |followings|
    && forall i :: 0 <= i < |followers| ==>
         followings[i].user == followers[i].followerId && followings[i].followingId == followers[i].target
  }

  /** The row `add_to_following_list` creates from a payload. */
  function MirrorRow(data: FollowPayload): FollowingRow
  {
    FollowingRow(data.user.id, data.followingId, data.followingName)
  }

  // ---------------------------------------------------------------------
  // The follow rule.
  // ---------------------------------------------------------------------

  /**
   * What `UserFollowerViewSet.perform_create` decides for `requester`
   * following `username`: the target and the requester are looked up in
   * that order, a self-follow or an existing edge is refused, and otherwise
   * the new row and the signal payload are produced. `follower_name` gets
   * `str(request.user)`, which is the user's name.
   */
  function FollowDecision(users: seq<User>, followers: seq<FollowerRow>, requester: User, username: string): FollowOutcome
  {
    match LookupUser(users, username)
    case Missing => Failed(NotFound)
    case Ambiguous => Failed(MultipleFound)
    case Found(target) =>
      match LookupUser(users, requester.username)
      case Missing => Failed(NotFound)
      case Ambiguous => Failed(MultipleFound)
      case Found(current) =>
        if current.id == target.id || HasEdge(followers, target.id, current.id) then Failed(NotAllowed)
        else Followed(FollowerRow(target.id, current.id, requester.name),
                      FollowPayload(current, target.id, target.name))
  }

  /** A username no user has is answered with a 404, whoever asks. */
  lemma UnknownTargetNotFound(users: seq<User>, followers: seq<FollowerRow>, requester: User, username: string)
    requires forall u :: u in users ==> u.username != username
    ensures FollowDecision(users, followers, requester, username) == Failed(NotFound)
  {
  }

  /** A user who follows their own username is refused. */
  lemma SelfFollowRefused(users: seq<User>, followers: seq<FollowerRow>, requester: User)
    requires LookupUser(users, requester.username).Found?
    ensures FollowDecision(users, followers, requester, requester.username) == Failed(NotAllowed)
  {
  }

  /** Following a user one already follows is refused. */
  lemma DuplicateFollowRefused(users: seq<User>, followers: seq<FollowerRow>, requester: User, username: string)
    requires LookupUser(users, username).Found? && LookupUser(users, requester.username).Found?
    requires HasEdge(followers, LookupUser(users, username).user.id, LookupUser(users, requester.username).user.id)
    ensures FollowDecision(users, followers, requester, username) == Failed(NotAllowed)
  {
  }

  /**
   * An accepted follow: the row links the looked-up target to the looked-up
   * requester under the requester's name, the payload names the target,
   * and neither a self-edge nor a duplicate is created.
   */
  lemma AcceptedFollow(users: seq<User>, followers: seq<FollowerRow>, requester: User, username: string)
    requires FollowDecision(users, followers, requester, username).Followed?
    ensures var d := FollowDecision(users, followers, requester, username);
            exists target, current ::
              target in users && target.username == username
              && current in users && current.username == requester.username
              && d.edge == FollowerRow(target.id, current.id, requester.name)
              && d.payload == FollowPayload(current, target.id, target.name)
              && target.id != current.id
              && !HasEdge(followers, target.id, current.id)
  {
    var target := LookupUser(users, username).user;
    var current := LookupUser(users, requester.username).user;
    assert target in users && current in users;
  }

  /** An accepted follow keeps the tables free of self-edges and duplicates, and mirrored. */
  lemma {:induction false} FollowKeepsInvariants(users: seq<User>, followers: seq<FollowerRow>, followings: seq<FollowingRow>,
                                                 requester: User, username: string)
    requires NoSelfFollow(followers) && UniquePairs(followers) && Mirrored(followers, followings)
    requires FollowDecision(users, followers, requester, username).Followed?
    ensures var d := FollowDecision(users, followers, requester, username);
            NoSelfFollow(followers + [d.edge]) && UniquePairs(followers + [d.edge])
            && Mirrored(followers + [d.edge], followings + [MirrorRow(d.payload)])
  {
    var d := FollowDecision(users, followers, requester, username);
    var nf := followers + [d.edge];
    forall i, j | 0 <= i < j < |nf|
      ensures !(nf[i].target == nf[j].target && nf[i].followerId == nf[j].followerId)
    {
      if j == |followers| {
        assert nf[i] == followers[i];
      }
    }
  }

  /** Repeating an accepted follow is refused: at most one edge per pair. */
  lemma FollowTwiceRefused(users: seq<User>, followers: seq<FollowerRow>, requester: User, username: string)
    requires FollowDecision(users, followers, requester, username).Followed?
    ensures var d := FollowDecision(users, followers, requester, username);
            FollowDecision(users, followers + [d.edge], requester, username) == Failed(NotAllowed)
  {
    var d := FollowDecision(users, followers, requester, username);
    var nf := followers + [d.edge];
    assert nf[|followers|] == d.edge;
  }

  /**
   * After an accepted follow both list endpoints show it at once: the new
   * row among the target's followers, its mirror among the requester's
   * followings.
   */
  lemma FollowVisibleInLists(users: seq<User>, followers: seq<FollowerRow>, followings: seq<FollowingRow>,
                             requester: User, username: string)
    requires FollowDecision(users, followers, requester, username).Followed?
    ensures var d := FollowDecision(users, followers, requester, username);
            d.edge in FollowersOf(users, followers + [d.edge], username)
            && MirrorRow(d.payload) in FollowingOf(users, followings + [MirrorRow(d.payload)], requester.username)
  {
    var target := LookupUser(users, username).user;
    var current := LookupUser(users, requester.username).user;
    assert IdNamed(users, target.id, username);
    assert IdNamed(users, current.id, requester.username);
  }

  // ---------------------------------------------------------------------
  // The relationship store.
  // ---------------------------------------------------------------------

  class FollowStore {
    var followers: seq<FollowerRow>
    var followings: seq<FollowingRow>

    ghost predicate Valid()
      reads this
    {
      NoSelfFollow(followers) && UniquePairs(followers) && Mirrored(followers, followings)
    }

    constructor ()
      ensures Valid() && followers == [] && followings == []
    {
      followers := [];
      followings := [];
    }

    /** `add_to_following_list`: the `follow_user` receiver creates one `Following` row. */
    method AddToFollowingList(data: FollowPayload)
      modifies this
      ensures followers == old(followers)
      ensures followings == old(followings) + [FollowingRow(data.user.id, data.followingId, data.followingName)]
    {
      followings := followings + [FollowingRow(data.user.id, data.followingId, data.followingName)];
    }

    /** `UserFollowerViewSet.perform_create`. */
    method PerformCreate(users: seq<User>, requester: User, username: string) returns (r: FollowOutcome)
      requires Valid()
      modifies this
      ensures Valid()
      ensures r == FollowDecision(users, old(followers), requester, username)
      ensures r.Failed? ==> followers == old(followers) && followings == old(followings)
      ensures r.Followed? ==> followers == old(followers) + [r.edge]
      ensures r.Followed? ==> followings == old(followings) + [MirrorRow(r.payload)]
    {
      var targetLookup := LookupUser(users, username);
      if targetLookup.Missing? {
        return Failed(NotFound);
      } else if targetLookup.Ambiguous? {
        return Failed(MultipleFound);
      }
      var target := targetLookup.user;
      var currentLookup := LookupUser(users, requester.username);
      if currentLookup.Missing? {
        return Failed(NotFound);
      } else if currentLookup.Ambiguous? {
        return Failed(MultipleFound);
      }
      var current := currentLookup.user;
      if current.id == target.id || HasEdge(followers, target.id, current.id) {
        return Failed(NotAllowed);
      }
      var payload := FollowPayload(current, target.id, target.name);
      var edge := FollowerRow(target.id, current.id, requester.name);
      FollowKeepsInvariants(users, followers, followings, requester, username);
      followers := followers + [edge];
      // The source sends the payload with `send_robust`, which swallows an
      // exception raised by the receiver, so there the mirror row is not
      // guaranteed; here the receiver is called directly.
      AddToFollowingList(payload);
      r := Followed(edge, payload);
    }
  }
}
