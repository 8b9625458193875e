/**
 * Posts and tags (app/feed/views.py): the `tags` id-list parameter, the
 * post and tag listings, post creation and the owner-guarded delete.
 */
module Feed {
  import opened Results
  import opened Text
  import opened Ordering

  /** A stored post; `tags` holds the ids of the tags attached to it. */
  datatype Post = Post(id: int, owner: int, title: string, description: string, createdAt: int, tags: set<int>)

  datatype Tag = Tag(id: int, name: string, owner: int)

  /** The ValueError `int()` raises on a piece that is not an integer literal. */
  datatype QueryError = InvalidInteger(piece: string)

  function PostKey(p: Post): int
  {
    p.id
  }

  function TagKey(t: Tag): int
  {
    t.id
  }

  // ---------------------------------------------------------------------
  // PostsViewSet._query_to_int
  // ---------------------------------------------------------------------

  /** Every piece is an integer literal `int` accepts. */
  predicate AllIntegers(pieces: seq<string>)
  {
    forall i :: 0 <= i < |pieces| ==> ParseInt(pieces[i]).Some?
  }

  /** `[int(item) for item in pieces]`: stops at the first piece `int` refuses. */
  function ParseAll(pieces: seq<string>): (r: Result<seq<int>, QueryError>)
    ensures r.Ok? <==> AllIntegers(pieces)
    ensures r.Ok? ==> |r.value| == |pieces| && forall i :: 0 <= i < |pieces| ==> ParseInt(pieces[i]) == Some(r.value[i])
    ensures r.Err? ==> exists i :: 0 <= i < |pieces| && ParseInt(pieces[i]).None? && r.error == InvalidInteger(pieces[i])
                                   && forall j :: 0 <= j < i ==> ParseInt(pieces[j]).Some?
  {
    if |pieces| == 0 then Ok([])
    else
      match ParseInt(pieces[0])
      case None => Err(InvalidInteger(pieces[0]))
      case Some(n) =>
        match ParseAll(pieces[1..])
        case Err(e) =>
          ghost var i :| 0 <= i < |pieces[1..]| && ParseInt(pieces[1..][i]).None? && e == InvalidInteger(pieces[1..][i])
                         && forall j :: 0 <= j < i ==> ParseInt(pieces[1..][j]).Some?;
          assert ParseInt(pieces[i + 1]).None? && forall j :: 0 <= j < i + 1 ==> ParseInt(pieces[j]).Some?;
          Err(e)
        case Ok(ns) => Ok([n] + ns)
  }

  /** `_query_to_int(items)`: one integer per comma-separated piece, in order. */
  function ParseIds(items: string): (r: Result<seq<int>, QueryError>)
    ensures r.Ok? ==> |r.value| == |Split(items, ',')|
    ensures r.Ok? ==> forall i :: 0 <= i < |r.value| ==> ParseInt(Split(items, ',')[i]) == Some(r.value[i])
    ensures r.Ok? <==> AllIntegers(Split(items, ','))
    ensures r.Err? ==> exists piece :: piece in Split(items, ',') && ParseInt(piece).None? && r.error == InvalidInteger(piece)
  {
    ParseAll(Split(items, ','))
  }

  /** The query-string form of an id list: decimal ids joined by commas. */
  function JoinIds(ids: seq<int>): string
    requires |ids| > 0
  {
    Join(seq(|ids|, i requires 0 <= i < |ids| => FormatInt(ids[i])), ',')
  }

  lemma {:induction false} ParseAllFormatted(ids: seq<int>)
    ensures ParseAll(seq(|ids|, i requires 0 <= i < |ids| => FormatInt(ids[i]))) == Ok(ids)
  {
    var pieces := seq(|ids|, i requires 0 <= i < |ids| => FormatInt(ids[i]));
    if |ids| > 0 {
      ParseFormat(ids[0]);
      ParseAllFormatted(ids[1..]);
      assert pieces[1..] == seq(|ids[1..]|, i requires 0 <= i < |ids[1..]| => FormatInt(ids[1..][i]));
      assert ids == [ids[0]] + ids[1..];
    }
  }

  /** Parsing the query-string form of a non-empty id list gives the list back. */
  lemma ParseIdsRoundTrip(ids: seq<int>)
    requires |ids| > 0
    ensures ParseIds(JoinIds(ids)) == Ok(ids)
  {
    var pieces := seq(|ids|, i requires 0 <= i < |ids| => FormatInt(ids[i]));
    forall i | 0 <= i < |pieces|
      ensures ',' !in pieces[i]
    {
      FormatIntHasNoComma(ids[i]);
    }
    SplitJoin(pieces, ',');
    ParseAllFormatted(ids);
  }

  // ---------------------------------------------------------------------
  // PostsViewSet.get_queryset
  // ---------------------------------------------------------------------

  /** The post carries at least one tag whose id is listed (`tags__id__in`). */
  predicate HasAnyTag(p: Post, ids: seq<int>)
  {
    exists i :: 0 <= i < |ids| && ids[i] in p.tags
  }

  function TaggedWith(ids: seq<int>): Post -> bool
  {
    (p: Post) => HasAnyTag(p, ids)
  }

  /** `if tags:` holds: the parameter is present and not empty. */
  predicate Filtering(tagsParam: Option<string>)
  {
    tagsParam.Some? && tagsParam.value != ""
  }

  /**
   * The post listing: all posts, or with a `tags` parameter those carrying
   * a listed tag, ordered by descending id without repeats.
   */
  function ListPosts(posts: seq<Post>, tagsParam: Option<string>): (r: Result<seq<Post>, QueryError>)
    requires DistinctKeys(posts, PostKey)
    ensures r.Ok? ==> StrictlyDescending(r.value, PostKey)
    ensures !Filtering(tagsParam) ==> r.Ok? && multiset(r.value) == multiset(posts)
    ensures Filtering(tagsParam) ==> (r.Err? <==> ParseIds(tagsParam.value).Err?)
    ensures Filtering(tagsParam) && r.Ok? ==>
              forall p :: p in r.value <==> p in posts && HasAnyTag(p, ParseIds(tagsParam.value).value)
  {
    if Filtering(tagsParam) then
      match ParseIds(tagsParam.value)
      case Err(e) => Err(e)
      case Ok(ids) =>
        var kept := Filter(posts, TaggedWith(ids));
        FilterKeepsDistinct(posts, TaggedWith(ids), PostKey);
        var sorted := SortDescending(kept, PostKey);
        SameElements(sorted, kept);
        Ok(sorted)
    else
      Ok(SortDescending(posts, PostKey))
  }

  /** Every listed post is a stored post. */
  lemma ListedPostsAreStored(posts: seq<Post>, tagsParam: Option<string>)
    requires DistinctKeys(posts, PostKey)
    ensures ListPosts(posts, tagsParam).Ok? ==> forall p :: p in ListPosts(posts, tagsParam).value ==> p in posts
  {
    if !Filtering(tagsParam) {
      SameElements(ListPosts(posts, tagsParam).value, posts);
    }
  }

  /** Without a usable `tags` parameter every stored post is listed. */
  lemma UnfilteredListsEveryPost(posts: seq<Post>, tagsParam: Option<string>)
    requires DistinctKeys(posts, PostKey) && !Filtering(tagsParam)
    ensures ListPosts(posts, tagsParam).Ok?
    ensures forall p :: p in ListPosts(posts, tagsParam).value <==> p in posts
    ensures |ListPosts(posts, tagsParam).value| == |posts|
  {
    var r := ListPosts(posts, tagsParam).value;
    SameElements(r, posts);
    assert |multiset(r)| == |multiset(posts)|;
  }

  /**
   * The tag-filtered listing is the unfiltered listing with the untagged
   * posts taken out: a subset, in the same descending order.
   */
  lemma FilteredListingIsSubsequence(posts: seq<Post>, items: string)
    requires DistinctKeys(posts, PostKey) && items != "" && ParseIds(items).Ok?
    ensures ListPosts(posts, Some(items)).Ok?
    ensures ListPosts(posts, Some(items)).value
            == Filter(ListPosts(posts, None).value, TaggedWith(ParseIds(items).value))
  {
    SortFilterCommute(posts, TaggedWith(ParseIds(items).value), PostKey);
  }

  // ---------------------------------------------------------------------
  // TagViewSet.get_queryset
  // ---------------------------------------------------------------------

  /** The tag is attached to at least one post (`feed__isnull=False`). */
  predicate Assigned(t: Tag, posts: seq<Post>)
  {
    exists i :: 0 <= i < |posts| && t.id in posts[i].tags
  }

  function AssignedTo(posts: seq<Post>): Tag -> bool
  {
    (t: Tag) => Assigned(t, posts)
  }

  /** `bool(int(query_params.get('assigned_only', 0)))`. */
  function AssignedOnly(param: Option<string>): Result<bool, QueryError>
  {
    match param
    case None => Ok(false)
    case Some(s) =>
      match ParseInt(s)
      case None => Err(InvalidInteger(s))
      case Some(n) => Ok(n != 0)
  }

  /**
   * The tag listing: all tags, or with a non-zero `assigned_only` those
   * attached to a post, ordered by descending id without repeats.
   */
  function ListTags(tags: seq<Tag>, posts: seq<Post>, assignedOnly: Option<string>): (r: Result<seq<Tag>, QueryError>)
    requires DistinctKeys(tags, TagKey)
    ensures r.Err? <==> AssignedOnly(assignedOnly).Err?
    ensures r.Ok? ==> StrictlyDescending(r.value, TagKey)
    ensures r.Ok? && !AssignedOnly(assignedOnly).value ==> multiset(r.value) == multiset(tags)
    ensures r.Ok? && AssignedOnly(assignedOnly).value ==>
              forall t :: t in r.value <==> t in tags && Assigned(t, posts)
  {
    match AssignedOnly(assignedOnly)
    case Err(e) => Err(e)
    case Ok(only) =>
      if only then
        var kept := Filter(tags, AssignedTo(posts));
        FilterKeepsDistinct(tags, AssignedTo(posts), TagKey);
        var sorted := SortDescending(kept, TagKey);
        SameElements(sorted, kept);
        Ok(sorted)
      else
        Ok(SortDescending(tags, TagKey))
  }

  /** Leaving `assigned_only` out is the same as passing 0. */
  lemma AssignedOnlyDefaultsToZero(tags: seq<Tag>, posts: seq<Post>)
    requires DistinctKeys(tags, TagKey)
    ensures ListTags(tags, posts, None) == ListTags(tags, posts, Some("0"))
    ensures ListTags(tags, posts, None).Ok?
  {
    var z := "0";
    assert IsDigit(z[0]);
    StripUnchanged(z);
    assert DigitsValue(z) == 0 by {
      assert z[..0] == "";
    }
  }

  /** The assigned-only listing is the full listing with unattached tags taken out. */
  lemma AssignedListingIsSubsequence(tags: seq<Tag>, posts: seq<Post>, param: string)
    requires DistinctKeys(tags, TagKey)
    requires AssignedOnly(Some(param)) == Ok(true)
    ensures ListTags(tags, posts, Some(param)).Ok?
    ensures ListTags(tags, posts, Some(param)).value == Filter(ListTags(tags, posts, None).value, AssignedTo(posts))
  {
    SortFilterCommute(tags, AssignedTo(posts), TagKey);
  }

  // ---------------------------------------------------------------------
  // Post creation and the owner-guarded delete.
  // ---------------------------------------------------------------------

  datatype DeleteOutcome =
    | Deleted                      // 204 'Item deleted'
    | NotOwner                     // 400 'You are not allowed to delete this object'
    | NotFound                     // 404 from get_object
    | BadQuery(error: QueryError)  // get_object's query set could not be built

  function OtherThan(pk: int): Post -> bool
  {
    (p: Post) => p.id != pk
  }

  function FindPost(posts: seq<Post>, pk: int): (r: Option<Post>)
    ensures r.Some? ==> r.value in posts && r.value.id == pk
    ensures r.None? ==> forall p :: p in posts ==> p.id != pk
  {
    if |posts| == 0 then None
    else if posts[0].id == pk then Some(posts[0])
    else FindPost(posts[1..], pk)
  }

  /** Deleting one primary key from a table with distinct keys removes exactly one row. */
  lemma {:induction false} RemovesExactlyOne(posts: seq<Post>, pk: int)
    requires DistinctKeys(posts, PostKey)
    requires exists p :: p in posts && p.id == pk
    ensures |Filter(posts, OtherThan(pk))| == |posts| - 1
  {
    if posts[0].id == pk {
      forall q | q in posts[1..]
        ensures q.id != pk
      {
        var j :| 0 <= j < |posts[1..]| && posts[1..][j] == q;
        assert posts[j + 1] == q;
      }
      FilterKeepsAll(posts[1..], OtherThan(pk));
    } else {
      var p :| p in posts && p.id == pk;
      assert p in posts[1..];
      RemovesExactlyOne(posts[1..], pk);
    }
  }

  class PostStore {
    var posts: seq<Post>
    var nextId: int

    ghost predicate Valid()
      reads this
    {
      DistinctKeys(posts, PostKey) && forall p :: p in posts ==> p.id < nextId
    }

    constructor ()
      ensures Valid() && posts == []
    {
      posts := [];
      nextId := 1;
    }

    /**
     * `PostsViewSet.perform_create`: the post is saved with the requesting
     * user as owner, a fresh id, the creation time and no tags.
     */
    method PerformCreate(requester: int, title: string, description: string, now: int) returns (p: Post)
      requires Valid()
      modifies this
      ensures Valid()
      ensures p == Post(old(nextId), requester, title, description, now, {})
      ensures forall q :: q in old(posts) ==> q.id != p.id
      ensures posts == old(posts) + [p]
      ensures nextId == old(nextId) + 1
    {
      p := Post(nextId, requester, title, description, now, {});
      posts := posts + [p];
      nextId := nextId + 1;
    }

    /**
     * `PostsViewSet.destroy`: `get_object` looks the post up in the query
     * set of `get_queryset`; only its owner may delete it.
     */
    method Destroy(requester: int, pk: int, tagsParam: Option<string>) returns (r: DeleteOutcome)
      requires Valid()
      modifies this
      ensures Valid()
      ensures r.BadQuery? <==> ListPosts(old(posts), tagsParam).Err?
      ensures ListPosts(old(posts), tagsParam).Err? ==> r == BadQuery(ListPosts(old(posts), tagsParam).error)
      ensures ListPosts(old(posts), tagsParam).Ok? ==>
                forall p :: p in ListPosts(old(posts), tagsParam).value && p.id == pk ==>
                  (r == Deleted <==> p.owner == requester) && (r == NotOwner <==> p.owner != requester)
      ensures r == NotFound <==> ListPosts(old(posts), tagsParam).Ok?
                                 && forall p :: p in ListPosts(old(posts), tagsParam).value ==> p.id != pk
      ensures r == NotOwner ==> exists p :: p in old(posts) && p.id == pk && p.owner != requester
      ensures r == Deleted ==> exists p :: p in old(posts) && p.id == pk && p.owner == requester
      ensures r == Deleted ==> posts == Filter(old(posts), OtherThan(pk)) && |posts| == |old(posts)| - 1
      ensures r != Deleted ==> posts == old(posts)
      ensures nextId == old(nextId)
    {
      var visible := ListPosts(posts, tagsParam);
      if visible.Err? {
        return BadQuery(visible.error);
      }
      var found := FindPost(visible.value, pk);
      if found.None? {
        return NotFound;
      }
      var instance := found.value;
      ListedPostsAreStored(posts, tagsParam);
      assert instance in posts && instance.id == pk;
      forall p | p in visible.value && p.id == pk
        ensures p == instance
      {
        KeyDetermines(posts, PostKey, p, instance);
      }
      if instance.owner != requester {
        return NotOwner;
      }
      RemovesExactlyOne(posts, pk);
      FilterKeepsDistinct(posts, OtherThan(pk), PostKey);
      posts := Filter(posts, OtherThan(pk));
      return Deleted;
    }
  }

  /**
   * A client of the store, from its contracts alone: after `owner` creates
   * a post, another user's delete is refused and leaves it in place, and
   * the owner's delete then removes it.
   */
  method OwnerAloneDeletes(owner: int, other: int, title: string, description: string, now: int)
    returns (byOther: DeleteOutcome, byOwner: DeleteOutcome, remaining: seq<Post>)
    requires owner != other
    ensures byOther == NotOwner && byOwner == Deleted && remaining == []
  {
    var store := new PostStore();
    var p := store.PerformCreate(owner, title, description, now);
    assert store.posts == [p];
    UnfilteredListsEveryPost(store.posts, None);
    byOther := store.Destroy(other, p.id, None);
    UnfilteredListsEveryPost(store.posts, None);
    byOwner := store.Destroy(owner, p.id, None);
    remaining := store.posts;
  }

  /**
   * Primary keys are never handed out twice: a post created after another
   * post was deleted gets a larger id than the deleted one.
   */
  method DeletedIdNotReused(owner: int, title: string, description: string, now: int)
    returns (deleted: Post, created: Post)
    ensures created.id > deleted.id
  {
    var store := new PostStore();
    deleted := store.PerformCreate(owner, title, description, now);
    var outcome := store.Destroy(owner, deleted.id, None);
    created := store.PerformCreate(owner, title, description, now);
  }
}
