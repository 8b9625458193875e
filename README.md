# Social feed backend: a Dafny model

This project models the core of a small Django REST Framework social-feed backend. Users
register with an email address, follow each other, write posts and list posts and tags. The
model covers five pieces:

- **Follows.** The follow endpoint writes one `Follower` row (target, follower id, follower
  name). It refuses self-follows and duplicate follows. Its `follow_user` signal makes a
  receiver write the mirrored `Following` row (user, following id, following name). Two list
  endpoints filter these tables by username. The two tables are fields of the class
  `Follows.FollowStore`. The follow endpoint is the method `PerformCreate` and the receiver
  is the method `AddToFollowingList`. The rule is stated once as the function
  `FollowDecision`, and lemmas prove about it that the tables stay free of self-edges and
  duplicates and stay mirrored.
- **Post and tag queries.** The `tags` parameter is a comma-separated list of tag ids,
  parsed with Python's `int`. The post listing keeps the posts carrying a listed tag and is
  ordered by descending id without repeats. The tag listing optionally keeps only tags
  attached to a post. These are functions (`Feed.ListPosts`, `Feed.ListTags`) over the
  stored rows. Generic filter and sort functions (module `Ordering`) carry the order and
  uniqueness facts.
- **Post creation and the owner-guarded delete.** These are methods of the class
  `Feed.PostStore`. The delete looks the post up through the same query set as the listing.
  It refuses a non-owner with a 400 response. Otherwise it removes exactly that post.
- **The word blocklist** applied to post text. It is a case-sensitive substring check
  against the tuple `('Murder',)`.
- **User creation.** The manager refuses an empty email and normalizes the address (the
  domain part is lower-cased). It hashes the password, sets `is_active`/`is_staff` to their
  defaults and saves into a table whose `email` column is unique. This is the class
  `Accounts.UserTable`.

Python's string built-ins that the code relies on are written out in module `Text`:
`in` on strings, `str.split`, `str.strip`, `int()` and `str.lower`. Modules `Results`
(Option/Result), `Text` and `Ordering` are shared; `Validators`, `Accounts`, `Follows` and
`Feed` follow the source files.

Database rows are modelled as values in sequences held by store classes. The primary keys
the database hands out for new posts and new users are a `nextId` counter in `Feed.PostStore`
and `Accounts.UserTable`. The counter only grows, so a deleted id is never reused.
`Follows.FollowStore` has no counter, because no proof needs the ids of follow rows. Each
store's `Valid()` states the uniqueness invariants the database keeps. The functions over stored posts and tags require
those rows to have distinct ids, which primary keys guarantee.

The blocklist check is case-sensitive: the code tests `item in value`, so only the exact
spelling `Murder` is refused.

## Model

| member | source | states |
|---|---|---|
| Follows.FollowStore.PerformCreate | app/user/views.py:57-81 | the outcome is `FollowDecision` on the old table; a refusal changes neither table; an accepted follow appends exactly its one `Follower` row and the mirrored `Following` row, and the store keeps no self-edge, no duplicate pair and the mirror |
| Follows.FollowStore.AddToFollowingList | app/user/signals/handlers.py:6-14 | exactly one `Following` row is appended, with user = the payload's user id and `following_id`/`following_name` copied from the payload; `Follower` and the existing `Following` rows are unchanged |
| Follows.MirrorRow | app/user/signals/handlers.py:10-14 | the `Following` row the receiver creates from the payload (user id, following id, following name); `AddToFollowingList` and `FollowKeepsInvariants` state its use |
| Follows.FollowStore.constructor | app/user/views.py:51 | an empty store satisfies the invariants |
| Follows.LookupUser | app/user/views.py:59-61 | `get_object_or_404` by username: Found returns the one stored user with that username; Missing exactly when no user has it; Ambiguous only when two distinct rows have it |
| Follows.FollowDecision | app/user/views.py:57-80 | the follow rule as a function of the two lookups and the `Follower` table: 404 when the target or the requester is missing, 'Not allowed' for a self-follow or an existing edge, otherwise the new row and the signal payload; its promises are stated by `UnknownTargetNotFound`, `SelfFollowRefused`, `DuplicateFollowRefused`, `AcceptedFollow`, `FollowKeepsInvariants` and `FollowTwiceRefused` |
| Follows.HasEdge | app/user/views.py:64-67 | the `queryset.exists()` test: some `Follower` row has that target and that follower id; `DuplicateFollowRefused` and `FollowTwiceRefused` state its use |
| Follows.UnknownTargetNotFound | app/user/views.py:58-59 | a username no user has gives a 404 for any requester |
| Follows.SelfFollowRefused | app/user/views.py:63-68 | following one's own username is refused with 'Not allowed' |
| Follows.DuplicateFollowRefused | app/user/views.py:64-68 | following an already followed target is refused with 'Not allowed' |
| Follows.AcceptedFollow | app/user/views.py:63-80 | an accepted follow's row is (target id, current user id, requester's name), its payload is (current user, target id, target name), and the target is neither the requester nor already followed |
| Follows.FollowKeepsInvariants | app/user/views.py:63-80 | appending an accepted edge and its mirror keeps no-self-edge, one-edge-per-pair and the row-by-row mirror |
| Follows.FollowTwiceRefused | app/user/views.py:64-68 | repeating an accepted follow against the updated table is refused |
| Follows.FollowersOf | app/user/views.py:53-55 | exactly the `Follower` rows whose target user has the given username |
| Follows.FollowingOf | app/user/views.py:91-93 | exactly the `Following` rows whose user has the given username |
| Follows.FollowVisibleInLists | app/user/views.py:53-55 | after an accepted follow, the new row is in the target's follower list and its mirror in the requester's following list |
| Feed.ParseAll | app/feed/views.py:43 | the comprehension succeeds exactly when every piece is an integer literal, giving one value per piece in order; otherwise the error names the first piece `int` refuses |
| Feed.ParseIds | app/feed/views.py:41-43 | `_query_to_int`: one integer per comma-separated piece, in order; an error exactly when some piece is not an integer, naming such a piece |
| Feed.ParseIdsRoundTrip | app/feed/views.py:41-43 | parsing the comma-joined decimal form of any non-empty id list gives the list back |
| Text.ParseInt | app/feed/views.py:43 | Python's `int()` on a string: optional surrounding whitespace, an optional sign and ASCII digits give the value, anything else is refused; `ParseFormat` states that it reads back every decimal form |
| Text.Split | app/feed/views.py:43 | `str.split(',')`: at least one piece and no piece contains the separator; `SplitJoin` and `JoinSplit` state that it inverts joining |
| Text.SplitJoin | app/feed/views.py:43 | `split(',')` of pieces joined by ',' (none containing ',') gives the pieces back |
| Text.JoinSplit | app/feed/views.py:43 | joining the pieces of `split` with the separator gives the string back |
| Text.ParseFormat | app/feed/views.py:43 | `int` of the decimal form of any integer gives that integer back |
| Feed.ListPosts | app/feed/views.py:45-52 | strictly descending ids; without `tags` a permutation of all posts; with `tags` an error exactly when the ids do not parse, and otherwise exactly the posts carrying a listed tag |
| Feed.ListedPostsAreStored | app/feed/views.py:45-52 | every listed post is a stored post |
| Feed.UnfilteredListsEveryPost | app/feed/views.py:45-52 | without a `tags` value every post is listed, each once |
| Feed.FilteredListingIsSubsequence | app/feed/views.py:45-52 | the `tags` listing is `Filter` of the unfiltered listing, dropping the posts lacking a listed tag; `FilterIsSubsequence` states that this keeps the order |
| Ordering.SortDescending | app/feed/views.py:52 | `order_by('-id').distinct()` on rows with distinct ids: a permutation ordered by strictly descending key |
| Ordering.SortFilterCommute | app/feed/views.py:50-52 | filtering then ordering equals ordering then filtering |
| Ordering.DescendingDeterminedByElements | app/feed/views.py:52 | two strictly descending sequences with the same elements are equal |
| Ordering.Filter | app/feed/views.py:50 | a `filter` keeps exactly the rows satisfying its condition and adds none |
| Ordering.FilterIsSubsequence | app/feed/views.py:50 | a `filter` keeps the stored order and repeats nothing: the result is placed in the input by strictly increasing positions, and its multiset is contained in the input's |
| Ordering.FilterKeepsDescending | app/feed/views.py:50-52 | filtering a strictly descending list keeps it strictly descending |
| Ordering.FilterKeepsDistinct | app/feed/views.py:50-52 | filtering keeps ids distinct |
| Feed.ListTags | app/feed/views.py:120-128 | an error exactly when `assigned_only` is not an integer; strictly descending ids; with 0 a permutation of all tags; otherwise exactly the tags attached to some post |
| Feed.AssignedOnly | app/feed/views.py:121-123 | `bool(int(assigned_only, default 0))`: absent gives false, a non-integer gives an error naming the value, otherwise true exactly when the integer is non-zero; `ListTags` and `AssignedOnlyDefaultsToZero` state its use |
| Feed.AssignedOnlyDefaultsToZero | app/feed/views.py:121-123 | leaving `assigned_only` out lists the same tags as passing 0, and succeeds |
| Feed.AssignedListingIsSubsequence | app/feed/views.py:120-128 | the assigned-only listing is `Filter` of the full listing, dropping the unattached tags; `FilterIsSubsequence` states that this keeps the order |
| Feed.PostStore.PerformCreate | app/feed/views.py:61-62 | the saved post has the requester as owner, a fresh id, the given title, description and time and no tags; it is appended, the id counter moves past it and nothing else changes |
| Feed.PostStore.Destroy | app/feed/views.py:82-95 | BadQuery exactly when the query set cannot be built; NotFound exactly when the listing has no post with that pk; for the visible post with that pk, Deleted exactly when the requester owns it and NotOwner (400, post kept) exactly when not; the owner's delete removes exactly that post and keeps every other post; every other outcome leaves the posts unchanged; no outcome moves the id counter |
| Feed.OwnerAloneDeletes | app/feed/views.py:82-95 | from the store's contracts alone: after a user creates a post, another user's delete is refused with NotOwner, the owner's delete then succeeds and the store is empty |
| Feed.DeletedIdNotReused | app/feed/views.py:61-62 | from the store's contracts alone: a post created after another post was deleted gets a larger id, so a primary key is never handed out twice |
| Feed.PostStore.constructor | app/feed/views.py:37 | an empty store satisfies the invariants |
| Feed.FindPost | app/feed/views.py:83 | `get_object` by pk: a found post is in the query set with that id; none when no post has it |
| Feed.RemovesExactlyOne | app/feed/views.py:90-91 | deleting a present primary key from rows with distinct ids removes exactly one row |
| Validators.FirstContained | app/feed/validators.py:12-13 | the index of the first word, in tuple order, that occurs in the value; none exactly when no word occurs |
| Validators.CheckWords | app/feed/validators.py:10-15 | a rejection names a word of the list that occurs in the value, with no earlier word occurring, and carries the detail text `<word> word is not an allowed word`; the value passes exactly when no word occurs in it |
| Validators.CheckAllowedWords | app/feed/validators.py:7-15 | the value is rejected, naming `Murder` with its detail text, exactly when it contains `Murder` |
| Validators.MurderRejected | app/feed/validators.py:7-15 | any value containing `Murder` is rejected naming that word |
| Validators.SubstringNotWord | app/feed/validators.py:13 | a value containing `Murderer` is rejected: matching is by substring |
| Validators.WithoutCapitalMAllowed | app/feed/validators.py:13 | a value without a capital `M` passes: matching is case-sensitive |
| Text.Contains | app/feed/validators.py:13 | `item in value` on strings, scanned left to right; `ContainsIffOccurs` states it holds exactly when the word occurs at some position |
| Validators.RejectedExample | app/feed/validators.py:7-15 | a description containing `Murder` ("Create Murder description") is rejected naming that word |
| Validators.LowerCaseExample | app/feed/validators.py:13 | "a murder case" passes |
| Text.ContainsIffOccurs | app/feed/validators.py:13 | `in` on strings holds exactly when the word occurs at some position |
| Accounts.UserTable.CreateUser | app/core/models.py:11-20 | an empty email fails with no record stored; a taken normalized email fails and the table is unchanged; otherwise exactly one record, `NewUser` with the next id, is appended and the id counter moves past it; on an error the counter stays; the table keeps unique emails and ids |
| Accounts.UserTable.constructor | app/core/models.py:26 | an empty table satisfies the uniqueness invariants |
| Accounts.NewUser | app/core/models.py:16-17 | the record has the normalized email and the given fields, is active and not staff, and its password check succeeds with the given password (never when none is given) |
| Accounts.SetPassword | app/core/models.py:17 | `set_password`: a given password is stored as its hash, a missing one as an unusable password |
| Accounts.CheckPassword | app/core/models.py:17 | the password check: the stored password is a hash equal to the hash of the raw password; `NewUser` states it succeeds with the given password and never after a missing one |
| Accounts.LastIndexOf | app/core/models.py:16 | the position `rsplit('@', 1)` splits at: an `@` with no `@` after it; none when there is no `@` |
| Accounts.NormalizeEmail | app/core/models.py:16 | `normalize_email`: strip the address, split at its last `@` and lower-case the domain; an address without `@` is kept as given. `NormalizeKeepsLocalLowersDomain`, `LowerDomainUnchanged`, `NormalizeIdempotent` and `UpperCaseAddressExample` state its promises |
| Accounts.NormalizeKeepsLocalLowersDomain | app/core/models.py:16 | for `local@domain` with no `@` in the domain and no surrounding spaces, the stored email keeps the local part and lower-cases the domain |
| Accounts.LowerDomainUnchanged | app/core/models.py:16 | an address whose domain has no upper-case letter is stored unchanged |
| Accounts.NormalizeIdempotent | app/core/models.py:16 | normalizing a normalized email changes nothing |
| Accounts.UpperCaseAddressExample | app/core/models.py:16 | `TEST3@EXAMPLE.COM` is stored as `TEST3@example.com` |
| Text.Strip | app/core/models.py:16 | `str.strip`: the result neither starts nor ends with whitespace |
| Text.StripIsSlice | app/core/models.py:16 | `str.strip` returns the slice of the input after its leading whitespace, and everything it cuts off at either end is whitespace |
| Text.Lower | app/core/models.py:16 | `str.lower` on ASCII: each upper-case letter is replaced by its lower-case form, every other character is kept; `LowerFacts` states its promises |
| Text.LowerFacts | app/core/models.py:16 | `str.lower` keeps the length, adds no `@`, keeps a non-space last character and is idempotent |

## Left out

- The database-wait command, admin registration, URL routing and app configuration: these are framework set-up and I/O.
- Serializer declarations are left out. So are token authentication and the password hasher: the hasher is a parameter (`hash`), with no salt.
- Image upload (`upload_image`) and file storage are left out.
- HTTP status codes become result constructors: a 400 `NotOwner`, a 404 `NotFound` and a 'Not allowed' `NotAllowed`.
- Follows.FollowStore.PerformCreate: the follow signal is sent with `send_robust`, which swallows an exception raised by the receiver. The model calls the receiver directly, so the mirror row is always written. The source does not guarantee this.
- Feed.PostStore.Destroy: the `except post.DoesNotExist` clause is not modelled. Deleting a row found by `get_object` does not raise there. If it did, `post` would be unbound.
- Feed.PostStore.PerformCreate: the created post has no tags. The post serializer (not part of this model) assigns none, and its validators are not modelled here.
- Text.ParseInt: Python's `int()` also accepts underscores between digits and non-ASCII decimal digits. The model accepts optional surrounding whitespace, an optional sign and ASCII digits only.
- Text.Lower: only ASCII letters are lower-cased. Python's full Unicode case mapping is not modelled.
- Accounts.NewUser: the `email` maximum length of 254 and the `name` maximum length of 255 are not enforced. Uniqueness of `username` is not declared in app/core/models.py, so lookups by username keep a "several found" outcome.
- The profile update endpoint and the user listing are left out. Post and tag updates have no owner check in the code, so there is nothing to prove about them.
- Test expectations that contradict the code are not encoded: 404 for a non-owner's delete or update, and per-user post lists. The code returns 400 for a non-owner's delete and lists all posts.
- Concurrency is not modelled. Each request runs to completion before the next one starts.
