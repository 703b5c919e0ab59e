# propermint-cdk feed backend, modelled in Dafny

propermint-cdk is the serverless backend of a small social feed. Users
post images into channels, comment on posts, and like posts and comments.
Resolvers behind a GraphQL API write rows into one DynamoDB table. They
also put "recount" events on an SQS queue. An aggregator consumes those
events, counts the reaction rows with paginated queries and writes the
totals back onto the post or comment. Two S3-triggered handlers resize
uploaded images. A third handler, fed by a queue, resizes a post's image
and then sets the post live.

The model covers the following.

- **Key codec** (`PrimaryKey`, `SortKey`, `LikeId`). These are the string
  keys every row is stored under, with lemmas on when two keys can be equal.
- **Store** (`Store`). A class `Backend` holds the table as a map from
  `(pk, sk)` keys to rows, the queue as a sequence of recount requests, and
  the bucket as a map from object keys to bodies.
  - The store promises no order among index items that share a partition
    key. The model assumes such a query returns its least matching key
    first (see "## Left out").
  - A paginated count returns at most one page size per round trip. Its
    continuation token is the number of matches already covered.
  - The channel listing reads a single page, from the greatest sort key
    down, and never follows the continuation token. A channel with more
    than one page of rows loses its oldest posts from the listing.
  - `Invariants.Canonical` states the shape every handler writes: each row
    sits under the key its own attributes produce.
- **Store clients** (`ChannelsClient`, `ReactionsClient`, and
  `UpdateExpression`, the `set #a = :a, …` builder both clients share).
- **Reaction aggregator** (`ProcessReactions`, `Convergence`).
- **Producers and removers**: `CreateComment`, `LikePost`, `LikeComment`,
  `UnlikePost`, `UnlikeComment`, `DeleteComment` and `UpdatePost`.
- **Image handlers**: `ProcessPost`, `ProcessImageHandler` and
  `ProcessImage`.
- **An end-to-end scenario** (`Scenario`): two likes, a recount, an unlike
  and another recount.

Every handler is a module-level method that takes the `Backend` as
`db` and modifies it. Its `ensures` ties the new
table, queue and bucket to a pure function of the old state. The
properties are proved about those functions. The outcomes of I/O are
parameters:

- `putOk`, `sendOk`, `smOk` and `lgOk` say whether a store write, a queue
  send or an S3 write succeeded;
- `failed` is the set of widths whose derivative write fails;
- `meta` is `None` when the image cannot be decoded;
- `now` is the current Unix time in seconds.

A handler's answer is `Rejected` when it throws to the API, `NullResult`
when it answers null and `Value` otherwise.

Several defects in the code are modelled as written. The model exposes
each by a lemma and pairs it with a corrected definition (see "##
Findings"). Other behaviours are not clearly defects, and the model states
them as lemmas:

- A like on a post and a comment on the same post by the same user share
  one key, so each replaces the other (`LikePost.LikeReplacesComment`,
  `LikeComment.LikesOnOnePostShareKey`).
- A post's like count also counts the likes on its comments
  (`ReactionsClient.PostLikesIncludeCommentLikes`).
- Any signed-in user can delete any comment and edit any post
  (`DeleteComment.AnyCallerDeletes`, `UpdatePost.AnyCallerEdits`).
- An uploaded image named like a derivative is overwritten by one
  (`ProcessPost.ImageNamedLikeDerivative`).
- A '#' in a channel id lets two users' reaction partitions coincide
  (`PrimaryKey.ReactionPrimaryKeyCollision`).

Three behaviours a reader might expect are absent from the code. The model
follows the code:

- Liking and commenting queue a recount (likePost.ts, likeComment.ts,
  createComment.ts), but unliking does not: `unlikePost` and
  `unlikeComment` enqueue nothing, and the model's methods state that the
  queue is unchanged. A post's totals therefore never go down through an
  unlike.
- `deleteComment` checks only that some user is signed in, not that the
  caller wrote the comment.
- Two likes followed by one unlike leave a like count of 1 only with the
  corrected handlers (`Scenario.LikeLikeUnlike`). As written, the
  aggregator never writes and the unlike deletes nothing.

## Model

| member | source | states |
|---|---|---|
| PrimaryKey.ChannelPrimaryKeyInjective | lambda/utilities/getPrimaryKey.ts:1-3 | two channel partition keys are equal exactly when the channel ids are |
| PrimaryKey.ReactionPrimaryKeyInjective | lambda/utilities/getPrimaryKey.ts:5-7 | for '#'-free channel ids, two reaction partition keys are equal exactly when channel and user both are |
| PrimaryKey.ReactionPrimaryKeyCollision | lambda/utilities/getPrimaryKey.ts:5-7 | with a '#' inside a channel id, two different (channel, user) pairs share one reaction partition |
| PrimaryKey.ChannelAndReactionKeysDiffer | lambda/utilities/getPrimaryKey.ts:1-7 | no channel partition key is ever a reaction partition key |
| PrimaryKey.ChannelPostKeyDeterminesChannel | lambda/utilities/getPrimaryKey.ts:13-15 | for one post id, the `channelPost` scope is equal exactly when the channel is |
| PrimaryKey.ChannelUserKeyIsChannelPostKey | lambda/utilities/getPrimaryKey.ts:9-15 | the channel-user key and the channel-post key are the same string for the same second part, so a user named like a post id shares its scope |
| SortKey.PostSortKeyInjective | lambda/utilities/getSortKey.ts:1-3 | two post sort keys are equal exactly when post id and timestamp both are |
| SortKey.CommentSortKeyInjective | lambda/utilities/getSortKey.ts:5-7 | two comment sort keys are equal exactly when the timestamps are |
| SortKey.LikeSortKeyInjective | lambda/utilities/getSortKey.ts:9-11 | two like sort keys are equal exactly when the timestamps are |
| SortKey.SortKeyKindsDiffer | lambda/utilities/getSortKey.ts:1-11 | post, comment and like sort keys never coincide, whatever their arguments |
| SortKey.SortKeyPrefixes | lambda/utilities/getSortKey.ts:1-11 | each kind of sort key begins with its own literal prefix |
| Text.DecimalRoundTrip | lambda/utilities/getSortKey.ts:1-3 | parsing the rendering of a timestamp in a template string gives the timestamp back |
| Text.DecimalInjective | lambda/utilities/getSortKey.ts:1-3 | two timestamps render alike exactly when they are equal |
| Text.Decimal | lambda/utilities/getSortKey.ts:1-3 | a rendered timestamp is a non-empty digit string with no leading zero |
| LikeId.EmptyCommentIdIsAbsent | lambda/utilities/getLikeId.ts:1-10 | an empty comment id is falsy and gives the same like id as no comment id |
| LikeId.LikeIdUser | lambda/utilities/getLikeId.ts:1-10 | the part after a like id's last ':' contains no ':' |
| LikeId.LikeIdNamesUser | lambda/utilities/getLikeId.ts:1-10 | for a ':'-free user name, the part after the like id's last ':' is that user |
| LikeId.LikeIdInjective | lambda/utilities/getLikeId.ts:1-10 | for ':'-free parts, two like ids are equal exactly when channel, post, user and the (possibly absent) comment id all are |
| Types.Caller | lambda/createComment.ts:30-33 | a caller is present exactly when the identity exists and its user name is non-empty, and it is that user name |
| Types.WireNamesDistinct | lambda/types.ts:1-25 | distinct post statuses and distinct reaction types have distinct wire names, both directions |
| Store.Least | lambda/utilities/channelsClient.ts:7-23 | the model's choice of `Items[0]` for a query whose items share a partition key: a member of the matches that sorts below every other (an assumed order; the store promises none) |
| Store.Paged | lambda/utilities/reactionsClient.ts:7-28 | a page always carries a count; it carries a continuation token exactly when matches remain beyond it, and the token then lies strictly between the start and the total |
| Invariants.FoundPostKey | lambda/utilities/channelsClient.ts:7-23 | in a canonical table, the post `getPost` finds sits under its own post key |
| Invariants.FoundCommentKey | lambda/utilities/reactionsClient.ts:78-94 | in a canonical table, the comment `getComment` finds sits under its own comment key |
| Invariants.DeleteLikeKeyAbsent | lambda/utilities/reactionsClient.ts:159-172 | in a canonical table, the key `deleteLike` builds holds no row at all |
| ChannelsClient.GetPost | lambda/utilities/channelsClient.ts:7-23 | absent exactly when no post row has the id; otherwise the least such key and the post stored there |
| ChannelsClient.PostRowSortsFirst | lambda/utilities/channelsClient.ts:7-23 | under the model's assumed least-key order and a partition by kind, the least row for the post id is its post row |
| ChannelsClient.LikeSharesPostIndex | lambda/utilities/channelsClient.ts:7-23 | a like on the post matches the `posts` index query although it is no post row, so without an order the query may return it |
| ChannelsClient.OnlyPostsSortBeforePosts | lambda/utilities/channelsClient.ts:7-23 | under that partitioning, any row sorting before a post row is itself a post row |
| ChannelsClient.Descending | lambda/utilities/channelsClient.ts:44 | the listing order holds each key once and puts later sort keys first |
| ChannelsClient.FirstPage | lambda/utilities/channelsClient.ts:30-45 | the single page read holds `size` of the channel's partition keys, or all of them when fewer, each from the partition and strictly descending |
| ChannelsClient.FirstPageIsTop | lambda/utilities/channelsClient.ts:30-45 | with `ScanIndexForward: false`, every partition key the page leaves out sorts below every key it reads |
| ChannelsClient.SmallPartitionReadWhole | lambda/utilities/channelsClient.ts:30-45 | a partition of at most one page is read whole |
| ChannelsClient.LeastKeyBeyondPage | lambda/utilities/channelsClient.ts:30-47 | a partition larger than one page never has its least key read, since `LastEvaluatedKey` is not followed |
| ChannelsClient.Filtered | lambda/utilities/channelsClient.ts:34 | the filter keeps only visible post rows of the page |
| ChannelsClient.FilteredComplete | lambda/utilities/channelsClient.ts:34 | the filter drops no visible row of the page |
| ChannelsClient.FilteredDescending | lambda/utilities/channelsClient.ts:44 | the filter keeps the page's descending key order |
| ChannelsClient.SamePartitionDescending | lambda/utilities/channelsClient.ts:33 | within the one queried partition, descending keys are descending sort keys |
| ChannelsClient.GetChannelPosts | lambda/utilities/channelsClient.ts:25-48 | the listing holds at most one page of visible posts of the channel, each on the page read, with sort keys in strictly descending order |
| ChannelsClient.ListingComplete | lambda/utilities/channelsClient.ts:25-48 | a post is listed exactly when it is visible and on the single page read |
| ChannelsClient.SmallPartitionListedWhole | lambda/utilities/channelsClient.ts:25-48 | when the partition fits in one page, a post is listed exactly when it is visible |
| ChannelsClient.OldestPostMissed | lambda/utilities/channelsClient.ts:47 | once the partition outgrows a page, the post at its least key is never listed, visible or not |
| ChannelsClient.ListingStatuses | lambda/utilities/channelsClient.ts:34-39 | a listing never shows a suppressed post, and without a user shows live posts only |
| ChannelsClient.UpdatePost | lambda/utilities/channelsClient.ts:50-78 | as written the attribute maps are undefined, so every update of a stored post item fails before reaching the store |
| ChannelsClient.InitialisedStillSetsTableKey | lambda/utilities/channelsClient.ts:63-75 | the item read back carries `pk` and `sk`, so initialising the maps alone would still assign a table key |
| ChannelsClient.UpdatePostCorrected | lambda/utilities/channelsClient.ts:63-75 | corrected: with the maps initialised and `pk`, `sk` skipped, no table key is assigned, and the post's own key then holds the post |
| UpdateExpression.Build | lambda/utilities/channelsClient.ts:63-75 | the builder loop fails exactly when the maps are undefined and some attribute is to be set; otherwise it returns the joined clauses and both placeholder maps |
| UpdateExpression.ClausesCover | lambda/utilities/channelsClient.ts:63-75 | every attribute except the key gets an assignment clause |
| UpdateExpression.ClausesSound | lambda/utilities/channelsClient.ts:63-75 | every clause assigns some attribute other than the key |
| UpdateExpression.KeyNeverAssigned | lambda/utilities/channelsClient.ts:63-75 | the key attribute is never assigned, whatever the other attributes are |
| UpdateExpression.OnlyPresentAssigned | lambda/utilities/channelsClient.ts:63-75 | an attribute is assigned only if it is present and is not the key |
| UpdateExpression.Without | lambda/utilities/channelsClient.ts:64 | skipping a set of attributes keeps exactly the others |
| UpdateExpression.StoredItemSetsTableKey | lambda/utilities/channelsClient.ts:63-75 | an item carrying `pk` or `sk` has that table key assigned by the loop |
| UpdateExpression.WithoutTableKeys | lambda/utilities/channelsClient.ts:63-75 | with `pk` and `sk` skipped, no table key is assigned and every other attribute but the key still is |
| UpdateExpression.ClauseInjective | lambda/utilities/channelsClient.ts:63-75 | two clauses are equal exactly when their attributes are |
| UpdateExpression.EmptyStartUsesEveryPlaceholder | lambda/updatePost.ts:52-64 | built from empty maps, the name and value maps declare exactly the placeholders the expression uses |
| UpdateExpression.NamesKeepStart | lambda/updatePost.ts:37-51 | the builder keeps every name the starting map declared |
| UpdateExpression.UnusedStartNameRefused | lambda/updatePost.ts:37-51 | a starting name the expression does not use makes the request one the store refuses |
| ReactionsClient.PostCommentsCount | lambda/utilities/reactionsClient.ts:7-28 | the query counts exactly the comment rows whose `channelPost` is the post's scope, and resumes from the token it is given |
| ReactionsClient.PostLikesCount | lambda/utilities/reactionsClient.ts:30-51 | the query counts exactly the like rows in the post's scope, likes on its comments included, and resumes from the token it is given |
| ReactionsClient.CommentLikesCount | lambda/utilities/reactionsClient.ts:53-76 | the query counts exactly the like rows in the post's scope whose `commentId` is the comment's, and resumes from the token it is given |
| ReactionsClient.CommentLikesWithinPostLikes | lambda/utilities/reactionsClient.ts:30-76 | a comment's like matches are a subset of its post's, so never more |
| ReactionsClient.PostLikesIncludeCommentLikes | lambda/utilities/reactionsClient.ts:30-51 | a like on a comment under the post is counted as a like of the post |
| ReactionsClient.PostLikeCountExample | lambda/utilities/reactionsClient.ts:30-51 | one like on a comment and none on the post gives the post a like count of 1 |
| ReactionsClient.PutMatching | lambda/utilities/reactionsClient.ts:7-76 | a put changes a count's matches at the written key only: a matching row adds that key once, any other row removes it |
| ReactionsClient.GetComment | lambda/utilities/reactionsClient.ts:78-94 | absent exactly when no comment row has the id; otherwise the least such key, holding a comment with that id |
| ReactionsClient.GetLike | lambda/utilities/reactionsClient.ts:96-112 | absent exactly when no like row has the id; otherwise the least such key, holding a like with that id |
| ReactionsClient.UpdateComment | lambda/utilities/reactionsClient.ts:114-142 | as written the attribute maps are undefined, so every update of a stored comment item fails |
| ReactionsClient.InitialisedStillSetsTableKey | lambda/utilities/reactionsClient.ts:127-139 | the comment item read back carries `pk` and `sk`, so initialising the maps alone would still assign a table key |
| ReactionsClient.UpdateCommentCorrected | lambda/utilities/reactionsClient.ts:127-139 | corrected: with the maps initialised and `pk`, `sk` skipped, no table key is assigned and the comment's own key holds the new row |
| ReactionsClient.DeleteComment | lambda/utilities/reactionsClient.ts:144-157 | removes the row under the comment's key and nothing else |
| ReactionsClient.DeleteLikeKey | lambda/utilities/reactionsClient.ts:159-172 | the delete key is in the like author's reaction partition, and its sort key, with `undefined` for the timestamp, equals no post sort key for any post and timestamp |
| ReactionsClient.DeleteLike | lambda/utilities/reactionsClient.ts:159-172 | removes whatever is under that key and nothing else |
| ReactionsClient.DeleteLikeKeyNeverNumeric | lambda/utilities/reactionsClient.ts:167 | the delete key's sort key is never a post sort key with a numeric timestamp |
| ReactionsClient.DeleteLikeAt | lambda/utilities/reactionsClient.ts:159-172 | corrected delete: removes exactly the key the lookup found |
| ProcessReactions.MatchingIgnoresStart | lambda/utilities/reactionsClient.ts:7-28 | the start key changes where a count resumes, not which rows match |
| ProcessReactions.CountFrom | lambda/processReactionsHandler.ts:99-119 | the page loop from a token sums to the number of matches the token has not covered |
| ProcessReactions.CommentsCountForPost | lambda/processReactionsHandler.ts:99-119 | the comment total is the number of comment rows in the post's scope, on any page size |
| ProcessReactions.LikesCountForPost | lambda/processReactionsHandler.ts:121-141 | the post-like total is the number of like rows in the post's scope, on any page size |
| ProcessReactions.LikesCountForComment | lambda/processReactionsHandler.ts:143-166 | the comment-like total is the number of like rows in the scope naming the comment, on any page size |
| ProcessReactions.PagesFrom | lambda/processReactionsHandler.ts:99-119 | the loop reads at least one page, every page but the last hands on a token, and the last has none |
| ProcessReactions.CountIsSumOfPages | lambda/processReactionsHandler.ts:99-119 | the total equals the sum of the per-page counts |
| ProcessReactions.PageChainLength | lambda/processReactionsHandler.ts:99-119 | the loop makes the ceiling of remaining/size round trips (at least one) |
| ProcessReactions.PaginationExample | lambda/processReactionsHandler.ts:99-119 | 237 matching rows at page size 50 take 5 round trips and count 237 |
| ProcessReactions.ProcessComments | lambda/processReactionsHandler.ts:39-56 | as written, a comment event never writes: it is dropped because the post is missing or because the update fails |
| ProcessReactions.ProcessLikesForPost | lambda/processReactionsHandler.ts:71-83 | as written, a post-like event fails, either on the missing post or on the update |
| ProcessReactions.ProcessLikesForComment | lambda/processReactionsHandler.ts:85-97 | as written, a comment-like event fails; the comment is looked up by the post id |
| ProcessReactions.ProcessLikes | lambda/processReactionsHandler.ts:58-69 | a truthy comment id takes the comment path, anything else the post path |
| ProcessReactions.ProcessReaction | lambda/processReactionsHandler.ts:27-37 | comment events are dropped, like events fail and other types are ignored; a post-not-found reason means the post is absent |
| ProcessReactions.CommentLookupByPostIdMisses | lambda/processReactionsHandler.ts:88 | when the stored comment exists but no comment has the post's id, the comment-like path finds nothing |
| ProcessReactions.ProcessCommentsCorrected | lambda/processReactionsHandler.ts:39-56 | corrected: the table becomes the recounted one; dropped exactly when the post is missing |
| ProcessReactions.ProcessLikesForPostCorrected | lambda/processReactionsHandler.ts:71-83 | corrected: the table becomes the recounted one; fails exactly when the post is missing |
| ProcessReactions.ProcessLikesForCommentCorrected | lambda/processReactionsHandler.ts:85-97 | corrected lookup by comment id: the table becomes the recounted one; fails exactly when the comment is missing |
| ProcessReactions.ProcessReactionCorrected | lambda/processReactionsHandler.ts:27-37 | corrected dispatch: the table becomes the recount for the event; queue and bucket untouched |
| Convergence.PostRewriteKeepsMatching | lambda/processReactionsHandler.ts:39-83 | rewriting a post row changes no count's matches |
| Convergence.CommentRewriteKeepsMatching | lambda/processReactionsHandler.ts:85-97 | rewriting a comment row with the same scope and id changes no count's matches |
| Convergence.AfterCommentsKeepsMatching | lambda/processReactionsHandler.ts:39-56 | the comment recount's write-back leaves every count's matches as they were |
| Convergence.AfterPostLikesKeepsMatching | lambda/processReactionsHandler.ts:71-83 | the post-like write-back leaves every count's matches as they were |
| Convergence.AfterCommentLikesKeepsMatching | lambda/processReactionsHandler.ts:85-97 | the comment-like write-back leaves every count's matches as they were |
| Convergence.WriteBackKeepsCounts | lambda/processReactionsHandler.ts:27-37 | no recount changes what any count query matches |
| Convergence.CommentsConverge | lambda/processReactionsHandler.ts:39-56 | afterwards the post's comment total equals its comment rows in the new table; no other row or key changes |
| Convergence.PostLikesConverge | lambda/processReactionsHandler.ts:71-83 | afterwards the post's like total equals its like rows in the new table; no other row or key changes |
| Convergence.CommentLikesConverge | lambda/processReactionsHandler.ts:85-97 | afterwards the comment's like total equals the likes naming it in the new table; no other row or key changes |
| Convergence.PostRewriteKeepsLookup | lambda/utilities/channelsClient.ts:7-23 | rewriting a post with the same id leaves every post lookup's candidates unchanged |
| Convergence.CommentRewriteKeepsLookup | lambda/utilities/reactionsClient.ts:78-94 | rewriting a comment with the same id leaves every comment lookup's candidates unchanged |
| Convergence.AfterCommentsIdempotent | lambda/processReactionsHandler.ts:39-56 | redelivering a comment event changes nothing more |
| Convergence.AfterPostLikesIdempotent | lambda/processReactionsHandler.ts:71-83 | redelivering a post-like event changes nothing more |
| Convergence.AfterCommentLikesIdempotent | lambda/processReactionsHandler.ts:85-97 | redelivering a comment-like event changes nothing more |
| Convergence.AfterReactionIdempotent | lambda/processReactionsHandler.ts:27-37 | processing any event twice equals processing it once |
| Convergence.AfterReactionCanonical | lambda/processReactionsHandler.ts:27-37 | a recount keeps the table canonical |
| CreateComment.CreateComment | lambda/createComment.ts:26-76 | no valid caller or no post is refused with no write; otherwise the put stores the comment under its key, the send queues a comment recount, and the answer is the item only when both succeed |
| CreateComment.PutKeepsCanonical | lambda/createComment.ts:41-53 | the comment is stored under its own comment key, so the table stays canonical |
| CreateComment.EventCountsItem | lambda/createComment.ts:58-75 | the queued event asks for a comment recount whose query matches the new row, so the count grows by exactly it |
| CreateComment.ScopeFromArguments | lambda/createComment.ts:41-53 | the scope comes from the request's channel, so a comment naming another channel is counted outside the found post's scope |
| LikePost.LikePost | lambda/likePost.ts:21-70 | no valid caller or no post is refused with no write; otherwise the put stores the like in the user's reaction partition, the send queues a like recount, and the answer is the item only when both succeed |
| LikePost.PutKeepsCanonical | lambda/likePost.ts:43-44 | the like is stored under a post sort key with a numeric timestamp, so the table stays canonical |
| LikePost.EventCountsItem | lambda/likePost.ts:55-64 | the queued event is a post-like recount whose query matches the new row |
| LikePost.RelikeKeepsCounts | lambda/likePost.ts:43-44 | liking again writes the same key, so no count gains a match |
| LikePost.LikeReplacesComment | lambda/likePost.ts:43-44 | a like and a comment by one user on one post share a key: the like replaces the comment, which leaves the lookup and the comment count |
| LikeComment.LikeComment | lambda/likeComment.ts:21-72 | as written: refusals as above; the stored like carries the id built with user and comment swapped |
| LikeComment.LikeCommentCorrected | lambda/likeComment.ts:39 | corrected: the same handler storing the id built in declared argument order |
| LikeComment.PutKeepsCanonical | lambda/likeComment.ts:44-45 | the like is stored under a post sort key with a numeric timestamp, so the table stays canonical |
| LikeComment.EventCountsItem | lambda/likeComment.ts:56-66 | the queued event is a comment-like recount naming the comment, whose query matches the new row |
| LikeComment.StoredIdNamesComment | lambda/likeComment.ts:39 | the stored id names the comment where the user belongs; the intended id names the user |
| LikeComment.LikesOnOnePostShareKey | lambda/likeComment.ts:44-45 | likes by one user on any comments of a post, and on the post itself, all share one key |
| UnlikePost.UnlikePost | lambda/unlikePost.ts:13-45 | answers null, enqueues nothing, and leaves the table as the as-written removal gives |
| UnlikePost.UnlikePostCorrected | lambda/unlikePost.ts:38 | corrected: answers null, enqueues nothing, and deletes the like under the key its lookup found |
| UnlikePost.UnlikeRemovesNothing | lambda/unlikePost.ts:38 | as written, unliking never changes a canonical table |
| UnlikePost.LikeKeepsPostLookup | lambda/unlikePost.ts:28 | storing a like at a fresh key does not change which post a lookup finds |
| UnlikePost.UnlikeAfterLike | lambda/unlikePost.ts:13-45 | like then corrected unlike restores the table exactly; like then unlike as written leaves the like |
| UnlikePost.CorrectedUnlikeRemovesLike | lambda/unlikePost.ts:38 | corrected, exactly the found like goes, it leaves the lookup, and the table stays canonical |
| UnlikeComment.UnlikeComment | lambda/unlikeComment.ts:12-49 | answers null, enqueues nothing, and leaves the table as the as-written removal gives |
| UnlikeComment.UnlikeCommentCorrected | lambda/unlikeComment.ts:42 | corrected: deletes the like under the key its lookup found |
| UnlikeComment.UnlikeRemovesNothing | lambda/unlikeComment.ts:42 | as written, unliking a comment never changes a canonical table |
| UnlikeComment.SwappedIdMissed | lambda/unlikeComment.ts:27-33 | the id the unlike looks up equals the stored swapped id exactly when comment id and user coincide, and always equals the intended id |
| UnlikeComment.LikeKeepsCommentLookup | lambda/unlikeComment.ts:27-33 | storing a like at a fresh key does not change which comment a lookup finds |
| UnlikeComment.UnlikeAfterLike | lambda/unlikeComment.ts:12-49 | with both handlers corrected, like then unlike restores the table; with the like as written, even the corrected unlike leaves it |
| DeleteComment.DeleteComment | lambda/deleteComment.ts:11-33 | answers null, enqueues nothing, and removes the found comment's key when a user is signed in |
| DeleteComment.AnyCallerDeletes | lambda/deleteComment.ts:11-33 | any two signed-in callers deleting the same comment id have the same effect |
| DeleteComment.DeleteRemovesComment | lambda/deleteComment.ts:26 | exactly the found comment's row goes, it leaves the lookup, and the table stays canonical |
| DeleteComment.LikesOutliveComment | lambda/deleteComment.ts:26 | every like naming the deleted comment stays stored unchanged |
| UpdatePost.UpdatePost | lambda/updatePost.ts:19-72 | the table becomes the edit's outcome, and the answer is the edit exactly when the store applied it, otherwise null |
| UpdatePost.EditExpression | lambda/updatePost.ts:52-64 | the loop builds the three assignments for channel, title and content |
| UpdatePost.EditAlwaysRefused | lambda/updatePost.ts:37-51 | as written the unused `#author` and `:author` make every edit refused, so the table never changes |
| UpdatePost.CorrectedEditApplies | lambda/updatePost.ts:52-71 | without them, the found post takes the edit's channel, title and content under its old key, and nothing else changes |
| UpdatePost.EditKeepsCanonical | lambda/updatePost.ts:37-41 | the corrected edit keeps the table canonical exactly when the channel is unchanged |
| UpdatePost.AnyCallerEdits | lambda/updatePost.ts:24-35 | any two signed-in callers making the same edit have the same effect |
| ProcessPost.ProcessPost | lambda/processPostHandler.ts:23-76 | when the post, its image and its metadata exist, the bucket gains the derivative of every width not in `failed`, whatever the other widths do; otherwise the bucket is unchanged. The post goes live only when, in addition, all six writes and the status put succeed |
| ProcessPost.SamePrefixAsUploadHandler | lambda/processPostHandler.ts:33-34 | for a '/'-free image path, the derivatives go to the same folder the upload handler uses |
| ProcessPost.GoesLiveAfterDerivatives | lambda/processPostHandler.ts:52-72 | if the table changed, the post existed with its image, every derivative is stored, and the post was set live under its key, whatever the status before |
| ProcessPost.RowsAfterCanonical | lambda/processPostHandler.ts:64-72 | the status write keeps the table canonical |
| ProcessPost.ImageNamedLikeDerivative | lambda/processPostHandler.ts:105 | an image named `240.jpg` is the very key of its own 240-wide derivative |
| ProcessPost.RedeliveryChangesNothing | lambda/processPostHandler.ts:23-76 | after a fully successful message, redelivering it changes neither table nor bucket |
| ProcessImageHandler.GetExtension | lambda/processImageHandler.ts:99-105 | no extension exactly when the last '.' is the first character; otherwise a '.'-free suffix of the key, the whole key when there is no '.' |
| ProcessImageHandler.NoDotRefused | lambda/processImageHandler.ts:17-30 | a key without a '.' is never processed |
| ProcessImageHandler.OriginalAccepted | lambda/processImageHandler.ts:17-30 | any key ending `original.<ext>` with a non-empty extension is processed |
| ProcessImageHandler.AcceptedIsOriginal | lambda/processImageHandler.ts:17-30 | every processed key ends in `original.` and its non-empty extension |
| ProcessImageHandler.KeyPrefix | lambda/processImageHandler.ts:32 | the folder is the key up to and including its last '/', empty when there is none |
| ProcessImageHandler.Derivative | lambda/processImageHandler.ts:74-97 | the body is resized exactly when the source is known wider than the target, and then to that width only |
| ProcessImageHandler.NotOwnSource | lambda/processImageHandler.ts:82 | a resized body never equals its source |
| ProcessImageHandler.SaveImages | lambda/processImageHandler.ts:50-60 | the bucket becomes the source's derivatives written for each width not in `failed` |
| ProcessImageHandler.ProcessImage | lambda/processImageHandler.ts:14-64 | a refused key, a missing object or undecodable metadata leaves the bucket; otherwise the derivatives are written next to the source |
| ProcessImageHandler.DerivativeKeyInjective | lambda/processImageHandler.ts:93 | distinct widths write distinct keys |
| ProcessImageHandler.DerivativeNotOriginal | lambda/processImageHandler.ts:93 | a derivative has extension `jpg` and never triggers processing again |
| ProcessImageHandler.SavedAt | lambda/processImageHandler.ts:50-60 | each width not in `failed` holds its derivative afterwards |
| ProcessImageHandler.SavedElsewhere | lambda/processImageHandler.ts:50-60 | every key that is no derivative key is left as it was |
| ProcessImageHandler.SavedWhenPresent | lambda/processImageHandler.ts:50-60 | rewriting derivatives already in place changes nothing |
| ProcessImageHandler.ProcessImageOutcome | lambda/processImageHandler.ts:14-64 | for a processed key, every successful width holds its derivative, the source is kept, and a second notification changes nothing |
| ProcessImage.Scaled | lambda/processImage.ts:53-67 | the body is resized exactly when the source is known taller than the target, and then to that height only |
| ProcessImage.ProcessImage | lambda/processImage.ts:17-87 | a refused key, missing object, undecodable metadata or failed thumbnail leaves the bucket; otherwise the thumbnail, then the full image if its write succeeds |
| ProcessImage.OutputNotOriginal | lambda/processImage.ts:53-67 | an output key not ending in `l` before `.jpg` never triggers processing |
| ProcessImage.OutputKeys | lambda/processImage.ts:53-67 | thumbnail and full image keys differ from each other and from the source and never trigger processing |
| ProcessImage.FullResizedOnlyWithThumbnail | lambda/processImage.ts:53-67 | whenever the full image is resized, so is the thumbnail |
| ProcessImage.ProcessImageOutcome | lambda/processImage.ts:17-87 | on success the source is kept, both outputs hold their scaled bodies, and a second notification changes nothing |
| Scenario.BothLikesCounted | lambda/likePost.ts:43-44 | after two users like a post, the post is still found and both likes, at distinct keys, match its like count |
| Scenario.OnlyLikeOfA | lambda/likePost.ts:39 | after both likes, only the first user's like carries the id that user's unlike looks up |
| Scenario.RecountAfterLikes | lambda/processReactionsHandler.ts:71-83 | the corrected recount after two likes writes 2 onto the post |
| Scenario.UnlikeThenRecount | lambda/unlikePost.ts:13-45 | the corrected unlike of one like followed by the recount leaves 1 on the post |
| Scenario.LikeLikeUnlike | lambda/processReactionsHandler.ts:121-141 | two likes and a recount give 2; an unlike and a recount give 1 with the corrected handlers; the unlike as written changes nothing |

## Left out

- ProcessReactions.ProcessComments, ProcessReactions.ProcessLikesForPost, ProcessReactions.ProcessLikesForComment: the counts they compute before failing are not returned.
  - ProcessComments catches its error, so the event is dropped.
  - The `processLikes` promise escapes its handler, so the model calls that outcome Failed.
- ReactionsClient.UpdateComment, ChannelsClient.UpdatePost: the error's text is not modelled. Only the fact that both fail before any store call is.
- UpdateExpression.UnusedStartNameRefused: `Accepted` is a structural stand-in for the store's rule that every declared placeholder must be used. That rule lives in DynamoDB, not in the repository.
- The six saves of an image run concurrently under `Promise.all`. They touch pairwise distinct keys, so the model writes them in sequence. Concurrency between handlers is not modelled.
- The image library is opaque. A body is an upload or a resize of another body. Decoding is not modelled; a decode failure is `meta == None`, and resize failures fold into `failed`, `smOk` and `lgOk`.
- An S3 read of a missing object is merged with one that returns an empty body.
- The bucket name and the S3 bucket parameters are not modelled; the model has one bucket.
- Messages reach the handlers already decoded. `JSON.parse` of a malformed message is not modelled.
- Store reads never fail in the model. Only writes and sends take an outcome parameter.
- The table's indexes also hold reaction rows. The model's `getPost` and `getComment` see only post and comment rows, and `getLike` ignores the index name.
- ChannelsClient.FirstPage, ChannelsClient.GetChannelPosts: the store cuts a query page at 1 MB of items read, before the filter applies. The model cuts it after `size` items, a parameter, so the listing's length is bounded by `size` rather than by item sizes.
- Store.Least, ChannelsClient.PostRowSortsFirst: the store promises no order among index items that share a partition key (the `posts` and comment indexes have a partition key only). The model assumes `Items[0]` is the least matching key (`Store.Least`). `ChannelsClient.PostRowSortsFirst` holds only under that assumption.
- A row's table key attributes (`pk`, `sk`) are the map key, not fields of the row datatypes, and `channelUser` is not stored. The attribute lists the update builder walks (`StoredPostAttributes`, `StoredCommentAttributes`) do include them, so as-written and corrected updates are judged on the item as the index returns it.
- Strings are compared by `char` order, not UTF-16 code units.
- Numbers are rendered in decimal. Exponent rendering of values of 1e21 and above is not modelled.
- `updatePost` on a key with no row would create one (DynamoDB upsert). The model only updates a post that was found.
- Object attribute order follows the type's declaration order.
- The reactions table and the channels table are treated as one table; deployment binds only the channels table.
- `updatePost.ts` takes `getPost` from `lambda/utilities/getPost.ts`, treated here as the same lookup as the one in `channelsClient.ts`. The `getPrimaryKey` and `getSortKeyForPost` it imports do not exist (getPrimaryKey.ts and getSortKey.ts export `getChannelPrimaryKey` and `getPostSortKey`), so as written the key is never built, the store is never reached and the handler answers null. The model reads them as the post's own key, so that the update itself can be judged; the as-written outcome, null with the table unchanged, is the same either way.
- Timestamps are inputs, as Unix seconds, not read from a clock here.
- Deployment (the CDK stacks), the GraphQL dispatcher, and the handlers outside this core (`createPost`, `deletePost`, the listing resolvers) are not part of this model.

## Findings

| source | as written | input that shows it | evidently intended | confidence | as-written member | corrected member |
|---|---|---|---|---|---|---|
| lambda/likeComment.ts:39 | the like id is built with the user and the comment id swapped | comment `k` on post `p` in channel `c`, liked by user `u`: stores `LIKE:c:p:u:k`, while unlike looks up `LIKE:c:p:k:u` | the id in declared argument order, so that unlike finds it | high (not executed) | UnlikeComment.SwappedIdMissed | LikeComment.LikeCommentCorrected |
| lambda/processReactionsHandler.ts:88 | a comment-like event looks up the comment by the post id | a like on comment `k` of post `p` where no comment has id `p`: the comment is not found | look up by the event's comment id | high (not executed) | ProcessReactions.CommentLookupByPostIdMisses | ProcessReactions.ProcessLikesForCommentCorrected |
| lambda/utilities/channelsClient.ts:54-62 | the attribute name and value maps are never initialised, so the first assignment throws | any post: `postId` is skipped and the value for `channelId` is written into an undefined map | initialised maps, and the item's `pk` and `sk` skipped, since the store refuses an update of a key attribute: with only the maps fixed, the item read back from the `posts` index would still assign them (ChannelsClient.InitialisedStillSetsTableKey) | high (not executed) | ChannelsClient.UpdatePost | ChannelsClient.UpdatePostCorrected |
| lambda/utilities/reactionsClient.ts:118-126 | the same uninitialised maps in `updateComment` | any comment, failing at `channelId` | initialised maps, and `pk` and `sk` skipped (ReactionsClient.InitialisedStillSetsTableKey) | high (not executed) | ReactionsClient.UpdateComment | ReactionsClient.UpdateCommentCorrected |
| lambda/processReactionsHandler.ts:27-37 | because of the two faults above, no recount ever writes a total | a comment event for an existing post: dropped with no write | counts written back, through the updates above with both their faults corrected, and convergent | high (not executed) | ProcessReactions.ProcessReaction | ProcessReactions.ProcessReactionCorrected |
| lambda/utilities/reactionsClient.ts:167 | `deleteLike` keys on `like.postTimestamp`, which stored likes lack, so the sort key renders `undefined` | user `u` likes post `p`; unlike deletes `POST#undefined#p` and the like at `POST#<t>#p` stays | delete the key the lookup found | high (not executed) | UnlikePost.UnlikeRemovesNothing | UnlikePost.CorrectedUnlikeRemovesLike |
| lambda/updatePost.ts:43-48 | `#author` and `:author` are declared but unused in the update expression, which the store refuses; before that, the key helpers imported at updatePost.ts:5-6 do not exist, so the calls at lines 40-41 already fail and the store is never reached | any edit by any user | import the existing key helpers and declare only the placeholders the expression uses | medium (not executed; relies on the store's validation) | UpdatePost.EditAlwaysRefused | UpdatePost.CorrectedEditApplies |
