/**
 * The reaction aggregator of lambda/processReactionsHandler.ts: recount a
 * scope by following the page chain of a counting query, then write the
 * count back onto the post or comment.
 */
module ProcessReactions {
  import opened Wrappers
  import opened Types
  import opened Store
  import ChannelsClient
  import ReactionsClient
  import Invariants

  /** What a recount covers: a post's comments, a post's likes, or one comment's likes. */
  datatype Scope =
    | PostComments(channelId: string, postId: string)
    | PostLikes(channelId: string, postId: string)
    | CommentLikes(channelId: string, postId: string, commentId: string)

  /** The counting query a recount of the scope issues, resumed at `lastEvaluatedKey`. */
  function QueryFor(scope: Scope, lastEvaluatedKey: Option<nat>): ReactionsClient.CountQuery {
    match scope
    case PostComments(c, p) => ReactionsClient.PostCommentsCount(c, p, lastEvaluatedKey)
    case PostLikes(c, p) => ReactionsClient.PostLikesCount(c, p, lastEvaluatedKey)
    case CommentLikes(c, p, k) => ReactionsClient.CommentLikesCount(c, p, k, lastEvaluatedKey)
  }

  /** The rows of the scope, whatever page a query resumes at. */
  function ScopeRows(rows: map<Key, Row>, scope: Scope): set<Key> {
    ReactionsClient.Matching(rows, QueryFor(scope, None))
  }

  /** The start key does not change which rows a query matches. */
  lemma MatchingIgnoresStart(rows: map<Key, Row>, scope: Scope, t: Option<nat>)
    ensures ReactionsClient.Matching(rows, QueryFor(scope, t)) == ScopeRows(rows, scope)
  {
  }

  /** How many matches remain after a start key. */
  function Remaining(total: nat, start: Option<nat>): nat {
    if start.GetOr(0) <= total then total - start.GetOr(0) else 0
  }

  /**
   * The three recursive counters: fetch a page, take its `Count` (0 when
   * absent), and add the count of the rest when the page carries a
   * continuation key. The result is exactly the number of matches after the
   * start key.
   */
  function CountFrom(rows: map<Key, Row>, size: PageSize, scope: Scope, lastEvaluatedKey: Option<nat>): (n: nat)
    ensures n == Remaining(|ScopeRows(rows, scope)|, lastEvaluatedKey)
    decreases Remaining(|ScopeRows(rows, scope)|, lastEvaluatedKey)
  {
    MatchingIgnoresStart(rows, scope, lastEvaluatedKey);
    var data := ReactionsClient.RunCountQuery(rows, QueryFor(scope, lastEvaluatedKey), size);
    var count := data.count.GetOr(0);
    if data.lastEvaluatedKey.Some? then count + CountFrom(rows, size, scope, data.lastEvaluatedKey)
    else count
  }

  /** `getCommentsCountForPost`: the number of comment rows under the post. */
  function CommentsCountForPost(rows: map<Key, Row>, size: PageSize, channelId: string, postId: string): (n: nat)
    ensures n == |ReactionsClient.Matching(rows, ReactionsClient.PostCommentsCount(channelId, postId, None))|
  {
    CountFrom(rows, size, PostComments(channelId, postId), None)
  }

  /** `getLikesCountForPost`: the number of like rows under the post, comment likes included. */
  function LikesCountForPost(rows: map<Key, Row>, size: PageSize, channelId: string, postId: string): (n: nat)
    ensures n == |ReactionsClient.Matching(rows, ReactionsClient.PostLikesCount(channelId, postId, None))|
  {
    CountFrom(rows, size, PostLikes(channelId, postId), None)
  }

  /** `getLikesCountForComment`: the number of like rows under the post naming the comment. */
  function LikesCountForComment(rows: map<Key, Row>, size: PageSize, channelId: string, postId: string, commentId: string): (n: nat)
    ensures n == |ReactionsClient.Matching(rows, ReactionsClient.CommentLikesCount(channelId, postId, commentId, None))|
  {
    CountFrom(rows, size, CommentLikes(channelId, postId, commentId), None)
  }

  /** The pages a count visits, in order. */
  function PagesFrom(rows: map<Key, Row>, size: PageSize, scope: Scope, lastEvaluatedKey: Option<nat>): (ps: seq<Page>)
    ensures |ps| > 0
    ensures forall i :: 0 <= i < |ps| - 1 ==> ps[i].lastEvaluatedKey.Some?
    ensures ps[|ps| - 1].lastEvaluatedKey.None?
    decreases Remaining(|ScopeRows(rows, scope)|, lastEvaluatedKey)
  {
    MatchingIgnoresStart(rows, scope, lastEvaluatedKey);
    var data := ReactionsClient.RunCountQuery(rows, QueryFor(scope, lastEvaluatedKey), size);
    if data.lastEvaluatedKey.Some? then [data] + PagesFrom(rows, size, scope, data.lastEvaluatedKey)
    else [data]
  }

  /** The sum of the pages' counts, an absent count adding nothing. */
  function SumCounts(ps: seq<Page>): nat
    decreases |ps|
  {
    if ps == [] then 0 else ps[0].count.GetOr(0) + SumCounts(ps[1..])
  }

  /** A count is the sum of the page counts along the chain it follows. */
  lemma {:induction false} CountIsSumOfPages(rows: map<Key, Row>, size: PageSize, scope: Scope, lastEvaluatedKey: Option<nat>)
    ensures CountFrom(rows, size, scope, lastEvaluatedKey) == SumCounts(PagesFrom(rows, size, scope, lastEvaluatedKey))
    decreases Remaining(|ScopeRows(rows, scope)|, lastEvaluatedKey)
  {
    MatchingIgnoresStart(rows, scope, lastEvaluatedKey);
    var data := ReactionsClient.RunCountQuery(rows, QueryFor(scope, lastEvaluatedKey), size);
    if data.lastEvaluatedKey.Some? {
      CountIsSumOfPages(rows, size, scope, data.lastEvaluatedKey);
      var ps := PagesFrom(rows, size, scope, lastEvaluatedKey);
      assert ps[1..] == PagesFrom(rows, size, scope, data.lastEvaluatedKey);
    }
  }

  /** Pages needed to cover `r` remaining matches `size` at a time: one even when none remain. */
  function PagesNeeded(r: nat, size: PageSize): (n: nat)
    ensures n >= 1
    ensures r > 0 ==> (n - 1) * size < r <= n * size
    decreases r
  {
    if r <= size then 1 else 1 + PagesNeeded(r - size, size)
  }

  /** The chain has exactly as many pages as the remaining matches need. */
  lemma {:induction false} PageChainLength(rows: map<Key, Row>, size: PageSize, scope: Scope, lastEvaluatedKey: Option<nat>)
    ensures |PagesFrom(rows, size, scope, lastEvaluatedKey)| == PagesNeeded(Remaining(|ScopeRows(rows, scope)|, lastEvaluatedKey), size)
    decreases Remaining(|ScopeRows(rows, scope)|, lastEvaluatedKey)
  {
    MatchingIgnoresStart(rows, scope, lastEvaluatedKey);
    var data := ReactionsClient.RunCountQuery(rows, QueryFor(scope, lastEvaluatedKey), size);
    if data.lastEvaluatedKey.Some? {
      PageChainLength(rows, size, scope, data.lastEvaluatedKey);
    }
  }

  /** 237 matching rows read 50 at a time: five pages, and the count is 237. */
  lemma PaginationExample(rows: map<Key, Row>, scope: Scope)
    requires |ScopeRows(rows, scope)| == 237
    ensures |PagesFrom(rows, 50, scope, None)| == 5
    ensures CountFrom(rows, 50, scope, None) == 237
  {
    PageChainLength(rows, 50, scope, None);
    assert PagesNeeded(37, 50) == 1;
    assert PagesNeeded(87, 50) == 2;
    assert PagesNeeded(137, 50) == 3;
    assert PagesNeeded(187, 50) == 4;
  }

  /** Why an event made no write. */
  datatype Reason = PostNotFound | CommentNotFound | UpdateRejected

  /**
   * What handling one event came to: ignored, dropped after logging (the
   * error was caught), failed (the error escaped the handler), or written
   * under a key.
   */
  datatype Outcome = Ignored | Dropped(reason: Reason) | Failed(reason: Reason) | Written(key: Key)

  /** JavaScript truthiness of an optional string. */
  predicate Truthy(k: Option<string>) {
    k.Some? && k.value != ""
  }

  /**
   * `processComments` as written: recount, look the post up, and update it.
   * The update always fails, so the event is dropped either way; the reason
   * says whether the post was found.
   */
  method ProcessComments(db: Backend, size: PageSize, request: ReactionRequest) returns (o: Outcome)
    ensures o == Dropped(if ChannelsClient.GetPost(db.rows, request.postId).None? then PostNotFound else UpdateRejected)
  {
    var commentCount := CommentsCountForPost(db.rows, size, request.channelId, request.postId);
    var post := ChannelsClient.GetPost(db.rows, request.postId);
    if post.None? {
      return Dropped(PostNotFound);
    }
    var _ := ChannelsClient.UpdatePost(post.value.1.(totalComments := commentCount));
    return Dropped(UpdateRejected);
  }

  /** `processLikesForPost` as written: like `processComments`, but the failure escapes. */
  method ProcessLikesForPost(db: Backend, size: PageSize, request: ReactionRequest) returns (o: Outcome)
    ensures o == Failed(if ChannelsClient.GetPost(db.rows, request.postId).None? then PostNotFound else UpdateRejected)
  {
    var likes := LikesCountForPost(db.rows, size, request.channelId, request.postId);
    var post := ChannelsClient.GetPost(db.rows, request.postId);
    if post.None? {
      return Failed(PostNotFound);
    }
    var _ := ChannelsClient.UpdatePost(post.value.1.(totalLikes := likes));
    return Failed(UpdateRejected);
  }

  /**
   * `processLikesForComment` as written: the comment is looked up by the
   * event's post id, not its comment id, and the update always fails.
   */
  method ProcessLikesForComment(db: Backend, size: PageSize, request: ReactionRequest) returns (o: Outcome)
    requires request.commentId.Some?
    ensures o == Failed(if ReactionsClient.GetComment(db.rows, request.postId).None? then CommentNotFound else UpdateRejected)
  {
    var likes := LikesCountForComment(db.rows, size, request.channelId, request.postId, request.commentId.value);
    var comment := ReactionsClient.GetComment(db.rows, request.postId);
    if comment.None? {
      return Failed(CommentNotFound);
    }
    var _ := ReactionsClient.UpdateComment(comment.value.1.comment.(totalLikes := likes));
    return Failed(UpdateRejected);
  }

  /** `processLikes`: a truthy comment id selects the comment path, otherwise the post path. */
  method ProcessLikes(db: Backend, size: PageSize, request: ReactionRequest) returns (o: Outcome)
    ensures Truthy(request.commentId) ==>
      o == Failed(if ReactionsClient.GetComment(db.rows, request.postId).None? then CommentNotFound else UpdateRejected)
    ensures !Truthy(request.commentId) ==>
      o == Failed(if ChannelsClient.GetPost(db.rows, request.postId).None? then PostNotFound else UpdateRejected)
  {
    if Truthy(request.commentId) {
      o := ProcessLikesForComment(db, size, request);
    } else {
      o := ProcessLikesForPost(db, size, request);
    }
  }

  /**
   * `processReaction` as written: dispatch on the wire reaction type. No
   * path writes: comment events are dropped, like events fail, and any
   * other type is ignored.
   */
  method ProcessReaction(db: Backend, size: PageSize, request: ReactionRequest) returns (o: Outcome)
    ensures request.reactionType == ReactionTypeName(CommentReaction) ==> o.Dropped?
    ensures request.reactionType == ReactionTypeName(LikeReaction) ==> o.Failed?
    ensures request.reactionType !in {ReactionTypeName(CommentReaction), ReactionTypeName(LikeReaction)} ==> o == Ignored
    ensures (o.Dropped? || o.Failed?) && o.reason == PostNotFound ==> ChannelsClient.GetPost(db.rows, request.postId).None?
  {
    if request.reactionType == ReactionTypeName(CommentReaction) {
      o := ProcessComments(db, size, request);
    } else if request.reactionType == ReactionTypeName(LikeReaction) {
      o := ProcessLikes(db, size, request);
    } else {
      o := Ignored;
    }
  }

  /**
   * Comment ids and post ids are distinct identifiers. When no comment's id
   * equals the post id, the comment-like path never finds its comment, even
   * though the comment the event names is stored.
   */
  lemma CommentLookupByPostIdMisses(rows: map<Key, Row>, request: ReactionRequest)
    requires request.commentId.Some?
    requires ReactionsClient.GetComment(rows, request.commentId.value).Some?
    requires forall k :: k in rows && rows[k].CommentRow? ==> rows[k].comment.commentId != request.postId
    ensures ReactionsClient.GetComment(rows, request.postId).None?
  {
  }

  /*
   * The aggregator as evidently intended: the same recounts and lookups, the
   * comment looked up by its own id, and updates whose maps are initialised,
   * so the write-back reaches the table.
   */

  /** The table after a corrected comment event: the post's `totalComments` is the recount. */
  function AfterComments(rows: map<Key, Row>, size: PageSize, channelId: string, postId: string): map<Key, Row> {
    match ChannelsClient.GetPost(rows, postId)
    case None => rows
    case Some((_, post)) =>
      var post' := post.(totalComments := CommentsCountForPost(rows, size, channelId, postId));
      rows[ChannelsClient.PostKey(post') := PostRow(post')]
  }

  /** The table after a corrected post-like event: the post's `totalLikes` is the recount. */
  function AfterPostLikes(rows: map<Key, Row>, size: PageSize, channelId: string, postId: string): map<Key, Row> {
    match ChannelsClient.GetPost(rows, postId)
    case None => rows
    case Some((_, post)) =>
      var post' := post.(totalLikes := LikesCountForPost(rows, size, channelId, postId));
      rows[ChannelsClient.PostKey(post') := PostRow(post')]
  }

  /** The table after a corrected comment-like event: the comment's `totalLikes` is the recount. */
  function AfterCommentLikes(rows: map<Key, Row>, size: PageSize, channelId: string, postId: string, commentId: string): map<Key, Row> {
    match ReactionsClient.GetComment(rows, commentId)
    case None => rows
    case Some((_, row)) =>
      var row' := row.(comment := row.comment.(totalLikes := LikesCountForComment(rows, size, channelId, postId, commentId)));
      rows[ReactionsClient.CommentKey(row'.comment) := row']
  }

  /** The table after a corrected event of any type. */
  function AfterReaction(rows: map<Key, Row>, size: PageSize, request: ReactionRequest): map<Key, Row> {
    if request.reactionType == ReactionTypeName(CommentReaction) then
      AfterComments(rows, size, request.channelId, request.postId)
    else if request.reactionType == ReactionTypeName(LikeReaction) then
      if Truthy(request.commentId) then
        AfterCommentLikes(rows, size, request.channelId, request.postId, request.commentId.value)
      else AfterPostLikes(rows, size, request.channelId, request.postId)
    else rows
  }

  /** Corrected `processComments`: writes the recount onto the post, or drops an orphaned event. */
  method ProcessCommentsCorrected(db: Backend, size: PageSize, request: ReactionRequest) returns (o: Outcome)
    modifies db
    ensures db.rows == AfterComments(old(db.rows), size, request.channelId, request.postId)
    ensures db.queue == old(db.queue) && db.objects == old(db.objects)
    ensures o.Dropped? <==> ChannelsClient.GetPost(old(db.rows), request.postId).None?
  {
    var commentCount := CommentsCountForPost(db.rows, size, request.channelId, request.postId);
    var post := ChannelsClient.GetPost(db.rows, request.postId);
    if post.None? {
      return Dropped(PostNotFound);
    }
    var updated := post.value.1.(totalComments := commentCount);
    var _ := ChannelsClient.UpdatePostCorrected(db, updated);
    return Written(ChannelsClient.PostKey(updated));
  }

  /** Corrected `processLikesForPost`: writes the recount onto the post. */
  method ProcessLikesForPostCorrected(db: Backend, size: PageSize, request: ReactionRequest) returns (o: Outcome)
    modifies db
    ensures db.rows == AfterPostLikes(old(db.rows), size, request.channelId, request.postId)
    ensures db.queue == old(db.queue) && db.objects == old(db.objects)
    ensures o.Failed? <==> ChannelsClient.GetPost(old(db.rows), request.postId).None?
  {
    var likes := LikesCountForPost(db.rows, size, request.channelId, request.postId);
    var post := ChannelsClient.GetPost(db.rows, request.postId);
    if post.None? {
      return Failed(PostNotFound);
    }
    var updated := post.value.1.(totalLikes := likes);
    var _ := ChannelsClient.UpdatePostCorrected(db, updated);
    return Written(ChannelsClient.PostKey(updated));
  }

  /** Corrected `processLikesForComment`: looks the comment up by its id and writes the recount onto it. */
  method ProcessLikesForCommentCorrected(db: Backend, size: PageSize, request: ReactionRequest) returns (o: Outcome)
    requires request.commentId.Some?
    modifies db
    ensures db.rows == AfterCommentLikes(old(db.rows), size, request.channelId, request.postId, request.commentId.value)
    ensures db.queue == old(db.queue) && db.objects == old(db.objects)
    ensures o.Failed? <==> ReactionsClient.GetComment(old(db.rows), request.commentId.value).None?
  {
    var commentId := request.commentId.value;
    var likes := LikesCountForComment(db.rows, size, request.channelId, request.postId, commentId);
    var found := ReactionsClient.GetComment(db.rows, commentId);
    if found.None? {
      return Failed(CommentNotFound);
    }
    var row := found.value.1;
    var updated := row.(comment := row.comment.(totalLikes := likes));
    var _ := ReactionsClient.UpdateCommentCorrected(db, updated);
    return Written(ReactionsClient.CommentKey(updated.comment));
  }

  /** Corrected `processReaction`: the same dispatch over the corrected paths. */
  method ProcessReactionCorrected(db: Backend, size: PageSize, request: ReactionRequest) returns (o: Outcome)
    modifies db
    ensures db.rows == AfterReaction(old(db.rows), size, request)
    ensures db.queue == old(db.queue) && db.objects == old(db.objects)
  {
    if request.reactionType == ReactionTypeName(CommentReaction) {
      o := ProcessCommentsCorrected(db, size, request);
    } else if request.reactionType == ReactionTypeName(LikeReaction) {
      if Truthy(request.commentId) {
        o := ProcessLikesForCommentCorrected(db, size, request);
      } else {
        o := ProcessLikesForPostCorrected(db, size, request);
      }
    } else {
      o := Ignored;
    }
  }
}
