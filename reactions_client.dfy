/** The counting queries, lookups, comment update and deletes of lambda/utilities/reactionsClient.ts. */
module ReactionsClient {
  import opened Wrappers
  import opened Types
  import opened Store
  import PrimaryKey
  import SortKey
  import Text
  import UpdateExpression

  /** The index every counting query reads. */
  const ReactionsByPost: string := "reactionsByPost"

  /**
   * A counting query: the index, the `channelPost` key condition, the
   * filter on `reactionType` and optionally `commentId`, and the start key.
   */
  datatype CountQuery = CountQuery(
    indexName: string,
    channelPost: string,
    reactionType: ReactionType,
    commentId: Option<string>,
    exclusiveStartKey: Option<nat>)

  /** `getPostCommentsCount`: comment rows under the post. */
  function PostCommentsCount(channelId: string, postId: string, lastEvaluatedKey: Option<nat>): (q: CountQuery)
    ensures q.exclusiveStartKey == lastEvaluatedKey
    ensures forall row :: Matches(row, q) <==>
              row.CommentRow? && row.channelPost == PrimaryKey.ChannelPostKey(channelId, postId)
  {
    CountQuery(ReactionsByPost, PrimaryKey.ChannelPostKey(channelId, postId), CommentReaction, None, lastEvaluatedKey)
  }

  /** `getPostLikesCount`: like rows under the post, with no filter on `commentId`. */
  function PostLikesCount(channelId: string, postId: string, lastEvaluatedKey: Option<nat>): (q: CountQuery)
    ensures q.exclusiveStartKey == lastEvaluatedKey
    ensures forall row :: Matches(row, q) <==>
              row.LikeRow? && row.channelPost == PrimaryKey.ChannelPostKey(channelId, postId)
  {
    CountQuery(ReactionsByPost, PrimaryKey.ChannelPostKey(channelId, postId), LikeReaction, None, lastEvaluatedKey)
  }

  /** `getCommentLikesCount`: like rows under the post that name the comment. */
  function CommentLikesCount(channelId: string, postId: string, commentId: string, lastEvaluatedKey: Option<nat>): (q: CountQuery)
    ensures q.exclusiveStartKey == lastEvaluatedKey
    ensures forall row :: Matches(row, q) <==>
              row.LikeRow? && row.channelPost == PrimaryKey.ChannelPostKey(channelId, postId)
              && row.commentId == Some(commentId)
  {
    CountQuery(ReactionsByPost, PrimaryKey.ChannelPostKey(channelId, postId), LikeReaction, Some(commentId), lastEvaluatedKey)
  }

  /** The `channelPost` attribute of a row; post rows have none, so the index does not hold them. */
  function ChannelPostOf(row: Row): Option<string> {
    match row
    case PostRow(_) => None
    case CommentRow(_, _, cp, _) => Some(cp)
    case LikeRow(_, _, _, _, _, _, _, cp, _) => Some(cp)
  }

  /** A row the query's key condition and filter both accept. */
  predicate Matches(row: Row, q: CountQuery) {
    ChannelPostOf(row) == Some(q.channelPost)
    && ReactionTypeOf(row) == Some(q.reactionType)
    && (q.commentId.Some? ==> CommentIdOf(row) == q.commentId)
  }

  /** The keys of every row the query counts, across all its pages. */
  function Matching(rows: map<Key, Row>, q: CountQuery): set<Key> {
    set k | k in rows && Matches(rows[k], q)
  }

  /** One round trip of a counting query: the page the store returns. */
  function RunCountQuery(rows: map<Key, Row>, q: CountQuery, size: PageSize): Page {
    Paged(|Matching(rows, q)|, size, q.exclusiveStartKey)
  }

  /**
   * The comment-like filter only narrows the post-like filter, so a comment's
   * like count never exceeds its post's.
   */
  lemma CommentLikesWithinPostLikes(rows: map<Key, Row>, c: string, p: string, commentId: string, t: Option<nat>, t': Option<nat>)
    ensures Matching(rows, CommentLikesCount(c, p, commentId, t)) <= Matching(rows, PostLikesCount(c, p, t'))
    ensures |Matching(rows, CommentLikesCount(c, p, commentId, t))| <= |Matching(rows, PostLikesCount(c, p, t'))|
  {
    var sub, sup := Matching(rows, CommentLikesCount(c, p, commentId, t)), Matching(rows, PostLikesCount(c, p, t'));
    assert sub <= sup;
    SubsetCard(sub, sup);
  }

  /** A subset is no larger than its superset. */
  lemma {:induction false} SubsetCard(a: set<Key>, b: set<Key>)
    requires a <= b
    ensures |a| <= |b|
    decreases |a|
  {
    if a != {} {
      var x :| x in a;
      SubsetCard(a - {x}, b - {x});
    }
  }

  /** A like on one of the post's comments is counted among the post's own likes. */
  lemma PostLikesIncludeCommentLikes(rows: map<Key, Row>, c: string, p: string, k: Key)
    requires k in rows && rows[k].LikeRow? && rows[k].commentId.Some?
    requires rows[k].channelPost == PrimaryKey.ChannelPostKey(c, p)
    ensures k in Matching(rows, PostLikesCount(c, p, None))
  {
  }

  /** A single like on a comment: the post's like count is 1 although no one liked the post. */
  lemma PostLikeCountExample()
    ensures var like := LikeRow("c", "p", "LIKE:c:p:k:u", Some("k"), "u", 7, CommentLive,
                                PrimaryKey.ChannelPostKey("c", "p"), SortKey.LikeSortKey(7));
            var rows := map[Key("REACTION#c#u", "POST#1#p") := like];
            |Matching(rows, PostLikesCount("c", "p", None))| == 1
  {
    var like := LikeRow("c", "p", "LIKE:c:p:k:u", Some("k"), "u", 7, CommentLive,
                        PrimaryKey.ChannelPostKey("c", "p"), SortKey.LikeSortKey(7));
    var k := Key("REACTION#c#u", "POST#1#p");
    var rows := map[k := like];
    assert Matching(rows, PostLikesCount("c", "p", None)) == {k};
  }

  /**
   * Putting a row changes a count's matches at the written key only: a
   * matching row adds that key, once, and any other row drops it.
   */
  lemma PutMatching(rows: map<Key, Row>, k: Key, row: Row, q: CountQuery)
    ensures Matches(row, q) ==> Matching(rows[k := row], q) == Matching(rows, q) - {k} + {k}
    ensures Matches(row, q) ==> |Matching(rows[k := row], q)| == |Matching(rows, q) - {k}| + 1
    ensures !Matches(row, q) ==> Matching(rows[k := row], q) == Matching(rows, q) - {k}
  {
  }

  /** The keys of the comment rows whose `commentId` matches. */
  function CommentKeys(rows: map<Key, Row>, commentId: string): set<Key> {
    set k | k in rows && rows[k].CommentRow? && rows[k].comment.commentId == commentId
  }

  /** `getComment`: the first comment row with that `commentId`, or None. */
  function GetComment(rows: map<Key, Row>, commentId: string): (r: Option<(Key, Row)>)
    ensures r.None? <==> CommentKeys(rows, commentId) == {}
    ensures r.Some? ==> IsLeast(CommentKeys(rows, commentId), r.value.0)
                        && r.value.0 in rows && rows[r.value.0] == r.value.1
                        && r.value.1.CommentRow? && r.value.1.comment.commentId == commentId
  {
    var s := CommentKeys(rows, commentId);
    if s == {} then None else var k := Least(s); Some((k, rows[k]))
  }

  /** The keys of the like rows whose `likeId` matches. */
  function LikeKeys(rows: map<Key, Row>, likeId: string): set<Key> {
    set k | k in rows && rows[k].LikeRow? && rows[k].likeId == likeId
  }

  /** `getLike`: the first like row with that `likeId`, or None. */
  function GetLike(rows: map<Key, Row>, likeId: string): (r: Option<(Key, Row)>)
    ensures r.None? <==> LikeKeys(rows, likeId) == {}
    ensures r.Some? ==> IsLeast(LikeKeys(rows, likeId), r.value.0)
                        && r.value.0 in rows && rows[r.value.0] == r.value.1
                        && r.value.1.LikeRow? && r.value.1.likeId == likeId
  {
    var s := LikeKeys(rows, likeId);
    if s == {} then None else var k := Least(s); Some((k, rows[k]))
  }

  /** The attribute names of a comment, in the order the record declares them. */
  const CommentAttributes: seq<string> := [
    "channelId", "postId", "commentId", "author", "comment", "timestamp",
    "totalLikes", "topLikes", "postTimestamp"]

  /**
   * The attributes of a comment item as a lookup on the comment index
   * returns it: the record's own fields, then the `status`, `pk`, `sk`,
   * `channelPost`, `reactionTimestamp` and `reactionType` its put added.
   */
  const StoredCommentAttributes: seq<string> :=
    CommentAttributes + ["status", "pk", "sk", "channelPost", "reactionTimestamp", "reactionType"]

  /** The key a comment is stored, updated and deleted under. */
  function CommentKey(c: Comment): Key {
    Key(PrimaryKey.ReactionPrimaryKey(c.channelId, c.author), SortKey.PostSortKey(c.postId, c.postTimestamp))
  }

  /**
   * `updateComment` as written, on a comment item read back from the table:
   * the maps are never initialised, so the builder fails at `channelId`, the
   * first attribute, and nothing is updated.
   */
  method UpdateComment(comment: Comment) returns (r: Result<Key, string>)
    ensures r.Err?
  {
    var built := UpdateExpression.Build(StoredCommentAttributes, "commentId", None);
    assert UpdateExpression.Clause("channelId") in UpdateExpression.Clauses(StoredCommentAttributes, "commentId") by {
      UpdateExpression.ClausesCover(StoredCommentAttributes, "commentId", 0);
    }
    if built.Err? {
      return Err(built.error);
    }
    return Ok(CommentKey(comment));
  }

  /** Initialising the maps alone would still assign the item's `pk` and `sk`, which the store refuses. */
  lemma InitialisedStillSetsTableKey()
    ensures UpdateExpression.SetsTableKey(StoredCommentAttributes, "commentId")
  {
    assert StoredCommentAttributes[10] == "pk";
    UpdateExpression.StoredItemSetsTableKey(StoredCommentAttributes, "commentId", 10);
  }

  /**
   * Corrected `updateComment`: both maps initialised and the table's key
   * attributes skipped. No table key is assigned, every other attribute but
   * `commentId` is, and the comment's own key then holds `row`.
   */
  method UpdateCommentCorrected(db: Backend, row: Row) returns (params: UpdateExpression.Params)
    requires row.CommentRow?
    modifies db
    ensures var attributes := UpdateExpression.Without(StoredCommentAttributes, UpdateExpression.TableKeyAttributes);
            && params.expression == UpdateExpression.Expression(attributes, "commentId")
            && !UpdateExpression.SetsTableKey(attributes, "commentId")
    ensures db.rows == old(db.rows)[CommentKey(row.comment) := row]
    ensures db.queue == old(db.queue) && db.objects == old(db.objects)
  {
    var attributes := UpdateExpression.Without(StoredCommentAttributes, UpdateExpression.TableKeyAttributes);
    var built := UpdateExpression.Build(attributes, "commentId", Some(UpdateExpression.Maps(map[], map[])));
    params := built.value;
    UpdateExpression.WithoutTableKeys(StoredCommentAttributes, "commentId");
    db.rows := db.rows[CommentKey(row.comment) := row];
  }

  /** `deleteComment`: removes whatever row is stored under the comment's key. */
  method DeleteComment(db: Backend, comment: Comment)
    modifies db
    ensures db.rows == old(db.rows) - {CommentKey(comment)}
    ensures db.queue == old(db.queue) && db.objects == old(db.objects)
  {
    db.rows := db.rows - {CommentKey(comment)};
  }

  /**
   * The key `deleteLike` builds. A stored like row has no `postTimestamp`,
   * so its place in the sort key renders as `undefined`.
   */
  function DeleteLikeKey(like: Row): (k: Key)
    requires like.LikeRow?
    ensures k.pk == PrimaryKey.ReactionPrimaryKey(like.channelId, like.author)
    ensures k.sk == "POST#undefined#" + like.postId
    ensures forall p: string, t: nat :: k.sk != SortKey.PostSortKey(p, t)
  {
    var k := Key(PrimaryKey.ReactionPrimaryKey(like.channelId, like.author), "POST#undefined#" + like.postId);
    assert forall p: string, t: nat :: k.sk != SortKey.PostSortKey(p, t) by {
      forall p: string, t: nat
        ensures k.sk != SortKey.PostSortKey(p, t)
      {
        assert k.sk[5] == 'u';
        assert SortKey.PostSortKey(p, t)[5] == Text.Decimal(t)[0];
      }
    }
    k
  }

  /** `deleteLike`: removes whatever row is stored under the key above. */
  method DeleteLike(db: Backend, like: Row)
    requires like.LikeRow?
    modifies db
    ensures db.rows == old(db.rows) - {DeleteLikeKey(like)}
    ensures db.queue == old(db.queue) && db.objects == old(db.objects)
  {
    db.rows := db.rows - {DeleteLikeKey(like)};
  }

  /** The key `deleteLike` builds is never a post sort key with a numeric timestamp. */
  lemma DeleteLikeKeyNeverNumeric(like: Row, postId: string, t: nat)
    requires like.LikeRow?
    ensures DeleteLikeKey(like).sk != SortKey.PostSortKey(postId, t)
  {
  }

  /** The corrected delete: remove the like row under the key the lookup found it at. */
  method DeleteLikeAt(db: Backend, k: Key)
    modifies db
    ensures db.rows == old(db.rows) - {k}
    ensures db.queue == old(db.queue) && db.objects == old(db.objects)
  {
    db.rows := db.rows - {k};
  }
}
