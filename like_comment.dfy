/**
 * lambda/likeComment.ts: a signed-in user likes an existing comment. The
 * like row goes into the user's reaction partition under the commented
 * post's sort key, then a like event carrying the comment id is queued.
 */
module LikeComment {
  import opened Wrappers
  import opened Types
  import opened Store
  import PrimaryKey
  import SortKey
  import LikeId
  import ReactionsClient
  import Invariants
  import LikePost

  const InvalidUser: string := "Cannot like comment, invalid user"
  const InvalidComment: string := "Cannot like comment, invalid comment"

  /**
   * The like id as the handler builds it: the comment id is passed where
   * the user name goes and the user name where the comment id goes.
   */
  function StoredId(cm: Comment, commentId: string, username: string): string {
    LikeId.LikeId(cm.channelId, cm.postId, commentId, Some(username))
  }

  /** The like id with each argument in its declared position. */
  function IntendedId(cm: Comment, commentId: string, username: string): string {
    LikeId.LikeId(cm.channelId, cm.postId, username, Some(commentId))
  }

  /** The like row put for `username` at second `now` on comment `cm`, under like id `likeId`. */
  function Item(cm: Comment, commentId: string, username: string, now: nat, likeId: string): Row {
    LikeRow(cm.channelId, cm.postId, likeId, Some(commentId), username, now, CommentLive,
            PrimaryKey.ChannelPostKey(cm.channelId, cm.postId), SortKey.LikeSortKey(now))
  }

  /** The key it is put under: the user's reaction partition, at the commented post's sort key. */
  function ItemKey(cm: Comment, username: string): Key {
    Key(PrimaryKey.ReactionPrimaryKey(cm.channelId, username), SortKey.PostSortKey(cm.postId, cm.postTimestamp))
  }

  /** The event queued once the row is stored. */
  function Event(cm: Comment, commentId: string): ReactionRequest {
    ReactionRequest(cm.channelId, cm.postId, Some(commentId), ReactionTypeName(LikeReaction))
  }

  /**
   * The handler as written: caller and comment checks throw; then, in one
   * try block, the put of a row carrying the swapped id and the send.
   */
  method LikeComment(db: Backend, request: FieldRequest<string>, now: nat, putOk: bool, sendOk: bool)
    returns (r: Response<Row>)
    modifies db
    ensures var commentId := request.arguments;
            match Caller(request)
            case None =>
              r == Rejected(InvalidUser) && db.rows == old(db.rows) && db.queue == old(db.queue)
            case Some(u) =>
              match ReactionsClient.GetComment(old(db.rows), commentId)
              case None =>
                r == Rejected(InvalidComment) && db.rows == old(db.rows) && db.queue == old(db.queue)
              case Some((_, row)) =>
                var item := Item(row.comment, commentId, u, now, StoredId(row.comment, commentId, u));
                && db.rows == (if putOk then old(db.rows)[ItemKey(row.comment, u) := item] else old(db.rows))
                && db.queue == (if putOk && sendOk then old(db.queue) + [Event(row.comment, commentId)] else old(db.queue))
                && r == (if putOk && sendOk then Value(item) else NullResult)
    ensures db.objects == old(db.objects)
  {
    var commentId := request.arguments;
    var caller := Caller(request);
    if caller.None? {
      return Rejected(InvalidUser);
    }
    var u := caller.value;
    var found := ReactionsClient.GetComment(db.rows, commentId);
    if found.None? {
      return Rejected(InvalidComment);
    }
    var cm := found.value.1.comment;
    var item := Item(cm, commentId, u, now, StoredId(cm, commentId, u));
    if !putOk {
      return NullResult;
    }
    db.rows := db.rows[ItemKey(cm, u) := item];
    if !sendOk {
      return NullResult;
    }
    db.queue := db.queue + [Event(cm, commentId)];
    return Value(item);
  }

  /** The handler with the like id's arguments in their declared order; otherwise as above. */
  method LikeCommentCorrected(db: Backend, request: FieldRequest<string>, now: nat, putOk: bool, sendOk: bool)
    returns (r: Response<Row>)
    modifies db
    ensures var commentId := request.arguments;
            match Caller(request)
            case None =>
              r == Rejected(InvalidUser) && db.rows == old(db.rows) && db.queue == old(db.queue)
            case Some(u) =>
              match ReactionsClient.GetComment(old(db.rows), commentId)
              case None =>
                r == Rejected(InvalidComment) && db.rows == old(db.rows) && db.queue == old(db.queue)
              case Some((_, row)) =>
                var item := Item(row.comment, commentId, u, now, IntendedId(row.comment, commentId, u));
                && db.rows == (if putOk then old(db.rows)[ItemKey(row.comment, u) := item] else old(db.rows))
                && db.queue == (if putOk && sendOk then old(db.queue) + [Event(row.comment, commentId)] else old(db.queue))
                && r == (if putOk && sendOk then Value(item) else NullResult)
    ensures db.objects == old(db.objects)
  {
    var commentId := request.arguments;
    var caller := Caller(request);
    if caller.None? {
      return Rejected(InvalidUser);
    }
    var u := caller.value;
    var found := ReactionsClient.GetComment(db.rows, commentId);
    if found.None? {
      return Rejected(InvalidComment);
    }
    var cm := found.value.1.comment;
    var item := Item(cm, commentId, u, now, IntendedId(cm, commentId, u));
    if !putOk {
      return NullResult;
    }
    db.rows := db.rows[ItemKey(cm, u) := item];
    if !sendOk {
      return NullResult;
    }
    db.queue := db.queue + [Event(cm, commentId)];
    return Value(item);
  }

  /** Whatever its id, the like row sits where a canonical like row sits. */
  lemma PutKeepsCanonical(rows: map<Key, Row>, cm: Comment, commentId: string, u: string, now: nat, likeId: string)
    requires Invariants.Canonical(rows)
    ensures Invariants.Canonical(rows[ItemKey(cm, u) := Item(cm, commentId, u, now, likeId)])
  {
    assert ItemKey(cm, u).sk == SortKey.PostSortKey(cm.postId, cm.postTimestamp);
  }

  /**
   * The queued event asks for a comment-like recount whose query matches
   * the new row, which the post's like count matches as well.
   */
  lemma EventCountsItem(rows: map<Key, Row>, cm: Comment, commentId: string, u: string, now: nat, likeId: string, t: Option<nat>)
    ensures Event(cm, commentId).reactionType == ReactionTypeName(LikeReaction) && Event(cm, commentId).commentId == Some(commentId)
    ensures var q := ReactionsClient.CommentLikesCount(cm.channelId, cm.postId, commentId, t);
            var after := rows[ItemKey(cm, u) := Item(cm, commentId, u, now, likeId)];
            && ItemKey(cm, u) in ReactionsClient.Matching(after, q)
            && |ReactionsClient.Matching(after, q)| == |ReactionsClient.Matching(rows, q) - {ItemKey(cm, u)}| + 1
    ensures ItemKey(cm, u) in ReactionsClient.Matching(rows[ItemKey(cm, u) := Item(cm, commentId, u, now, likeId)],
                                                       ReactionsClient.PostLikesCount(cm.channelId, cm.postId, t))
  {
    var q := ReactionsClient.CommentLikesCount(cm.channelId, cm.postId, commentId, t);
    ReactionsClient.PutMatching(rows, ItemKey(cm, u), Item(cm, commentId, u, now, likeId), q);
  }

  /** The stored id's last field, which names the user in every other like id, holds the comment id. */
  lemma StoredIdNamesComment(cm: Comment, commentId: string, u: string)
    requires LikeId.ColonFree(commentId) && LikeId.ColonFree(u)
    ensures LikeId.LikeIdUser(StoredId(cm, commentId, u)) == commentId
    ensures LikeId.LikeIdUser(IntendedId(cm, commentId, u)) == u
  {
    LikeId.LikeIdNamesUser(cm.channelId, cm.postId, commentId, Some(u));
    LikeId.LikeIdNamesUser(cm.channelId, cm.postId, u, Some(commentId));
  }

  /**
   * Every like a user gives on one post, on the post or on any of its
   * comments, is put under the same key: each replaces the one before.
   */
  lemma LikesOnOnePostShareKey(cm: Comment, cm': Comment, post: Post, u: string)
    requires cm.channelId == cm'.channelId == post.channelId
    requires cm.postId == cm'.postId == post.postId
    requires cm.postTimestamp == cm'.postTimestamp == post.timestamp
    ensures ItemKey(cm, u) == ItemKey(cm', u) == LikePost.ItemKey(post, post.postId, u)
  {
  }
}
