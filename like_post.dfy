/**
 * lambda/likePost.ts: a signed-in user likes an existing post. The like row
 * goes into the user's reaction partition under the post's sort key, then a
 * like event without a comment id is queued.
 */
module LikePost {
  import opened Wrappers
  import opened Types
  import opened Store
  import PrimaryKey
  import SortKey
  import LikeId
  import ChannelsClient
  import ReactionsClient
  import Invariants

  const InvalidUser: string := "Cannot like post, invalid user"
  const InvalidPost: string := "Cannot like post, invalid post"

  /** The like row put for `username` at second `now` on the found `post`. */
  function Item(post: Post, postId: string, username: string, now: nat): Row {
    LikeRow(post.channelId, postId, LikeId.LikeId(post.channelId, postId, username, None), None,
            username, now, CommentLive,
            PrimaryKey.ChannelPostKey(post.channelId, postId), SortKey.LikeSortKey(now))
  }

  /** The key it is put under: the user's reaction partition, at the post's sort key. */
  function ItemKey(post: Post, postId: string, username: string): Key {
    Key(PrimaryKey.ReactionPrimaryKey(post.channelId, username), SortKey.PostSortKey(postId, post.timestamp))
  }

  /** The event queued once the row is stored. */
  function Event(post: Post, postId: string): ReactionRequest {
    ReactionRequest(post.channelId, postId, None, ReactionTypeName(LikeReaction))
  }

  /**
   * The handler: caller and post checks throw; then, in one try block, the
   * put and the send, either of which may fail and make the answer null.
   */
  method LikePost(db: Backend, request: FieldRequest<string>, now: nat, putOk: bool, sendOk: bool)
    returns (r: Response<Row>)
    modifies db
    ensures var postId := request.arguments;
            match Caller(request)
            case None =>
              r == Rejected(InvalidUser) && db.rows == old(db.rows) && db.queue == old(db.queue)
            case Some(u) =>
              match ChannelsClient.GetPost(old(db.rows), postId)
              case None =>
                r == Rejected(InvalidPost) && db.rows == old(db.rows) && db.queue == old(db.queue)
              case Some((_, post)) =>
                && db.rows == (if putOk then old(db.rows)[ItemKey(post, postId, u) := Item(post, postId, u, now)] else old(db.rows))
                && db.queue == (if putOk && sendOk then old(db.queue) + [Event(post, postId)] else old(db.queue))
                && r == (if putOk && sendOk then Value(Item(post, postId, u, now)) else NullResult)
    ensures db.objects == old(db.objects)
  {
    var postId := request.arguments;
    var caller := Caller(request);
    if caller.None? {
      return Rejected(InvalidUser);
    }
    var u := caller.value;
    var found := ChannelsClient.GetPost(db.rows, postId);
    if found.None? {
      return Rejected(InvalidPost);
    }
    var post := found.value.1;
    var item := Item(post, postId, u, now);
    if !putOk {
      return NullResult;
    }
    db.rows := db.rows[ItemKey(post, postId, u) := item];
    if !sendOk {
      return NullResult;
    }
    db.queue := db.queue + [Event(post, postId)];
    return Value(item);
  }

  /** The like row sits where a canonical like row sits, so the store stays canonical. */
  lemma PutKeepsCanonical(rows: map<Key, Row>, post: Post, postId: string, u: string, now: nat)
    requires Invariants.Canonical(rows)
    ensures Invariants.Canonical(rows[ItemKey(post, postId, u) := Item(post, postId, u, now)])
  {
    var k := ItemKey(post, postId, u);
    assert k.sk == SortKey.PostSortKey(postId, post.timestamp);
  }

  /**
   * The queued event asks for a post-like recount whose query matches the
   * new row: after the put that count is one more than the other matching rows.
   */
  lemma EventCountsItem(rows: map<Key, Row>, post: Post, postId: string, u: string, now: nat, t: Option<nat>)
    ensures Event(post, postId).reactionType == ReactionTypeName(LikeReaction) && Event(post, postId).commentId.None?
    ensures var q := ReactionsClient.PostLikesCount(post.channelId, postId, t);
            var after := rows[ItemKey(post, postId, u) := Item(post, postId, u, now)];
            && ItemKey(post, postId, u) in ReactionsClient.Matching(after, q)
            && |ReactionsClient.Matching(after, q)| == |ReactionsClient.Matching(rows, q) - {ItemKey(post, postId, u)}| + 1
  {
    var q := ReactionsClient.PostLikesCount(post.channelId, postId, t);
    ReactionsClient.PutMatching(rows, ItemKey(post, postId, u), Item(post, postId, u, now), q);
  }

  /**
   * Liking again only refreshes the row: the key is the same, so no
   * counting query gains a match.
   */
  lemma RelikeKeepsCounts(rows: map<Key, Row>, post: Post, postId: string, u: string, now: nat, now': nat,
                          q: ReactionsClient.CountQuery)
    ensures var k := ItemKey(post, postId, u);
            var once := rows[k := Item(post, postId, u, now)];
            ReactionsClient.Matching(once[k := Item(post, postId, u, now')], q) == ReactionsClient.Matching(once, q)
  {
    var k := ItemKey(post, postId, u);
    var once := rows[k := Item(post, postId, u, now)];
    ReactionsClient.PutMatching(rows, k, Item(post, postId, u, now), q);
    ReactionsClient.PutMatching(once, k, Item(post, postId, u, now'), q);
  }

  /**
   * A comment and a like by the same user on the same post share one key,
   * so liking a post one has commented on replaces the comment row: the
   * comment is no longer found, and the post's comment count loses it.
   */
  lemma LikeReplacesComment(rows: map<Key, Row>, post: Post, u: string, now: nat, cm: Comment)
    requires cm.channelId == post.channelId && cm.author == u
    requires cm.postId == post.postId && cm.postTimestamp == post.timestamp
    ensures ItemKey(post, post.postId, u) == ReactionsClient.CommentKey(cm)
    ensures var k := ItemKey(post, post.postId, u);
            var after := rows[k := Item(post, post.postId, u, now)];
            && ReactionsClient.CommentKeys(after, cm.commentId) == ReactionsClient.CommentKeys(rows, cm.commentId) - {k}
            && ReactionsClient.Matching(after, ReactionsClient.PostCommentsCount(post.channelId, post.postId, None))
               == ReactionsClient.Matching(rows, ReactionsClient.PostCommentsCount(post.channelId, post.postId, None)) - {k}
  {
    var k := ItemKey(post, post.postId, u);
    ReactionsClient.PutMatching(rows, k, Item(post, post.postId, u, now),
                                ReactionsClient.PostCommentsCount(post.channelId, post.postId, None));
  }
}
