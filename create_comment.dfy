/**
 * lambda/createComment.ts: a signed-in user comments on an existing post.
 * The comment row goes into the author's reaction partition under the
 * post's sort key, then a comment event is queued for the aggregator.
 */
module CreateComment {
  import opened Wrappers
  import opened Types
  import opened Store
  import PrimaryKey
  import SortKey
  import ChannelsClient
  import ReactionsClient
  import Invariants

  /** The `comment` argument of the mutation. */
  datatype NewComment = NewComment(
    commentId: string, postId: string, postTimestamp: nat, channelId: string, comment: string)

  const InvalidUser: string := "Cannot create comment, invalid user"
  const InvalidPost: string := "Cannot comment on post, invalid post"

  /**
   * The row put for `username` at second `now`: the argument's fields, the
   * caller as author, a live status, no likes yet, and the scope and
   * reaction attributes the counting queries select on.
   */
  function Item(c: NewComment, username: string, now: nat): Row {
    CommentRow(
      Comment(c.channelId, c.postId, c.commentId, username, c.comment, now, 0, [], c.postTimestamp),
      CommentLive,
      PrimaryKey.ChannelPostKey(c.channelId, c.postId),
      SortKey.CommentSortKey(now))
  }

  /** The key the row is put under: the author's reaction partition, at the post's sort key. */
  function ItemKey(c: NewComment, username: string): Key {
    Key(PrimaryKey.ReactionPrimaryKey(c.channelId, username), SortKey.PostSortKey(c.postId, c.postTimestamp))
  }

  /** The event queued once the row is stored. */
  function Event(c: NewComment): ReactionRequest {
    ReactionRequest(c.channelId, c.postId, Some(c.commentId), ReactionTypeName(CommentReaction))
  }

  /**
   * The handler. The caller and the post are checked first and a failure
   * there is thrown to the API. The put and the send run in one try block:
   * when the put fails nothing is stored or sent, when only the send fails
   * the row stays stored; both answer null. `now` is the current Unix time
   * in seconds; `putOk` and `sendOk` are the store's and the queue's answers.
   */
  method CreateComment(db: Backend, request: FieldRequest<NewComment>, now: nat, putOk: bool, sendOk: bool)
    returns (r: Response<Row>)
    modifies db
    ensures var c := request.arguments;
            match Caller(request)
            case None =>
              r == Rejected(InvalidUser) && db.rows == old(db.rows) && db.queue == old(db.queue)
            case Some(u) =>
              if ChannelsClient.GetPost(old(db.rows), c.postId).None? then
                r == Rejected(InvalidPost) && db.rows == old(db.rows) && db.queue == old(db.queue)
              else
                && db.rows == (if putOk then old(db.rows)[ItemKey(c, u) := Item(c, u, now)] else old(db.rows))
                && db.queue == (if putOk && sendOk then old(db.queue) + [Event(c)] else old(db.queue))
                && r == (if putOk && sendOk then Value(Item(c, u, now)) else NullResult)
    ensures db.objects == old(db.objects)
  {
    var c := request.arguments;
    var caller := Caller(request);
    if caller.None? {
      return Rejected(InvalidUser);
    }
    var u := caller.value;
    var post := ChannelsClient.GetPost(db.rows, c.postId);
    if post.None? {
      return Rejected(InvalidPost);
    }
    var item := Item(c, u, now);
    if !putOk {
      return NullResult;
    }
    db.rows := db.rows[ItemKey(c, u) := item];
    if !sendOk {
      return NullResult;
    }
    db.queue := db.queue + [Event(c)];
    return Value(item);
  }

  /** The row is put under its own comment key, so the store stays canonical. */
  lemma PutKeepsCanonical(rows: map<Key, Row>, c: NewComment, u: string, now: nat)
    requires Invariants.Canonical(rows)
    ensures ReactionsClient.CommentKey(Item(c, u, now).comment) == ItemKey(c, u)
    ensures Invariants.Canonical(rows[ItemKey(c, u) := Item(c, u, now)])
  {
  }

  /**
   * The queued event asks for a comment recount whose query matches the new
   * row: after the put that count is one more than the other matching rows.
   */
  lemma EventCountsItem(rows: map<Key, Row>, c: NewComment, u: string, now: nat, t: Option<nat>)
    ensures Event(c).reactionType == ReactionTypeName(CommentReaction)
    ensures var q := ReactionsClient.PostCommentsCount(Event(c).channelId, Event(c).postId, t);
            && ItemKey(c, u) in ReactionsClient.Matching(rows[ItemKey(c, u) := Item(c, u, now)], q)
            && |ReactionsClient.Matching(rows[ItemKey(c, u) := Item(c, u, now)], q)|
               == |ReactionsClient.Matching(rows, q) - {ItemKey(c, u)}| + 1
  {
    var q := ReactionsClient.PostCommentsCount(c.channelId, c.postId, t);
    ReactionsClient.PutMatching(rows, ItemKey(c, u), Item(c, u, now), q);
  }

  /**
   * The row's scope comes from the arguments, not from the post that was
   * found: a comment naming another channel or post timestamp is stored and
   * counted under a scope the found post does not have.
   */
  lemma ScopeFromArguments(c: NewComment, u: string, now: nat, post: Post)
    requires post.postId == c.postId && post.channelId != c.channelId
    ensures Item(c, u, now).channelPost != PrimaryKey.ChannelPostKey(post.channelId, post.postId)
  {
    PrimaryKey.ChannelPostKeyDeterminesChannel(c.channelId, post.channelId, c.postId);
  }
}
