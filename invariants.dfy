/**
 * The shape every row the handlers write has: each row sits under the key
 * its own attributes produce.
 */
module Invariants {
  import opened Store
  import PrimaryKey
  import SortKey
  import ChannelsClient
  import ReactionsClient

  /**
   * Post rows sit under their post key and comment rows under their comment
   * key. Like rows sit in their author's reaction partition under a post sort
   * key with a numeric timestamp (the post's, which the row does not store).
   */
  ghost predicate Canonical(rows: map<Key, Row>) {
    forall k :: k in rows ==>
      match rows[k]
      case PostRow(p) => k == ChannelsClient.PostKey(p)
      case CommentRow(c, _, _, _) => k == ReactionsClient.CommentKey(c)
      case LikeRow(ch, p, _, _, a, _, _, _, _) =>
        k.pk == PrimaryKey.ReactionPrimaryKey(ch, a) && exists t: nat :: k.sk == SortKey.PostSortKey(p, t)
  }

  /** In a canonical table, the key `deleteLike` builds never holds a row. */
  lemma DeleteLikeKeyAbsent(rows: map<Key, Row>, like: Row)
    requires Canonical(rows) && like.LikeRow?
    ensures ReactionsClient.DeleteLikeKey(like) !in rows
  {
    var d := ReactionsClient.DeleteLikeKey(like);
    if d in rows && rows[d].PostRow? {
      PrimaryKey.ChannelAndReactionKeysDiffer(rows[d].post.channelId, like.channelId, like.author);
    }
  }

  /** In a canonical table the post a lookup finds sits under its own post key. */
  lemma FoundPostKey(rows: map<Key, Row>, postId: string)
    requires Canonical(rows) && ChannelsClient.GetPost(rows, postId).Some?
    ensures var (k, post) := ChannelsClient.GetPost(rows, postId).value; k == ChannelsClient.PostKey(post)
  {
    var (k, post) := ChannelsClient.GetPost(rows, postId).value;
    assert rows[k] == PostRow(post);
  }

  /** In a canonical table the comment a lookup finds sits under its own comment key. */
  lemma FoundCommentKey(rows: map<Key, Row>, commentId: string)
    requires Canonical(rows) && ReactionsClient.GetComment(rows, commentId).Some?
    ensures var (k, row) := ReactionsClient.GetComment(rows, commentId).value; k == ReactionsClient.CommentKey(row.comment)
  {
    var (k, row) := ReactionsClient.GetComment(rows, commentId).value;
    assert rows[k] == row;
  }
}
