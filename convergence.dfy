/**
 * Why the corrected aggregator converges: a write-back never changes what
 * any recount matches, so the written count equals the count of the new
 * table, and handling the same event again changes nothing.
 */
module Convergence {
  import opened Wrappers
  import opened Types
  import opened Store
  import ChannelsClient
  import ReactionsClient
  import Invariants
  import opened ProcessReactions

  /** Replacing a post row by another post row changes no counting query's matches. */
  lemma PostRewriteKeepsMatching(rows: map<Key, Row>, k: Key, v: Row, q: ReactionsClient.CountQuery)
    requires k in rows && rows[k].PostRow? && v.PostRow?
    ensures ReactionsClient.Matching(rows[k := v], q) == ReactionsClient.Matching(rows, q)
  {
  }

  /** Replacing a comment row by one with the same scope and id changes no counting query's matches. */
  lemma CommentRewriteKeepsMatching(rows: map<Key, Row>, k: Key, v: Row, q: ReactionsClient.CountQuery)
    requires k in rows && rows[k].CommentRow? && v.CommentRow?
    requires v.channelPost == rows[k].channelPost && v.comment.commentId == rows[k].comment.commentId
    ensures ReactionsClient.Matching(rows[k := v], q) == ReactionsClient.Matching(rows, q)
  {
  }

  /** A corrected comment event leaves every recount's matches as they were. */
  lemma AfterCommentsKeepsMatching(rows: map<Key, Row>, size: PageSize, c: string, p: string, q: ReactionsClient.CountQuery)
    requires Invariants.Canonical(rows)
    ensures ReactionsClient.Matching(AfterComments(rows, size, c, p), q) == ReactionsClient.Matching(rows, q)
  {
    if ChannelsClient.GetPost(rows, p).Some? {
      Invariants.FoundPostKey(rows, p);
      var (k, post) := ChannelsClient.GetPost(rows, p).value;
      var post' := post.(totalComments := CommentsCountForPost(rows, size, c, p));
      PostRewriteKeepsMatching(rows, k, PostRow(post'), q);
    }
  }

  /** A corrected post-like event leaves every recount's matches as they were. */
  lemma AfterPostLikesKeepsMatching(rows: map<Key, Row>, size: PageSize, c: string, p: string, q: ReactionsClient.CountQuery)
    requires Invariants.Canonical(rows)
    ensures ReactionsClient.Matching(AfterPostLikes(rows, size, c, p), q) == ReactionsClient.Matching(rows, q)
  {
    if ChannelsClient.GetPost(rows, p).Some? {
      Invariants.FoundPostKey(rows, p);
      var (k, post) := ChannelsClient.GetPost(rows, p).value;
      var post' := post.(totalLikes := LikesCountForPost(rows, size, c, p));
      PostRewriteKeepsMatching(rows, k, PostRow(post'), q);
    }
  }

  /** A corrected comment-like event leaves every recount's matches as they were. */
  lemma AfterCommentLikesKeepsMatching(rows: map<Key, Row>, size: PageSize, c: string, p: string, commentId: string, q: ReactionsClient.CountQuery)
    requires Invariants.Canonical(rows)
    ensures ReactionsClient.Matching(AfterCommentLikes(rows, size, c, p, commentId), q) == ReactionsClient.Matching(rows, q)
  {
    if ReactionsClient.GetComment(rows, commentId).Some? {
      Invariants.FoundCommentKey(rows, commentId);
      var (k, row) := ReactionsClient.GetComment(rows, commentId).value;
      var row' := row.(comment := row.comment.(totalLikes := LikesCountForComment(rows, size, c, p, commentId)));
      CommentRewriteKeepsMatching(rows, k, row', q);
    }
  }

  /** No corrected write-back changes what any recount counts. */
  lemma WriteBackKeepsCounts(rows: map<Key, Row>, size: PageSize, request: ReactionRequest, q: ReactionsClient.CountQuery)
    requires Invariants.Canonical(rows)
    ensures ReactionsClient.Matching(AfterReaction(rows, size, request), q) == ReactionsClient.Matching(rows, q)
  {
    var c, p := request.channelId, request.postId;
    if request.reactionType == ReactionTypeName(CommentReaction) {
      AfterCommentsKeepsMatching(rows, size, c, p, q);
    } else if request.reactionType == ReactionTypeName(LikeReaction) {
      if Truthy(request.commentId) {
        AfterCommentLikesKeepsMatching(rows, size, c, p, request.commentId.value, q);
      } else {
        AfterPostLikesKeepsMatching(rows, size, c, p, q);
      }
    }
  }

  /**
   * After a comment event whose post exists, that post's `totalComments`
   * equals the number of comment rows under the event's scope in the new
   * table; no other field and no other row changes.
   */
  lemma CommentsConverge(rows: map<Key, Row>, size: PageSize, c: string, p: string)
    requires Invariants.Canonical(rows) && ChannelsClient.GetPost(rows, p).Some?
    ensures var (k, post) := ChannelsClient.GetPost(rows, p).value;
            var after := AfterComments(rows, size, c, p);
            && after.Keys == rows.Keys
            && after[k] == PostRow(post.(totalComments := |ReactionsClient.Matching(after, ReactionsClient.PostCommentsCount(c, p, None))|))
            && forall j :: j in rows && j != k ==> after[j] == rows[j]
  {
    Invariants.FoundPostKey(rows, p);
    AfterCommentsKeepsMatching(rows, size, c, p, ReactionsClient.PostCommentsCount(c, p, None));
  }

  /**
   * After a like event without a comment id whose post exists, that post's
   * `totalLikes` equals the number of like rows under the scope in the new
   * table; nothing else changes.
   */
  lemma PostLikesConverge(rows: map<Key, Row>, size: PageSize, c: string, p: string)
    requires Invariants.Canonical(rows) && ChannelsClient.GetPost(rows, p).Some?
    ensures var (k, post) := ChannelsClient.GetPost(rows, p).value;
            var after := AfterPostLikes(rows, size, c, p);
            && after.Keys == rows.Keys
            && after[k] == PostRow(post.(totalLikes := |ReactionsClient.Matching(after, ReactionsClient.PostLikesCount(c, p, None))|))
            && forall j :: j in rows && j != k ==> after[j] == rows[j]
  {
    Invariants.FoundPostKey(rows, p);
    AfterPostLikesKeepsMatching(rows, size, c, p, ReactionsClient.PostLikesCount(c, p, None));
  }

  /**
   * After a like event naming an existing comment, that comment's
   * `totalLikes` equals the number of like rows naming it under the scope in
   * the new table; nothing else changes.
   */
  lemma CommentLikesConverge(rows: map<Key, Row>, size: PageSize, c: string, p: string, commentId: string)
    requires Invariants.Canonical(rows) && ReactionsClient.GetComment(rows, commentId).Some?
    ensures var (k, row) := ReactionsClient.GetComment(rows, commentId).value;
            var after := AfterCommentLikes(rows, size, c, p, commentId);
            && after.Keys == rows.Keys
            && after[k] == row.(comment := row.comment.(totalLikes :=
                 |ReactionsClient.Matching(after, ReactionsClient.CommentLikesCount(c, p, commentId, None))|))
            && forall j :: j in rows && j != k ==> after[j] == rows[j]
  {
    Invariants.FoundCommentKey(rows, commentId);
    AfterCommentLikesKeepsMatching(rows, size, c, p, commentId, ReactionsClient.CommentLikesCount(c, p, commentId, None));
  }

  /** Rewriting a post row with one of the same post id leaves every post lookup as it was, up to the new row. */
  lemma PostRewriteKeepsLookup(rows: map<Key, Row>, k: Key, post': Post, postId: string)
    requires k in rows && rows[k].PostRow? && rows[k].post.postId == post'.postId
    ensures ChannelsClient.PostKeys(rows[k := PostRow(post')], postId) == ChannelsClient.PostKeys(rows, postId)
  {
  }

  /** Rewriting a comment row with one of the same comment id leaves every comment lookup's keys as they were. */
  lemma CommentRewriteKeepsLookup(rows: map<Key, Row>, k: Key, v: Row, commentId: string)
    requires k in rows && rows[k].CommentRow? && v.CommentRow? && v.comment.commentId == rows[k].comment.commentId
    ensures ReactionsClient.CommentKeys(rows[k := v], commentId) == ReactionsClient.CommentKeys(rows, commentId)
  {
  }

  /** Handling a comment event twice leaves the table as handling it once. */
  lemma AfterCommentsIdempotent(rows: map<Key, Row>, size: PageSize, c: string, p: string)
    requires Invariants.Canonical(rows)
    ensures AfterComments(AfterComments(rows, size, c, p), size, c, p) == AfterComments(rows, size, c, p)
  {
    if ChannelsClient.GetPost(rows, p).Some? {
      Invariants.FoundPostKey(rows, p);
      var (k, post) := ChannelsClient.GetPost(rows, p).value;
      var after := AfterComments(rows, size, c, p);
      var post' := post.(totalComments := CommentsCountForPost(rows, size, c, p));
      assert after == rows[k := PostRow(post')];
      PostRewriteKeepsLookup(rows, k, post', p);
      AfterCommentsKeepsMatching(rows, size, c, p, ReactionsClient.PostCommentsCount(c, p, None));
      assert ChannelsClient.GetPost(after, p) == Some((k, post'));
      assert after[k := PostRow(post')] == after;
    }
  }

  /** Handling a post-like event twice leaves the table as handling it once. */
  lemma AfterPostLikesIdempotent(rows: map<Key, Row>, size: PageSize, c: string, p: string)
    requires Invariants.Canonical(rows)
    ensures AfterPostLikes(AfterPostLikes(rows, size, c, p), size, c, p) == AfterPostLikes(rows, size, c, p)
  {
    if ChannelsClient.GetPost(rows, p).Some? {
      Invariants.FoundPostKey(rows, p);
      var (k, post) := ChannelsClient.GetPost(rows, p).value;
      var after := AfterPostLikes(rows, size, c, p);
      var post' := post.(totalLikes := LikesCountForPost(rows, size, c, p));
      assert after == rows[k := PostRow(post')];
      PostRewriteKeepsLookup(rows, k, post', p);
      AfterPostLikesKeepsMatching(rows, size, c, p, ReactionsClient.PostLikesCount(c, p, None));
      assert ChannelsClient.GetPost(after, p) == Some((k, post'));
      assert after[k := PostRow(post')] == after;
    }
  }

  /** Handling a comment-like event twice leaves the table as handling it once. */
  lemma AfterCommentLikesIdempotent(rows: map<Key, Row>, size: PageSize, c: string, p: string, commentId: string)
    requires Invariants.Canonical(rows)
    ensures AfterCommentLikes(AfterCommentLikes(rows, size, c, p, commentId), size, c, p, commentId)
         == AfterCommentLikes(rows, size, c, p, commentId)
  {
    if ReactionsClient.GetComment(rows, commentId).Some? {
      Invariants.FoundCommentKey(rows, commentId);
      var (k, row) := ReactionsClient.GetComment(rows, commentId).value;
      var after := AfterCommentLikes(rows, size, c, p, commentId);
      var row' := row.(comment := row.comment.(totalLikes := LikesCountForComment(rows, size, c, p, commentId)));
      assert after == rows[k := row'];
      CommentRewriteKeepsLookup(rows, k, row', commentId);
      AfterCommentLikesKeepsMatching(rows, size, c, p, commentId, ReactionsClient.CommentLikesCount(c, p, commentId, None));
      assert ReactionsClient.GetComment(after, commentId) == Some((k, row'));
      assert after[k := row'] == after;
    }
  }

  /** At-least-once delivery is harmless: a duplicate of any event changes nothing. */
  lemma AfterReactionIdempotent(rows: map<Key, Row>, size: PageSize, request: ReactionRequest)
    requires Invariants.Canonical(rows)
    ensures AfterReaction(AfterReaction(rows, size, request), size, request) == AfterReaction(rows, size, request)
  {
    var c, p := request.channelId, request.postId;
    if request.reactionType == ReactionTypeName(CommentReaction) {
      AfterCommentsIdempotent(rows, size, c, p);
    } else if request.reactionType == ReactionTypeName(LikeReaction) {
      if Truthy(request.commentId) {
        AfterCommentLikesIdempotent(rows, size, c, p, request.commentId.value);
      } else {
        AfterPostLikesIdempotent(rows, size, c, p);
      }
    }
  }

  /** The corrected write-backs keep every row under the key its attributes produce. */
  lemma AfterReactionCanonical(rows: map<Key, Row>, size: PageSize, request: ReactionRequest)
    requires Invariants.Canonical(rows)
    ensures Invariants.Canonical(AfterReaction(rows, size, request))
  {
  }
}
