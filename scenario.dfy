/**
 * A whole like cycle on one post, through the producers, the corrected
 * aggregator and the unlike handler: two users like the post, the recount
 * writes 2, one of them unlikes and the recount writes 1.
 */
module Scenario {
  import opened Wrappers
  import opened Types
  import opened Store
  import PrimaryKey
  import LikeId
  import ChannelsClient
  import ReactionsClient
  import Invariants
  import LikePost
  import UnlikePost
  import ProcessReactions
  import Convergence

  /** In a canonical table, a key in a reaction partition never holds a post row. */
  lemma ReactionKeyHoldsNoPost(rows: map<Key, Row>, k: Key, c: string, u: string)
    requires Invariants.Canonical(rows) && k.pk == PrimaryKey.ReactionPrimaryKey(c, u)
    ensures k in rows ==> !rows[k].PostRow?
  {
    if k in rows && rows[k].PostRow? {
      PrimaryKey.ChannelAndReactionKeysDiffer(rows[k].post.channelId, c, u);
    }
  }

  /** The request a signed-in user sends to like or unlike the post. */
  function Request(postId: string, username: string): FieldRequest<string> {
    FieldRequest(postId, Some(Identity(username)))
  }

  /** The table once `a` and then `b` have liked the post. */
  function Liked(rows: map<Key, Row>, post: Post, a: string, b: string, now: nat, now': nat): map<Key, Row> {
    var p := post.postId;
    rows[LikePost.ItemKey(post, p, a) := LikePost.Item(post, p, a, now)]
        [LikePost.ItemKey(post, p, b) := LikePost.Item(post, p, b, now')]
  }

  /** After both likes the post is still found where it was, and both like rows are counted. */
  lemma BothLikesCounted(rows: map<Key, Row>, k: Key, post: Post, a: string, b: string, now: nat, now': nat)
    requires Invariants.Canonical(rows)
    requires ChannelsClient.GetPost(rows, post.postId) == Some((k, post))
    requires ReactionsClient.Matching(rows, ReactionsClient.PostLikesCount(post.channelId, post.postId, None)) == {}
    requires a != b && '#' !in post.channelId
    ensures var liked := Liked(rows, post, a, b, now, now');
            && ChannelsClient.GetPost(liked, post.postId) == Some((k, post))
            && ReactionsClient.Matching(liked, ReactionsClient.PostLikesCount(post.channelId, post.postId, None))
               == {LikePost.ItemKey(post, post.postId, a), LikePost.ItemKey(post, post.postId, b)}
            && LikePost.ItemKey(post, post.postId, a) != LikePost.ItemKey(post, post.postId, b)
            && Invariants.Canonical(liked)
  {
    var c, p := post.channelId, post.postId;
    var q := ReactionsClient.PostLikesCount(c, p, None);
    var ka, kb := LikePost.ItemKey(post, p, a), LikePost.ItemKey(post, p, b);
    var once := rows[ka := LikePost.Item(post, p, a, now)];
    var liked := Liked(rows, post, a, b, now, now');
    PrimaryKey.ReactionPrimaryKeyInjective(c, a, c, b);
    ReactionsClient.PutMatching(rows, ka, LikePost.Item(post, p, a, now), q);
    ReactionsClient.PutMatching(once, kb, LikePost.Item(post, p, b, now'), q);
    ReactionKeyHoldsNoPost(rows, ka, c, a);
    ReactionKeyHoldsNoPost(rows, kb, c, b);
    assert ChannelsClient.PostKeys(liked, p) == ChannelsClient.PostKeys(rows, p);
    assert liked[k] == rows[k];
    LikePost.PutKeepsCanonical(rows, post, p, a, now);
    LikePost.PutKeepsCanonical(once, post, p, b, now');
  }

  /** The recount after both likes writes 2 onto the post, under the key it was found at. */
  lemma RecountAfterLikes(liked: map<Key, Row>, size: PageSize, k: Key, post: Post, ka: Key, kb: Key)
    requires ChannelsClient.GetPost(liked, post.postId) == Some((k, post)) && k == ChannelsClient.PostKey(post)
    requires ReactionsClient.Matching(liked, ReactionsClient.PostLikesCount(post.channelId, post.postId, None)) == {ka, kb}
    requires ka != kb
    ensures ProcessReactions.AfterPostLikes(liked, size, post.channelId, post.postId)
            == liked[k := PostRow(post.(totalLikes := 2))]
  {
    assert |{ka, kb}| == 2;
  }

  /** With ':'-free fields, after both likes only the like of `a` carries the id its unlike looks up. */
  lemma OnlyLikeOfA(rows: map<Key, Row>, post: Post, a: string, b: string, now: nat, now': nat)
    requires ReactionsClient.LikeKeys(rows, UnlikePost.LookupId(post, a)) == {}
    requires a != b && LikePost.ItemKey(post, post.postId, a) != LikePost.ItemKey(post, post.postId, b)
    requires LikeId.ColonFree(post.channelId) && LikeId.ColonFree(post.postId)
    requires LikeId.ColonFree(a) && LikeId.ColonFree(b)
    ensures ReactionsClient.LikeKeys(Liked(rows, post, a, b, now, now'), UnlikePost.LookupId(post, a))
            == {LikePost.ItemKey(post, post.postId, a)}
  {
    LikeId.LikeIdInjective(post.channelId, post.postId, a, None, post.channelId, post.postId, b, None);
  }

  /** The corrected unlike finds the like of `a`, which is the only row with its id, and deletes it. */
  lemma CorrectedUnlikeFindsLike(counted: map<Key, Row>, k: Key, post: Post, a: string, ka: Key)
    requires a != ""
    requires ChannelsClient.GetPost(counted, post.postId) == Some((k, post))
    requires ReactionsClient.LikeKeys(counted, UnlikePost.LookupId(post, a)) == {ka}
    ensures UnlikePost.AfterCorrected(counted, Request(post.postId, a)) == counted - {ka}
  {
  }

  /** The recount after the unlike writes 1 onto the post. */
  lemma RecountAfterUnlike(unliked: map<Key, Row>, size: PageSize, k: Key, post: Post, kb: Key)
    requires ChannelsClient.GetPost(unliked, post.postId) == Some((k, post)) && k == ChannelsClient.PostKey(post)
    requires ReactionsClient.Matching(unliked, ReactionsClient.PostLikesCount(post.channelId, post.postId, None)) == {kb}
    ensures ProcessReactions.AfterPostLikes(unliked, size, post.channelId, post.postId)[k]
            == PostRow(post.(totalLikes := 1))
  {
  }

  /** Deleting a row drops its key from a count's matches and nothing else. */
  lemma DeleteKeepsOtherMatches(rows: map<Key, Row>, k: Key, q: ReactionsClient.CountQuery)
    ensures ReactionsClient.Matching(rows - {k}, q) == ReactionsClient.Matching(rows, q) - {k}
  {
  }

  /**
   * After the recount has written 2, the corrected unlike of `a` and the
   * next recount leave 1 on the post.
   */
  lemma UnlikeThenRecount(liked: map<Key, Row>, size: PageSize, k: Key, post: Post, a: string, ka: Key, kb: Key)
    requires a != ""
    requires ChannelsClient.GetPost(liked, post.postId) == Some((k, post)) && k == ChannelsClient.PostKey(post)
    requires ReactionsClient.Matching(liked, ReactionsClient.PostLikesCount(post.channelId, post.postId, None)) == {ka, kb}
    requires ka != kb
    requires ReactionsClient.LikeKeys(liked, UnlikePost.LookupId(post, a)) == {ka}
    ensures var counted := liked[k := PostRow(post.(totalLikes := 2))];
            ProcessReactions.AfterPostLikes(UnlikePost.AfterCorrected(counted, Request(post.postId, a)),
                                            size, post.channelId, post.postId)[k]
            == PostRow(post.(totalLikes := 1))
  {
    var c, p := post.channelId, post.postId;
    var q := ReactionsClient.PostLikesCount(c, p, None);
    var post2 := post.(totalLikes := 2);
    var counted := liked[k := PostRow(post2)];
    Convergence.PostRewriteKeepsLookup(liked, k, post2, p);
    assert ChannelsClient.GetPost(counted, p) == Some((k, post2));
    assert ReactionsClient.LikeKeys(counted, UnlikePost.LookupId(post2, a)) == {ka};
    CorrectedUnlikeFindsLike(counted, k, post2, a, ka);
    var unliked := counted - {ka};
    Convergence.PostRewriteKeepsMatching(liked, k, PostRow(post2), q);
    DeleteKeepsOtherMatches(counted, ka, q);
    assert ChannelsClient.PostKeys(unliked, p) == ChannelsClient.PostKeys(counted, p);
    RecountAfterUnlike(unliked, size, k, post2, kb);
  }

  /**
   * Starting from a post with no likes, two different users like it and the
   * corrected aggregator recounts: the post's `totalLikes` becomes 2. The
   * first user then unlikes through the corrected handler and the recount
   * brings it to 1. The handler as written leaves that like where it was.
   */
  lemma LikeLikeUnlike(rows: map<Key, Row>, size: PageSize, k: Key, post: Post,
                       a: string, b: string, now: nat, now': nat)
    requires Invariants.Canonical(rows)
    requires ChannelsClient.GetPost(rows, post.postId) == Some((k, post))
    requires ReactionsClient.Matching(rows, ReactionsClient.PostLikesCount(post.channelId, post.postId, None)) == {}
    requires ReactionsClient.LikeKeys(rows, UnlikePost.LookupId(post, a)) == {}
    requires a != "" && b != "" && a != b && '#' !in post.channelId
    requires LikeId.ColonFree(post.channelId) && LikeId.ColonFree(post.postId)
    requires LikeId.ColonFree(a) && LikeId.ColonFree(b)
    ensures var c, p := post.channelId, post.postId;
            var liked := Liked(rows, post, a, b, now, now');
            var counted := ProcessReactions.AfterPostLikes(liked, size, c, p);
            var unliked := UnlikePost.AfterCorrected(counted, Request(p, a));
            && counted[k] == PostRow(post.(totalLikes := 2))
            && ProcessReactions.AfterPostLikes(unliked, size, c, p)[k] == PostRow(post.(totalLikes := 1))
            && UnlikePost.After(liked, Request(p, a)) == liked
  {
    var p := post.postId;
    var ka, kb := LikePost.ItemKey(post, p, a), LikePost.ItemKey(post, p, b);
    var liked := Liked(rows, post, a, b, now, now');
    BothLikesCounted(rows, k, post, a, b, now, now');
    Invariants.FoundPostKey(rows, p);
    OnlyLikeOfA(rows, post, a, b, now, now');
    RecountAfterLikes(liked, size, k, post, ka, kb);
    UnlikeThenRecount(liked, size, k, post, a, ka, kb);
    UnlikePost.UnlikeRemovesNothing(liked, Request(p, a));
  }
}
