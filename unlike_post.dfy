/**
 * lambda/unlikePost.ts: a signed-in user withdraws a like on a post. The
 * like is looked up by its id and deleted; every outcome, failures
 * included, answers null, and no recount is queued.
 */
module UnlikePost {
  import opened Wrappers
  import opened Types
  import opened Store
  import LikeId
  import ChannelsClient
  import ReactionsClient
  import Invariants
  import LikePost

  /** The id the handler looks the like up by. */
  function LookupId(post: Post, username: string): string {
    LikeId.LikeId(post.channelId, post.postId, username, None)
  }

  /** The table after the handler as written: the found like is deleted under the key `deleteLike` builds. */
  function After(rows: map<Key, Row>, request: FieldRequest<string>): map<Key, Row> {
    match Caller(request)
    case None => rows
    case Some(u) =>
      match ChannelsClient.GetPost(rows, request.arguments)
      case None => rows
      case Some((_, post)) =>
        match ReactionsClient.GetLike(rows, LookupId(post, u))
        case None => rows
        case Some((_, like)) => rows - {ReactionsClient.DeleteLikeKey(like)}
  }

  /** The table after the corrected handler: the found like is deleted under the key it was found at. */
  function AfterCorrected(rows: map<Key, Row>, request: FieldRequest<string>): map<Key, Row> {
    match Caller(request)
    case None => rows
    case Some(u) =>
      match ChannelsClient.GetPost(rows, request.arguments)
      case None => rows
      case Some((_, post)) =>
        match ReactionsClient.GetLike(rows, LookupId(post, u))
        case None => rows
        case Some((k, _)) => rows - {k}
  }

  /** The handler as written. */
  method UnlikePost(db: Backend, request: FieldRequest<string>) returns (r: Response<()>)
    modifies db
    ensures r == NullResult
    ensures db.rows == After(old(db.rows), request)
    ensures db.queue == old(db.queue) && db.objects == old(db.objects)
  {
    var caller := Caller(request);
    if caller.None? {
      return NullResult;
    }
    var found := ChannelsClient.GetPost(db.rows, request.arguments);
    if found.None? {
      return NullResult;
    }
    var like := ReactionsClient.GetLike(db.rows, LookupId(found.value.1, caller.value));
    if like.None? {
      return NullResult;
    }
    ReactionsClient.DeleteLike(db, like.value.1);
    return NullResult;
  }

  /** The handler deleting the like under the key its lookup returned. */
  method UnlikePostCorrected(db: Backend, request: FieldRequest<string>) returns (r: Response<()>)
    modifies db
    ensures r == NullResult
    ensures db.rows == AfterCorrected(old(db.rows), request)
    ensures db.queue == old(db.queue) && db.objects == old(db.objects)
  {
    var caller := Caller(request);
    if caller.None? {
      return NullResult;
    }
    var found := ChannelsClient.GetPost(db.rows, request.arguments);
    if found.None? {
      return NullResult;
    }
    var like := ReactionsClient.GetLike(db.rows, LookupId(found.value.1, caller.value));
    if like.None? {
      return NullResult;
    }
    ReactionsClient.DeleteLikeAt(db, like.value.0);
    return NullResult;
  }

  /** As written, unliking never removes anything from a canonical table. */
  lemma UnlikeRemovesNothing(rows: map<Key, Row>, request: FieldRequest<string>)
    requires Invariants.Canonical(rows)
    ensures After(rows, request) == rows
  {
    if Caller(request).Some? && ChannelsClient.GetPost(rows, request.arguments).Some? {
      var post := ChannelsClient.GetPost(rows, request.arguments).value.1;
      var like := ReactionsClient.GetLike(rows, LookupId(post, Caller(request).value));
      if like.Some? {
        Invariants.DeleteLikeKeyAbsent(rows, like.value.1);
      }
    }
  }

  /** Putting a like row leaves every post lookup where it was. */
  lemma LikeKeepsPostLookup(rows: map<Key, Row>, k: Key, like: Row, postId: string)
    requires k !in rows && like.LikeRow?
    ensures ChannelsClient.GetPost(rows[k := like], postId) == ChannelsClient.GetPost(rows, postId)
  {
    assert ChannelsClient.PostKeys(rows[k := like], postId) == ChannelsClient.PostKeys(rows, postId);
  }

  /**
   * Like then unlike, for a user with no like on the post and a free slot:
   * the corrected unlike restores the table exactly, while the one as
   * written leaves the like in place.
   */
  lemma UnlikeAfterLike(rows: map<Key, Row>, request: FieldRequest<string>, now: nat)
    requires Invariants.Canonical(rows)
    requires Caller(request).Some? && ChannelsClient.GetPost(rows, request.arguments).Some?
    requires var post := ChannelsClient.GetPost(rows, request.arguments).value.1;
             var u := Caller(request).value;
             && LikePost.ItemKey(post, request.arguments, u) !in rows
             && ReactionsClient.LikeKeys(rows, LookupId(post, u)) == {}
    ensures var post := ChannelsClient.GetPost(rows, request.arguments).value.1;
            var u := Caller(request).value;
            var liked := rows[LikePost.ItemKey(post, request.arguments, u) := LikePost.Item(post, request.arguments, u, now)];
            && AfterCorrected(liked, request) == rows
            && After(liked, request) == liked
  {
    var postId, u := request.arguments, Caller(request).value;
    var post := ChannelsClient.GetPost(rows, postId).value.1;
    var k := LikePost.ItemKey(post, postId, u);
    var item := LikePost.Item(post, postId, u, now);
    var liked := rows[k := item];
    LikeKeepsPostLookup(rows, k, item, postId);
    assert ReactionsClient.LikeKeys(liked, LookupId(post, u)) == {k};
    assert liked - {k} == rows;
    LikePost.PutKeepsCanonical(rows, post, postId, u, now);
    UnlikeRemovesNothing(liked, request);
  }

  /** Corrected, unliking removes exactly the like that was found, and the store stays canonical. */
  lemma CorrectedUnlikeRemovesLike(rows: map<Key, Row>, request: FieldRequest<string>)
    requires Invariants.Canonical(rows)
    requires Caller(request).Some? && ChannelsClient.GetPost(rows, request.arguments).Some?
    requires ReactionsClient.GetLike(rows, LookupId(ChannelsClient.GetPost(rows, request.arguments).value.1, Caller(request).value)).Some?
    ensures var id := LookupId(ChannelsClient.GetPost(rows, request.arguments).value.1, Caller(request).value);
            var k := ReactionsClient.GetLike(rows, id).value.0;
            && AfterCorrected(rows, request) == rows - {k}
            && ReactionsClient.LikeKeys(AfterCorrected(rows, request), id) == ReactionsClient.LikeKeys(rows, id) - {k}
            && Invariants.Canonical(AfterCorrected(rows, request))
  {
  }
}
