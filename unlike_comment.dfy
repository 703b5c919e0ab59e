/**
 * lambda/unlikeComment.ts: a signed-in user withdraws a like on a comment.
 * The like is looked up by its id and deleted; every outcome answers null,
 * and no recount is queued.
 */
module UnlikeComment {
  import opened Wrappers
  import opened Types
  import opened Store
  import LikeId
  import ReactionsClient
  import Invariants
  import LikeComment

  /** The id the handler looks the like up by, with each argument in its declared position. */
  function LookupId(cm: Comment, username: string): string {
    LikeId.LikeId(cm.channelId, cm.postId, username, Some(cm.commentId))
  }

  /** The table after the handler as written: the found like is deleted under the key `deleteLike` builds. */
  function After(rows: map<Key, Row>, request: FieldRequest<string>): map<Key, Row> {
    match Caller(request)
    case None => rows
    case Some(u) =>
      match ReactionsClient.GetComment(rows, request.arguments)
      case None => rows
      case Some((_, row)) =>
        match ReactionsClient.GetLike(rows, LookupId(row.comment, u))
        case None => rows
        case Some((_, like)) => rows - {ReactionsClient.DeleteLikeKey(like)}
  }

  /** The table after the corrected handler: the found like is deleted under the key it was found at. */
  function AfterCorrected(rows: map<Key, Row>, request: FieldRequest<string>): map<Key, Row> {
    match Caller(request)
    case None => rows
    case Some(u) =>
      match ReactionsClient.GetComment(rows, request.arguments)
      case None => rows
      case Some((_, row)) =>
        match ReactionsClient.GetLike(rows, LookupId(row.comment, u))
        case None => rows
        case Some((k, _)) => rows - {k}
  }

  /** The handler as written. */
  method UnlikeComment(db: Backend, request: FieldRequest<string>) returns (r: Response<()>)
    modifies db
    ensures r == NullResult
    ensures db.rows == After(old(db.rows), request)
    ensures db.queue == old(db.queue) && db.objects == old(db.objects)
  {
    var caller := Caller(request);
    if caller.None? {
      return NullResult;
    }
    var found := ReactionsClient.GetComment(db.rows, request.arguments);
    if found.None? {
      return NullResult;
    }
    var like := ReactionsClient.GetLike(db.rows, LookupId(found.value.1.comment, caller.value));
    if like.None? {
      return NullResult;
    }
    ReactionsClient.DeleteLike(db, like.value.1);
    return NullResult;
  }

  /** The handler deleting the like under the key its lookup returned. */
  method UnlikeCommentCorrected(db: Backend, request: FieldRequest<string>) returns (r: Response<()>)
    modifies db
    ensures r == NullResult
    ensures db.rows == AfterCorrected(old(db.rows), request)
    ensures db.queue == old(db.queue) && db.objects == old(db.objects)
  {
    var caller := Caller(request);
    if caller.None? {
      return NullResult;
    }
    var found := ReactionsClient.GetComment(db.rows, request.arguments);
    if found.None? {
      return NullResult;
    }
    var like := ReactionsClient.GetLike(db.rows, LookupId(found.value.1.comment, caller.value));
    if like.None? {
      return NullResult;
    }
    ReactionsClient.DeleteLikeAt(db, like.value.0);
    return NullResult;
  }

  /** As written, unliking a comment never removes anything from a canonical table. */
  lemma UnlikeRemovesNothing(rows: map<Key, Row>, request: FieldRequest<string>)
    requires Invariants.Canonical(rows)
    ensures After(rows, request) == rows
  {
    if Caller(request).Some? && ReactionsClient.GetComment(rows, request.arguments).Some? {
      var cm := ReactionsClient.GetComment(rows, request.arguments).value.1.comment;
      var like := ReactionsClient.GetLike(rows, LookupId(cm, Caller(request).value));
      if like.Some? {
        Invariants.DeleteLikeKeyAbsent(rows, like.value.1);
      }
    }
  }

  /**
   * With ':'-free fields, the id `likeComment` stores differs from the id
   * looked up here unless the comment id happens to equal the user name;
   * the intended id is exactly the one looked up.
   */
  lemma SwappedIdMissed(cm: Comment, u: string)
    requires LikeId.ColonFree(cm.channelId) && LikeId.ColonFree(cm.postId)
    requires LikeId.ColonFree(cm.commentId) && LikeId.ColonFree(u) && u != ""
    ensures LikeComment.StoredId(cm, cm.commentId, u) == LookupId(cm, u) <==> cm.commentId == u
    ensures LikeComment.IntendedId(cm, cm.commentId, u) == LookupId(cm, u)
  {
    LikeId.LikeIdInjective(cm.channelId, cm.postId, cm.commentId, Some(u),
                           cm.channelId, cm.postId, u, Some(cm.commentId));
  }

  /** Putting a like row leaves every comment lookup where it was. */
  lemma LikeKeepsCommentLookup(rows: map<Key, Row>, k: Key, like: Row, commentId: string)
    requires k !in rows && like.LikeRow?
    ensures ReactionsClient.GetComment(rows[k := like], commentId) == ReactionsClient.GetComment(rows, commentId)
  {
    assert ReactionsClient.CommentKeys(rows[k := like], commentId) == ReactionsClient.CommentKeys(rows, commentId);
  }

  /**
   * Like then unlike on a comment, for a user with no like under the looked
   * up id and a free slot. With both handlers corrected the table is
   * restored exactly. With the like written as `likeComment` writes it, even
   * the corrected unlike finds nothing and the like stays.
   */
  lemma UnlikeAfterLike(rows: map<Key, Row>, request: FieldRequest<string>, now: nat)
    requires Invariants.Canonical(rows)
    requires Caller(request).Some? && ReactionsClient.GetComment(rows, request.arguments).Some?
    requires var cm := ReactionsClient.GetComment(rows, request.arguments).value.1.comment;
             var u := Caller(request).value;
             && LikeComment.ItemKey(cm, u) !in rows
             && ReactionsClient.LikeKeys(rows, LookupId(cm, u)) == {}
             && LikeId.ColonFree(cm.channelId) && LikeId.ColonFree(cm.postId)
             && LikeId.ColonFree(cm.commentId) && LikeId.ColonFree(u) && cm.commentId != u
    ensures var cm := ReactionsClient.GetComment(rows, request.arguments).value.1.comment;
            var u := Caller(request).value;
            var k := LikeComment.ItemKey(cm, u);
            var intended := rows[k := LikeComment.Item(cm, request.arguments, u, now, LikeComment.IntendedId(cm, request.arguments, u))];
            var stored := rows[k := LikeComment.Item(cm, request.arguments, u, now, LikeComment.StoredId(cm, request.arguments, u))];
            && AfterCorrected(intended, request) == rows
            && AfterCorrected(stored, request) == stored
            && After(stored, request) == stored
  {
    var commentId, u := request.arguments, Caller(request).value;
    var cm := ReactionsClient.GetComment(rows, commentId).value.1.comment;
    var k := LikeComment.ItemKey(cm, u);
    var good := LikeComment.Item(cm, commentId, u, now, LikeComment.IntendedId(cm, commentId, u));
    var bad := LikeComment.Item(cm, commentId, u, now, LikeComment.StoredId(cm, commentId, u));
    SwappedIdMissed(cm, u);
    LikeKeepsCommentLookup(rows, k, good, commentId);
    LikeKeepsCommentLookup(rows, k, bad, commentId);
    assert ReactionsClient.LikeKeys(rows[k := good], LookupId(cm, u)) == {k};
    assert rows[k := good] - {k} == rows;
    assert ReactionsClient.LikeKeys(rows[k := bad], LookupId(cm, u)) == {};
  }
}
