/**
 * lambda/deleteComment.ts (its handler is exported as `unlikeComment`): a
 * signed-in user deletes a comment. Nothing checks that the caller wrote
 * it; every outcome answers null, and no recount is queued.
 */
module DeleteComment {
  import opened Wrappers
  import opened Types
  import opened Store
  import ReactionsClient
  import Invariants

  /** The table after the handler: the found comment's key is deleted. */
  function After(rows: map<Key, Row>, request: FieldRequest<string>): map<Key, Row> {
    match Caller(request)
    case None => rows
    case Some(_) =>
      match ReactionsClient.GetComment(rows, request.arguments)
      case None => rows
      case Some((_, row)) => rows - {ReactionsClient.CommentKey(row.comment)}
  }

  /** The handler: signed-in callers delete the comment they name; everyone gets null. */
  method DeleteComment(db: Backend, request: FieldRequest<string>) returns (r: Response<()>)
    modifies db
    ensures r == NullResult
    ensures db.rows == After(old(db.rows), request)
    ensures db.queue == old(db.queue) && db.objects == old(db.objects)
  {
    var caller := Caller(request);
    if caller.None? {
      return NullResult;
    }
    var found := ReactionsClient.GetComment(db.rows, request.arguments);
    if found.None? {
      return NullResult;
    }
    ReactionsClient.DeleteComment(db, found.value.1.comment);
    return NullResult;
  }

  /** Who asks does not matter, only that someone is signed in: any user can delete any comment. */
  lemma AnyCallerDeletes(rows: map<Key, Row>, request: FieldRequest<string>, request': FieldRequest<string>)
    requires Caller(request).Some? && Caller(request').Some? && request.arguments == request'.arguments
    ensures After(rows, request) == After(rows, request')
  {
  }

  /**
   * In a canonical table the delete removes exactly the comment found, which
   * is then no longer found under its id there, and the table stays canonical.
   */
  lemma DeleteRemovesComment(rows: map<Key, Row>, request: FieldRequest<string>)
    requires Invariants.Canonical(rows)
    requires Caller(request).Some? && ReactionsClient.GetComment(rows, request.arguments).Some?
    ensures var k := ReactionsClient.GetComment(rows, request.arguments).value.0;
            && After(rows, request) == rows - {k}
            && ReactionsClient.CommentKeys(After(rows, request), request.arguments)
               == ReactionsClient.CommentKeys(rows, request.arguments) - {k}
            && Invariants.Canonical(After(rows, request))
  {
    Invariants.FoundCommentKey(rows, request.arguments);
  }

  /**
   * The likes on a deleted comment stay behind: every like row that named it
   * is still stored and still counted towards the post.
   */
  lemma LikesOutliveComment(rows: map<Key, Row>, request: FieldRequest<string>, j: Key)
    requires Invariants.Canonical(rows)
    requires j in rows && rows[j].LikeRow? && rows[j].commentId == Some(request.arguments)
    ensures j in After(rows, request) && After(rows, request)[j] == rows[j]
  {
    if Caller(request).Some? && ReactionsClient.GetComment(rows, request.arguments).Some? {
      Invariants.FoundCommentKey(rows, request.arguments);
    }
  }
}
