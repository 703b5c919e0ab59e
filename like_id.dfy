/** The like identifier of lambda/utilities/getLikeId.ts. */
module LikeId {
  import opened Wrappers
  import Text

  /** The comment id part as the template sees it: a missing or empty id is falsy. */
  function CommentPart(commentId: Option<string>): string {
    match commentId
    case Some(k) => k
    case None => ""
  }

  /**
   * The like id: five ':'-separated fields when a (truthy) comment id is
   * given, four otherwise. The user name is always the last field.
   */
  function LikeId(channelId: string, postId: string, username: string, commentId: Option<string>): string {
    var k := CommentPart(commentId);
    if k != "" then "LIKE:" + channelId + ":" + postId + ":" + k + ":" + username
    else "LIKE:" + channelId + ":" + postId + ":" + username
  }

  /** The user-name field of a like id: what follows its last ':'. */
  function LikeIdUser(likeId: string): (u: string)
    ensures ':' !in u
  {
    likeId[Text.LastIndexOf(likeId, ':') + 1..]
  }

  /** No ':' in any field. */
  predicate ColonFree(s: string) {
    ':' !in s
  }

  /** An empty comment id is treated exactly as a missing one. */
  lemma EmptyCommentIdIsAbsent(c: string, p: string, u: string)
    ensures LikeId(c, p, u, Some("")) == LikeId(c, p, u, None)
  {
  }

  /** With a ':'-free user name, the user is read back from the id. */
  lemma LikeIdNamesUser(c: string, p: string, u: string, k: Option<string>)
    requires ColonFree(u)
    ensures LikeIdUser(LikeId(c, p, u, k)) == u
  {
    var id := LikeId(c, p, u, k);
    var head := id[..|id| - |u| - 1];
    assert id == head + [':'] + u;
    Text.LastSeparator(head, u, ':');
  }

  /** The number of separators in a string. */
  function Colons(s: string): nat {
    multiset(s)[':']
  }

  /**
   * With ':'-free fields, equal like ids have equal fields and an equal
   * comment part, and conversely: a post like and a comment like never
   * share an id, and no two users share one.
   */
  lemma LikeIdInjective(c: string, p: string, u: string, k: Option<string>,
                        c': string, p': string, u': string, k': Option<string>)
    requires ColonFree(c) && ColonFree(p) && ColonFree(u) && ColonFree(CommentPart(k))
    requires ColonFree(c') && ColonFree(p') && ColonFree(u') && ColonFree(CommentPart(k'))
    ensures LikeId(c, p, u, k) == LikeId(c', p', u', k') <==>
            c == c' && p == p' && u == u' && CommentPart(k) == CommentPart(k')
  {
    var id, id' := LikeId(c, p, u, k), LikeId(c', p', u', k');
    if id == id' {
      var m, m' := CommentPart(k), CommentPart(k');
      var r := if m != "" then m + ":" + u else u;
      var r' := if m' != "" then m' + ":" + u' else u';
      assert id == "LIKE:" + (c + ":" + (p + ":" + r));
      assert id' == "LIKE:" + (c' + ":" + (p' + ":" + r'));
      Text.CancelHead("LIKE:", c + ":" + (p + ":" + r), c' + ":" + (p' + ":" + r'));
      Text.SplitAtFirst(c, p + ":" + r, c', p' + ":" + r', ':');
      Text.SplitAtFirst(p, r, p', r', ':');
      TailColons(m, u);
      TailColons(m', u');
      if m != "" && m' != "" {
        Text.SplitAtFirst(m, u, m', u', ':');
      }
    }
  }

  /** The fields after the post id hold one separator when a comment id is present, none otherwise. */
  lemma TailColons(m: string, u: string)
    requires ColonFree(m) && ColonFree(u)
    ensures Colons(if m != "" then m + ":" + u else u) == (if m != "" then 1 else 0)
  {
    assert multiset(m)[':'] == 0 && multiset(u)[':'] == 0;
    assert multiset(m + ":" + u) == multiset(m) + multiset(":") + multiset(u);
  }
}
