/**
 * lambda/updatePost.ts: a signed-in user edits a post's channel, title and
 * content. The handler looks the post up by id, builds an update whose maps
 * start with an `author` placeholder pair, and sends it. Every failure is
 * caught and answers null.
 *
 * The key helpers the handler imports, `getPrimaryKey` and
 * `getSortKeyForPost`, do not exist: the key modules export only
 * `getChannelPrimaryKey` and `getPostSortKey`. As written the key is
 * therefore never built and the store is never reached; the catch answers
 * null and the table is unchanged, the same outcome the refused update
 * below gives. To model the update the handler evidently means, the model
 * reads them as the post's own channel and post sort key, the key every
 * other handler stores a post under.
 */
module UpdatePost {
  import opened Wrappers
  import opened Types
  import opened Store
  import PrimaryKey
  import UpdateExpression
  import ChannelsClient
  import Invariants

  /** The `post` argument of the mutation. */
  datatype PostEdit = PostEdit(postId: string, channelId: string, title: string, content: string)

  /** The argument's attribute names, in the order it declares them. */
  const EditAttributes: seq<string> := ["postId", "channelId", "title", "content"]

  /** The maps the handler starts from: with the author pair, or (corrected) empty. */
  function StartMaps(username: string, declareAuthor: bool): UpdateExpression.Maps {
    if declareAuthor then
      UpdateExpression.Maps(map["#author" := "author"], map[":author" := UpdateExpression.Bound(username)])
    else UpdateExpression.Maps(map[], map[])
  }

  /** The parameters the builder loop produces from those maps. */
  function EditParams(username: string, declareAuthor: bool): UpdateExpression.Params {
    var m := StartMaps(username, declareAuthor);
    UpdateExpression.Params(UpdateExpression.Expression(EditAttributes, "postId"),
                            UpdateExpression.Names(m.names, EditAttributes, "postId"),
                            UpdateExpression.Values(m.values, EditAttributes, "postId"))
  }

  /** The post with the edit's channel, title and content. */
  function Edited(post: Post, edit: PostEdit): Post {
    post.(channelId := edit.channelId, title := edit.title, content := edit.content)
  }

  /** The update applied under `k`, when a post row is stored there. */
  function Apply(rows: map<Key, Row>, k: Key, edit: PostEdit): map<Key, Row> {
    if k in rows && rows[k].PostRow? then rows[k := PostRow(Edited(rows[k].post, edit))] else rows
  }

  /** The store accepts the update: someone is signed in, the post exists, and the placeholders check out. */
  predicate Applies(rows: map<Key, Row>, request: FieldRequest<PostEdit>, declareAuthor: bool) {
    && Caller(request).Some?
    && ChannelsClient.GetPost(rows, request.arguments.postId).Some?
    && UpdateExpression.Accepted(EditParams(Caller(request).value, declareAuthor), EditAttributes, "postId")
  }

  /** The table after the handler. */
  function After(rows: map<Key, Row>, request: FieldRequest<PostEdit>, declareAuthor: bool): map<Key, Row> {
    if Applies(rows, request, declareAuthor) then
      Apply(rows, ChannelsClient.PostKey(ChannelsClient.GetPost(rows, request.arguments.postId).value.1), request.arguments)
    else rows
  }

  /**
   * The handler; `declareAuthor` true is the code as written, false the
   * corrected one that starts from empty maps.
   */
  method UpdatePost(db: Backend, request: FieldRequest<PostEdit>, declareAuthor: bool) returns (r: Response<PostEdit>)
    modifies db
    ensures db.rows == After(old(db.rows), request, declareAuthor)
    ensures r == if Applies(old(db.rows), request, declareAuthor) then Value(request.arguments) else NullResult
    ensures db.queue == old(db.queue) && db.objects == old(db.objects)
  {
    var edit := request.arguments;
    var caller := Caller(request);
    if caller.None? {
      return NullResult;
    }
    var found := ChannelsClient.GetPost(db.rows, edit.postId);
    if found.None? {
      return NullResult;
    }
    var built := UpdateExpression.Build(EditAttributes, "postId", Some(StartMaps(caller.value, declareAuthor)));
    var params := built.value;
    if !UpdateExpression.Accepted(params, EditAttributes, "postId") {
      return NullResult;
    }
    db.rows := Apply(db.rows, ChannelsClient.PostKey(found.value.1), edit);
    return Value(edit);
  }

  /** For a key followed by three other attributes, the loop builds one assignment per other attribute. */
  lemma KeyThenThree(k: string, a: string, b: string, c: string)
    requires a != k && b != k && c != k
    ensures UpdateExpression.Expression([k, a, b, c], k)
         == "set " + UpdateExpression.Clause(a) + ", " + UpdateExpression.Clause(b) + ", " + UpdateExpression.Clause(c)
  {
    var e := [k, a, b, c];
    var c1, c2, c3 := UpdateExpression.Clause(a), UpdateExpression.Clause(b), UpdateExpression.Clause(c);
    assert e[..3] == [k, a, b] && e[..3][..2] == [k, a] && e[..3][..2][..1] == [k] && [k][..0] == [];
    assert UpdateExpression.Clauses([k], k) == [];
    assert UpdateExpression.Clauses([k, a], k) == [c1];
    assert UpdateExpression.Clauses([k, a, b], k) == [c1, c2];
    assert UpdateExpression.Clauses(e, k) == [c1, c2, c3];
    assert [c1, c2, c3][..2] == [c1, c2] && [c1, c2][..1] == [c1];
    assert UpdateExpression.Join([c1, c2], ", ") == c1 + ", " + c2;
    assert UpdateExpression.Join([c1, c2, c3], ", ") == c1 + ", " + c2 + ", " + c3;
    assert "set " + (c1 + ", " + c2 + ", " + c3) == "set " + c1 + ", " + c2 + ", " + c3;
  }

  /** The expression the loop builds for the declared attributes: `postId` skipped, one assignment for each other. */
  lemma EditExpression()
    ensures UpdateExpression.Expression(EditAttributes, "postId")
         == "set " + UpdateExpression.Clause("channelId") + ", " + UpdateExpression.Clause("title")
            + ", " + UpdateExpression.Clause("content")
  {
    KeyThenThree("postId", "channelId", "title", "content");
  }

  /**
   * As written, the `#author` and `:author` placeholders are never mentioned
   * by the expression, so the store refuses every update: the handler
   * answers null and the table is unchanged.
   */
  lemma EditAlwaysRefused(rows: map<Key, Row>, request: FieldRequest<PostEdit>)
    ensures !Applies(rows, request, true)
    ensures After(rows, request, true) == rows
  {
    if Caller(request).Some? {
      var u := Caller(request).value;
      forall a | a in EditAttributes && a != "postId"
        ensures "#" + a != "#author"
      {
        assert ("#" + a)[1..] == a;
      }
      UpdateExpression.UnusedStartNameRefused(StartMaps(u, true).names, StartMaps(u, true).values,
                                              EditAttributes, "postId", "#author");
    }
  }

  /**
   * Corrected, the store accepts the update: in a canonical table the found
   * post takes the edit's channel, title and content, and nothing else changes.
   */
  lemma CorrectedEditApplies(rows: map<Key, Row>, request: FieldRequest<PostEdit>)
    requires Invariants.Canonical(rows)
    requires Caller(request).Some? && ChannelsClient.GetPost(rows, request.arguments.postId).Some?
    ensures Applies(rows, request, false)
    ensures var (k, post) := ChannelsClient.GetPost(rows, request.arguments.postId).value;
            After(rows, request, false) == rows[k := PostRow(Edited(post, request.arguments))]
  {
    UpdateExpression.EmptyStartUsesEveryPlaceholder(EditAttributes, "postId");
    Invariants.FoundPostKey(rows, request.arguments.postId);
  }

  /**
   * The edited post stays under its old channel's key, so the corrected
   * update keeps the table canonical exactly when the channel is unchanged.
   */
  lemma EditKeepsCanonical(rows: map<Key, Row>, request: FieldRequest<PostEdit>)
    requires Invariants.Canonical(rows)
    requires Caller(request).Some? && ChannelsClient.GetPost(rows, request.arguments.postId).Some?
    ensures Invariants.Canonical(After(rows, request, false))
            <==> request.arguments.channelId == ChannelsClient.GetPost(rows, request.arguments.postId).value.1.channelId
  {
    var (k, post) := ChannelsClient.GetPost(rows, request.arguments.postId).value;
    var post' := Edited(post, request.arguments);
    CorrectedEditApplies(rows, request);
    PrimaryKey.ChannelPrimaryKeyInjective(post'.channelId, post.channelId);
    assert After(rows, request, false)[k] == PostRow(post');
  }

  /**
   * Even corrected, the update never asks who wrote the post: for the same
   * arguments, any two signed-in callers leave the table the same way.
   */
  lemma AnyCallerEdits(rows: map<Key, Row>, request: FieldRequest<PostEdit>, request': FieldRequest<PostEdit>)
    requires Caller(request).Some? && Caller(request').Some? && request.arguments == request'.arguments
    ensures After(rows, request, false) == After(rows, request', false)
  {
  }
}
