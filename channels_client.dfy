/** The post reads and the post update of lambda/utilities/channelsClient.ts. */
module ChannelsClient {
  import opened Wrappers
  import opened Types
  import opened Store
  import PrimaryKey
  import SortKey
  import Text
  import UpdateExpression

  /** The attribute names of a post, in the order the record declares them. */
  const PostAttributes: seq<string> := [
    "postId", "channelId", "title", "content", "author", "timestamp", "status",
    "imagePath", "totalComments", "totalLikes", "topComments", "topLikes"]

  /**
   * The attributes of a post item as a lookup on the `posts` index returns
   * it: the index projects every attribute, so besides the record's own
   * fields the item carries the `pk`, `sk` and `channelUser` its put added.
   */
  const StoredPostAttributes: seq<string> := PostAttributes + ["pk", "sk", "channelUser"]

  /** The table key a post is stored and updated under. */
  function PostKey(p: Post): Key {
    Key(PrimaryKey.ChannelPrimaryKey(p.channelId), SortKey.PostSortKey(p.postId, p.timestamp))
  }

  /** The keys of the post rows an index query on `postId` matches. */
  function PostKeys(rows: map<Key, Row>, postId: string): set<Key> {
    set k | k in rows && rows[k].PostRow? && rows[k].post.postId == postId
  }

  /**
   * `getPost`: the least-keyed post row whose `postId` matches (the model's
   * reading of `Items[0]`), with its key, or None when no post row matches.
   */
  function GetPost(rows: map<Key, Row>, postId: string): (r: Option<(Key, Post)>)
    ensures r.None? <==> PostKeys(rows, postId) == {}
    ensures r.Some? ==> IsLeast(PostKeys(rows, postId), r.value.0)
                        && r.value.0 in rows && rows[r.value.0] == PostRow(r.value.1)
                        && r.value.1.postId == postId
  {
    var s := PostKeys(rows, postId);
    if s == {} then None
    else
      var k := Least(s);
      Some((k, rows[k].post))
  }

  /**
   * Rows stored by kind: post rows under a channel partition, reaction rows
   * under a reaction partition.
   */
  ghost predicate PartitionedByKind(rows: map<Key, Row>) {
    forall k :: k in rows ==>
      if rows[k].PostRow? then exists c :: k.pk == PrimaryKey.ChannelPrimaryKey(c)
      else exists c, u :: k.pk == PrimaryKey.ReactionPrimaryKey(c, u)
  }

  /** Every row an index query on `postId` matches, whatever its kind. */
  function RowsOfPost(rows: map<Key, Row>, postId: string): set<Key> {
    set k | k in rows && PostIdOf(rows[k]) == postId
  }

  /**
   * The real `posts` index also holds the comment and like rows of the post.
   * In the model's assumed order, where `Items[0]` is the least matching key,
   * a query that matches a post row returns that post row first when rows
   * are partitioned by kind: channel partitions sort before reaction
   * partitions. The store promises no such order, so without it the real
   * `getPost` may return a reaction row.
   */
  lemma PostRowSortsFirst(rows: map<Key, Row>, postId: string)
    requires PartitionedByKind(rows)
    requires PostKeys(rows, postId) != {}
    ensures GetPost(rows, postId).Some?
    ensures Least(RowsOfPost(rows, postId)) == GetPost(rows, postId).value.0
  {
    var all, posts := RowsOfPost(rows, postId), PostKeys(rows, postId);
    var m, p := Least(all), GetPost(rows, postId).value.0;
    assert p in all;
    OnlyPostsSortBeforePosts(rows, p, m);
    assert m in posts;
    KeyBelowAntisymmetric();
  }

  /** A like on the post is among the rows the `posts` index query matches, although it is no post row. */
  lemma LikeSharesPostIndex(rows: map<Key, Row>, postId: string, k: Key)
    requires k in rows && rows[k].LikeRow? && rows[k].postId == postId
    ensures k in RowsOfPost(rows, postId) && k !in PostKeys(rows, postId)
  {
  }

  /** Under a partition by kind, a row that sorts at or before a post row is a post row. */
  lemma OnlyPostsSortBeforePosts(rows: map<Key, Row>, p: Key, k: Key)
    requires PartitionedByKind(rows)
    requires p in rows && rows[p].PostRow? && k in rows
    ensures KeyBelow(k, p) ==> rows[k].PostRow?
  {
    if !rows[k].PostRow? {
      var c :| p.pk == PrimaryKey.ChannelPrimaryKey(c);
      var c', u :| k.pk == PrimaryKey.ReactionPrimaryKey(c', u);
      assert p.pk[0] == 'C' && k.pk[0] == 'R';
    }
  }

  /** `username || null`: the value bound to `:author`. */
  function AuthorParam(username: Option<string>): Option<string> {
    match username
    case Some(u) => if u != "" then Some(u) else None
    case None => None
  }

  /**
   * The listing filter: a post row that is live, or processing and written
   * by the caller. The post-row test stands for `attribute_exists(postId)`,
   * which reaction rows also pass; the two agree on channel partitions,
   * which canonical tables fill with post rows only.
   */
  predicate Visible(row: Row, username: Option<string>) {
    row.PostRow? &&
    (row.post.status == Live ||
     (row.post.status == Processing && AuthorParam(username) == Some(row.post.author)))
  }

  /** The keys in a channel's partition that pass the listing filter. */
  function VisibleKeys(rows: map<Key, Row>, channelId: string, username: Option<string>): set<Key> {
    set k | k in rows && k.pk == PrimaryKey.ChannelPrimaryKey(channelId) && Visible(rows[k], username)
  }

  /** The keys of `s`, each once, from the last to the first in key order. */
  function Descending(s: set<Key>): (ks: seq<Key>)
    ensures |ks| == |s|
    ensures forall k :: k in ks <==> k in s
    ensures forall i, j :: 0 <= i < j < |ks| ==> KeyBelow(ks[j], ks[i]) && ks[i] != ks[j]
    decreases |s|
  {
    if s == {} then []
    else
      var m := Least(s);
      Descending(s - {m}) + [m]
  }

  /** The keys of a channel's partition, whatever rows they hold. */
  function PartitionKeys(rows: map<Key, Row>, channelId: string): set<Key> {
    set k | k in rows && k.pk == PrimaryKey.ChannelPrimaryKey(channelId)
  }

  /**
   * The keys the single query page reads before the filter applies: the
   * partition from the last key down, cut after `size` items.
   */
  function FirstPage(rows: map<Key, Row>, channelId: string, size: PageSize): (ks: seq<Key>)
    ensures |ks| == if |PartitionKeys(rows, channelId)| <= size then |PartitionKeys(rows, channelId)| else size
    ensures forall k :: k in ks ==> k in PartitionKeys(rows, channelId)
    ensures forall i, j :: 0 <= i < j < |ks| ==> KeyBelow(ks[j], ks[i]) && ks[i] != ks[j]
  {
    var all := Descending(PartitionKeys(rows, channelId));
    if |all| <= size then all else all[..size]
  }

  /** The page reads the greatest keys: every key it leaves out sorts below every key it reads. */
  lemma FirstPageIsTop(rows: map<Key, Row>, channelId: string, size: PageSize, k: Key, out: Key)
    requires k in FirstPage(rows, channelId, size)
    requires out in PartitionKeys(rows, channelId) && out !in FirstPage(rows, channelId, size)
    ensures KeyBelow(out, k) && out != k
  {
    var all := Descending(PartitionKeys(rows, channelId));
    assert |all| > size;
    var page := all[..size];
    var i :| 0 <= i < size && page[i] == k;
    var j :| 0 <= j < |all| && all[j] == out;
    assert forall m :: 0 <= m < size ==> page[m] == all[m];
    assert all[i] == k;
  }

  /** A partition of at most one page is read whole. */
  lemma SmallPartitionReadWhole(rows: map<Key, Row>, channelId: string, size: PageSize, k: Key)
    requires |PartitionKeys(rows, channelId)| <= size
    ensures k in FirstPage(rows, channelId, size) <==> k in PartitionKeys(rows, channelId)
  {
  }

  /** A partition larger than one page never has its least key read. */
  lemma LeastKeyBeyondPage(rows: map<Key, Row>, channelId: string, size: PageSize)
    requires |PartitionKeys(rows, channelId)| > size
    ensures Least(PartitionKeys(rows, channelId)) !in FirstPage(rows, channelId, size)
  {
    var ps := PartitionKeys(rows, channelId);
    var all, m := Descending(ps), Least(ps);
    var last := all[|all| - 1];
    assert last in ps;
    KeyBelowAntisymmetric();
    assert forall j :: 0 <= j < |all| - 1 ==> all[j] != m by {
      forall j | 0 <= j < |all| - 1 ensures all[j] != m {
        assert KeyBelow(last, all[j]) && last != all[j];
      }
    }
    assert forall j :: 0 <= j < size ==> all[..size][j] == all[j];
  }

  /** The rows of `ks` that pass the listing filter, in the order of `ks`. */
  function Filtered(rows: map<Key, Row>, ks: seq<Key>, username: Option<string>): (r: seq<(Key, Post)>)
    requires forall k :: k in ks ==> k in rows
    ensures |r| <= |ks|
    ensures forall i :: 0 <= i < |r| ==>
      r[i].0 in ks && Visible(rows[r[i].0], username) && rows[r[i].0] == PostRow(r[i].1)
    decreases |ks|
  {
    if ks == [] then []
    else
      var rest := Filtered(rows, ks[1..], username);
      if Visible(rows[ks[0]], username) then [(ks[0], rows[ks[0]].post)] + rest else rest
  }

  /** The filter drops no key that passes it. */
  lemma {:induction false} FilteredComplete(rows: map<Key, Row>, ks: seq<Key>, username: Option<string>, k: Key)
    requires forall k :: k in ks ==> k in rows
    requires k in ks && Visible(rows[k], username)
    ensures exists i :: 0 <= i < |Filtered(rows, ks, username)| && Filtered(rows, ks, username)[i].0 == k
    decreases |ks|
  {
    var r, rest := Filtered(rows, ks, username), Filtered(rows, ks[1..], username);
    if k == ks[0] {
      assert r[0].0 == k;
    } else {
      assert k in ks[1..];
      FilteredComplete(rows, ks[1..], username, k);
      var i :| 0 <= i < |rest| && rest[i].0 == k;
      if Visible(rows[ks[0]], username) {
        assert r[i + 1].0 == k;
      } else {
        assert r[i].0 == k;
      }
    }
  }

  /** Keys in strictly descending order stay so after the filter. */
  lemma {:induction false} FilteredDescending(rows: map<Key, Row>, ks: seq<Key>, username: Option<string>)
    requires forall k :: k in ks ==> k in rows
    requires forall i, j :: 0 <= i < j < |ks| ==> KeyBelow(ks[j], ks[i]) && ks[i] != ks[j]
    ensures forall i, j :: 0 <= i < j < |Filtered(rows, ks, username)| ==>
      KeyBelow(Filtered(rows, ks, username)[j].0, Filtered(rows, ks, username)[i].0)
      && Filtered(rows, ks, username)[i].0 != Filtered(rows, ks, username)[j].0
    decreases |ks|
  {
    if ks != [] {
      var r, rest := Filtered(rows, ks, username), Filtered(rows, ks[1..], username);
      FilteredDescending(rows, ks[1..], username);
      if Visible(rows[ks[0]], username) {
        assert r == [(ks[0], rows[ks[0]].post)] + rest;
        forall i, j | 0 <= i < j < |r| ensures KeyBelow(r[j].0, r[i].0) && r[i].0 != r[j].0 {
          assert r[j] == rest[j - 1];
          if i == 0 {
            var m :| 0 <= m < |ks[1..]| && ks[1..][m] == r[j].0;
            assert ks[m + 1] == r[j].0;
          } else {
            assert r[i] == rest[i - 1];
          }
        }
      }
    }
  }

  /** Within one partition, descending keys are descending sort keys. */
  lemma SamePartitionDescending(r: seq<(Key, Post)>, pk: string)
    requires forall i :: 0 <= i < |r| ==> r[i].0.pk == pk
    requires forall i, j :: 0 <= i < j < |r| ==> KeyBelow(r[j].0, r[i].0) && r[i].0 != r[j].0
    ensures forall i, j :: 0 <= i < j < |r| ==> Text.Below(r[j].0.sk, r[i].0.sk) && r[i].0.sk != r[j].0.sk
  {
  }

  /**
   * `getChannelPosts`: one query page of the channel's partition, read from
   * the greatest sort key down, keeping the post rows that pass the
   * visibility filter. `LastEvaluatedKey` is never followed. The source
   * filters on `attribute_exists(postId)`, which every row kind satisfies;
   * `Visible` asks for a post row instead, which agrees with the source
   * because a channel partition holds only post rows in a table every
   * handler keeps canonical.
   */
  function GetChannelPosts(rows: map<Key, Row>, channelId: string, username: Option<string>, size: PageSize): (r: seq<(Key, Post)>)
    ensures |r| <= size
    ensures forall i :: 0 <= i < |r| ==>
      r[i].0 in rows && rows[r[i].0] == PostRow(r[i].1) && r[i].0.pk == PrimaryKey.ChannelPrimaryKey(channelId)
      && (r[i].1.status == Live || (r[i].1.status == Processing && AuthorParam(username) == Some(r[i].1.author)))
      && r[i].0 in FirstPage(rows, channelId, size)
    ensures forall i, j :: 0 <= i < j < |r| ==> Text.Below(r[j].0.sk, r[i].0.sk) && r[i].0.sk != r[j].0.sk
  {
    var ks := FirstPage(rows, channelId, size);
    var r := Filtered(rows, ks, username);
    FilteredDescending(rows, ks, username);
    SamePartitionDescending(r, PrimaryKey.ChannelPrimaryKey(channelId));
    r
  }

  /** A key is listed exactly when it passes the filter and lies on the page read. */
  lemma ListingComplete(rows: map<Key, Row>, channelId: string, username: Option<string>, size: PageSize, k: Key)
    ensures (exists i :: 0 <= i < |GetChannelPosts(rows, channelId, username, size)|
                         && GetChannelPosts(rows, channelId, username, size)[i].0 == k)
            <==> k in VisibleKeys(rows, channelId, username) && k in FirstPage(rows, channelId, size)
  {
    var r := GetChannelPosts(rows, channelId, username, size);
    if k in VisibleKeys(rows, channelId, username) && k in FirstPage(rows, channelId, size) {
      FilteredComplete(rows, FirstPage(rows, channelId, size), username, k);
    }
  }

  /** When the partition fits in one page the listing holds every visible post. */
  lemma SmallPartitionListedWhole(rows: map<Key, Row>, channelId: string, username: Option<string>, size: PageSize, k: Key)
    requires |PartitionKeys(rows, channelId)| <= size
    ensures (exists i :: 0 <= i < |GetChannelPosts(rows, channelId, username, size)|
                         && GetChannelPosts(rows, channelId, username, size)[i].0 == k)
            <==> k in VisibleKeys(rows, channelId, username)
  {
    ListingComplete(rows, channelId, username, size, k);
    SmallPartitionReadWhole(rows, channelId, size, k);
  }

  /** A visible post at the partition's least key is not listed once the partition outgrows a page. */
  lemma OldestPostMissed(rows: map<Key, Row>, channelId: string, username: Option<string>, size: PageSize)
    requires |PartitionKeys(rows, channelId)| > size
    ensures forall i :: 0 <= i < |GetChannelPosts(rows, channelId, username, size)| ==>
      GetChannelPosts(rows, channelId, username, size)[i].0 != Least(PartitionKeys(rows, channelId))
  {
    LeastKeyBeyondPage(rows, channelId, size);
  }

  /**
   * Without a caller name `:author` is null, which no author equals, so only
   * live posts are listed; a suppressed post is never listed.
   */
  lemma ListingStatuses(rows: map<Key, Row>, channelId: string, username: Option<string>, size: PageSize)
    ensures var r := GetChannelPosts(rows, channelId, username, size);
      && (AuthorParam(username).None? ==> forall i :: 0 <= i < |r| ==> r[i].1.status == Live)
      && (forall i :: 0 <= i < |r| ==> r[i].1.status != Suppressed)
  {
  }

  /**
   * `updatePost` as written, on a post item read back from the table: the
   * name and value maps are never initialised, so the builder fails at the
   * item's first attribute after `postId` and no update reaches the table.
   */
  method UpdatePost(post: Post) returns (r: Result<Key, string>)
    ensures r.Err?
  {
    var built := UpdateExpression.Build(StoredPostAttributes, "postId", None);
    assert UpdateExpression.Clause("channelId") in UpdateExpression.Clauses(StoredPostAttributes, "postId") by {
      UpdateExpression.ClausesCover(StoredPostAttributes, "postId", 1);
    }
    if built.Err? {
      return Err(built.error);
    }
    return Ok(PostKey(post));
  }

  /**
   * Initialising the maps alone does not repair the update: the item read
   * back carries `pk` and `sk`, so the expression would assign a table key,
   * which the store refuses.
   */
  lemma InitialisedStillSetsTableKey()
    ensures UpdateExpression.SetsTableKey(StoredPostAttributes, "postId")
  {
    assert StoredPostAttributes[12] == "pk";
    UpdateExpression.StoredItemSetsTableKey(StoredPostAttributes, "postId", 12);
  }

  /**
   * Corrected `updatePost`: both maps initialised and the table's key
   * attributes skipped. No table key is assigned, every other attribute but
   * `postId` is, and the post's own key then holds the post.
   */
  method UpdatePostCorrected(db: Backend, post: Post) returns (params: UpdateExpression.Params)
    modifies db
    ensures var attributes := UpdateExpression.Without(StoredPostAttributes, UpdateExpression.TableKeyAttributes);
            && params.expression == UpdateExpression.Expression(attributes, "postId")
            && !UpdateExpression.SetsTableKey(attributes, "postId")
    ensures db.rows == old(db.rows)[PostKey(post) := PostRow(post)]
    ensures db.queue == old(db.queue) && db.objects == old(db.objects)
  {
    var attributes := UpdateExpression.Without(StoredPostAttributes, UpdateExpression.TableKeyAttributes);
    var built := UpdateExpression.Build(attributes, "postId", Some(UpdateExpression.Maps(map[], map[])));
    params := built.value;
    UpdateExpression.WithoutTableKeys(StoredPostAttributes, "postId");
    db.rows := db.rows[PostKey(post) := PostRow(post)];
  }
}
