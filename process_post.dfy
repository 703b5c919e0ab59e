/**
 * lambda/processPostHandler.ts: for a queued post id, read the post's
 * uploaded image, store the six width derivatives next to it, and then
 * write the post back as live.
 */
module ProcessPost {
  import opened Wrappers
  import opened Types
  import opened Store
  import Text
  import ChannelsClient
  import Invariants
  import ProcessImageHandler

  /** The directory of a post's images. */
  function ImagePrefix(post: Post): string {
    "public/images/" + post.channelId + "/" + post.postId + "/"
  }

  /** The key of a post's uploaded image. */
  function ImageKey(post: Post): string {
    ImagePrefix(post) + post.imagePath
  }

  /** Every one of the six writes succeeded, so their combined promise resolves. */
  predicate AllSaved(failed: set<nat>) {
    forall i :: 0 <= i < |ProcessImageHandler.ImageSizes| ==> ProcessImageHandler.ImageSizes[i] !in failed
  }

  /** The bucket after one message. */
  function ObjectsAfter(rows: map<Key, Row>, objects: map<string, Body>, postId: string,
                        meta: Option<Metadata>, failed: set<nat>): map<string, Body> {
    match ChannelsClient.GetPost(rows, postId)
    case None => objects
    case Some((_, post)) =>
      if ImageKey(post) !in objects || meta.None? then objects
      else ProcessImageHandler.Saved(objects, ImagePrefix(post), objects[ImageKey(post)], meta.value,
                                     ProcessImageHandler.ImageSizes, failed)
  }

  /** The table after one message: the found post, live, under the key it was found at. */
  function RowsAfter(rows: map<Key, Row>, objects: map<string, Body>, postId: string,
                     meta: Option<Metadata>, failed: set<nat>, putOk: bool): map<Key, Row> {
    match ChannelsClient.GetPost(rows, postId)
    case None => rows
    case Some((k, post)) =>
      if ImageKey(post) in objects && meta.Some? && AllSaved(failed) && putOk
      then rows[k := PostRow(post.(status := Live))]
      else rows
  }

  /**
   * `processPost`. A missing post ends the message with no write. A
   * missing object (the read throws) or an undecodable one (`meta` None)
   * ends it before any write. Otherwise the derivatives are written, each
   * unless its width is in `failed`; if any failed, the combined promise
   * rejects and the status write is skipped; `putOk` is the store's answer
   * to that write.
   */
  method ProcessPost(db: Backend, postId: string, meta: Option<Metadata>, failed: set<nat>, putOk: bool)
    modifies db
    ensures db.objects == ObjectsAfter(old(db.rows), old(db.objects), postId, meta, failed)
    ensures db.rows == RowsAfter(old(db.rows), old(db.objects), postId, meta, failed, putOk)
    ensures db.queue == old(db.queue)
  {
    var found := ChannelsClient.GetPost(db.rows, postId);
    if found.None? {
      return;
    }
    var (k, post) := found.value;
    var prefix := ImagePrefix(post);
    var key := prefix + post.imagePath;
    if key !in db.objects {
      return;
    }
    if meta.None? {
      return;
    }
    ProcessImageHandler.SaveImages(db, prefix, db.objects[key], meta.value, failed);
    if !AllSaved(failed) {
      return;
    }
    if !putOk {
      return;
    }
    db.rows := db.rows[k := PostRow(post.(status := Live))];
  }

  /** With a '/'-free image path, the derivatives go where the upload handler would put them. */
  lemma SamePrefixAsUploadHandler(post: Post)
    requires '/' !in post.imagePath
    ensures ProcessImageHandler.KeyPrefix(ImageKey(post)) == ImagePrefix(post)
  {
    var x := "public/images/" + post.channelId + "/" + post.postId;
    assert ImageKey(post) == x + ['/'] + post.imagePath;
    assert ImagePrefix(post) == x + ['/'];
    Text.LastSeparator(x, post.imagePath, '/');
  }

  /**
   * The post goes live only after the image is read and every derivative is
   * stored, whatever its previous status (a suppressed post becomes live
   * again); no other field and no other row changes.
   */
  lemma GoesLiveAfterDerivatives(rows: map<Key, Row>, objects: map<string, Body>, postId: string,
                                 meta: Option<Metadata>, failed: set<nat>, putOk: bool)
    requires RowsAfter(rows, objects, postId, meta, failed, putOk) != rows
    ensures ChannelsClient.GetPost(rows, postId).Some?
    ensures var (k, post) := ChannelsClient.GetPost(rows, postId).value;
            var m := ObjectsAfter(rows, objects, postId, meta, failed);
            && ImageKey(post) in objects && meta.Some?
            && RowsAfter(rows, objects, postId, meta, failed, putOk) == rows[k := PostRow(post.(status := Live))]
            && forall i :: 0 <= i < |ProcessImageHandler.ImageSizes| ==>
                 var d := ProcessImageHandler.DerivativeKey(ImagePrefix(post), ProcessImageHandler.ImageSizes[i]);
                 d in m && m[d] == ProcessImageHandler.Derivative(objects[ImageKey(post)], meta.value, ProcessImageHandler.ImageSizes[i])
  {
    var (k, post) := ChannelsClient.GetPost(rows, postId).value;
    forall i | 0 <= i < |ProcessImageHandler.ImageSizes|
      ensures var d := ProcessImageHandler.DerivativeKey(ImagePrefix(post), ProcessImageHandler.ImageSizes[i]);
              var m := ObjectsAfter(rows, objects, postId, meta, failed);
              d in m && m[d] == ProcessImageHandler.Derivative(objects[ImageKey(post)], meta.value, ProcessImageHandler.ImageSizes[i])
    {
      ProcessImageHandler.SavedAt(objects, ImagePrefix(post), objects[ImageKey(post)], meta.value,
                                  ProcessImageHandler.ImageSizes, failed, i);
    }
  }

  /** The write-back keeps a canonical table canonical. */
  lemma RowsAfterCanonical(rows: map<Key, Row>, objects: map<string, Body>, postId: string,
                           meta: Option<Metadata>, failed: set<nat>, putOk: bool)
    requires Invariants.Canonical(rows)
    ensures Invariants.Canonical(RowsAfter(rows, objects, postId, meta, failed, putOk))
  {
    if ChannelsClient.GetPost(rows, postId).Some? {
      Invariants.FoundPostKey(rows, postId);
    }
  }

  /** An image named like a derivative is overwritten by the derivative of that width. */
  lemma ImageNamedLikeDerivative(post: Post)
    requires post.imagePath == "240.jpg"
    ensures ImageKey(post) == ProcessImageHandler.DerivativeKey(ImagePrefix(post), 240)
  {
    assert Text.Decimal(240) == "240";
  }

  /**
   * Redelivery is harmless: when the first delivery succeeded and the image
   * is not named like a derivative, a second delivery of the same message
   * changes neither the table nor the bucket.
   */
  lemma RedeliveryChangesNothing(rows: map<Key, Row>, objects: map<string, Body>, postId: string,
                                 meta: Metadata, failed: set<nat>)
    requires ChannelsClient.GetPost(rows, postId).Some?
    requires var post := ChannelsClient.GetPost(rows, postId).value.1;
             && ImageKey(post) in objects
             && forall i :: 0 <= i < |ProcessImageHandler.ImageSizes| ==>
                  ImageKey(post) != ProcessImageHandler.DerivativeKey(ImagePrefix(post), ProcessImageHandler.ImageSizes[i])
    requires AllSaved(failed)
    ensures var rows', objects' := RowsAfter(rows, objects, postId, Some(meta), failed, true),
                                   ObjectsAfter(rows, objects, postId, Some(meta), failed);
            && RowsAfter(rows', objects', postId, Some(meta), failed, true) == rows'
            && ObjectsAfter(rows', objects', postId, Some(meta), failed) == objects'
  {
    var (k, post) := ChannelsClient.GetPost(rows, postId).value;
    var live := post.(status := Live);
    var rows' := rows[k := PostRow(live)];
    var p, b := ImagePrefix(post), objects[ImageKey(post)];
    var objects' := ProcessImageHandler.Saved(objects, p, b, meta, ProcessImageHandler.ImageSizes, failed);
    assert ChannelsClient.PostKeys(rows', postId) == ChannelsClient.PostKeys(rows, postId);
    assert ChannelsClient.GetPost(rows', postId) == Some((k, live));
    assert ImagePrefix(live) == p && ImageKey(live) == ImageKey(post);
    ProcessImageHandler.SavedElsewhere(objects, p, b, meta, ProcessImageHandler.ImageSizes, failed, ImageKey(post));
    forall i | 0 <= i < |ProcessImageHandler.ImageSizes| && ProcessImageHandler.ImageSizes[i] !in failed
      ensures ProcessImageHandler.DerivativeKey(p, ProcessImageHandler.ImageSizes[i]) in objects'
              && objects'[ProcessImageHandler.DerivativeKey(p, ProcessImageHandler.ImageSizes[i])]
                 == ProcessImageHandler.Derivative(b, meta, ProcessImageHandler.ImageSizes[i])
    {
      ProcessImageHandler.SavedAt(objects, p, b, meta, ProcessImageHandler.ImageSizes, failed, i);
    }
    ProcessImageHandler.SavedWhenPresent(objects', p, b, meta, ProcessImageHandler.ImageSizes, failed);
    assert rows'[k := PostRow(live.(status := Live))] == rows';
  }
}
