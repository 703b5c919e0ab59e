/**
 * lambda/processImage.ts: on an upload notification for an
 * `original.<ext>` file, store a thumbnail and a full-size JPEG next to it.
 * Its key checks are the same as the width handler's.
 */
module ProcessImage {
  import opened Wrappers
  import opened Store
  import Text
  import ProcessImageHandler

  const ThumbnailHeight: nat := 250
  const FullHeight: nat := 1000
  const ThumbnailFileName: string := "sm"
  const FullsizeFileName: string := "lg"

  /** The body stored for a target height: resized when the source is known to be taller, else the source. */
  function Scaled(body: Body, meta: Metadata, height: nat): (b: Body)
    ensures b != body <==> meta.height.Some? && meta.height.value > height
    ensures b != body ==> b.Resized? && b.height == Some(height) && b.width.None?
  {
    if meta.height.Some? && meta.height.value > height then
      ProcessImageHandler.NotOwnSource(body, None, Some(height));
      Resized(body, None, Some(height))
    else body
  }

  function ThumbnailKey(prefix: string): string {
    prefix + ThumbnailFileName + ".jpg"
  }

  function FullKey(prefix: string): string {
    prefix + FullsizeFileName + ".jpg"
  }

  /**
   * The bucket after one notification. The thumbnail is written first and
   * the full image only after it; `smOk` is false when anything up to and
   * including the thumbnail write fails, `lgOk` when the second write does.
   */
  function After(objects: map<string, Body>, key: string, meta: Option<Metadata>, smOk: bool, lgOk: bool): map<string, Body> {
    if !ProcessImageHandler.IsOriginal(key) || key !in objects || meta.None? || !smOk then objects
    else
      var p, b := ProcessImageHandler.KeyPrefix(key), objects[key];
      var m := objects[ThumbnailKey(p) := Scaled(b, meta.value, ThumbnailHeight)];
      if lgOk then m[FullKey(p) := Scaled(b, meta.value, FullHeight)] else m
  }

  /** `processImage`. */
  method ProcessImage(db: Backend, key: string, meta: Option<Metadata>, smOk: bool, lgOk: bool)
    modifies db
    ensures db.objects == After(old(db.objects), key, meta, smOk, lgOk)
    ensures db.rows == old(db.rows) && db.queue == old(db.queue)
  {
    if !ProcessImageHandler.IsOriginal(key) {
      return;
    }
    var prefix := ProcessImageHandler.KeyPrefix(key);
    if key !in db.objects {
      return;
    }
    if meta.None? {
      return;
    }
    var body := db.objects[key];
    var thumbnail := Scaled(body, meta.value, ThumbnailHeight);
    var fullImage := Scaled(body, meta.value, FullHeight);
    if !smOk {
      return;
    }
    db.objects := db.objects[ThumbnailKey(prefix) := thumbnail];
    if !lgOk {
      return;
    }
    db.objects := db.objects[FullKey(prefix) := fullImage];
  }

  /** A name ending in a character other than 'l' and `.jpg` does not end in `original.jpg`. */
  lemma NotOriginalName(prefix: string, name: string)
    requires |name| > 0 && name[|name| - 1] != 'l'
    ensures !Text.EndsWith(prefix + name + ".jpg", "original.jpg")
  {
    var key := prefix + name + ".jpg";
    if |key| >= 12 {
      assert key[|key| - 5] == name[|name| - 1];
      assert key[|key| - 12..][7] == key[|key| - 5];
    }
  }

  /** Such a name, followed by `.jpg`, is never accepted as an original. */
  lemma OutputNotOriginal(prefix: string, name: string)
    requires |name| > 0 && name[|name| - 1] != 'l'
    ensures !ProcessImageHandler.IsOriginal(prefix + name + ".jpg")
  {
    assert prefix + name + ".jpg" == (prefix + name) + ['.'] + "jpg";
    Text.LastSeparator(prefix + name, "jpg", '.');
    NotOriginalName(prefix, name);
  }

  /**
   * The two output keys differ, neither is accepted as an original (so
   * writing them starts no further pass), and neither is the source.
   */
  lemma OutputKeys(key: string)
    requires ProcessImageHandler.IsOriginal(key)
    ensures var p := ProcessImageHandler.KeyPrefix(key);
            && ThumbnailKey(p) != FullKey(p)
            && !ProcessImageHandler.IsOriginal(ThumbnailKey(p)) && !ProcessImageHandler.IsOriginal(FullKey(p))
            && ThumbnailKey(p) != key && FullKey(p) != key
  {
    var p := ProcessImageHandler.KeyPrefix(key);
    assert ThumbnailKey(p)[|p|] == 's' && FullKey(p)[|p|] == 'l';
    OutputNotOriginal(p, ThumbnailFileName);
    OutputNotOriginal(p, FullsizeFileName);
  }

  /** The full image is resized only when the thumbnail is, since a source taller than 1000 is taller than 250. */
  lemma FullResizedOnlyWithThumbnail(body: Body, meta: Metadata)
    ensures Scaled(body, meta, FullHeight) != body ==> Scaled(body, meta, ThumbnailHeight) != body
  {
  }

  /**
   * For an accepted, stored, decodable key with both writes succeeding, the
   * source is kept, both outputs are stored, and a second notification for
   * the same key changes nothing.
   */
  lemma ProcessImageOutcome(objects: map<string, Body>, key: string, meta: Metadata)
    requires ProcessImageHandler.IsOriginal(key) && key in objects
    ensures var p, m := ProcessImageHandler.KeyPrefix(key), After(objects, key, Some(meta), true, true);
            && key in m && m[key] == objects[key]
            && ThumbnailKey(p) in m && m[ThumbnailKey(p)] == Scaled(objects[key], meta, ThumbnailHeight)
            && FullKey(p) in m && m[FullKey(p)] == Scaled(objects[key], meta, FullHeight)
            && After(m, key, Some(meta), true, true) == m
  {
    OutputKeys(key);
    var p, m := ProcessImageHandler.KeyPrefix(key), After(objects, key, Some(meta), true, true);
    assert m[ThumbnailKey(p) := Scaled(objects[key], meta, ThumbnailHeight)]
             [FullKey(p) := Scaled(objects[key], meta, FullHeight)] == m;
  }
}
