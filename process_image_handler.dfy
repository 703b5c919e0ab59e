/**
 * lambda/processImageHandler.ts: on an upload notification, check that the
 * object is an `original.<ext>` file, read it, and store one JPEG
 * derivative per width next to it.
 */
module ProcessImageHandler {
  import opened Wrappers
  import opened Store
  import Text

  const OriginalFileName: string := "original"

  /** The derivative widths, in the order they are started. */
  const ImageSizes: seq<nat> := [240, 320, 480, 640, 750, 1080]

  /**
   * `getExtension`: the text after the last '.'. The guard tests the index
   * for truthiness, so with no '.' at all (index -1) the whole key comes
   * back, and with the only relevant '.' at index 0 nothing does.
   */
  function GetExtension(key: string): (e: Option<string>)
    ensures e.None? <==> Text.LastIndexOf(key, '.') == 0
    ensures e.Some? ==> '.' !in e.value && Text.EndsWith(key, e.value)
    ensures '.' !in key ==> e == Some(key)
  {
    var i := Text.LastIndexOf(key, '.');
    if i != 0 then Some(key[i + 1..]) else None
  }

  /** The validity check: a non-empty extension, and the key ends in `original.` and that extension. */
  predicate IsOriginal(key: string) {
    var e := GetExtension(key);
    e.Some? && e.value != "" && Text.EndsWith(key, OriginalFileName + "." + e.value)
  }

  /** A key without a '.' is always refused: its extension would be the whole key. */
  lemma NoDotRefused(key: string)
    requires '.' !in key
    ensures !IsOriginal(key)
  {
  }

  /** Any stem followed by `original.` and a non-empty, '.'-free extension is accepted, with that extension. */
  lemma OriginalAccepted(stem: string, e: string)
    requires e != "" && '.' !in e
    ensures GetExtension(stem + "original." + e) == Some(e)
    ensures IsOriginal(stem + "original." + e)
  {
    var key := stem + "original." + e;
    assert key == (stem + "original") + ['.'] + e;
    Text.LastSeparator(stem + "original", e, '.');
    assert key[|key| - |"original." + e|..] == "original." + e;
  }

  /** Conversely, an accepted key is a stem, `original.`, and its non-empty, '.'-free extension. */
  lemma AcceptedIsOriginal(key: string)
    requires IsOriginal(key)
    ensures var e := GetExtension(key).value;
            && e != "" && '.' !in e
            && key == key[..|key| - |e| - 9] + "original." + e
  {
    var e := GetExtension(key).value;
    var s := OriginalFileName + "." + e;
    assert key[|key| - |s|..] == s;
    assert key == key[..|key| - |s|] + key[|key| - |s|..];
  }

  /** The key's directory: everything up to and including its last '/', or nothing. */
  function KeyPrefix(key: string): (p: string)
    ensures |p| <= |key| && p == key[..|p|]
    ensures p == "" || p[|p| - 1] == '/'
    ensures '/' !in key[|p|..]
    ensures '/' !in key ==> p == ""
  {
    key[..Text.LastIndexOf(key, '/') + 1]
  }

  /** The key of the derivative of width `width`. */
  function DerivativeKey(prefix: string, width: nat): string {
    prefix + Text.Decimal(width) + ".jpg"
  }

  /**
   * `saveImage`'s body for one width: resized to that width when the
   * source's width is known and larger, otherwise the source as it is.
   */
  function Derivative(body: Body, meta: Metadata, width: nat): (b: Body)
    ensures b != body <==> meta.width.Some? && meta.width.value > width
    ensures b != body ==> b.Resized? && b.width == Some(width) && b.height.None?
  {
    if meta.width.Some? && meta.width.value > width then
      NotOwnSource(body, Some(width), None);
      Resized(body, Some(width), None)
    else body
  }

  /** A resize is never the body it resizes. */
  lemma NotOwnSource(b: Body, width: Option<nat>, height: Option<nat>)
    ensures Resized(b, width, height) != b
  {
    if b.Resized? {
      NotOwnSource(b.source, b.width, b.height);
    }
  }

  /** The bucket after the derivative writes for `widths`, each stored unless its width is in `failed`. */
  function Saved(objects: map<string, Body>, prefix: string, body: Body, meta: Metadata,
                 widths: seq<nat>, failed: set<nat>): map<string, Body>
    decreases |widths|
  {
    if widths == [] then objects
    else
      var m := Saved(objects, prefix, body, meta, widths[..|widths| - 1], failed);
      var w := widths[|widths| - 1];
      if w in failed then m else m[DerivativeKey(prefix, w) := Derivative(body, meta, w)]
  }

  /**
   * The six writes. They run concurrently in the handler and each may fail
   * on its own; since their keys differ, the order is immaterial and the
   * model writes them in turn. `failed` holds the widths whose resize or
   * write fails.
   */
  method SaveImages(db: Backend, prefix: string, body: Body, meta: Metadata, failed: set<nat>)
    modifies db
    ensures db.objects == Saved(old(db.objects), prefix, body, meta, ImageSizes, failed)
    ensures db.rows == old(db.rows) && db.queue == old(db.queue)
  {
    var i := 0;
    while i < |ImageSizes|
      invariant 0 <= i <= |ImageSizes|
      invariant db.objects == Saved(old(db.objects), prefix, body, meta, ImageSizes[..i], failed)
      invariant db.rows == old(db.rows) && db.queue == old(db.queue)
    {
      var w := ImageSizes[i];
      assert ImageSizes[..i + 1][..i] == ImageSizes[..i];
      if w !in failed {
        db.objects := db.objects[DerivativeKey(prefix, w) := Derivative(body, meta, w)];
      }
      i := i + 1;
    }
    assert ImageSizes[..i] == ImageSizes;
  }

  /** The bucket after one notification for `key`; `meta` is None when the image cannot be decoded. */
  function After(objects: map<string, Body>, key: string, meta: Option<Metadata>, failed: set<nat>): map<string, Body> {
    if !IsOriginal(key) || key !in objects || meta.None? then objects
    else Saved(objects, KeyPrefix(key), objects[key], meta.value, ImageSizes, failed)
  }

  /**
   * `processImage`: a refused key causes no read and no write; a missing
   * object or an undecodable one ends the attempt; otherwise the six
   * derivatives are written next to the source.
   */
  method ProcessImage(db: Backend, key: string, meta: Option<Metadata>, failed: set<nat>)
    modifies db
    ensures db.objects == After(old(db.objects), key, meta, failed)
    ensures db.rows == old(db.rows) && db.queue == old(db.queue)
  {
    if !IsOriginal(key) {
      return;
    }
    var prefix := KeyPrefix(key);
    if key !in db.objects {
      return;
    }
    if meta.None? {
      return;
    }
    SaveImages(db, prefix, db.objects[key], meta.value, failed);
  }

  /** Different widths give different derivative keys. */
  lemma DerivativeKeyInjective(prefix: string, w: nat, w': nat)
    ensures DerivativeKey(prefix, w) == DerivativeKey(prefix, w') <==> w == w'
  {
    if DerivativeKey(prefix, w) == DerivativeKey(prefix, w') {
      assert DerivativeKey(prefix, w) == prefix + (Text.Decimal(w) + ".jpg");
      assert DerivativeKey(prefix, w') == prefix + (Text.Decimal(w') + ".jpg");
      Text.CancelHead(prefix, Text.Decimal(w) + ".jpg", Text.Decimal(w') + ".jpg");
      Text.CancelTail(Text.Decimal(w), Text.Decimal(w'), ".jpg");
      Text.DecimalInjective(w, w');
    }
  }

  /** A derivative's key is never accepted, so storing derivatives never starts another pass. */
  lemma DerivativeNotOriginal(prefix: string, w: nat)
    ensures GetExtension(DerivativeKey(prefix, w)) == Some("jpg")
    ensures !IsOriginal(DerivativeKey(prefix, w))
  {
    var d := Text.Decimal(w);
    var key := DerivativeKey(prefix, w);
    assert key == (prefix + d) + ['.'] + "jpg";
    Text.LastSeparator(prefix + d, "jpg", '.');
    DigitsBeforeJpg(prefix, d);
  }

  /** A name ending in a digit and `.jpg` does not end in `original.jpg`. */
  lemma DigitsBeforeJpg(prefix: string, d: string)
    requires |d| > 0 && Text.IsDigits(d)
    ensures !Text.EndsWith(prefix + d + ".jpg", "original.jpg")
  {
    var key := prefix + d + ".jpg";
    if |key| >= 12 {
      assert key[|key| - 5] == d[|d| - 1];
      assert key[|key| - 12..][7] == key[|key| - 5];
    }
  }

  /** Every width that did not fail has its derivative stored, whatever came before. */
  lemma {:induction false} SavedAt(objects: map<string, Body>, prefix: string, body: Body, meta: Metadata,
                                   widths: seq<nat>, failed: set<nat>, i: int)
    requires 0 <= i < |widths| && widths[i] !in failed
    ensures var m := Saved(objects, prefix, body, meta, widths, failed);
            DerivativeKey(prefix, widths[i]) in m && m[DerivativeKey(prefix, widths[i])] == Derivative(body, meta, widths[i])
    decreases |widths|
  {
    var init, w := widths[..|widths| - 1], widths[|widths| - 1];
    if i < |widths| - 1 {
      assert init[i] == widths[i];
      SavedAt(objects, prefix, body, meta, init, failed, i);
      DerivativeKeyInjective(prefix, w, widths[i]);
    }
  }

  /** No key other than a derivative's is touched. */
  lemma {:induction false} SavedElsewhere(objects: map<string, Body>, prefix: string, body: Body, meta: Metadata,
                                          widths: seq<nat>, failed: set<nat>, k: string)
    requires forall i :: 0 <= i < |widths| ==> k != DerivativeKey(prefix, widths[i])
    ensures var m := Saved(objects, prefix, body, meta, widths, failed);
            (k in m <==> k in objects) && (k in objects ==> m[k] == objects[k])
    decreases |widths|
  {
    if widths != [] {
      var init := widths[..|widths| - 1];
      assert forall i :: 0 <= i < |init| ==> init[i] == widths[i];
      SavedElsewhere(objects, prefix, body, meta, init, failed, k);
    }
  }

  /** Writing what is already stored changes nothing. */
  lemma {:induction false} SavedWhenPresent(objects: map<string, Body>, prefix: string, body: Body, meta: Metadata,
                                            widths: seq<nat>, failed: set<nat>)
    requires forall i :: 0 <= i < |widths| && widths[i] !in failed ==>
               DerivativeKey(prefix, widths[i]) in objects
               && objects[DerivativeKey(prefix, widths[i])] == Derivative(body, meta, widths[i])
    ensures Saved(objects, prefix, body, meta, widths, failed) == objects
    decreases |widths|
  {
    if widths != [] {
      var init := widths[..|widths| - 1];
      assert forall i :: 0 <= i < |init| ==> init[i] == widths[i];
      SavedWhenPresent(objects, prefix, body, meta, init, failed);
    }
  }

  /**
   * For an accepted key that is stored and decodable: every width that did
   * not fail has its derivative next to the source, the source itself is
   * kept, and a second notification for the same key changes nothing.
   */
  lemma ProcessImageOutcome(objects: map<string, Body>, key: string, meta: Metadata, failed: set<nat>)
    requires IsOriginal(key) && key in objects
    ensures var m := After(objects, key, Some(meta), failed);
            && (forall i :: 0 <= i < |ImageSizes| && ImageSizes[i] !in failed ==>
                  DerivativeKey(KeyPrefix(key), ImageSizes[i]) in m
                  && m[DerivativeKey(KeyPrefix(key), ImageSizes[i])] == Derivative(objects[key], meta, ImageSizes[i]))
            && key in m && m[key] == objects[key]
            && After(m, key, Some(meta), failed) == m
  {
    var p, b := KeyPrefix(key), objects[key];
    var m := After(objects, key, Some(meta), failed);
    forall i | 0 <= i < |ImageSizes| && ImageSizes[i] !in failed
      ensures DerivativeKey(p, ImageSizes[i]) in m && m[DerivativeKey(p, ImageSizes[i])] == Derivative(b, meta, ImageSizes[i])
    {
      SavedAt(objects, p, b, meta, ImageSizes, failed, i);
    }
    forall i | 0 <= i < |ImageSizes|
      ensures key != DerivativeKey(p, ImageSizes[i])
    {
      DerivativeNotOriginal(p, ImageSizes[i]);
    }
    SavedElsewhere(objects, p, b, meta, ImageSizes, failed, key);
    SavedWhenPresent(m, p, b, meta, ImageSizes, failed);
  }
}
