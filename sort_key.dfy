/** The sort keys of lambda/utilities/getSortKey.ts. */
module SortKey {
  import Text

  /** The sort key of a post within its channel partition. */
  function PostSortKey(postId: string, timestamp: nat): string {
    "POST#" + Text.Decimal(timestamp) + "#" + postId
  }

  /** The reaction-time index value of a comment. */
  function CommentSortKey(timestamp: nat): string {
    "COMMENT#" + Text.Decimal(timestamp)
  }

  /** The reaction-time index value of a like. */
  function LikeSortKey(timestamp: nat): string {
    "LIKE#" + Text.Decimal(timestamp)
  }

  /** A post sort key determines both the timestamp and the post id. */
  lemma PostSortKeyInjective(p: string, t: nat, p': string, t': nat)
    ensures PostSortKey(p, t) == PostSortKey(p', t') <==> p == p' && t == t'
  {
    if PostSortKey(p, t) == PostSortKey(p', t') {
      var d, d' := Text.Decimal(t), Text.Decimal(t');
      assert PostSortKey(p, t) == "POST#" + (d + "#" + p);
      assert PostSortKey(p', t') == "POST#" + (d' + "#" + p');
      Text.CancelHead("POST#", d + "#" + p, d' + "#" + p');
      Text.DecimalLacks(t, '#');
      Text.DecimalLacks(t', '#');
      Text.SplitAtFirst(d, p, d', q := p', c := '#');
      Text.DecimalInjective(t, t');
    }
  }

  /** A comment's reaction-time key determines its timestamp. */
  lemma CommentSortKeyInjective(t: nat, t': nat)
    ensures CommentSortKey(t) == CommentSortKey(t') <==> t == t'
  {
    if CommentSortKey(t) == CommentSortKey(t') {
      Text.CancelHead("COMMENT#", Text.Decimal(t), Text.Decimal(t'));
      Text.DecimalInjective(t, t');
    }
  }

  /** A like's reaction-time key determines its timestamp. */
  lemma LikeSortKeyInjective(t: nat, t': nat)
    ensures LikeSortKey(t) == LikeSortKey(t') <==> t == t'
  {
    if LikeSortKey(t) == LikeSortKey(t') {
      Text.CancelHead("LIKE#", Text.Decimal(t), Text.Decimal(t'));
      Text.DecimalInjective(t, t');
    }
  }

  /** The three kinds of key never coincide: they start with different letters. */
  lemma SortKeyKindsDiffer(p: string, t1: nat, t2: nat, t3: nat)
    ensures PostSortKey(p, t1) != CommentSortKey(t2)
    ensures PostSortKey(p, t1) != LikeSortKey(t3)
    ensures CommentSortKey(t2) != LikeSortKey(t3)
  {
    assert PostSortKey(p, t1)[0] == 'P';
    assert CommentSortKey(t2)[0] == 'C';
    assert LikeSortKey(t3)[0] == 'L';
  }

  /** Each sort key starts with the prefix that names its kind. */
  lemma SortKeyPrefixes(p: string, t: nat)
    ensures PostSortKey(p, t)[..5] == "POST#"
    ensures CommentSortKey(t)[..8] == "COMMENT#"
    ensures LikeSortKey(t)[..5] == "LIKE#"
  {
  }
}
