/**
 * The single table every entity kind shares, the work queue and the image
 * bucket, as the handlers see them: a map from (pk, sk) to a typed row, a
 * sequence of queued reaction events and a map from object key to body.
 */
module Store {
  import opened Wrappers
  import opened Types
  import Text

  /** The table's primary key. */
  datatype Key = Key(pk: string, sk: string)

  /** The order in which a query without a sort condition lists rows: by pk, then by sk. */
  predicate KeyBelow(a: Key, b: Key) {
    if a.pk == b.pk then Text.Below(a.sk, b.sk) else Text.Below(a.pk, b.pk)
  }

  lemma KeyBelowTotal(a: Key, b: Key)
    ensures KeyBelow(a, b) || KeyBelow(b, a)
  {
    Text.BelowTotal(a.pk, b.pk);
    Text.BelowTotal(a.sk, b.sk);
  }

  lemma KeyBelowTransitive(a: Key, b: Key, c: Key)
    requires KeyBelow(a, b) && KeyBelow(b, c)
    ensures KeyBelow(a, c)
  {
    if a.pk == b.pk && b.pk == c.pk {
      Text.BelowTransitive(a.sk, b.sk, c.sk);
    } else if a.pk == b.pk {
      assert Text.Below(a.pk, c.pk);
    } else if b.pk == c.pk {
      assert Text.Below(a.pk, c.pk);
    } else {
      Text.BelowTransitive(a.pk, b.pk, c.pk);
      if a.pk == c.pk {
        Text.BelowAntisymmetric(a.pk, b.pk);
      }
    }
  }

  /** KeyBelow is antisymmetric, for every pair of keys at once. */
  lemma KeyBelowAntisymmetric()
    ensures forall a: Key, b: Key :: KeyBelow(a, b) && KeyBelow(b, a) ==> a == b
  {
    forall a: Key, b: Key | KeyBelow(a, b) && KeyBelow(b, a) ensures a == b {
      if a.pk == b.pk {
        Text.BelowAntisymmetric(a.sk, b.sk);
      } else {
        Text.BelowAntisymmetric(a.pk, b.pk);
      }
    }
  }

  /** `k` is the first of the keys in `s`. */
  predicate IsLeast(s: set<Key>, k: Key) {
    k in s && forall j :: j in s ==> KeyBelow(k, j)
  }

  /** Every non-empty finite set of keys has a first key. */
  lemma {:induction false} LeastExists(s: set<Key>)
    requires s != {}
    ensures exists k :: IsLeast(s, k)
    decreases |s|
  {
    var x :| x in s;
    if s - {x} == {} {
      assert s == {x};
      Text.BelowReflexive(x.sk);
      assert IsLeast(s, x);
    } else {
      LeastExists(s - {x});
      var m :| IsLeast(s - {x}, m);
      KeyBelowTotal(x, m);
      if KeyBelow(x, m) {
        forall j | j in s ensures KeyBelow(x, j) {
          if j == x {
            Text.BelowReflexive(x.sk);
          } else {
            KeyBelowTransitive(x, m, j);
          }
        }
        assert IsLeast(s, x);
      } else {
        assert IsLeast(s, m);
      }
    }
  }

  /**
   * The first key of a non-empty set in the model's key order. The store
   * promises no order among index items that share a partition key; the
   * model assumes that `Items[0]` of such a query is the least matching key.
   */
  function Least(s: set<Key>): (k: Key)
    requires s != {}
    ensures IsLeast(s, k)
  {
    LeastExists(s);
    KeyBelowAntisymmetric();
    var k :| IsLeast(s, k); k
  }

  /** The first key of a set with one more key is the old first key or the new one. */
  lemma LeastOfInsert(s: set<Key>, t: Key)
    requires s != {}
    ensures Least(s + {t}) == Least(s) || Least(s + {t}) == t
  {
    var m, m' := Least(s), Least(s + {t});
    KeyBelowAntisymmetric();
    if m' != t {
      assert m' in s;
      assert KeyBelow(m', m) && KeyBelow(m, m');
    }
  }

  /**
   * A stored row. Post rows carry the declared Post record. Comment rows carry
   * the declared Comment record plus the attributes the producer adds. Like
   * rows carry what the like producers write, which has no post timestamp.
   * The kind each row reports as `reactionType` is its constructor.
   */
  datatype Row =
    | PostRow(post: Post)
    | CommentRow(comment: Comment, status: CommentStatus, channelPost: string, reactionTimestamp: string)
    | LikeRow(channelId: string, postId: string, likeId: string, commentId: Option<string>,
              author: string, timestamp: nat, status: CommentStatus,
              channelPost: string, reactionTimestamp: string)

  /** The `reactionType` attribute of a row; post rows have none. */
  function ReactionTypeOf(row: Row): Option<ReactionType> {
    match row
    case PostRow(_) => None
    case CommentRow(_, _, _, _) => Some(CommentReaction)
    case LikeRow(_, _, _, _, _, _, _, _, _) => Some(LikeReaction)
  }

  /** The `commentId` attribute of a row, when it has one. */
  function CommentIdOf(row: Row): Option<string> {
    match row
    case PostRow(_) => None
    case CommentRow(c, _, _, _) => Some(c.commentId)
    case LikeRow(_, _, _, k, _, _, _, _, _) => k
  }

  /** The `postId` attribute every row has. */
  function PostIdOf(row: Row): string {
    match row
    case PostRow(p) => p.postId
    case CommentRow(c, _, _, _) => c.postId
    case LikeRow(_, p, _, _, _, _, _, _, _) => p
  }

  /**
   * A reaction event: the body of a queue message, as the producers build it
   * and the aggregator parses it. `reactionType` is the raw wire string.
   */
  datatype ReactionRequest = ReactionRequest(
    channelId: string, postId: string, commentId: Option<string>, reactionType: string)

  /** An object in the image bucket: an upload, or a resize of another body. */
  datatype Body = Upload(data: seq<bv8>) | Resized(source: Body, width: Option<nat>, height: Option<nat>)

  /** The image metadata the resize decisions read; either dimension may be unknown. */
  datatype Metadata = Metadata(width: Option<nat>, height: Option<nat>)

  /** A strictly positive page size, chosen by the store. */
  type PageSize = n: nat | n > 0 witness 1

  /**
   * One page of a counting query: how many matches it covers and, when more
   * remain, the continuation token to resume from. A token is modelled as
   * the number of matches already covered.
   */
  datatype Page = Page(count: Option<nat>, lastEvaluatedKey: Option<nat>)

  /**
   * The page the store returns for a query with `total` matches, resumed at
   * `start` (None for the first page): up to `size` matches, and a token
   * exactly when matches remain after this page.
   */
  function Paged(total: nat, size: PageSize, start: Option<nat>): (p: Page)
    ensures p.count.Some?
    ensures p.lastEvaluatedKey.Some? <==> start.GetOr(0) + size < total
    ensures p.lastEvaluatedKey.Some? ==> start.GetOr(0) < p.lastEvaluatedKey.value < total
  {
    var s := start.GetOr(0);
    if s >= total then Page(Some(0), None)
    else if s + size < total then Page(Some(size), Some(s + size))
    else Page(Some(total - s), None)
  }

  /**
   * The single table, the reaction queue and the image bucket. The handlers
   * receive this as their only dependency and change it in place.
   */
  class Backend {
    var rows: map<Key, Row>
    var queue: seq<ReactionRequest>
    var objects: map<string, Body>

    constructor (rows0: map<Key, Row>, queue0: seq<ReactionRequest>, objects0: map<string, Body>)
      ensures rows == rows0 && queue == queue0 && objects == objects0
    {
      rows := rows0;
      queue := queue0;
      objects := objects0;
    }
  }
}
