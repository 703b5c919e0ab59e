/** The enums and record shapes of lambda/types.ts. */
module Types {
  import opened Wrappers

  /** A post's lifecycle state. */
  datatype PostStatus = Processing | Live | Suppressed

  /** The discriminator stored on every reaction row and carried by every reaction event. */
  datatype ReactionType = CommentReaction | LikeReaction

  /** The only status a comment, or a like, is written with. */
  datatype CommentStatus = CommentLive

  /** The wire value of a post status. */
  function PostStatusName(s: PostStatus): string {
    match s
    case Processing => "processing"
    case Live => "live"
    case Suppressed => "suppressed"
  }

  /** The wire value of a reaction type, as it appears in an event body. */
  function ReactionTypeName(t: ReactionType): string {
    match t
    case CommentReaction => "comment"
    case LikeReaction => "like"
  }

  /** A post; `totalComments` and `totalLikes` are stored numbers, not row counts. */
  datatype Post = Post(
    postId: string,
    channelId: string,
    title: string,
    content: string,
    author: string,
    timestamp: nat,
    status: PostStatus,
    imagePath: string,
    totalComments: nat,
    totalLikes: nat,
    topComments: seq<string>,
    topLikes: seq<string>)

  /** A comment; `postTimestamp` lets the post's sort key be rebuilt. */
  datatype Comment = Comment(
    channelId: string,
    postId: string,
    commentId: string,
    author: string,
    comment: string,
    timestamp: nat,
    totalLikes: nat,
    topLikes: seq<string>,
    postTimestamp: nat)

  /** A like, declared with an optional `commentId` and a `postTimestamp`. */
  datatype Like = Like(
    channelId: string,
    postId: string,
    likeId: string,
    commentId: Option<string>,
    author: string,
    timestamp: nat,
    postTimestamp: nat)

  datatype Identity = Identity(username: string)

  /** A resolver request: its arguments and, when the caller is signed in, an identity. */
  datatype FieldRequest<R> = FieldRequest(arguments: R, identity: Option<Identity>)

  /**
   * `identity?.username` tested for truthiness, as every handler does: the
   * caller's name, or None when there is no identity or the name is empty.
   */
  function Caller<R>(request: FieldRequest<R>): (u: Option<string>)
    ensures u.Some? <==> request.identity.Some? && request.identity.value.username != ""
    ensures u.Some? ==> u.value == request.identity.value.username
  {
    match request.identity
    case Some(id) => if id.username != "" then Some(id.username) else None
    case None => None
  }

  /**
   * What a resolver hands back to the API: an error it throws, a `null`, or
   * a value.
   */
  datatype Response<T> = Rejected(reason: string) | NullResult | Value(value: T)

  /** Distinct statuses and distinct reaction types have distinct wire values. */
  lemma WireNamesDistinct(s: PostStatus, s': PostStatus, t: ReactionType, t': ReactionType)
    ensures PostStatusName(s) == PostStatusName(s') <==> s == s'
    ensures ReactionTypeName(t) == ReactionTypeName(t') <==> t == t'
  {
  }
}
