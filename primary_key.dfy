/** The partition and index keys of lambda/utilities/getPrimaryKey.ts. */
module PrimaryKey {
  import Text

  /** The partition key of a channel's posts. */
  function ChannelPrimaryKey(channelId: string): string {
    "CHANNEL#" + channelId
  }

  /** The partition key of the reactions one user made in one channel. */
  function ReactionPrimaryKey(channelId: string, username: string): string {
    "REACTION#" + channelId + "#" + username
  }

  /** The index key of a user's posts in a channel; it carries no kind prefix. */
  function ChannelUserKey(channelId: string, username: string): string {
    channelId + "#" + username
  }

  /** The index key shared by every reaction row of one post; it carries no kind prefix. */
  function ChannelPostKey(channelId: string, postId: string): string {
    channelId + "#" + postId
  }

  /** The channel partition key is the channel id behind a fixed prefix, so it is injective. */
  lemma ChannelPrimaryKeyInjective(c: string, c': string)
    ensures ChannelPrimaryKey(c) == ChannelPrimaryKey(c') <==> c == c'
  {
    if ChannelPrimaryKey(c) == ChannelPrimaryKey(c') {
      Text.CancelHead("CHANNEL#", c, c');
    }
  }

  /** For one post id, the post scope key determines the channel. */
  lemma ChannelPostKeyDeterminesChannel(c: string, c': string, p: string)
    ensures ChannelPostKey(c, p) == ChannelPostKey(c', p) <==> c == c'
  {
    if ChannelPostKey(c, p) == ChannelPostKey(c', p) {
      assert ChannelPostKey(c, p) == c + ("#" + p) && ChannelPostKey(c', p) == c' + ("#" + p);
      Text.CancelTail(c, c', "#" + p);
    }
  }

  /** With a channel id free of '#', the reaction partition key determines channel and user. */
  lemma ReactionPrimaryKeyInjective(c: string, u: string, c': string, u': string)
    requires '#' !in c && '#' !in c'
    ensures ReactionPrimaryKey(c, u) == ReactionPrimaryKey(c', u') <==> c == c' && u == u'
  {
    if ReactionPrimaryKey(c, u) == ReactionPrimaryKey(c', u') {
      assert ReactionPrimaryKey(c, u) == "REACTION#" + (c + "#" + u);
      assert ReactionPrimaryKey(c', u') == "REACTION#" + (c' + "#" + u');
      Text.CancelHead("REACTION#", c + "#" + u, c' + "#" + u');
      Text.SplitAtFirst(c, u, c', u', '#');
    }
  }

  /** A '#' inside the channel id lets two different (channel, user) pairs share a reaction partition. */
  lemma ReactionPrimaryKeyCollision()
    ensures ReactionPrimaryKey("a#b", "c") == ReactionPrimaryKey("a", "b#c")
  {
  }

  /** Channel and reaction partitions never coincide: their prefixes differ in the first character. */
  lemma ChannelAndReactionKeysDiffer(c: string, c': string, u: string)
    ensures ChannelPrimaryKey(c) != ReactionPrimaryKey(c', u)
  {
    assert ChannelPrimaryKey(c)[0] == 'C';
    assert ReactionPrimaryKey(c', u)[0] == 'R';
  }

  /** The user index key and the post index key are the same string for the same pair. */
  lemma ChannelUserKeyIsChannelPostKey(c: string, x: string)
    ensures ChannelUserKey(c, x) == ChannelPostKey(c, x)
  {
  }
}
