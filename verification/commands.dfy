/** What the command framework attaches to every command: its cooldown. */
module Commands {

  /** The scope a cooldown counts invocations in. `GlobalBucket` is the
      framework's default scope; the one command that uses it, `jisho`, is
      modelled without its registration. */
  datatype Bucket = GlobalBucket | ChannelBucket

  /** At most `rate` invocations per `per` seconds in each bucket. */
  datatype Cooldown = Cooldown(rate: nat, per: nat, bucket: Bucket)

  /** `commands.cooldown(6, 12, commands.BucketType.channel)`, attached to
      every synthesized reaction command. */
  const ReactionCooldown := Cooldown(6, 12, ChannelBucket)

  /** A chat member as the commands see it. */
  datatype User = User(id: int, displayName: string)
}
