/** The `kill` command: a text reply decided by who the target is. */
module Kill {
  import opened Outcomes
  import opened Sequences
  import opened Commands

  const Emojis: seq<string> := [":gun:", ":knife:", ":eggplant:", ":bear:", ":fox:", ":wolf:", ":snake:",
                                ":broken_heart:", ":crossed_swords:", ":fire:"]

  const InvincibleLine := "Kon kon, I'm invincible! :3"
  const RefusalLine := "I refuse. :<"

  function KilledLine(name: string, emoji: string): string
  {
    "**" + name + "** was killed via " + emoji + "!"
  }

  /** The reply to `kill`. `target` is the member the argument resolved to
      (`None` when it did not resolve); whether that member owns the bot is
      the framework's answer, passed in. The bot check comes before the
      owner check; the random emoji is the arbitrary `draw`. */
  function Kill(target: Option<User>, botId: int, targetIsOwner: bool, draw: nat): (r: Result<string>)
    ensures target.None? <==> r.Err?
    ensures r.Err? ==> r.error == BadArgument
    ensures target.Some? && target.value.id == botId ==> r == Ok(InvincibleLine)
    ensures target.Some? && target.value.id != botId && targetIsOwner ==> r == Ok(RefusalLine)
    ensures target.Some? && target.value.id != botId && !targetIsOwner ==>
              exists e :: e in Emojis && r == Ok(KilledLine(target.value.displayName, e))
  {
    match target
    case None => Err(BadArgument)
    case Some(user) =>
      if user.id == botId then Ok(InvincibleLine)
      else if targetIsOwner then Ok(RefusalLine)
      else Ok(KilledLine(user.displayName, Pick(Emojis, draw)))
  }

  /** Any of the ten emojis can be the one used. */
  lemma KillReachesEveryEmoji(user: User, botId: int, i: nat)
    requires user.id != botId && i < |Emojis|
    ensures Kill(Some(user), botId, false, i) == Ok(KilledLine(user.displayName, Emojis[i]))
  {
  }

  /** The three replies are distinguishable, so the reply tells which rule
      fired: even the bot's owner cannot make the bot refuse to be killed
      nor be killed, and nobody else gets the refusal. */
  lemma KillRevealsRule(user: User, botId: int, targetIsOwner: bool, draw: nat)
    ensures Kill(Some(user), botId, targetIsOwner, draw) == Ok(InvincibleLine) <==> user.id == botId
    ensures Kill(Some(user), botId, targetIsOwner, draw) == Ok(RefusalLine) <==> user.id != botId && targetIsOwner
  {
    var e := Pick(Emojis, draw);
    var k := KilledLine(user.displayName, e);
    assert k[0] == '*' && InvincibleLine[0] == 'K' && RefusalLine[0] == 'I';
  }
}
