/** The caption rule of the reaction commands (`_generate_message`). */
module Composer {
  import opened Outcomes
  import opened Sequences
  import opened Commands

  /** The `user` value the rule is handed: a resolved member, or the raw
      argument text, which is what the user-targeted reaction template
      passes (its parameter is annotated `str`). */
  datatype Target = Member(user: User) | RawText(text: string)

  const ThankYouLine := "Aw, thank you. Here, have one back. :3"

  /** The four lines for a member who targets themself. */
  function SelfLines(kind: string): seq<string>
  {
    ["Okay. :3",
     "Sorry to see you're alone, have a " + kind + " anyway. :<",
     "I'll " + kind + " your face alright. :3",
     ":<"]
  }

  function ThirdPartyLine(kind: string, author: User, target: User): string
  {
    "**" + target.displayName + "**, you got a " + kind + " from **" + author.displayName + "!**"
  }

  /** The caption for an id-bearing target, rules checked in order: no kind,
      the bot itself, the author themself, anyone else. The random pick
      among the self lines is the arbitrary `draw`. */
  function Caption(kind: string, author: User, botId: int, target: User, draw: nat): (r: string)
    ensures kind == "" ==> r == ""
    ensures kind != "" && target.id == botId ==> r == ThankYouLine
    ensures kind != "" && target.id != botId && target.id == author.id ==> r in SelfLines(kind)
    ensures kind != "" && target.id != botId && target.id != author.id ==>
              r == ThirdPartyLine(kind, author, target)
  {
    if kind == "" then ""
    else if target.id == botId then ThankYouLine
    else if target.id == author.id then Pick(SelfLines(kind), draw)
    else ThirdPartyLine(kind, author, target)
  }

  /** Each of the four self lines can be the one chosen. */
  lemma CaptionReachesEverySelfLine(kind: string, author: User, botId: int, i: nat)
    requires kind != "" && author.id != botId && i < 4
    ensures Caption(kind, author, botId, author, i) == SelfLines(kind)[i]
  {
  }

  /** The four branches give distinguishable captions: reading the caption
      tells which rule fired. */
  lemma CaptionRevealsRule(kind: string, author: User, botId: int, target: User, draw: nat)
    ensures Caption(kind, author, botId, target, draw) == "" <==> kind == ""
    ensures kind != "" ==> (Caption(kind, author, botId, target, draw) == ThankYouLine <==> target.id == botId)
    ensures kind != "" && target.id != botId ==>
              (Caption(kind, author, botId, target, draw) in SelfLines(kind) <==> target.id == author.id)
  {
    var r := Caption(kind, author, botId, target, draw);
    var lines := SelfLines(kind);
    assert lines[0][0] == 'O' && lines[1][0] == 'S' && lines[2][0] == 'I' && lines[3][0] == ':';
    assert ThankYouLine[0] == 'A';
    var third := ThirdPartyLine(kind, author, target);
    assert third[0] == '*';
    if kind != "" && target.id != botId && target.id != author.id {
      assert r == third;
      assert r !in lines by {
        forall i | 0 <= i < 4
          ensures lines[i] != third
        {
          assert lines[i][0] != third[0];
        }
      }
    }
  }

  /** `_generate_message`: an empty kind short-circuits before the target is
      touched; otherwise the target's `id` is read, which raises
      `AttributeError` for raw text. */
  function GenerateMessage(kind: string, author: User, botId: int, target: Target, draw: nat): (r: Result<string>)
    ensures kind == "" ==> r == Ok("")
    ensures r.Err? <==> kind != "" && target.RawText?
    ensures r.Err? ==> r.error == AttributeError
    ensures target.Member? ==> r == Ok(Caption(kind, author, botId, target.user, draw))
  {
    if kind == "" then Ok("")
    else match target
      case RawText(_) => Err(AttributeError)
      case Member(u) => Ok(Caption(kind, author, botId, u, draw))
  }
}
