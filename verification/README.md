# Reaction commands and Jisho lookup — a Dafny model

This project models two parts of a chat-bot add-on.

1. **The reaction-command synthesis engine.** It lives in `cogs/fun/reactions.py`. The `Reactions` cog reads a table that maps a command key to a descriptor object. For every usable entry it builds one chat command:
   - the name is the key;
   - the aliases come from the descriptor;
   - the help text is derived from the key;
   - the handler is one of three templates;
   - the cooldown is 6 uses per 12 seconds per channel.

   The model also covers the caption rule (`_generate_message`), the image picker (`_send_image`) and the `kill` command.
2. **The `jisho` dictionary lookup.** It lives in `cogs/lookup/jisho.py`. The model covers how the query text is assembled and how the service's status and parsed response become the messages sent.

Everything is modelled as pure functions over immutable datatypes:
- Parsed JSON is the datatype `Json`.
- A raised Python exception is the `Err` case of `Result`.
- A random choice is an arbitrary `draw: nat` argument. The lemmas show that the result is always one of the candidates and that every candidate can occur.
- The Discord context is passed in as plain values: ids, display names, and whether the target owns the bot.

Modules, leaf first:
- `Outcomes` (outcomes.dfy): `Option`, `Result`, and the exception kinds.
- `JsonValues` (json.dfy): JSON values, Python truthiness, `dict.get`, and hashability.
- `Strings` (strings.dfy): `join`, `split`, and `capitalize`.
- `Sequences` (sequences.dfy): subsequences, `list.remove`, and random choice.
- `Commands` (commands.dfy): cooldowns and users.
- `Aliases` (aliases.dfy): the alias-removal loop exactly as written, and the filter it was meant to be.
- `Composer` (composer.dfy): the caption rule.
- `Renderer` (renderer.dfy): the image embed.
- `Reactions` and `ReactionExamples` (reactions.dfy): template choice, command building, the synthesis loop, handler invocation, and worked tables.
- `Kill` (kill.dfy): the `kill` decision table.
- `Jisho` (jisho.dfy): query assembly and the reply.

The model follows what the code does, including where it departs from the evident design:
- An empty `images` list is accepted. Only "is a list" is tested.
- Every falsy `message` other than null selects the user-targeted template, not only `""`. This includes `0`, `false`, `[]` and `{}`.
- Alias clashes are checked only against the commands that existed before the cog. Commands built earlier in the same batch are stored with `setattr` and never join that set.
- After an empty result list the lookup does not stop. It goes on to index `[0]` and raises.
- `jisho` uses `commands.cooldown(6, 12)` with the default global bucket, not a per-channel one. Only the reaction cooldown is part of the model; see Left out.

## Model

| member | source | states |
|---|---|---|
| JsonValues.Get | cogs/fun/reactions.py:70 | `descriptor.get(k)` returns the stored value of a present key and reads as null exactly when the key is missing or holds JSON null, so "absent" and "null" cannot be told apart |
| Strings.Capitalize | cogs/fun/reactions.py:74 | the help-text stem spells the key ignoring case, its first character is not a lower-case letter, and no later character is upper-case |
| Strings.CapitalizeIdempotent | cogs/fun/reactions.py:74 | capitalising an already capitalised key changes nothing |
| Strings.SplitJoin | cogs/lookup/jisho.py:41 | splitting a newline-joined reply on newlines gives back its lines when no line contains a newline |
| Sequences.RemoveFirstSpec | cogs/fun/reactions.py:99 | `list.remove` deletes exactly one copy of the value, the first one, and keeps the order of the rest |
| Sequences.Pick | cogs/fun/reactions.py:39 | a random choice from a non-empty list is one of its elements |
| Sequences.PickReachesEvery | cogs/fun/reactions.py:39 | every element of the list can be the one chosen |
| Aliases.ResolveAsWritten | cogs/fun/reactions.py:96-99 | the loop as written can raise only `TypeError`, which needs an unhashable alias; what it leaves is a subsequence of the declared aliases whose intended filter equals theirs, so it differs from them only in clashing aliases |
| Aliases.IterateRemovingKeeps | cogs/fun/reactions.py:97-99 | from any iterator position, the list the loop leaves is a subsequence of the list it started from and keeps every alias that is not already a command |
| Aliases.ResolveAsWrittenKeeps | cogs/fun/reactions.py:96-99 | the resolved aliases are a subsequence of the declared ones and contain every declared alias that is not already a command name or alias |
| Aliases.IterateRemovingSucceeds | cogs/fun/reactions.py:97-98 | the loop never raises when no alias is a list or an object |
| Aliases.PassedClashSurvives | cogs/fun/reactions.py:97-99 | once a clashing alias is behind the iterator, some clashing alias is still in the final list |
| Aliases.ReachPosition | cogs/fun/reactions.py:97-99 | until two neighbouring clashes are met, the loop state is the intended filter of the prefix read so far followed by the untouched rest |
| Aliases.NoAdjacentClashGivesIntended | cogs/fun/reactions.py:96-99 | when no two neighbouring declared aliases clash, the loop's result is exactly the intended filter |
| Aliases.AdjacentClashLeavesClash | cogs/fun/reactions.py:96-99 | when two neighbouring declared aliases clash, the loop's result differs from the intended filter |
| Aliases.MatchesIntendedIffNoAdjacentClash | cogs/fun/reactions.py:96-99 | for hashable aliases, the loop computes the intended filter if and only if no two neighbouring declared aliases are both existing commands |
| Aliases.SecondOfTwoClashesSurvives | cogs/fun/reactions.py:97-99 | declared aliases `pet`, `pat` that both exist resolve to `[pat]`, while the intended filter gives `[]` |
| Aliases.IntendedSpec | cogs/fun/reactions.py:96-99 | the intended filter `Intended` keeps, in order, exactly the declared aliases that are not already commands, each as many times as it is declared, and drops every clashing alias |
| Composer.Caption | cogs/fun/reactions.py:20-33 | caption rules in order: an empty kind gives `""`; the bot as target gives the thank-you line; the author as target gives one of the four self lines; anyone else gives the line naming target, kind and author |
| Composer.CaptionReachesEverySelfLine | cogs/fun/reactions.py:26-30 | each of the four self-target lines can be the one chosen |
| Composer.CaptionRevealsRule | cogs/fun/reactions.py:22-32 | the caption tells which rule fired: it is empty iff the kind is empty, it is the thank-you line iff the target is the bot, and it is a self line iff the target is the author |
| Composer.GenerateMessage | cogs/fun/reactions.py:20-33 | an empty kind gives `""` for any target without touching it; otherwise the rule raises `AttributeError` exactly when the target is raw text, and for a member it is the caption rule |
| Renderer.SendImage | cogs/fun/reactions.py:36-43 | a list image sends one of its elements and an empty list raises `IndexError`; any other value is sent unchanged; the caption becomes the description unchanged |
| Renderer.SendImageReachesEvery | cogs/fun/reactions.py:38-39 | every image of the list can be the one sent |
| Reactions.ChooseTemplate | cogs/fun/reactions.py:70-93 | template choice depends only on `message`: null or absent gives no caption; any other falsy value gives the user-targeted template; a truthy value becomes the fixed caption itself |
| Reactions.HelpText | cogs/fun/reactions.py:74-89 | the help text is the key up to letter case, with a first character that is not a lower-case letter and no later key character upper-case, followed by " a user!" for the user-targeted template and "!" for the other two |
| Reactions.HelpTextTellsUserTemplate | cogs/fun/reactions.py:74-89 | for one key, the help texts of two templates are equal iff both or neither are user-targeted |
| Reactions.HelpTextIgnoresCase | cogs/fun/reactions.py:74-89 | within one template family, two keys share a help text iff they differ only in letter case |
| Reactions.ResolveAliases | cogs/fun/reactions.py:96-99 | a non-list `aliases` value raises; a list of hashable aliases never raises; what survives is a subsequence of the declared aliases that keeps every alias not already a command |
| Reactions.DeclaredAliasesSpec | cogs/fun/reactions.py:96 | a descriptor without `aliases` resolves to no aliases and never raises, while an explicit null raises `TypeError` in the loop; `get` with the `[]` default tells absent and null apart, unlike `get` without one |
| Reactions.BuildCommand | cogs/fun/reactions.py:57-104 | the validation `Accepted`: a colliding key, a non-object value or a non-list `images` yields no command; an accepted entry yields a command named by its key exactly when alias resolution does not raise, and no command is yielded for any other entry |
| Reactions.BuildCommandSpec | cogs/fun/reactions.py:57-104 | a built command carries its key, the entry's image list, the template chosen by `message` with its help text, the 6-per-12-seconds per-channel cooldown, and aliases that are a subsequence of the declared ones keeping every non-clashing alias |
| Reactions.Synthesize | cogs/fun/reactions.py:57-104 | on success the command names are exactly the accepted keys, one per accepted entry, in input order |
| Reactions.SynthesizeFailsOnlyOnAliases | cogs/fun/reactions.py:57-104 | synthesis succeeds iff no entry's alias resolution raises; a skipped entry never aborts the rest |
| Reactions.SynthesizeBuildsFromEntries | cogs/fun/reactions.py:57-104 | every synthesized command is the command built from one of the entries |
| Reactions.SynthesizeAppend | cogs/fun/reactions.py:57-103 | the collision set is fixed: synthesizing two batches together equals concatenating their separate results |
| Reactions.InvokeSpec | cogs/fun/reactions.py:76-93 | the handler `Invoke`, per template: the plain template sends an image with an empty caption; the fixed one sends it with the descriptor's message; the user-targeted one raises `AttributeError` for every non-empty name; an empty image list raises `IndexError`; any sent image is one of the command's images |
| Reactions.InvokeWithMemberSpec | cogs/fun/reactions.py:83-85 | with the argument resolved to a member, the user-targeted template sends one of the command's images, captioned by the caption rule |
| ReactionExamples.HugBecomesPlainCommand | cogs/fun/reactions.py:73-77 | `{"hug": {"images": [...]}}` yields one zero-argument command `hug` with help "Hug!", no aliases and the fixed cooldown |
| ReactionExamples.EmptyImagesAccepted | cogs/fun/reactions.py:65-81 | an entry with an empty image list and an empty message is accepted as a user-targeted command with help "Pat a user!" |
| ReactionExamples.CollidingOrMalformedSkipped | cogs/fun/reactions.py:60-67 | an already-registered key and a string `images` value both yield nothing |
| ReactionExamples.BatchMayRepeatAnAlias | cogs/fun/reactions.py:96-103 | two commands of one batch that declare the same alias both keep it |
| ReactionExamples.FalsyIndicatorsAskForUser | cogs/fun/reactions.py:70-93 | `0`, `false`, `[]` and `{}` select the user-targeted template, null the plain one, and a non-empty string the fixed caption |
| Kill.Kill | cogs/fun/reactions.py:106-121 | an unresolved target raises; the bot gets the invincible line even if it is an owner; an owner gets the refusal; anyone else gets the killed line with one of the ten emojis |
| Kill.KillReachesEveryEmoji | cogs/fun/reactions.py:119-121 | each of the ten emojis can be the one used |
| Kill.KillRevealsRule | cogs/fun/reactions.py:115-121 | the reply is the invincible line iff the target is the bot, and the refusal iff the target is an owner other than the bot |
| Jisho.QueryOf | cogs/lookup/jisho.py:17-23 | no argument is a missing-argument error; a lone token gives the token and a trailing space; two or more tokens give their space-join |
| Jisho.QueryIsJoin | cogs/lookup/jisho.py:23 | the query text `Query` is the space-join of all tokens, except that a lone token keeps a trailing space |
| Jisho.QuerySplitsIntoTokens | cogs/lookup/jisho.py:23 | splitting the query on spaces gives back the tokens when none contains a space; a lone token comes back with an extra empty piece |
| Jisho.Lookup | cogs/lookup/jisho.py:27-43 | a non-200 status sends only the unreachable line; with status 200 it fails iff the result list, the first form list or the first sense list is empty; an empty result list sends "No result found." and then fails; success sends exactly one message |
| Jisho.UnreachableIgnoresBody | cogs/lookup/jisho.py:27-43 | the reply to a non-200 status does not depend on the response body |
| Jisho.SuccessReplyLines | cogs/lookup/jisho.py:33-41 | a successful reply, built by `ReplyLines`, is one message; when no reply line contains a newline, splitting it on newlines gives back the Kanji, Kana and English lines in that order |
| Jisho.MissingFieldsRender | cogs/lookup/jisho.py:35-39 | a missing word or reading prints as `None`, and an empty definition list gives the line `English: ` |
| Jisho.LookupIntendedSpec | cogs/lookup/jisho.py:30-31 | with the missing `return` added, an empty result list sends only "No result found." and does not fail; every other reply is unchanged |

## Left out

- Reading `reactions.json` and `json.load` is file I/O. The parsed top-level object is the input to `Reactions.Synthesize`, as a sequence of key and value pairs in the file's order. A parsed object holds each key once; `Synthesize` also accepts a sequence that repeats a key and then treats each pair on its own, which no parsed table produces.
- The `setup` catch-all swallows every exception, so a raising entry drops the whole cog, `kill` included. This is modelled only as `Synthesize` returning `Err`.
- Network and Discord calls are not modelled:
  - the HTTP session and `response.json()`;
  - embeds and `ctx.send`;
  - `bot.is_owner`;
  - member conversion.

  Ids, owner status and the parsed response are inputs. Sent text and embeds are outputs.
- `urllib.parse.urlencode` and the request URL are a library call. Only the query text is modelled.
- How the framework enforces a cooldown is framework internals. Only the reaction cooldown's parameters are modelled. The registrations of `kill` (alias `murder`) and `jisho` (alias `jp`, global 6-per-12-seconds cooldown) are framework declarations and are not modelled.
- The random source is not modelled. Random choices are an arbitrary `draw`.
- `BASE_URL_API`, `BASE_URL_IMAGE` and the `count` variable are never used on the command paths and are not modelled.
- The async and coroutine structure is not modelled. Nothing here depends on it.
- Only ASCII letters change case in `Strings.Capitalize`. Python's Unicode case mapping is not modelled.
- Keys that name attributes of the cog itself (`data`, `kill`) are not modelled, and for them the model's result differs from the source's:
  - An accepted `data` entry makes `setattr` replace the table attribute with the command object. The loop keeps iterating the original table, but the next entry whose key is not already a command reads `self.data[key]`. That raises `TypeError`, because a command object cannot be indexed. So the cog is never added. `Synthesize` instead returns `Ok` with a command for every accepted entry, for example two commands for `[("data", d), ("hug", d)]`.
  - An accepted `kill` entry replaces the `kill` command attribute.
- The response is modelled as the `SearchResult` datatype. A body without the `data`, `japanese`, `senses` or `english_definitions` keys would raise `KeyError`; that case is not modelled.
- Reactions.ResolveAliases: a string or object `aliases` value is modelled as raising `TypeError`. In the source such a value raises `AttributeError` only when one of its characters or keys is already a command; otherwise it is handed on to the command framework, which is not part of this model.
- Kill.Kill: an unresolved target is one `BadArgument` error. The source's own `if not user` guard never fires for a resolved member.

## Findings

| source | as written | input that shows it | evidently intended | confidence | as-written member | corrected member |
|---|---|---|---|---|---|---|
| cogs/fun/reactions.py:97-99 | aliases are removed from the list while a `for` loop iterates it, so the alias after a removed one is never checked | declared aliases `["pet", "pat"]` that are both existing commands resolve to `["pat"]` | drop every declared alias that is already a command | not executed; high | Aliases.SecondOfTwoClashesSurvives | Aliases.IntendedSpec |
| cogs/fun/reactions.py:83-84 | the user-targeted template declares `user: str`, and the caption rule then reads `user.id` from a string | any entry with a non-empty key and `"message": ""`, invoked with any argument, raises `AttributeError` | convert the argument to a member first, as `kill` does | not executed; high | Reactions.InvokeSpec | Reactions.InvokeWithMemberSpec |
| cogs/lookup/jisho.py:30-33 | there is no `return` after "No result found.", so execution continues to `data["data"][0]` | status 200 with `data: []` sends "No result found." and then raises `IndexError` | stop after "No result found." | not executed; high | Jisho.Lookup | Jisho.LookupIntendedSpec |

`Reactions.Synthesize` and `Reactions.Invoke` keep the source's behaviour as written. The corrected definitions (`Aliases.Intended`, `Reactions.InvokeWithMember`, `Jisho.LookupIntended`) sit beside them, each with its intended property proved.
