/** The reaction-command synthesis engine: one command per usable entry of
    the parsed reaction table, built from the table's descriptor objects.

    The collision set is the command table as it stood before the cog was
    added (names and aliases); commands built earlier in the same batch are
    only stored as attributes of the cog and never join that set. */
module Reactions {
  import opened JsonValues
  import opened Outcomes
  import opened Strings
  import opened Sequences
  import opened Commands
  import opened Aliases
  import opened Composer
  import opened Renderer

  /** The three handler shapes. */
  datatype Template =
    | NoCaption                  // no argument, empty caption
    | UserCaption                // one `user` argument, caption from the caption rule
    | FixedCaption(caption: Json) // no argument, the descriptor's `message` as caption

  /** A synthesized command: what `commands.command` and `commands.cooldown`
      receive, plus the image list its handler reads from the table. */
  datatype Command = Command(
    name: string,
    aliases: seq<Json>,
    help: string,
    template: Template,
    images: seq<Json>,
    cooldown: Cooldown)

  /** The template is chosen from `descriptor.get("message")` alone:
      `None` (absent or JSON null) gives no caption, any other falsy value
      asks for a user, anything truthy is a fixed caption. */
  function ChooseTemplate(indicator: Json): (t: Template)
    ensures t == NoCaption <==> indicator == JNull
    ensures t == UserCaption <==> indicator != JNull && !Truthy(indicator)
    ensures t.FixedCaption? <==> Truthy(indicator)
    ensures t.FixedCaption? ==> t.caption == indicator
  {
    if indicator == JNull then NoCaption
    else if !Truthy(indicator) then UserCaption
    else FixedCaption(indicator)
  }

  /** The help text: the key capitalized, then " a user!" for the
      user-targeted template and "!" for the other two. */
  function HelpText(key: string, t: Template): (h: string)
    ensures |h| > |key|
    ensures SameIgnoringCase(h[..|key|], key)
    ensures |key| > 0 ==> !IsLowerLetter(h[0])
    ensures forall i :: 1 <= i < |key| ==> !IsUpperLetter(h[i])
    ensures h[|key|..] == if t.UserCaption? then " a user!" else "!"
  {
    Capitalize(key) + (if t.UserCaption? then " a user!" else "!")
  }

  /** Help texts of one key differ exactly between the user-targeted
      template and the other two. */
  lemma HelpTextTellsUserTemplate(key: string, t1: Template, t2: Template)
    ensures HelpText(key, t1) == HelpText(key, t2) <==> t1.UserCaption? == t2.UserCaption?
  {
    var c := Capitalize(key);
    if t1.UserCaption? != t2.UserCaption? {
      var h1 := HelpText(key, t1);
      var h2 := HelpText(key, t2);
      assert |h1| != |h2|;
    }
  }

  /** Within one template family two keys share a help text exactly when
      they differ only in letter case. */
  lemma HelpTextIgnoresCase(k1: string, k2: string, t1: Template, t2: Template)
    requires t1.UserCaption? == t2.UserCaption?
    ensures HelpText(k1, t1) == HelpText(k2, t2) <==> SameIgnoringCase(k1, k2)
  {
    var suffix := if t1.UserCaption? then " a user!" else "!";
    var c1 := Capitalize(k1);
    var c2 := Capitalize(k2);
    if HelpText(k1, t1) == HelpText(k2, t2) {
      assert |c1| == |c2|;
      assert c1 == (c1 + suffix)[..|c1|] == (c2 + suffix)[..|c2|] == c2;
      forall i | 0 <= i < |k1|
        ensures Lower(k1[i]) == Lower(k2[i])
      {
        assert Lower(c1[i]) == Lower(k1[i]);
        assert Lower(c2[i]) == Lower(k2[i]);
      }
    }
    if SameIgnoringCase(k1, k2) {
      forall i | 0 <= i < |c1|
        ensures c1[i] == c2[i]
      {
        if i == 0 {
          assert Upper(k1[0]) == Upper(k2[0]) by {
            assert Lower(k1[0]) == Lower(k2[0]);
          }
        } else {
          assert Lower(k1[i]) == Lower(k2[i]);
        }
      }
      assert c1 == c2;
    }
  }

  /** The validation at the top of the loop: the key is not yet a command,
      the value is an object, and its `images` is a list (possibly empty). */
  predicate Accepted(existing: set<string>, key: string, value: Json)
  {
    key !in existing && value.JObj? && Get(value.fields, "images").JArr?
  }

  /** `descriptor.get("aliases", [])` run through the source's removal loop.
      A value that is not a list is not iterated as a list of aliases: the
      loop raises `TypeError` for null, booleans and numbers. A list of
      strings, numbers, booleans and nulls never raises, and what survives
      is an order-preserving selection that keeps every declared alias that
      is not already a command. */
  function ResolveAliases(existing: set<string>, declared: Json): (r: Result<seq<Json>>)
    ensures !declared.JArr? ==> r == Err(TypeError)
    ensures declared.JArr? && AllHashable(declared.items) ==> r.Ok?
    ensures declared.JArr? && r.Ok? ==>
              IsSubsequence(r.value, declared.items) &&
              forall x :: x in declared.items && !Clashes(existing, x) ==> x in r.value
  {
    match declared
    case JArr(xs) =>
      ResolveAsWrittenKeeps(existing, xs);
      ResolveAsWritten(existing, xs)
    case _ => Err(TypeError)
  }

  /** `descriptor.get("aliases", [])`: unlike `get` without a default, a
      missing key and an explicit null are told apart. */
  function DeclaredAliases(fields: map<string, Json>): Json
  {
    GetOr(fields, "aliases", JArr([]))
  }

  /** A descriptor without `aliases` gets no aliases and never raises, while
      an explicit null reaches the loop and raises `TypeError`; any other
      value is resolved as declared. */
  lemma DeclaredAliasesSpec(existing: set<string>, fields: map<string, Json>)
    ensures "aliases" !in fields ==> ResolveAliases(existing, DeclaredAliases(fields)) == Ok([])
    ensures "aliases" in fields && fields["aliases"] == JNull ==>
              ResolveAliases(existing, DeclaredAliases(fields)) == Err(TypeError)
    ensures "aliases" in fields ==>
              ResolveAliases(existing, DeclaredAliases(fields)) == ResolveAliases(existing, fields["aliases"])
    ensures Get(fields, "aliases") == JNull && DeclaredAliases(fields) != JNull ==> "aliases" !in fields
  {
  }

  /** One iteration of the loop: `Ok(None)` for a skipped entry, `Ok(Some(c))`
      for a built command, `Err` when alias resolution raises (which aborts
      the whole loop). */
  function BuildCommand(existing: set<string>, key: string, value: Json): (r: Result<Option<Command>>)
    ensures !Accepted(existing, key, value) ==> r == Ok(None)
    ensures Accepted(existing, key, value) ==>
              (r.Ok? <==> ResolveAliases(existing, DeclaredAliases(value.fields)).Ok?)
    ensures r.Ok? ==> (r.value.Some? <==> Accepted(existing, key, value))
    ensures r.Ok? && r.value.Some? ==> r.value.value.name == key
  {
    if !Accepted(existing, key, value) then Ok(None)
    else
      var fields := value.fields;
      var template := ChooseTemplate(Get(fields, "message"));
      match ResolveAliases(existing, DeclaredAliases(fields))
      case Err(e) => Err(e)
      case Ok(aliases) =>
        Ok(Some(Command(key, aliases, HelpText(key, template), template,
                        Get(fields, "images").items, ReactionCooldown)))
  }

  /** What a built command carries: the key as its name, the entry's image
      list, the template chosen by `message`, the matching help text, the
      fixed cooldown, and aliases that are an order-preserving selection of
      the declared ones keeping every declared alias that is not yet a
      command. */
  lemma BuildCommandSpec(existing: set<string>, key: string, value: Json)
    requires BuildCommand(existing, key, value).Ok? && BuildCommand(existing, key, value).value.Some?
    ensures var c := BuildCommand(existing, key, value).value.value;
            var declared := DeclaredAliases(value.fields);
            && c.name == key
            && c.name !in existing
            && c.images == Get(value.fields, "images").items
            && c.template == ChooseTemplate(Get(value.fields, "message"))
            && c.help == HelpText(key, c.template)
            && c.cooldown == ReactionCooldown
            && declared.JArr?
            && IsSubsequence(c.aliases, declared.items)
            && (forall x :: x in declared.items && !Clashes(existing, x) ==> x in c.aliases)
  {
    ResolveAsWrittenKeeps(existing, DeclaredAliases(value.fields).items);
  }

  /** The keys of the accepted entries, in input order. */
  function AcceptedKeys(existing: set<string>, entries: seq<(string, Json)>): seq<string>
    decreases |entries|
  {
    if |entries| == 0 then []
    else
      (if Accepted(existing, entries[0].0, entries[0].1) then [entries[0].0] else [])
      + AcceptedKeys(existing, entries[1..])
  }

  function Names(cmds: seq<Command>): seq<string>
  {
    seq(|cmds|, i requires 0 <= i < |cmds| => cmds[i].name)
  }

  lemma NamesConcat(a: seq<Command>, b: seq<Command>)
    ensures Names(a + b) == Names(a) + Names(b)
  {
    assert forall i :: 0 <= i < |a + b| ==> Names(a + b)[i] == (Names(a) + Names(b))[i];
  }

  predicate BuiltFrom(existing: set<string>, entries: seq<(string, Json)>, c: Command)
  {
    exists e :: e in entries && BuildCommand(existing, e.0, e.1) == Ok(Some(c))
  }

  /** The commands contributed by one entry. */
  function Contribution(built: Option<Command>): seq<Command>
  {
    if built.Some? then [built.value] else []
  }

  /** The synthesis loop over the table's entries in order: one command per
      accepted entry, in input order. The first entry whose alias
      resolution raises aborts everything (the cog is then not added at all). */
  function Synthesize(existing: set<string>, entries: seq<(string, Json)>): (r: Result<seq<Command>>)
    ensures r.Ok? ==> Names(r.value) == AcceptedKeys(existing, entries)
    decreases |entries|
  {
    if |entries| == 0 then Ok([])
    else
      var built := BuildCommand(existing, entries[0].0, entries[0].1);
      var rest := Synthesize(existing, entries[1..]);
      if built.Err? then Err(built.error)
      else if rest.Err? then Err(rest.error)
      else
        var cmds := Contribution(built.value) + rest.value;
        NamesConcat(Contribution(built.value), rest.value);
        Ok(cmds)
  }

  /** Synthesis fails exactly when some entry's alias resolution raises. */
  lemma {:induction false} SynthesizeFailsOnlyOnAliases(existing: set<string>, entries: seq<(string, Json)>)
    ensures Synthesize(existing, entries).Ok? <==>
              forall i :: 0 <= i < |entries| ==> BuildCommand(existing, entries[i].0, entries[i].1).Ok?
    decreases |entries|
  {
    if |entries| > 0 {
      SynthesizeFailsOnlyOnAliases(existing, entries[1..]);
      assert forall i :: 1 <= i < |entries| ==> entries[i] == entries[1..][i - 1];
    }
  }

  /** Every synthesized command is the one built from some entry. */
  lemma {:induction false} SynthesizeBuildsFromEntries(existing: set<string>, entries: seq<(string, Json)>)
    ensures Synthesize(existing, entries).Ok? ==>
              forall c :: c in Synthesize(existing, entries).value ==> BuiltFrom(existing, entries, c)
    decreases |entries|
  {
    if |entries| > 0 && Synthesize(existing, entries).Ok? {
      SynthesizeBuildsFromEntries(existing, entries[1..]);
      var rest := Synthesize(existing, entries[1..]).value;
      forall c | c in Synthesize(existing, entries).value
        ensures BuiltFrom(existing, entries, c)
      {
        if c in rest {
          var e' :| e' in entries[1..] && BuildCommand(existing, e'.0, e'.1) == Ok(Some(c));
          assert e' in entries;
        } else {
          assert entries[0] in entries;
        }
      }
    }
  }

  /** Synthesis of a non-empty batch succeeds exactly when its first entry
      and the rest do, and then it is the first entry's command followed by
      the rest's commands. */
  lemma SynthesizeCons(existing: set<string>, entries: seq<(string, Json)>)
    requires |entries| > 0
    ensures var built := BuildCommand(existing, entries[0].0, entries[0].1);
            var rest := Synthesize(existing, entries[1..]);
            && (Synthesize(existing, entries).Ok? <==> built.Ok? && rest.Ok?)
            && (built.Ok? && rest.Ok? ==>
                  Synthesize(existing, entries).value == Contribution(built.value) + rest.value)
  {
  }

  lemma SynthesizeEmptyPrefix(existing: set<string>, a: seq<(string, Json)>, b: seq<(string, Json)>)
    requires |a| == 0 && Synthesize(existing, b).Ok?
    ensures Synthesize(existing, a + b) == Ok(Synthesize(existing, a).value + Synthesize(existing, b).value)
  {
    assert a + b == b;
    assert [] + Synthesize(existing, b).value == Synthesize(existing, b).value;
  }

  /** Because the collision set is fixed, synthesizing two batches one after
      the other gives the same commands as synthesizing them together. */
  lemma {:induction false} SynthesizeAppend(existing: set<string>, a: seq<(string, Json)>, b: seq<(string, Json)>)
    requires Synthesize(existing, a).Ok? && Synthesize(existing, b).Ok?
    ensures Synthesize(existing, a + b) == Ok(Synthesize(existing, a).value + Synthesize(existing, b).value)
    decreases |a|
  {
    if |a| == 0 {
      SynthesizeEmptyPrefix(existing, a, b);
    } else {
      var ab := a + b;
      assert ab[0] == a[0];
      assert ab[1..] == a[1..] + b;
      SynthesizeCons(existing, a);
      SynthesizeCons(existing, ab);
      SynthesizeAppend(existing, a[1..], b);
      var head := Contribution(BuildCommand(existing, a[0].0, a[0].1).value);
      var ra := Synthesize(existing, a[1..]).value;
      var rb := Synthesize(existing, b).value;
      ConcatAssociative(head, ra, rb);
    }
  }

  /** The user-targeted template passes the raw argument text to the caption
      rule, so for any non-empty command name invoking it raises. */
  function Invoke(c: Command, author: User, botId: int, arg: Option<string>, captionDraw: nat, imageDraw: nat): Result<Embed>
  {
    match c.template
    case NoCaption => SendImage(JArr(c.images), JStr(""), imageDraw)
    case FixedCaption(m) => SendImage(JArr(c.images), m, imageDraw)
    case UserCaption =>
      if arg.None? then Err(MissingArgument)
      else
        match GenerateMessage(c.name, author, botId, RawText(arg.value), captionDraw)
        case Err(e) => Err(e)
        case Ok(caption) => SendImage(JArr(c.images), JStr(caption), imageDraw)
  }

  /** What an invocation of a synthesized command does, per template. */
  lemma InvokeSpec(c: Command, author: User, botId: int, arg: Option<string>, captionDraw: nat, imageDraw: nat)
    ensures var r := Invoke(c, author, botId, arg, captionDraw, imageDraw);
            && (r.Ok? ==> r.value.image in c.images)
            && (c.template.NoCaption? ==>
                  (r.Ok? <==> |c.images| > 0) && (r.Ok? ==> r.value.description == JStr("")))
            && (c.template.FixedCaption? ==>
                  (r.Ok? <==> |c.images| > 0) && (r.Ok? ==> r.value.description == c.template.caption))
            && (c.template.UserCaption? && arg.None? ==> r == Err(MissingArgument))
            && (c.template.UserCaption? && arg.Some? && c.name != "" ==> r == Err(AttributeError))
            && (c.template.UserCaption? && arg.Some? && c.name == "" ==>
                  (r.Ok? <==> |c.images| > 0) && (r.Ok? ==> r.value.description == JStr("")))
            && (|c.images| == 0 && !(c.template.UserCaption? && (arg.None? || c.name != "")) ==>
                  r == Err(IndexError))
  {
  }

  /** The user-targeted template as evidently intended: the argument
      resolved to a member before the caption rule reads its id. */
  function InvokeWithMember(c: Command, author: User, botId: int, target: User, captionDraw: nat, imageDraw: nat): Result<Embed>
    requires c.template.UserCaption?
  {
    match GenerateMessage(c.name, author, botId, Member(target), captionDraw)
    case Err(e) => Err(e)
    case Ok(caption) => SendImage(JArr(c.images), JStr(caption), imageDraw)
  }

  /** With a resolved member the template never raises for a non-empty image
      list, sends one of the command's images and captions it by the
      caption rule: the fixed thank-you line for the bot, one of the four
      self lines for the author, the two-name line for anyone else. */
  lemma InvokeWithMemberSpec(c: Command, author: User, botId: int, target: User, captionDraw: nat, imageDraw: nat)
    requires c.template.UserCaption?
    ensures var r := InvokeWithMember(c, author, botId, target, captionDraw, imageDraw);
            && (r.Ok? <==> |c.images| > 0)
            && (r.Ok? ==> r.value.image in c.images)
            && (r.Ok? && c.name != "" && target.id == botId ==> r.value.description == JStr(ThankYouLine))
            && (r.Ok? && c.name != "" && target.id != botId && target.id == author.id ==>
                  r.value.description.JStr? && r.value.description.s in SelfLines(c.name))
            && (r.Ok? && c.name != "" && target.id != botId && target.id != author.id ==>
                  r.value.description == JStr(ThirdPartyLine(c.name, author, target)))
  {
  }
}

/** Worked instances of the synthesis rules on small reaction tables. */
module ReactionExamples {
  import opened JsonValues
  import opened Outcomes
  import opened Strings
  import opened Commands
  import opened Reactions

  function Descriptor(images: seq<Json>, extra: map<string, Json>): Json
  {
    JObj(extra["images" := JArr(images)])
  }

  lemma SingleEntry(existing: set<string>, key: string, value: Json)
    requires BuildCommand(existing, key, value).Ok?
    ensures Synthesize(existing, [(key, value)]) == Ok(Contribution(BuildCommand(existing, key, value).value))
  {
    var es := [(key, value)];
    assert es[1..] == [];
    SynthesizeCons(existing, es);
    var h := Contribution(BuildCommand(existing, key, value).value);
    assert h + [] == h;
  }

  /** A descriptor without `message` becomes a zero-argument command whose
      help text is the capitalized key followed by "!". */
  lemma HugBecomesPlainCommand()
    ensures Synthesize({}, [("hug", Descriptor([JStr("/a.png"), JStr("/b.png")], map[]))]) ==
            Ok([Command("hug", [], "Hug!", NoCaption, [JStr("/a.png"), JStr("/b.png")], ReactionCooldown)])
  {
    var images := [JStr("/a.png"), JStr("/b.png")];
    var d := Descriptor(images, map[]);
    assert d.fields == map["images" := JArr(images)];
    assert Get(d.fields, "images") == JArr(images);
    assert Get(d.fields, "message") == JNull;
    assert DeclaredAliases(d.fields) == JArr([]);
    assert Capitalize("hug") == "Hug";
    assert HelpText("hug", NoCaption) == "Hug!";
    var c := Command("hug", [], "Hug!", NoCaption, images, ReactionCooldown);
    assert BuildCommand({}, "hug", d) == Ok(Some(c));
    SingleEntry({}, "hug", d);
  }

  /** An empty `images` list passes validation, and an empty-string
      `message` selects the user-targeted template. */
  lemma EmptyImagesAccepted()
    ensures Synthesize({}, [("pat", Descriptor([], map["message" := JStr("")]))]) ==
            Ok([Command("pat", [], "Pat a user!", UserCaption, [], ReactionCooldown)])
  {
    var d := Descriptor([], map["message" := JStr("")]);
    assert d.fields == map["message" := JStr(""), "images" := JArr([])];
    assert Get(d.fields, "images") == JArr([]);
    assert Get(d.fields, "message") == JStr("");
    assert DeclaredAliases(d.fields) == JArr([]);
    assert Capitalize("pat") == "Pat";
    assert HelpText("pat", UserCaption) == "Pat a user!";
    var c := Command("pat", [], "Pat a user!", UserCaption, [], ReactionCooldown);
    assert BuildCommand({}, "pat", d) == Ok(Some(c));
    SingleEntry({}, "pat", d);
  }

  /** An entry whose key is already a command yields nothing, and neither
      does one whose `images` is not a list. */
  lemma CollidingOrMalformedSkipped()
    ensures Synthesize({"hug"}, [("hug", Descriptor([], map[])), ("pat", JObj(map["images" := JStr("/p.png")]))]) == Ok([])
  {
    var es := [("hug", Descriptor([], map[])), ("pat", JObj(map["images" := JStr("/p.png")]))];
    assert es[1..][1..] == [];
  }

  /** Two commands of one batch may declare the same alias: each keeps it,
      because the collision set never includes the batch's own commands. */
  lemma BatchMayRepeatAnAlias()
    ensures var extra := map["aliases" := JArr([JStr("cuddle")])];
            var r := Synthesize({}, [("hug", Descriptor([], extra)), ("snug", Descriptor([], extra))]);
            r.Ok? && |r.value| == 2 &&
            r.value[0].aliases == [JStr("cuddle")] && r.value[1].aliases == [JStr("cuddle")]
  {
    var extra := map["aliases" := JArr([JStr("cuddle")])];
    var d := Descriptor([], extra);
    assert d.fields == map["aliases" := JArr([JStr("cuddle")]), "images" := JArr([])];
    assert Get(d.fields, "images") == JArr([]);
    assert DeclaredAliases(d.fields) == JArr([JStr("cuddle")]);
    assert ResolveAliases({}, DeclaredAliases(d.fields)) == Ok([JStr("cuddle")]);
    SingleEntry({}, "hug", d);
    SingleEntry({}, "snug", d);
    var c1 := BuildCommand({}, "hug", d).value.value;
    var c2 := BuildCommand({}, "snug", d).value.value;
    SynthesizeAppend({}, [("hug", d)], [("snug", d)]);
    assert [("hug", d)] + [("snug", d)] == [("hug", d), ("snug", d)];
  }

  /** Falsy values other than the empty string also select the
      user-targeted template; null selects the plain one. */
  lemma FalsyIndicatorsAskForUser()
    ensures ChooseTemplate(JNum(0.0)) == UserCaption
    ensures ChooseTemplate(JBool(false)) == UserCaption
    ensures ChooseTemplate(JArr([])) == UserCaption
    ensures ChooseTemplate(JObj(map[])) == UserCaption
    ensures ChooseTemplate(JNull) == NoCaption
    ensures ChooseTemplate(JStr("*hugs*")) == FixedCaption(JStr("*hugs*"))
  {
  }
}
