/** The `jisho` dictionary lookup: query assembly and the reply text built
    from the search service's status and parsed response. */
module Jisho {
  import opened Outcomes
  import opened Strings

  /** One `{word, reading}` object of a result's `japanese` list; either key
      may be missing. */
  datatype JapaneseForm = JapaneseForm(word: Option<string>, reading: Option<string>)

  /** One element of the response's `data` list: its `japanese` forms and,
      for each sense, that sense's `english_definitions`. */
  datatype SearchResult = SearchResult(japanese: seq<JapaneseForm>, senses: seq<seq<string>>)

  /** The messages sent, in order, and whether the command body then raised. */
  datatype Reply = Reply(sent: seq<string>, failed: bool)

  const UnreachableLine := "Couldn't reach Jisho.org. x.x"
  const NoResultLine := "No result found."

  /** The query text: the first token, a space, and the remaining tokens
      joined by spaces. */
  function Query(first: string, rest: seq<string>): string
  {
    first + " " + Join(rest, " ")
  }

  /** The command's positional arguments: the first is required. Two or
      more tokens are joined by single spaces; a lone token keeps a
      trailing space. */
  function QueryOf(args: seq<string>): (r: Result<string>)
    ensures |args| == 0 <==> r == Err(MissingArgument)
    ensures |args| == 1 ==> r == Ok(args[0] + " ")
    ensures |args| >= 2 ==> r == Ok(Join(args, " "))
  {
    if |args| == 0 then Err(MissingArgument)
    else
      QueryIsJoin(args[0], args[1..]);
      assert [args[0]] + args[1..] == args;
      Ok(Query(args[0], args[1..]))
  }

  /** The query is the space-join of all tokens, except that a lone token
      keeps a trailing space. */
  lemma QueryIsJoin(first: string, rest: seq<string>)
    ensures rest == [] ==> Query(first, rest) == first + " "
    ensures rest != [] ==> Query(first, rest) == Join([first] + rest, " ")
  {
    if rest != [] {
      var xs := [first] + rest;
      assert xs[0] == first && xs[1..] == rest;
    }
  }

  /** Splitting the query on spaces gives back the tokens when none of them
      contains a space; a lone token comes back followed by an empty piece. */
  lemma QuerySplitsIntoTokens(first: string, rest: seq<string>)
    requires ' ' !in first && Free(rest, ' ')
    ensures Split(Query(first, rest), ' ') == [first] + (if rest == [] then [""] else rest)
  {
    QueryIsJoin(first, rest);
    var xs := [first] + (if rest == [] then [""] else rest);
    assert Free(xs, ' ') by {
      forall i | 0 <= i < |xs|
        ensures ' ' !in xs[i]
      {
        if i > 0 && rest != [] {
          assert xs[i] == rest[i - 1];
        }
      }
    }
    if rest == [] {
      assert Join(xs, " ") == first + " " + "";
      assert first + " " + "" == first + " ";
    } else {
      assert Join(xs, " ") == Join([first] + rest, " ");
    }
    SplitJoin(xs, ' ');
  }

  /** `str(value)`: a missing value prints as `None`. */
  function Show(v: Option<string>): string
  {
    match v
    case None => "None"
    case Some(s) => s
  }

  /** The three reply lines for a form and a definition list. */
  function ReplyLines(form: JapaneseForm, definitions: seq<string>): seq<string>
  {
    ["Kanji: " + Show(form.word), "Kana: " + Show(form.reading), "English: " + Join(definitions, ", ")]
  }

  /** The command body after the request. A status other than 200 sends the
      fixed failure line without reading the body. An empty `data` list
      sends "No result found." and then indexes `[0]` anyway, which raises.
      Otherwise only the first result's first form and first sense are
      read; an empty list there raises before anything is sent. */
  function Lookup(status: int, data: seq<SearchResult>): (r: Reply)
    ensures status != 200 ==> r == Reply([UnreachableLine], false)
    ensures status == 200 && |data| == 0 ==> r == Reply([NoResultLine], true)
    ensures status == 200 ==>
              (r.failed <==> |data| == 0 || |data[0].japanese| == 0 || |data[0].senses| == 0)
    ensures status == 200 && |data| > 0 ==> |r.sent| == (if r.failed then 0 else 1)
  {
    if status != 200 then Reply([UnreachableLine], false)
    else
      var notFound := if |data| == 0 then [NoResultLine] else [];
      if |data| == 0 || |data[0].japanese| == 0 || |data[0].senses| == 0 then Reply(notFound, true)
      else Reply([Join(ReplyLines(data[0].japanese[0], data[0].senses[0]), "\n")], false)
  }

  /** A failed request never depends on the response body. */
  lemma UnreachableIgnoresBody(status: int, d1: seq<SearchResult>, d2: seq<SearchResult>)
    requires status != 200
    ensures Lookup(status, d1) == Lookup(status, d2)
  {
  }

  /** A successful reply is one message whose lines are, in order, the
      kanji, kana and English lines, read back by splitting on newlines
      when no field contains one. */
  lemma SuccessReplyLines(data: seq<SearchResult>)
    requires |data| > 0 && |data[0].japanese| > 0 && |data[0].senses| > 0
    requires Free(ReplyLines(data[0].japanese[0], data[0].senses[0]), '\n')
    ensures var r := Lookup(200, data);
            && !r.failed && |r.sent| == 1
            && Split(r.sent[0], '\n') == ReplyLines(data[0].japanese[0], data[0].senses[0])
  {
    SplitJoin(ReplyLines(data[0].japanese[0], data[0].senses[0]), '\n');
  }

  /** Missing fields print as `None`, and no definitions give a bare
      "English: " line. */
  lemma MissingFieldsRender(form: JapaneseForm, defs: seq<string>)
    ensures form.word.None? ==> ReplyLines(form, defs)[0] == "Kanji: None"
    ensures form.reading.None? ==> ReplyLines(form, defs)[1] == "Kana: None"
    ensures defs == [] ==> ReplyLines(form, defs)[2] == "English: "
  {
    if defs == [] {
      assert Join(defs, ", ") == "";
      assert "English: " + "" == "English: ";
    }
  }

  /** The lookup as evidently intended: stop after "No result found.". */
  function LookupIntended(status: int, data: seq<SearchResult>): (r: Reply)
  {
    if status == 200 && |data| == 0 then Reply([NoResultLine], false)
    else Lookup(status, data)
  }

  /** The intended lookup sends "No result found." as its only message and
      does not fail on an empty result list, and agrees with the source
      everywhere else. */
  lemma LookupIntendedSpec(status: int, data: seq<SearchResult>)
    ensures status == 200 && |data| == 0 ==> LookupIntended(status, data) == Reply([NoResultLine], false)
    ensures !(status == 200 && |data| == 0) ==> LookupIntended(status, data) == Lookup(status, data)
    ensures status == 200 && |data| == 0 ==>
              LookupIntended(status, data).sent == Lookup(status, data).sent &&
              Lookup(status, data).failed && !LookupIntended(status, data).failed
  {
  }
}
