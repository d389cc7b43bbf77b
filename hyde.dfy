/**
  hyde.mjs: hypothetical document embeddings. The language model writes a
  hypothetical answer as a JSON array; its first element is the retrieval
  query, while the answer is generated for the original question. There is
  no fallback: a reply that does not parse leaves no usable query.
 */
module HypotheticalDocument {
  import opened Wrappers
  import opened Json
  import opened Fence
  import opened Documents

  /** `similaritySearch(state.question, 2)`. */
  const QueryDepth: nat := 2
  /** The `function` field of the log record. */
  const LogFunction := "Chatbot_HyDE"

  /**
    The retrieval query `docContent[0]`. `None` when there is none to use:
    `JSON.parse` threw and `docContent` stayed `undefined`, the parsed value
    is `null`, or `[0]` reads `undefined`.
   */
  function Query(parse: Parser, content: string): (q: Option<Json>)
    ensures parse(Cleaned(content)).None? ==> q.None?
    ensures parse(Cleaned(content)).Some? ==>
              (q.Some? <==> IndexZero(parse(Cleaned(content)).value).Element?)
    ensures q.Some? ==> IndexZero(parse(Cleaned(content)).value) == Element(q.value)
  {
    match parse(Cleaned(content))
    case None => None
    case Some(doc) =>
      match IndexZero(doc)
      case Element(x) => Some(x)
      case _ => None
  }

  /** A reply parsing to a non-empty array queries with its first item only. */
  lemma ArrayReplyFirstItem(parse: Parser, content: string)
    requires parse(Cleaned(content)).Some? && parse(Cleaned(content)).value.JArray?
    ensures |parse(Cleaned(content)).value.items| > 0 ==>
              Query(parse, content) == Some(parse(Cleaned(content)).value.items[0])
    ensures |parse(Cleaned(content)).value.items| == 0 ==> Query(parse, content).None?
  {
  }

  /** A reply parsing to a JSON string queries with that string's first character. */
  lemma StringReplyFirstCharacter(parse: Parser, content: string)
    requires parse(Cleaned(content)).Some? && parse(Cleaned(content)).value.JString?
    requires |parse(Cleaned(content)).value.s| > 0
    ensures Query(parse, content) == Some(JString([parse(Cleaned(content)).value.s[0]]))
  {
  }

  /**
    The graph run: `retrieve` searches with the hypothetical document,
    `generate` prompts with the original question.
   */
  function Invoke(search: Search, synthesize: Synthesize, hypothetical: Json, question: string): (answer: string)
    ensures answer == synthesize(JString(question), ContextText(search(hypothetical, QueryDepth)))
  {
    var context := search(hypothetical, QueryDepth);
    Answer(synthesize, JString(question), context)
  }

  /** The log record, with its fields in the order they are written. */
  function LogRecord(timestamp: string, webUrl: string, question: string, hypothetical: Json, answer: string): Json {
    JObject([("function", JString(LogFunction)),
             ("timestamp", JString(timestamp)),
             ("website", JString(webUrl)),
             ("originalQuestion", JString(question)),
             ("hypotheticalDoc", hypothetical),
             ("RESPONSE", JString(answer))])
  }

  /**
    The whole script after indexing: clean, parse, log the parsed value, take
    `docContent[0]`, run the graph once and write one log record. The script
    stops before the run, with no answer and no record, when the parsed value's
    text conversion throws or there is no query.
   */
  method HyDE(parse: Parser, content: string, search: Search, synthesize: Synthesize, clock: nat -> string, webUrl: string, question: string)
    returns (log: seq<Json>, final: Option<string>)
    ensures Query(parse, content).None? ==> log == [] && final == None
    ensures parse(Cleaned(content)).None? ==> log == [] && final == None
    ensures parse(Cleaned(content)).Some? && TextThrows(parse(Cleaned(content)).value) ==> log == [] && final == None
    ensures Query(parse, content).Some? && !TextThrows(parse(Cleaned(content)).value) ==>
              var a := synthesize(JString(question), ContextText(search(Query(parse, content).value, QueryDepth)));
              final == Some(a) && log == [LogRecord(clock(0), webUrl, question, Query(parse, content).value, a)]
    ensures final.Some? ==> |log| == 1 && log[0].JObject? &&
                            Lookup(log[0].entries, "RESPONSE") == Some(JString(final.value)) &&
                            Lookup(log[0].entries, "hypotheticalDoc") == Some(Query(parse, content).value)
  {
    var cleaned := CleanResponse(content);
    var docContent := parse(cleaned);
    log, final := [], None;
    if docContent.Some? && ToText(docContent.value).Some? {
      var indexed := IndexZero(docContent.value);
      if indexed.Element? {
        var hypothetical := indexed.value;
        var answer := Invoke(search, synthesize, hypothetical, question);
        final := Some(answer);
        log := [LogRecord(clock(0), webUrl, question, hypothetical, answer)];
        var entries := log[0].entries;
        LookupAt(entries, "hypotheticalDoc", 4);
        LookupAt(entries, "RESPONSE", 5);
      }
    }
  }
}
