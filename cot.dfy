/**
  cot.mjs: chain-of-thought retrieval. The language model's reply is cleaned
  and parsed into sub-queries (falling back to the question itself); the
  retrieve-then-generate graph runs once per sub-query, each run is logged,
  and the answer of the last run is reported.
 */
module ChainOfThought {
  import opened Wrappers
  import opened Text
  import opened Json
  import opened Fence
  import opened Documents

  /** Results per sub-query: `similaritySearch(state.question, 2)`. */
  const QueryDepth: nat := 2
  /** The `function` field of every log record. */
  const LogFunction := "Chatbot_ChainOfThoughts"

  /**
    `queryVariations`: the parsed cleaned reply, or `[question]` when
    `JSON.parse` throws. Any parsed value is kept, array or not.
   */
  function QueryVariations(parse: Parser, content: string, question: string): (r: Json)
    ensures parse(Cleaned(content)).None? ==> r == JArray([JString(question)])
    ensures parse(Cleaned(content)).Some? ==> r == parse(Cleaned(content)).value
  {
    match parse(Cleaned(content))
    case Some(v) => v
    case None => JArray([JString(question)])
  }

  /** A reply wrapped in a fenced code block yields the same sub-queries as the bare reply. */
  lemma FencedReplySameVariations(parse: Parser, x: string, opening: string, question: string)
    requires Trimmed(x) && '`' !in x
    requires opening == "```json" || opening == Backticks
    ensures QueryVariations(parse, opening + "\n" + x + "\n" + Backticks, question) == QueryVariations(parse, x, question)
  {
    FencedEqualsUnfenced(x, opening);
    SameCleanedSameVariations(parse, opening + "\n" + x + "\n" + Backticks, x, question);
  }

  /** Equal cleaned texts give equal sub-queries (kept apart so that the fence's strings stay out of this step). */
  lemma SameCleanedSameVariations(parse: Parser, a: string, b: string, question: string)
    requires Cleaned(a) == Cleaned(b)
    ensures QueryVariations(parse, a, question) == QueryVariations(parse, b, question)
  {
  }

  /** The graph state: the question and, once `retrieve` has run, the context. */
  datatype State = State(question: Json, context: Option<seq<Doc>>)

  /**
    The `retrieve` node's new context: the old context followed by the new
    results when the old one has elements (`state.context?.length`), the
    results alone otherwise.
   */
  function RetrievedContext(state: State, results: seq<Doc>): (r: seq<Doc>)
    ensures |r| == (if state.context.Some? then |state.context.value| else 0) + |results|
    ensures state.context.Some? ==>
              r[..|state.context.value|] == state.context.value && r[|state.context.value|..] == results
    ensures state.context.None? ==> r == results
  {
    if state.context.Some? && |state.context.value| > 0 then state.context.value + results else results
  }

  /**
    `graph.invoke({question: query})`: a fresh state holding only the query,
    `retrieve` and then `generate` on it.
   */
  function Invoke(search: Search, synthesize: Synthesize, query: Json): (answer: string)
    ensures answer == synthesize(query, ContextText(search(query, QueryDepth)))
  {
    var state := State(query, None);
    var context := RetrievedContext(state, search(query, QueryDepth));
    Answer(synthesize, query, context)
  }

  /** The log record of one run, with its fields in the order they are written. */
  function LogRecord(timestamp: string, webUrl: string, question: string, query: Json, answer: string): Json {
    JObject([("function", JString(LogFunction)),
             ("timestamp", JString(timestamp)),
             ("website", JString(webUrl)),
             ("originalQuestion", JString(question)),
             ("query", query),
             ("answer", JString(answer))])
  }

  /** The records the loop appends, one per sub-query, in order; `clock(i)` is the time of the i-th. */
  function Records(search: Search, synthesize: Synthesize, clock: nat -> string, webUrl: string, question: string, queries: seq<Json>): (r: seq<Json>)
    ensures |r| == |queries|
  {
    seq(|queries|, i requires 0 <= i < |queries| =>
      LogRecord(clock(i), webUrl, question, queries[i], Invoke(search, synthesize, queries[i])))
  }

  /**
    The `for (const query of queryVariations)` loop: one graph run and one
    log record per query, and `result` left holding the last run.
   */
  method RunQueries(search: Search, synthesize: Synthesize, clock: nat -> string, webUrl: string, question: string, queries: seq<Json>)
    returns (log: seq<Json>, final: Option<string>)
    ensures log == Records(search, synthesize, clock, webUrl, question, queries)
    ensures |queries| == 0 ==> final == None
    ensures |queries| > 0 ==> final == Some(Invoke(search, synthesize, queries[|queries| - 1]))
    ensures final.Some? ==> |log| > 0 && log[|log| - 1].JObject? &&
                            Lookup(log[|log| - 1].entries, "answer") == Some(JString(final.value))
  {
    log := [];
    var result: Option<string> := None;
    for i := 0 to |queries|
      invariant log == Records(search, synthesize, clock, webUrl, question, queries[..i])
      invariant i == 0 ==> result == None
      invariant i > 0 ==> result == Some(Invoke(search, synthesize, queries[i - 1]))
    {
      var query := queries[i];
      var answer := Invoke(search, synthesize, query);
      result := Some(answer);
      assert queries[..i + 1][..i] == queries[..i];
      log := log + [LogRecord(clock(i), webUrl, question, query, answer)];
    }
    assert queries[..|queries|] == queries;
    final := result;
    if |queries| > 0 {
      LastRecordAnswer(search, synthesize, clock, webUrl, question, queries);
    }
  }

  /** The last record's `answer` field is the last sub-query's answer. */
  lemma LastRecordAnswer(search: Search, synthesize: Synthesize, clock: nat -> string, webUrl: string, question: string, queries: seq<Json>)
    requires |queries| > 0
    ensures var r := Records(search, synthesize, clock, webUrl, question, queries)[|queries| - 1];
            r.JObject? && Lookup(r.entries, "answer") == Some(JString(Invoke(search, synthesize, queries[|queries| - 1])))
  {
    var n := |queries| - 1;
    var answer := Invoke(search, synthesize, queries[n]);
    assert Records(search, synthesize, clock, webUrl, question, queries)[n] == LogRecord(clock(n), webUrl, question, queries[n], answer);
    var entries := LogRecord(clock(n), webUrl, question, queries[n], answer).entries;
    LookupAt(entries, "answer", 5);
  }

  /**
    The whole script after indexing: clean and parse the reply, then loop.
    A parsed value that `for...of` cannot iterate throws before the first
    run: no record and no answer.
   */
  method ChainOfThought(parse: Parser, content: string, search: Search, synthesize: Synthesize, clock: nat -> string, webUrl: string, question: string)
    returns (log: seq<Json>, final: Option<string>)
    ensures ForOf(QueryVariations(parse, content, question)).None? ==> log == [] && final == None
    ensures ForOf(QueryVariations(parse, content, question)).Some? ==>
              log == Records(search, synthesize, clock, webUrl, question, ForOf(QueryVariations(parse, content, question)).value)
    ensures ForOf(QueryVariations(parse, content, question)).Some? ==>
              var queries := ForOf(QueryVariations(parse, content, question)).value;
              (|queries| == 0 ==> final == None) &&
              (|queries| > 0 ==> final == Some(Invoke(search, synthesize, queries[|queries| - 1])))
    ensures final.Some? ==> |log| > 0 && log[|log| - 1].JObject? &&
                            Lookup(log[|log| - 1].entries, "answer") == Some(JString(final.value))
    ensures parse(Cleaned(content)).None? ==>
              log == [LogRecord(clock(0), webUrl, question, JString(question), Invoke(search, synthesize, JString(question)))] &&
              final == Some(Invoke(search, synthesize, JString(question)))
  {
    var cleaned := CleanResponse(content);
    var variations := match parse(cleaned) case Some(v) => v case None => JArray([JString(question)]);
    assert variations == QueryVariations(parse, content, question);
    match ForOf(variations)
    case None =>
      log, final := [], None;
    case Some(queries) =>
      log, final := RunQueries(search, synthesize, clock, webUrl, question, queries);
  }

  /** Every run starts from a fresh state: the context is never carried from one sub-query to the next. */
  lemma ContextNotCarried(search: Search, synthesize: Synthesize, clock: nat -> string, webUrl: string, question: string, queries: seq<Json>, i: nat)
    requires i < |queries|
    ensures var record := Records(search, synthesize, clock, webUrl, question, queries)[i];
            record.JObject? &&
            Lookup(record.entries, "query") == Some(queries[i]) &&
            Lookup(record.entries, "answer") == Some(JString(synthesize(queries[i], ContextText(search(queries[i], QueryDepth)))))
  {
    var answer := Invoke(search, synthesize, queries[i]);
    assert Records(search, synthesize, clock, webUrl, question, queries)[i] == LogRecord(clock(i), webUrl, question, queries[i], answer);
    var entries := LogRecord(clock(i), webUrl, question, queries[i], answer).entries;
    LookupAt(entries, "query", 4);
    LookupAt(entries, "answer", 5);
  }
}
