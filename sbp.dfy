/**
  sbp.mjs: step-back prompting. The language model reframes the question into
  more general versions, each tagged with an abstraction level; the original
  question is always appended last. Each version is answered by the
  retrieve-then-generate graph, with a deeper search for abstract levels, and
  the answer to the original question is reported.
 */
module StepBack {
  import opened Wrappers
  import opened Text
  import opened Json
  import opened Fence
  import opened Documents

  /** `k` for a level that mentions "abstract". */
  const AbstractDepth: nat := 4
  /** `k` for every other level, the original question's included. */
  const PlainDepth: nat := 2
  const OriginalLevel := "original"
  const AbstractPrefix := "abstract-level-"

  /** An entry of `queryVariations`: a question and its abstraction level. */
  datatype Variation = Variation(question: Json, level: string)

  /** The level of the variation at index `idx`: `abstract-level-${idx + 1}`. */
  function AbstractLevel(idx: nat): (r: string)
    ensures |r| > |AbstractPrefix| && r[..|AbstractPrefix|] == AbstractPrefix
  {
    AbstractPrefix + NatToString(idx + 1)
  }

  /** `parsed.map((q, idx) => ({question: q, level: ...}))`. */
  function Levelled(parsed: seq<Json>): (r: seq<Variation>)
    ensures |r| == |parsed|
    ensures forall i :: 0 <= i < |parsed| ==> r[i].question == parsed[i]
  {
    seq(|parsed|, i requires 0 <= i < |parsed| => Variation(parsed[i], AbstractLevel(i)))
  }

  /**
    The abstract variations: the cleaned reply parsed and levelled when it is
    an array; `None` when the model call throws (`reply` is `None`), when
    `JSON.parse` throws, or when the parsed value has no `map` method.
   */
  function Parsed(reply: Option<string>, parse: Parser): (r: Option<seq<Variation>>)
    ensures r.Some? <==> reply.Some? && parse(Cleaned(reply.value)).Some? && parse(Cleaned(reply.value)).value.JArray?
    ensures r.Some? ==> r.value == Levelled(parse(Cleaned(reply.value)).value.items)
  {
    match reply
    case None => None
    case Some(content) =>
      match parse(Cleaned(content))
      case Some(JArray(items)) => Some(Levelled(items))
      case _ => None
  }

  /** The original question at the original level. */
  function Original(question: string): Variation {
    Variation(JString(question), OriginalLevel)
  }

  /**
    `queryVariations` after the `catch` and the `push`: the abstract
    variations (or, in the fallback, the original question once) followed by
    the original question.
   */
  function QueryVariations(reply: Option<string>, parse: Parser, question: string): (r: seq<Variation>)
    ensures |r| >= 1 && r[|r| - 1] == Original(question)
    ensures Parsed(reply, parse).None? ==> r == [Original(question), Original(question)]
    ensures Parsed(reply, parse).Some? ==> r[..|r| - 1] == Parsed(reply, parse).value
  {
    var first := match Parsed(reply, parse) case Some(vs) => vs case None => [Original(question)];
    var r := first + [Original(question)];
    assert r[..|r| - 1] == first;
    r
  }

  /** `state.level?.includes('abstract') ? 4 : 2`. */
  function Depth(level: string): (k: nat)
    ensures k == AbstractDepth || k == PlainDepth
    ensures k == AbstractDepth <==> Contains(level, "abstract")
  {
    if Contains(level, "abstract") then AbstractDepth else PlainDepth
  }

  /** Every generated level is searched four deep, the original two deep. */
  lemma DepthOfLevels(idx: nat)
    ensures Depth(AbstractLevel(idx)) == AbstractDepth
    ensures Depth(OriginalLevel) == PlainDepth
  {
    assert OccursAt(AbstractLevel(idx), "abstract", 0);
    forall i | 0 <= i <= |OriginalLevel| - |"abstract"| ensures !OccursAt(OriginalLevel, "abstract", i) {
      assert OriginalLevel[i..i + 8][0] != "abstract"[0];
    }
  }

  /** The generated levels are pairwise distinct and none is the original level. */
  lemma LevelsDistinct(i: nat, j: nat)
    ensures AbstractLevel(i) != OriginalLevel
    ensures i != j ==> AbstractLevel(i) != AbstractLevel(j)
  {
    assert |AbstractLevel(i)| > |OriginalLevel|;
    if i != j {
      NatToStringInjective(i + 1, j + 1);
      var n := |AbstractPrefix|;
      assert AbstractLevel(i)[n..] == NatToString(i + 1);
      assert AbstractLevel(j)[n..] == NatToString(j + 1);
    }
  }

  /** The graph state: the asked question, its level, and the context once retrieved. */
  datatype State = State(question: Json, level: string, context: Option<seq<Doc>>)

  /**
    The `retrieve` node: the new context is the search for the state's
    question at its level's depth, replacing any earlier context.
   */
  function Retrieve(state: State, search: Search): seq<Doc> {
    search(state.question, Depth(state.level))
  }

  /** `graph.invoke(inputs)` for one variation: its answer. */
  function Invoke(search: Search, synthesize: Synthesize, v: Variation): (answer: string)
    ensures answer == synthesize(v.question, ContextText(search(v.question, Depth(v.level))))
  {
    var state := State(v.question, v.level, None);
    Answer(synthesize, v.question, Retrieve(state, search))
  }

  /** The log record of one run, with its fields in the order they are written. */
  function LogRecord(timestamp: string, webUrl: string, question: string, v: Variation, answer: string): Json {
    JObject([("timestamp", JString(timestamp)),
             ("website", JString(webUrl)),
             ("level", JString(v.level)),
             ("originalQuestion", JString(question)),
             ("query", v.question),
             ("answer", JString(answer))])
  }

  /** The records the loop appends, one per variation, in order; `clock(i)` is the time of the i-th. */
  function Records(search: Search, synthesize: Synthesize, clock: nat -> string, webUrl: string, question: string, vs: seq<Variation>): (r: seq<Json>)
    ensures |r| == |vs|
  {
    seq(|vs|, i requires 0 <= i < |vs| =>
      LogRecord(clock(i), webUrl, question, vs[i], Invoke(search, synthesize, vs[i])))
  }

  /**
    The `for (const item of queryVariations)` loop: one graph run and one log
    record per variation, `result` left holding the last run.
   */
  method RunVariations(search: Search, synthesize: Synthesize, clock: nat -> string, webUrl: string, question: string, vs: seq<Variation>)
    returns (log: seq<Json>, final: Option<string>)
    ensures log == Records(search, synthesize, clock, webUrl, question, vs)
    ensures |vs| == 0 ==> final == None
    ensures |vs| > 0 ==> final == Some(Invoke(search, synthesize, vs[|vs| - 1]))
  {
    log := [];
    var result: Option<string> := None;
    for i := 0 to |vs|
      invariant log == Records(search, synthesize, clock, webUrl, question, vs[..i])
      invariant i == 0 ==> result == None
      invariant i > 0 ==> result == Some(Invoke(search, synthesize, vs[i - 1]))
    {
      var item := vs[i];
      var answer := Invoke(search, synthesize, item);
      result := Some(answer);
      assert vs[..i + 1][..i] == vs[..i];
      log := log + [LogRecord(clock(i), webUrl, question, item, answer)];
    }
    assert vs[..|vs|] == vs;
    final := result;
  }

  /**
    The whole script after indexing. The reported answer is always the
    original question's, retrieved two deep, whatever the model replied.
   */
  method StepBackPrompting(reply: Option<string>, parse: Parser, search: Search, synthesize: Synthesize, clock: nat -> string, webUrl: string, question: string)
    returns (log: seq<Json>, final: string)
    ensures log == Records(search, synthesize, clock, webUrl, question, QueryVariations(reply, parse, question))
    ensures final == synthesize(JString(question), ContextText(search(JString(question), PlainDepth)))
    ensures |log| > 0 && log[|log| - 1].JObject? &&
            Lookup(log[|log| - 1].entries, "answer") == Some(JString(final)) &&
            Lookup(log[|log| - 1].entries, "level") == Some(JString(OriginalLevel))
  {
    var vs := match Parsed(reply, parse) case Some(levelled) => levelled case None => [Original(question)];
    vs := vs + [Original(question)];
    var result;
    log, result := RunVariations(search, synthesize, clock, webUrl, question, vs);
    DepthOfLevels(0);
    final := result.value;
    var n := |vs| - 1;
    assert log[n] == LogRecord(clock(n), webUrl, question, vs[n], final);
    var entries := log[n].entries;
    assert Lookup(entries, "answer") == Some(JString(final)) && Lookup(entries, "level") == Some(JString(OriginalLevel)) by {
      LookupAt(entries, "answer", 5);
      LookupAt(entries, "level", 2);
    }
  }

  /** There is one record per generated variation plus one for the original question. */
  lemma RecordCount(reply: Option<string>, parse: Parser, search: Search, synthesize: Synthesize, clock: nat -> string, webUrl: string, question: string)
    ensures reply.Some? && parse(Cleaned(reply.value)).Some? && parse(Cleaned(reply.value)).value.JArray? ==>
              |Records(search, synthesize, clock, webUrl, question, QueryVariations(reply, parse, question))| ==
              |parse(Cleaned(reply.value)).value.items| + 1
    ensures !(reply.Some? && parse(Cleaned(reply.value)).Some? && parse(Cleaned(reply.value)).value.JArray?) ==>
              |Records(search, synthesize, clock, webUrl, question, QueryVariations(reply, parse, question))| == 2
  {
    var vs := QueryVariations(reply, parse, question);
    if Parsed(reply, parse).Some? {
      assert |vs| == |vs[..|vs| - 1]| + 1;
    }
  }

  /** The i-th generated variation asks the i-th parsed query at level `abstract-level-(i+1)`, four deep. */
  lemma GeneratedVariation(reply: Option<string>, parse: Parser, question: string, i: nat)
    requires Parsed(reply, parse).Some?
    requires i < |parse(Cleaned(reply.value)).value.items|
    ensures QueryVariations(reply, parse, question)[i] ==
            Variation(parse(Cleaned(reply.value)).value.items[i], AbstractLevel(i))
    ensures Depth(QueryVariations(reply, parse, question)[i].level) == AbstractDepth
  {
    var vs := QueryVariations(reply, parse, question);
    assert vs[i] == vs[..|vs| - 1][i];
    DepthOfLevels(i);
  }

  /** Within one run the levels are distinct, except that the fallback asks the original question twice. */
  lemma RunLevelsDistinct(reply: Option<string>, parse: Parser, question: string, i: nat, j: nat)
    requires Parsed(reply, parse).Some?
    requires i < j < |QueryVariations(reply, parse, question)|
    ensures QueryVariations(reply, parse, question)[i].level != QueryVariations(reply, parse, question)[j].level
  {
    var vs := QueryVariations(reply, parse, question);
    var n := |parse(Cleaned(reply.value)).value.items|;
    assert |vs| == n + 1;
    GeneratedVariation(reply, parse, question, i);
    LevelsDistinct(i, j);
    if j < n {
      GeneratedVariation(reply, parse, question, j);
    }
  }
}
