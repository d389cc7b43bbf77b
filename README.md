# WikiSense retrieval pipelines in Dafny

WikiSense answers a question about a web page in several scripts. Each one
indexes the page in a vector store, asks a language model to expand the
question, retrieves context and has the model answer from it. This project
models the deterministic steps between those remote calls and proves what
those steps guarantee. The modelled scripts are:

- Reciprocal Rank Fusion (`rrf.mjs`): every expanded query is searched two
  deep. Each document adds `1/(k + rank + 1)` to the total of its id, with
  `k = 60`. The ids are sorted by descending total, and the documents of the
  first four become the context.
- Parallel queries (`pqr.mjs`): the searches of all query variations are
  flattened in variation order. They are then deduplicated through a `Map`
  keyed by source or by the first 30 characters of the text.
- Chain of thought (`cot.mjs`): the model's reply is cleaned of code fences
  and parsed, falling back to the question itself. The
  retrieve-then-generate graph runs once per sub-query, and every run is
  logged.
- Step-back prompting (`sbp.mjs`): the variations are tagged
  `abstract-level-i`, and the original question is always appended last.
  Abstract levels are searched four deep, the original two deep.
- HyDE (`hyde.mjs`): the first element of the parsed reply, a hypothetical
  document, is the retrieval query. The answer is generated for the original
  question. There is no fallback.
- The log formatter (`logsFormatter.js`): JSON lines become readable
  `key:value` blocks closed by a separator line.

Structure:

- Shared JavaScript semantics live in their own modules:
  - `Text`: trimming, `startsWith`, `includes`, `split`, `join`, decimal
    rendering.
  - `Json`: the values `JSON.parse` yields, `for...of`, `[0]`,
    `Object.entries`, template-literal text.
  - `InsertionMap`: a `Map` filled by `set` keeps first-insertion key order,
    and each key holds its last value.
  - `StableSort`: `Array.prototype.sort` with `(a, b) => b[1] - a[1]`, a
    stable descending sort.
  - `Fence`: the cleaning of the model's reply.
  - `Documents`: document identities, the context join, and the search and
    answer capabilities.
- Remote calls are parameters:
  - The vector store's `similaritySearch` is a function `Search` from a
    query and a depth to documents.
  - The model's answer from the filled rag-prompt is a function
    `Synthesize` from a question and a context text.
  - `JSON.parse` is a partial function `Parser` whose `None` stands for the
    thrown `SyntaxError`.
  - The model's expansion reply is a string, or an `Option<string>` where
    the script catches a failing call.
  - Timestamps come from `clock: nat -> string`, the time of the i-th log
    record.
- The scripts write log records with `fs.appendFileSync`. Here they are a
  returned sequence of `Json` objects, with their fields in the order the
  script writes them.

The RRF fusion follows the source's loops. `ReciprocalRankFusion` is a
method over a `map<string, real>` of scores, a key-order sequence and a
`map<string, Doc>`. Every step is proved against the specification function
`Fuse`, and the properties of fusion are lemmas about `Fuse`. The
per-variant loops of `cot.mjs` and `sbp.mjs` are methods with `for` loops,
proved against the record sequences they append.

Points where the code's behaviour is easy to misread:

- `docMap.set` overwrites, so a fused id keeps the document of its last
  occurrence.
- For the three lists `[[A,B],[B,C],[A,C]]` the totals are A = 2/61,
  B = 1/61 + 1/62 and C = 2/62, and the fused order is A, B, C.
- In `cot.mjs` every run starts from a fresh graph state `{question: query}`,
  so the accumulation in `retrieve` never carries context from one
  sub-query to the next.
- A template literal `${value}` throws a `TypeError` on a parsed object with its own "toString" property: that property is never a function, and `valueOf` returns the object itself. So the formatter writes nothing for the line `{"a":{"toString":1}}`, and `rrf.mjs`, `pqr.mjs` and `hyde.mjs` give no answer when the parsed reply they log holds such an object.
- `hyde.mjs` has no fallback for an unparsable reply: `docContent` stays
  `undefined` and reading `docContent[0]` throws before the graph runs.

## Model

| member | source | states |
|---|---|---|
| Documents.DedupKey | Projects/WikiSense/pqr.mjs:121 | without a truthy source, the key is the first 30 characters of the text, or the whole of a shorter text |
| Documents.FusionId | Projects/WikiSense/rrf.mjs:151 | the fusion id `doc.metadata?.source || doc.pageContent`; its properties are the `Rrf` lemmas on ids |
| Documents.DedupKeyCollides | Projects/WikiSense/pqr.mjs:121 | two sourceless documents share a key exactly when both texts have at least 30 characters and agree on the first 30, or the first is shorter than 30 characters and the texts are equal |
| Documents.Prefix | Projects/WikiSense/pqr.mjs:121 | `slice(0, n)` is a prefix of the text, of length n or the whole length of a shorter text |
| Documents.ContextTextRoundTrip | Projects/WikiSense/pqr.mjs:140 | the context text is the `pageContent` values joined by `'\n'` in order; splitting it gives them back when none holds a newline |
| Documents.ContextText | Projects/WikiSense/rrf.mjs:175 | the page contents joined by `'\n'`, the context text every `generate` node sends; `ContextTextRoundTrip` splits it back |
| Documents.SearchAll | Projects/WikiSense/pqr.mjs:110-114 | one result list per query, in query order, each the depth-k search of that query |
| Fence.CleanResponse | Projects/WikiSense/cot.mjs:121-124 | the step-by-step reassignment of `cleanedContent` computes the cleaning function |
| Fence.Cleaned | Projects/WikiSense/cot.mjs:121-124 | the text handed to `JSON.parse`: trimmed, and when it starts with three backticks, fences removed and trimmed again; `CleanedShape` and `CleanedIdempotent` state its properties |
| Fence.RemoveFences | Projects/WikiSense/cot.mjs:123 | `replace(/```(json)?/g, '')` scans left to right, tries "```json" first, resumes after each match and never lengthens the text |
| Fence.RemoveFencesLeavesNoRun | Projects/WikiSense/cot.mjs:123 | after removing every match of the fence pattern, no three backticks remain in a row |
| Fence.RemoveFencesSkipsPlainText | Projects/WikiSense/cot.mjs:123 | text without backticks passes through the fence removal unchanged |
| Fence.CleanedShape | Projects/WikiSense/cot.mjs:121-124 | the cleaned text is trimmed and never starts with three backticks; unfenced text is only trimmed |
| Fence.CleanedIdempotent | Projects/WikiSense/cot.mjs:121-124 | cleaning a cleaned text changes nothing |
| Fence.FenceMarkersRemoved | Projects/WikiSense/cot.mjs:123 | a block opened by "```json" or "```" and closed by "```" loses exactly its markers |
| Fence.FencedEqualsUnfenced | Projects/WikiSense/cot.mjs:121-127 | a fenced reply cleans to the same text as the bare reply |
| Fence.FencedExample | Projects/WikiSense/cot.mjs:121-127 | the fenced `["a","b"]` and the bare `["a","b"]` clean to the same string |
| Json.ForOf | Projects/WikiSense/cot.mjs:165 | `for...of` visits an array's items or a string's characters, and throws on every other value |
| Json.IndexZero | Projects/WikiSense/hyde.mjs:150 | `v[0]` throws on `null` only, reads the first item or character, reads property "0" of an object, and is `undefined` on empty values |
| Json.Entries | Projects/WikiSense/logsFormatter.js:23 | `Object.entries` throws on `null` only; an array gives its items under their decimal indices |
| Json.ToText | Projects/WikiSense/logsFormatter.js:24 | `${value}` gives a text exactly when the conversion does not throw, which it does on an object with its own "toString" property or an array holding such a value; `ToTextCases` and `ToTextArrays` state the texts |
| Json.ItemTexts | Projects/WikiSense/logsFormatter.js:24 | the texts `join` gives an array's items, one per item with a `null` item as "", or none exactly when an item's conversion throws |
| Json.ToTextCases | Projects/WikiSense/logsFormatter.js:24 | a string renders as itself, `null` as "null", an object without its own "toString" property as "[object Object]", and an object with one throws |
| Json.ToTextArrays | Projects/WikiSense/rrf.mjs:129 | an array renders as its items joined by commas, `[null, s]` as ",s" and `[x]` as the text of `x` or "" for `null`; `[{"toString": x}]` throws |
| Json.Lookup | Projects/WikiSense/hyde.mjs:150 | reading a property finds a value exactly when some entry has the key, and then the value of the last such entry, as `JSON.parse` keeps the last duplicate |
| Json.LookupAt | Projects/WikiSense/cot.mjs:176-183 | reading a key finds the entry at i when that entry has the key and no later one does, as for each field of a written log entry |
| Text.Trim | Projects/WikiSense/cot.mjs:121 | `trim()` leaves no whitespace at either end and never lengthens the text |
| Text.TrimOuter | Projects/WikiSense/cot.mjs:121 | the trimmed text is a slice of the original with only whitespace before and after it: nothing inside is removed |
| Text.StartsWith | Projects/WikiSense/cot.mjs:122 | `startsWith(p)`: the text's first `|p|` characters are `p` |
| Text.Contains | Projects/WikiSense/sbp.mjs:123 | `includes(sub)`: `sub` occurs at some position of the text |
| Text.Split | Projects/WikiSense/logsFormatter.js:16 | `split('\n')` gives at least one part and no part holds the separator; `SplitJoin` and `JoinSplit` make it the inverse of `join` |
| Text.Join | Projects/WikiSense/logsFormatter.js:25-29 | `join(sep)`: the parts with `sep` between neighbours, an empty array joining to ""; its inverse is `Split` |
| InsertionMap.FirstSeenKeys | Projects/WikiSense/rrf.mjs:143-158 | the key order of a `Map` holds every inserted key once, and nothing else |
| InsertionMap.FirstSeen | Projects/WikiSense/rrf.mjs:143-158 | the key order of a `Map` after `set` of each key in turn; `FirstSeenKeys`, `FirstSeenOrder` and `FirstSeenLength` state its properties |
| InsertionMap.FirstSeenOrder | Projects/WikiSense/rrf.mjs:143-158 | keys stand in the order of their first insertion |
| InsertionMap.FirstSeenLength | Projects/WikiSense/pqr.mjs:118-125 | a `Map` has one key per distinct inserted key |
| InsertionMap.Latest | Projects/WikiSense/rrf.mjs:159 | the keys of the value map are the inserted keys |
| InsertionMap.LatestIsLastOccurrence | Projects/WikiSense/rrf.mjs:159 | the value held for a key is that of its last `set` |
| StableSort.SortByScoreDesc | Projects/WikiSense/rrf.mjs:164 | the sort is a permutation of its input and orders by non-increasing score |
| StableSort.SortIsStable | Projects/WikiSense/rrf.mjs:164 | for every score, the entries holding it keep their relative order |
| StableSort.SortKeepsTiesInOrder | Projects/WikiSense/rrf.mjs:164 | two entries of equal score stand in the sorted sequence in their input order, both directions |
| StableSort.SortKeepsKeysDistinct | Projects/WikiSense/rrf.mjs:164 | sorting entries with distinct keys keeps them distinct |
| Rrf.ContributionValue | Projects/WikiSense/rrf.mjs:156 | one occurrence at 0-based rank r contributes exactly 1/(k + r + 1), a positive amount |
| Rrf.Contribution | Projects/WikiSense/rrf.mjs:156 | the score `1 / (k + rank + 1)` of one occurrence, as an exact rational; `ContributionValue` and `ContributionDecreasing` state its properties |
| Rrf.ContributionDecreasing | Projects/WikiSense/rrf.mjs:153-156 | a better rank contributes strictly more |
| Rrf.TotalAbsent | Projects/WikiSense/rrf.mjs:158 | an id that never occurs has total 0 |
| Rrf.Total | Projects/WikiSense/rrf.mjs:158 | the sum of an id's contributions over all its occurrences; `TotalAbsent`, `TotalPresent` and `TotalAppend` state its properties |
| Rrf.TotalPresent | Projects/WikiSense/rrf.mjs:158 | an id that occurs has a positive total |
| Rrf.TotalAppend | Projects/WikiSense/rrf.mjs:148-158 | totals add up over concatenated occurrences, with no cap |
| Rrf.TotalOneMoreList | Projects/WikiSense/rrf.mjs:148-158 | one more result list adds the contributions of that list's occurrences of the id |
| Rrf.ScoreMapTotal | Projects/WikiSense/rrf.mjs:158 | the `scores` map holds each id's total over all occurrences |
| Rrf.ScoreMap | Projects/WikiSense/rrf.mjs:158 | the `scores` map after each `set(docId, (get(docId) || 0) + score)`; `ScoreMapKey` and `ScoreMapTotal` give its keys and values |
| Rrf.VisitDoc | Projects/WikiSense/rrf.mjs:149-160 | the callback for one document extends the key order, adds the contribution to `scores` and overwrites `docMap` |
| Rrf.VisitList | Projects/WikiSense/rrf.mjs:149-160 | the inner loop over one list does so for each of its documents at their ranks |
| Rrf.ScoreEntries | Projects/WikiSense/rrf.mjs:164 | `Array.from(scores.entries())` lists the ids in first-seen order, each with its total |
| Rrf.ReciprocalRankFusion | Projects/WikiSense/rrf.mjs:142-168 | the method with its nested loops and sort computes the fusion specification |
| Rrf.Fuse | Projects/WikiSense/rrf.mjs:142-168 | the ranking has one entry per distinct id, and every ranked id has a stored document |
| Rrf.Top | Projects/WikiSense/rrf.mjs:167 | `top(n)` gives min(n, ranking length) documents, the stored document of each of the first ranked ids |
| Rrf.TopLength | Projects/WikiSense/rrf.mjs:164-167 | `top(n)` returns exactly min(n, number of distinct ids) documents, without padding |
| Rrf.RankingWithTotals | Projects/WikiSense/rrf.mjs:158-164 | each ranked entry carries its id's total |
| Rrf.TopDistinct | Projects/WikiSense/rrf.mjs:164-167 | the documents of `top(n)` have pairwise distinct ids, in ranking order |
| Rrf.TopKeepsLastOccurrence | Projects/WikiSense/rrf.mjs:159-167 | each returned document is the last occurrence of its id across all lists |
| Rrf.TopByDescendingTotal | Projects/WikiSense/rrf.mjs:164-167 | returned documents come by non-increasing total |
| Rrf.TiesInFirstSeenOrder | Projects/WikiSense/rrf.mjs:143-164 | ids with equal totals keep the order in which they were first seen |
| Rrf.EmptyListsFuseToNothing | Projects/WikiSense/rrf.mjs:148-167 | no lists, or only empty lists, give an empty result for every n |
| Rrf.ThreeListsExample | Projects/WikiSense/rrf.mjs:148-164 | lists [[A,B],[B,C],[A,C]] with k = 60 rank A (2/61), B (1/61 + 1/62), C (2/62) |
| Rrf.ThreeListsExampleTop | Projects/WikiSense/rrf.mjs:164-167 | `top(4)` of that example is [A, B, C] |
| Rrf.ExampleDocs | Projects/WikiSense/rrf.mjs:159 | in `[[A,B],[B,C],[A',C]]`, with A' another document under A's id, the id of A keeps A', its last occurrence, and B and C keep theirs |
| Rrf.Retrieve | Projects/WikiSense/rrf.mjs:112-140 | a parse failure returns without a context update; a parsed value whose logging at line 129 throws, or a parsed non-array at `map`, throws; otherwise there is a new context |
| Rrf.RetrieveParsedArray | Projects/WikiSense/rrf.mjs:129-136 | a parsed array holding an item whose text conversion throws makes `retrieve` throw; otherwise it fuses the depth-2 searches of its items with k = 60 and keeps at most four documents of distinct ids |
| Rrf.Run | Projects/WikiSense/rrf.mjs:112-140 | there is an answer exactly when `retrieve` produced a context; none after a parse failure |
| Rrf.RunAnswersFromFusedContext | Projects/WikiSense/rrf.mjs:129-184 | for a parsed array that can be logged, the answer is generated for the original question from the fused context joined by `'\n'`; otherwise there is none |
| ParallelQuery.QueryVariations | Projects/WikiSense/pqr.mjs:98-107 | the raw reply is parsed as it is; anything but a parsed array gives exactly `[baseQuestion]` |
| ParallelQuery.Flatten | Projects/WikiSense/pqr.mjs:116 | `flat()`: the result lists one after the other; `FlattenAppend` and `FlattenMembers` state its properties |
| ParallelQuery.FlattenAppend | Projects/WikiSense/pqr.mjs:116 | flattening concatenates the lists in variation order |
| ParallelQuery.FlattenMembers | Projects/WikiSense/pqr.mjs:116 | a document is in the flattened results exactly when it is in one of the lists |
| ParallelQuery.UniqueResults | Projects/WikiSense/pqr.mjs:118-125 | one result per key of the `Map`, in key order |
| ParallelQuery.UniqueKeys | Projects/WikiSense/pqr.mjs:118-125 | the i-th result carries the i-th key in first-seen order |
| ParallelQuery.UniqueDistinct | Projects/WikiSense/pqr.mjs:118-125 | the results have pairwise distinct keys |
| ParallelQuery.UniqueInFirstSeenOrder | Projects/WikiSense/pqr.mjs:118-125 | results come in the order their keys were first retrieved |
| ParallelQuery.UniqueLength | Projects/WikiSense/pqr.mjs:118-125 | there are as many results as distinct keys, never more than retrieved documents |
| ParallelQuery.UniqueCovers | Projects/WikiSense/pqr.mjs:118-125 | every retrieved document's key is represented |
| ParallelQuery.UniqueKeepsLast | Projects/WikiSense/pqr.mjs:118-125 | each result is the last retrieved document with its key |
| ParallelQuery.UniqueSingleSource | Projects/WikiSense/pqr.mjs:54-125 | when every document has the same non-empty source, only the last retrieved one remains |
| ParallelQuery.RetrieveFallback | Projects/WikiSense/pqr.mjs:99-125 | a reply that is not a JSON array retrieves for the question alone, two deep |
| ParallelQuery.Retrieve | Projects/WikiSense/pqr.mjs:91-125 | the `retrieve` node: the variations' depth-2 searches, flattened and deduplicated by the `Map` |
| ParallelQuery.Run | Projects/WikiSense/pqr.mjs:91-173 | there is an answer exactly when the variations can be logged as text; it is generated for the original question from the retrieved documents' texts joined by `'\n'`; in the fallback there always is one, from the deduplicated search results for the question itself |
| ChainOfThought.QueryVariations | Projects/WikiSense/cot.mjs:126-131 | a parse failure gives exactly `[question]`; otherwise the parsed value is used as it is |
| ChainOfThought.FencedReplySameVariations | Projects/WikiSense/cot.mjs:121-131 | a fenced reply yields the same sub-queries as the bare reply |
| ChainOfThought.RetrievedContext | Projects/WikiSense/cot.mjs:134-139 | old context followed by new results: the old context is a prefix and the lengths add up; without old context, the results alone |
| ChainOfThought.Invoke | Projects/WikiSense/cot.mjs:134-167 | a run on a fresh state `{question: query}` answers that query from its own depth-2 search only |
| ChainOfThought.LogRecord | Projects/WikiSense/cot.mjs:176-183 | the log entry's six fields, in the order written; `LastRecordAnswer` and `ContextNotCarried` state what reading them back gives |
| ChainOfThought.Records | Projects/WikiSense/cot.mjs:165-185 | one record per sub-query, in order; `ContextNotCarried` and `LastRecordAnswer` state their contents |
| ChainOfThought.RunQueries | Projects/WikiSense/cot.mjs:165-185 | the loop appends one record per sub-query, in order, and leaves `result` at the last run, whose answer is the last record's `answer` field; with no sub-query there is no result |
| ChainOfThought.ChainOfThought | Projects/WikiSense/cot.mjs:119-190 | a non-iterable parsed value throws before any record; otherwise one record per iterated sub-query and the final answer is the last sub-query's, the `answer` of the last record, or none when there is no sub-query; a parse failure logs and answers the question alone |
| ChainOfThought.ContextNotCarried | Projects/WikiSense/cot.mjs:134-183 | the i-th record's `query` is the i-th sub-query and its `answer` comes from that sub-query's own depth-2 search, never an earlier context |
| ChainOfThought.LastRecordAnswer | Projects/WikiSense/cot.mjs:176-189 | the last record's `answer` field is the answer of the last sub-query's run, the one printed as the final response |
| StepBack.Levelled | Projects/WikiSense/sbp.mjs:97-100 | one variation per parsed item, in order, each asking that item |
| StepBack.AbstractLevel | Projects/WikiSense/sbp.mjs:99 | `abstract-level-${idx + 1}` starts with the prefix "abstract-level-" followed by at least one more character |
| StepBack.Parsed | Projects/WikiSense/sbp.mjs:87-104 | the levelled variations exist exactly when the model call succeeds and its cleaned reply parses to an array |
| StepBack.QueryVariations | Projects/WikiSense/sbp.mjs:101-107 | the last variation is always the original question; the fallback is exactly original twice |
| StepBack.Depth | Projects/WikiSense/sbp.mjs:123 | the depth is 4 exactly when the level contains "abstract", otherwise 2 |
| StepBack.Retrieve | Projects/WikiSense/sbp.mjs:121-129 | the `retrieve` node: the search for the state's question at its level's depth, replacing any earlier context |
| StepBack.DepthOfLevels | Projects/WikiSense/sbp.mjs:99-123 | generated levels are searched four deep, the original level two deep |
| StepBack.LevelsDistinct | Projects/WikiSense/sbp.mjs:99-107 | generated levels are pairwise distinct and differ from the original level |
| StepBack.Invoke | Projects/WikiSense/sbp.mjs:121-145 | a run answers the variation's question from a fresh search at its level's depth, replacing any context |
| StepBack.LogRecord | Projects/WikiSense/sbp.mjs:174-181 | the log entry's six fields, in the order written |
| StepBack.Records | Projects/WikiSense/sbp.mjs:159-183 | one record per variation, in order; `RecordCount` and `StepBackPrompting` state their number and last entry |
| StepBack.RunVariations | Projects/WikiSense/sbp.mjs:159-183 | one record per variation in order, and `result` left at the last run |
| StepBack.StepBackPrompting | Projects/WikiSense/sbp.mjs:86-189 | the records follow the variations; the final answer is the original question's, retrieved two deep, and is the `answer` of the last record, whose level is `original` |
| StepBack.RecordCount | Projects/WikiSense/sbp.mjs:97-183 | there is one record per parsed item plus one after a successful parse and 2 after the fallback |
| StepBack.GeneratedVariation | Projects/WikiSense/sbp.mjs:97-123 | the i-th variation asks the i-th parsed item at level `abstract-level-(i+1)`, four deep |
| StepBack.RunLevelsDistinct | Projects/WikiSense/sbp.mjs:97-107 | after a successful parse, the variations' levels are pairwise distinct |
| HypotheticalDocument.Query | Projects/WikiSense/hyde.mjs:111-150 | without a parse there is no query; otherwise the query is `docContent[0]` when that is defined |
| HypotheticalDocument.ArrayReplyFirstItem | Projects/WikiSense/hyde.mjs:149-151 | only the first element of a parsed array is used |
| HypotheticalDocument.StringReplyFirstCharacter | Projects/WikiSense/hyde.mjs:150 | a reply that parses to a JSON string queries with its first character |
| HypotheticalDocument.Invoke | Projects/WikiSense/hyde.mjs:119-137 | retrieval uses the hypothetical document two deep; generation uses the original question |
| HypotheticalDocument.LogRecord | Projects/WikiSense/hyde.mjs:162-169 | the log entry's six fields, in the order written |
| HypotheticalDocument.HyDE | Projects/WikiSense/hyde.mjs:106-171 | when the parsed value's logging at line 116 throws, or there is no usable query, there is neither an answer nor a record; otherwise one run and one record whose `hypotheticalDoc` is `docContent[0]` and whose `RESPONSE` is the final answer |
| LogsFormatter.NonEmptyLines | Projects/WikiSense/logsFormatter.js:15-17 | the kept lines are non-empty and hold no newline |
| LogsFormatter.Filter | Projects/WikiSense/logsFormatter.js:17 | `filter(Boolean)` on strings: the kept lines are non-empty and come from the input |
| LogsFormatter.FilterKeepsNonEmpty | Projects/WikiSense/logsFormatter.js:17 | a line is kept exactly when it is one of the lines and is not empty |
| LogsFormatter.FilterAppend | Projects/WikiSense/logsFormatter.js:17 | filtering a concatenation filters each part, so the kept lines keep their order and multiplicity |
| LogsFormatter.FilterSingle | Projects/WikiSense/logsFormatter.js:17 | a single line is kept exactly when it is not empty |
| LogsFormatter.ParseAll | Projects/WikiSense/logsFormatter.js:18 | records exist exactly when every line parses, and then the i-th record is the i-th line's value |
| LogsFormatter.RenderEntry | Projects/WikiSense/logsFormatter.js:24 | `${key}:${value}` throws exactly when the value's conversion does; otherwise it starts with the key and a colon |
| LogsFormatter.EntryLines | Projects/WikiSense/logsFormatter.js:24-25 | one rendered `key:value` line per entry, in entry order, or none exactly when some value's conversion throws |
| LogsFormatter.RenderRecord | Projects/WikiSense/logsFormatter.js:22-28 | a record renders exactly when it is not `null`, on which `Object.entries` throws, and none of its values throws when converted to text |
| LogsFormatter.RenderAll | Projects/WikiSense/logsFormatter.js:21-28 | every record is rendered, in order, or nothing when one of them does not render |
| LogsFormatter.Format | Projects/WikiSense/logsFormatter.js:15-29 | there is output exactly when every kept line parses and every parsed record renders |
| LogsFormatter.UnrenderableRecordFails | Projects/WikiSense/logsFormatter.js:10-29 | a `null` record, or a record with a value like `{"toString":1}`, makes the whole formatting fail |
| LogsFormatter.Process | Projects/WikiSense/logsFormatter.js:10-40 | on success the output is appended and the raw log deleted; with a missing raw log, a line that fails to parse or a record that does not render, both files are unchanged |
| LogsFormatter.BlankInputFormatsEmpty | Projects/WikiSense/logsFormatter.js:15-29 | empty input, or newlines only, formats to the empty string |
| LogsFormatter.RecordLines | Projects/WikiSense/logsFormatter.js:24-27 | a rendered record whose entries are single lines holds exactly one separator line |
| LogsFormatter.RecordLineStructure | Projects/WikiSense/logsFormatter.js:23-27 | the lines of a rendered record are its `key:value` lines in entry order followed by the separator line; a record without entries gives an empty line before the separator |
| LogsFormatter.SeparatorPerRecord | Projects/WikiSense/logsFormatter.js:15-29 | the output has one separator line per non-empty input line |

## Left out

- Remote services are parameters: the language model, the rag-prompt template, embeddings and the vector store (`similaritySearch`, `addDocuments`).
- Web loading, chunking and the indexing `try`/`catch` blocks are not part of this model, nor is the CLI or terminal output (`readline`, spinners, colours, `console.log`). Of the logging, only the template-literal conversion of a parsed value is modelled, at rrf.mjs:129, pqr.mjs:108 and hyde.mjs:116, because it can throw.
- LangGraph is two sequential function calls over a state record. The graph machinery, and the merging of a node's partial result into the state, are not modelled.
- `Promise.all` is a sequential map in variation order; the concurrency is not modelled.
- `JSON.parse` and `JSON.stringify` are not modelled. A log record is a `Json` object; the line written to the file, and reading it back, are outside the model.
- The file system is not modelled: `appendFileSync`, `readFileSync`, `unlinkSync` and `exec`. `LogsFormatter.Process` models only the formatter's two files as values. The formatter reads `rags_logs.json`, while `cot.mjs`, `sbp.mjs` and `hyde.mjs` append to `rag_logs.json`. The model keeps the scripts' record sequences and the formatter's input apart and does not connect them.
- Timestamps are the parameter `clock`; `new Date().toISOString()` is not modelled.
- Rrf.Contribution: scores are exact rationals (`real`), not IEEE-754 doubles. Rounding can make two float totals tie or differ where the exact totals do not.
- Rrf.Top: requires the fusion to be well formed (every ranked id has a stored document). `Fuse` always produces such a value.
- Characters are Dafny `char`s, Unicode scalar values. `for...of` on a string visits code points, as the model does, and `trim` removes only whitespace, all of which lies in the Basic Multilingual Plane, so the model's trimming is exact. `slice(0, 30)`, `v[0]` on a string and `Object.entries` of a string index UTF-16 code units instead, which the model does not distinguish from characters.
- Documents.DedupKey: `slice(0, 30)` counts UTF-16 code units, so for text with characters outside the Basic Multilingual Plane the key can be shorter than 30 characters, or end in half of a surrogate pair.
- Json.IndexZero: on a string, `v[0]` reads the first UTF-16 code unit; for a string starting with a character outside the Basic Multilingual Plane that is a lone surrogate, while the model reads the whole character.
- Json.Entries: on a string, `Object.entries` pairs index keys with UTF-16 code units; the model pairs them with characters, so a string with characters outside the Basic Multilingual Plane has fewer entries in the model.
- HypotheticalDocument.StringReplyFirstCharacter: for a reply parsing to a string that starts with a character outside the Basic Multilingual Plane, the script searches with and logs a lone surrogate; the model uses the whole character.
- A parsed object's entries are taken as the `Parser` returns them. `JSON.parse` keeps one entry per key, holding the last duplicate's value; `Json.Lookup` takes the last entry, and `Object.entries` in the formatter is modelled on the entries as given.
- A number inside a parsed value carries its JavaScript display text, so the `${value}` rendering needs no number formatting.
- HypotheticalDocument.HyDE: when `docContent[0]` is `undefined` (an empty array, a number, an object without key "0"), the script still searches with `undefined`. The vector store's behaviour there is unknown, so the model reports no answer and no record.
- In `cot.mjs`, `generate` also overwrites the state's `context` with the answer text. The state is discarded after each run, so this has no observable effect and is not modelled.
- LogsFormatter.SeparatorPerRecord: holds only when no rendered key or value spans several lines. A value containing a newline can add lines, or even a line equal to the separator.
- LogsFormatter.Process: a failure after the append and before the unlink (for example a permission error on `unlinkSync`) leaves the output appended and the raw log in place; this case is not modelled, since the file system is not.
- ChainOfThought.RunQueries: `chalk.red(query)` at cot.mjs:171 converts each sub-query to text after its run and before its record is written. A sub-query object with its own "toString" property would throw there and end the loop. `chalk` is a library outside this repository, so this conversion is not modelled.
- StepBack.RunVariations: `chalk.red(item.question)` at sbp.mjs:170 converts each variation's question to text in the same way, and is not modelled for the same reason.
- Errors that reject `main`'s promise (a thrown `TypeError` in `cot.mjs` or `hyde.mjs`) show up as "no answer and no further records"; the crash itself is not modelled.
