/**
  Retrieved documents, the two identities the scripts give them, and the
  remote capabilities every pipeline uses: the vector store's similarity
  search and the language model answering from the filled rag-prompt.
 */
module Documents {
  import opened Wrappers
  import opened Text
  import opened Json

  /** A retrieved chunk: its text and, when its metadata carries one, its `source`. */
  datatype Doc = Doc(pageContent: string, source: Option<string>)

  /** `doc.metadata?.source` is truthy: present and not the empty string. */
  predicate HasSource(d: Doc) {
    d.source.Some? && d.source.value != ""
  }

  /** The fusion identity of rrf.mjs: `doc.metadata?.source || doc.pageContent`. */
  function FusionId(d: Doc): string {
    if HasSource(d) then d.source.value else d.pageContent
  }

  /** The first `n` characters of `s`, or all of a shorter `s`: `s.slice(0, n)`. */
  function Prefix(s: string, n: nat): (r: string)
    ensures r <= s && |r| == if |s| < n then |s| else n
  {
    if |s| < n then s else s[..n]
  }

  const KeyPrefixLength: nat := 30

  /**
    The deduplication key of pqr.mjs: the source when truthy, otherwise
    `pageContent.slice(0, 30)`, the first thirty characters or all of a
    shorter text.
   */
  function DedupKey(d: Doc): (r: string)
    ensures !HasSource(d) ==> r <= d.pageContent
    ensures !HasSource(d) ==> |r| == if |d.pageContent| < KeyPrefixLength then |d.pageContent| else KeyPrefixLength
  {
    if HasSource(d) then d.source.value else Prefix(d.pageContent, KeyPrefixLength)
  }

  /**
    Two documents without a source share a key exactly when they agree on
    their first thirty characters, a shorter text counting as a whole.
   */
  lemma DedupKeyCollides(a: Doc, b: Doc)
    requires !HasSource(a) && !HasSource(b)
    ensures DedupKey(a) == DedupKey(b) <==>
            (|a.pageContent| >= KeyPrefixLength && |b.pageContent| >= KeyPrefixLength &&
             a.pageContent[..KeyPrefixLength] == b.pageContent[..KeyPrefixLength]) ||
            (|a.pageContent| < KeyPrefixLength && a.pageContent == b.pageContent)
  {
  }

  function Contents(ctx: seq<Doc>): (r: seq<string>)
    ensures |r| == |ctx| && forall i :: 0 <= i < |ctx| ==> r[i] == ctx[i].pageContent
  {
    seq(|ctx|, i requires 0 <= i < |ctx| => ctx[i].pageContent)
  }

  /** `state.context.map((doc) => doc.pageContent).join('\n')`. */
  function ContextText(ctx: seq<Doc>): string {
    Join(Contents(ctx), "\n")
  }

  /**
    The context text keeps every document's text, in order: splitting it at
    line breaks gives them back when none of them holds a line break.
   */
  lemma ContextTextRoundTrip(ctx: seq<Doc>)
    requires |ctx| >= 1
    requires forall i :: 0 <= i < |ctx| ==> '\n' !in ctx[i].pageContent
    ensures Split(ContextText(ctx), '\n') == Contents(ctx)
  {
    SplitJoin(Contents(ctx), '\n');
  }

  /** The vector store's `similaritySearch(query, k)`, in the order it returns. */
  type Search = (Json, nat) -> seq<Doc>

  /** `Promise.all(queries.map((query) => vectorStore.similaritySearch(query, depth)))`, in query order. */
  function SearchAll(search: Search, queries: seq<Json>, depth: nat): (r: seq<seq<Doc>>)
    ensures |r| == |queries|
    ensures forall i :: 0 <= i < |queries| ==> r[i] == search(queries[i], depth)
  {
    seq(|queries|, i requires 0 <= i < |queries| => search(queries[i], depth))
  }

  /** The rag-prompt template filled with a question and a context text, answered by the language model. */
  type Synthesize = (Json, string) -> string

  /** The `generate` node shared by all scripts: join the context and ask the model. */
  function Answer(synthesize: Synthesize, question: Json, ctx: seq<Doc>): string {
    synthesize(question, ContextText(ctx))
  }
}
