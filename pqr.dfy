/**
  pqr.mjs: parallel-query retrieval. The language model's reply is parsed as
  an array of query variations (falling back to the question itself), each
  variation is searched, the result lists are flattened in variation order
  and deduplicated through a `Map` keyed by source or leading text.
 */
module ParallelQuery {
  import opened Wrappers
  import opened Json
  import opened Documents
  import opened InsertionMap

  /** Results per query variation: `similaritySearch(query, 2)`. */
  const QueryDepth: nat := 2

  /**
    `queryVariations`: the parsed reply when it is an array; `[baseQuestion]`
    when `JSON.parse` throws or the value is not an array. The raw reply is
    parsed as it is, with no trimming and no fence removal.
   */
  function QueryVariations(parse: Parser, content: string, baseQuestion: string): (r: seq<Json>)
    ensures parse(content).Some? && parse(content).value.JArray? ==> r == parse(content).value.items
    ensures !(parse(content).Some? && parse(content).value.JArray?) ==> r == [JString(baseQuestion)]
  {
    match parse(content)
    case Some(JArray(items)) => items
    case _ => [JString(baseQuestion)]
  }

  /** `resultsArrays.flat()`: the lists one after the other. */
  function Flatten(lists: seq<seq<Doc>>): seq<Doc> {
    if lists == [] then [] else Flatten(lists[..|lists| - 1]) + lists[|lists| - 1]
  }

  /** Flattening is concatenation: the results of earlier variations come first. */
  lemma {:induction false} FlattenAppend(a: seq<seq<Doc>>, b: seq<seq<Doc>>)
    ensures Flatten(a + b) == Flatten(a) + Flatten(b)
    decreases |b|
  {
    if b == [] {
      assert a + b == a;
    } else {
      var n := |b| - 1;
      assert (a + b)[..|a| + n] == a + b[..n];
      FlattenAppend(a, b[..n]);
    }
  }

  /** A document is in the flattened results exactly when it is in one of the lists. */
  lemma {:induction false} FlattenMembers(lists: seq<seq<Doc>>, d: Doc)
    ensures d in Flatten(lists) <==> exists i :: 0 <= i < |lists| && d in lists[i]
  {
    if lists != [] {
      var n := |lists| - 1;
      var init := lists[..n];
      FlattenMembers(init, d);
      if d in Flatten(init) {
        var i :| 0 <= i < |init| && d in init[i];
        assert lists[i] == init[i];
      }
      if exists i :: 0 <= i < |lists| && d in lists[i] {
        var i :| 0 <= i < |lists| && d in lists[i];
        if i < n {
          assert init[i] == lists[i];
        }
      }
    }
  }

  /** The flattened results are as long as all the lists together. */
  lemma {:induction false} FlattenLength(lists: seq<seq<Doc>>, l: seq<Doc>)
    ensures |Flatten(lists + [l])| == |Flatten(lists)| + |l|
  {
    assert (lists + [l])[..|lists|] == lists;
  }

  /** The keys given to the `Map` constructor, one per result. */
  function KeysOf(docs: seq<Doc>): (r: seq<string>)
    ensures |r| == |docs|
    ensures forall i :: 0 <= i < |docs| ==> r[i] == DedupKey(docs[i])
  {
    seq(|docs|, i requires 0 <= i < |docs| => DedupKey(docs[i]))
  }

  /** `allResults.map((doc) => [key, doc])`, the entries given to the `Map` constructor. */
  function Keyed(docs: seq<Doc>): (r: seq<(string, Doc)>)
    ensures |r| == |docs|
    ensures forall i :: 0 <= i < |docs| ==> r[i] == (DedupKey(docs[i]), docs[i])
  {
    seq(|docs|, i requires 0 <= i < |docs| => (DedupKey(docs[i]), docs[i]))
  }

  lemma KeyedKeys(docs: seq<Doc>)
    ensures forall x :: x in Latest(Keyed(docs)) <==> x in KeysOf(docs)
  {
    var ps := Keyed(docs);
    forall x | x in KeysOf(docs) ensures x in Latest(ps) {
      var i :| 0 <= i < |docs| && KeysOf(docs)[i] == x;
      assert KeyAt(ps, i) == x;
    }
    forall x | x in Latest(ps) ensures x in KeysOf(docs) {
      var i :| 0 <= i < |ps| && KeyAt(ps, i) == x;
      assert KeysOf(docs)[i] == x;
    }
  }

  /** `Array.from(new Map(entries).values())`: one document per key, keys in first-seen order. */
  function UniqueResults(docs: seq<Doc>): (r: seq<Doc>)
    ensures |r| == |FirstSeen(KeysOf(docs))|
  {
    var order := FirstSeen(KeysOf(docs));
    var m := Latest(Keyed(docs));
    FirstSeenKeys(KeysOf(docs));
    KeyedKeys(docs);
    seq(|order|, i requires 0 <= i < |order| => m[order[i]])
  }

  /** The document kept for a key is the last one with that key, and it carries that key. */
  lemma KeptIsLast(docs: seq<Doc>, key: string)
    requires key in Latest(Keyed(docs))
    ensures DedupKey(Latest(Keyed(docs))[key]) == key
    ensures exists j :: 0 <= j < |docs| && docs[j] == Latest(Keyed(docs))[key] &&
                        forall j' :: j < j' < |docs| ==> DedupKey(docs[j']) != key
  {
    var ps := Keyed(docs);
    LatestIsLastOccurrence(ps, key);
    var j :| 0 <= j < |ps| && ps[j] == (key, Latest(ps)[key]) &&
      forall j' :: j < j' < |ps| ==> ps[j'].0 != key;
    assert docs[j] == Latest(ps)[key];
    forall j' | j < j' < |docs| ensures DedupKey(docs[j']) != key {
      assert ps[j'].0 == DedupKey(docs[j']);
    }
  }

  /** The i-th unique result carries the i-th key of the `Map`'s key order. */
  lemma UniqueKeys(docs: seq<Doc>)
    ensures forall i :: 0 <= i < |UniqueResults(docs)| ==>
              DedupKey(UniqueResults(docs)[i]) == FirstSeen(KeysOf(docs))[i]
  {
    var order := FirstSeen(KeysOf(docs));
    FirstSeenKeys(KeysOf(docs));
    KeyedKeys(docs);
    forall i | 0 <= i < |order| ensures DedupKey(UniqueResults(docs)[i]) == order[i] {
      KeptIsLast(docs, order[i]);
    }
  }

  /** The unique results have pairwise distinct keys. */
  lemma UniqueDistinct(docs: seq<Doc>)
    ensures forall i, j :: 0 <= i < j < |UniqueResults(docs)| ==>
              DedupKey(UniqueResults(docs)[i]) != DedupKey(UniqueResults(docs)[j])
  {
    UniqueKeys(docs);
    FirstSeenKeys(KeysOf(docs));
  }

  /** The unique results come in the order their keys were first retrieved. */
  lemma UniqueInFirstSeenOrder(docs: seq<Doc>, i: nat, j: nat)
    requires i < j < |UniqueResults(docs)|
    ensures DedupKey(UniqueResults(docs)[i]) in KeysOf(docs)
    ensures DedupKey(UniqueResults(docs)[j]) in KeysOf(docs)
    ensures FirstIndex(KeysOf(docs), DedupKey(UniqueResults(docs)[i])) <
            FirstIndex(KeysOf(docs), DedupKey(UniqueResults(docs)[j]))
  {
    UniqueKeys(docs);
    FirstSeenOrder(KeysOf(docs), i, j);
  }

  /** There is one unique result per distinct key, so never more than retrieved documents. */
  lemma UniqueLength(docs: seq<Doc>)
    ensures |UniqueResults(docs)| == |set x | x in KeysOf(docs)|
    ensures |UniqueResults(docs)| <= |docs|
  {
    FirstSeenLength(KeysOf(docs));
    FirstSeenKeys(KeysOf(docs));
  }

  /** Every retrieved document's key is represented in the unique results. */
  lemma UniqueCovers(docs: seq<Doc>, d: Doc)
    requires d in docs
    ensures exists i :: 0 <= i < |UniqueResults(docs)| && DedupKey(UniqueResults(docs)[i]) == DedupKey(d)
  {
    var j :| 0 <= j < |docs| && docs[j] == d;
    assert KeysOf(docs)[j] == DedupKey(d);
    FirstSeenKey(KeysOf(docs), DedupKey(d));
    var order := FirstSeen(KeysOf(docs));
    var i :| 0 <= i < |order| && order[i] == DedupKey(d);
    UniqueKeys(docs);
  }

  /** Each unique result is the last retrieved document with its key. */
  lemma UniqueKeepsLast(docs: seq<Doc>, i: nat)
    requires i < |UniqueResults(docs)|
    ensures exists j :: 0 <= j < |docs| && docs[j] == UniqueResults(docs)[i] &&
              forall j' :: j < j' < |docs| ==> DedupKey(docs[j']) != DedupKey(UniqueResults(docs)[i])
  {
    var order := FirstSeen(KeysOf(docs));
    FirstSeenKeys(KeysOf(docs));
    KeyedKeys(docs);
    KeptIsLast(docs, order[i]);
  }

  /** When every retrieved document has the same non-empty source, only the last one remains. */
  lemma UniqueSingleSource(docs: seq<Doc>, source: string)
    requires docs != [] && source != ""
    requires forall i :: 0 <= i < |docs| ==> docs[i].source == Some(source)
    ensures UniqueResults(docs) == [docs[|docs| - 1]]
  {
    var keys := KeysOf(docs);
    assert forall i :: 0 <= i < |docs| ==> keys[i] == source;
    assert (set x | x in keys) == {source};
    UniqueLength(docs);
    UniqueKeepsLast(docs, 0);
    var r := UniqueResults(docs);
    var j :| 0 <= j < |docs| && docs[j] == r[0] &&
      forall j' :: j < j' < |docs| ==> DedupKey(docs[j']) != DedupKey(r[0]);
    UniqueKeys(docs);
    assert DedupKey(docs[|docs| - 1]) == source == DedupKey(r[0]);
    assert j == |docs| - 1;
  }

  /** The `retrieve` node: the variations' depth-2 searches, flattened, deduplicated. */
  function Retrieve(parse: Parser, content: string, baseQuestion: string, search: Search): seq<Doc> {
    UniqueResults(Flatten(SearchAll(search, QueryVariations(parse, content, baseQuestion), QueryDepth)))
  }

  /** A reply that is not a JSON array retrieves for the question alone. */
  lemma RetrieveFallback(parse: Parser, content: string, baseQuestion: string, search: Search)
    requires !(parse(content).Some? && parse(content).value.JArray?)
    ensures Retrieve(parse, content, baseQuestion, search) == UniqueResults(search(JString(baseQuestion), QueryDepth))
  {
    var l := search(JString(baseQuestion), QueryDepth);
    var lists := SearchAll(search, QueryVariations(parse, content, baseQuestion), QueryDepth);
    assert lists == [l];
    assert lists[..0] == [];
    assert Flatten(lists) == Flatten(lists[..0]) + lists[0] == [] + l == l;
  }

  /**
    One run of the graph: retrieve, then answer the original question from
    the joined context. Logging the variations converts them to text; when
    that throws, the `retrieve` node rejects and the `catch` around
    `graph.invoke` leaves no answer. The fallback `[baseQuestion]` always
    converts.
   */
  function Run(parse: Parser, content: string, search: Search, synthesize: Synthesize, question: string): (answer: Option<string>)
    ensures answer.None? <==> exists i :: 0 <= i < |QueryVariations(parse, content, question)| &&
                                         TextThrows(QueryVariations(parse, content, question)[i])
    ensures answer.Some? ==> answer.value == synthesize(JString(question), ContextText(Retrieve(parse, content, question, search)))
    ensures !(parse(content).Some? && parse(content).value.JArray?) ==>
              answer == Some(synthesize(JString(question), ContextText(UniqueResults(search(JString(question), QueryDepth)))))
  {
    var variations := QueryVariations(parse, content, question);
    var fallback := !(parse(content).Some? && parse(content).value.JArray?);
    assert fallback ==> variations == [JString(question)] && !TextThrows(variations[0]);
    assert fallback ==> Retrieve(parse, content, question, search) == UniqueResults(search(JString(question), QueryDepth)) by {
      if fallback {
        RetrieveFallback(parse, content, question, search);
      }
    }
    if ToText(JArray(variations)).None? then None
    else Some(Answer(synthesize, JString(question), Retrieve(parse, content, question, search)))
  }
}
