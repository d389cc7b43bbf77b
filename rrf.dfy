/**
  rrf.mjs: retrieval by Reciprocal Rank Fusion. Every expanded query is
  searched, each document at 0-based position `rank` of a result list adds
  1/(k + rank + 1) to the total of its id, the ids are sorted by descending
  total and the documents of the first four become the context.
 */
module Rrf {
  import opened Wrappers
  import opened Json
  import opened Documents
  import opened InsertionMap
  import opened StableSort

  /** The damping factor `k`, the default of `reciprocalRankFusion`. */
  const DefaultDamping: nat := 60
  /** Results per expanded query: `similaritySearch(query, 2)`. */
  const QueryDepth: nat := 2
  /** Documents kept after fusion: `top(4)`. */
  const TopCount: nat := 4

  /** The score one occurrence at 0-based position `rank` adds: 1/(k + rank + 1). */
  function Contribution(k: nat, rank: nat): real {
    1.0 / (k + rank + 1) as real
  }

  /** Every occurrence adds a positive amount, the reciprocal of k + rank + 1. */
  lemma ContributionValue(k: nat, rank: nat)
    ensures Contribution(k, rank) > 0.0
    ensures Contribution(k, rank) * (k + rank + 1) as real == 1.0
  {
  }

  /** Higher ranked documents get higher scores. */
  lemma ContributionDecreasing(k: nat, rank: nat, rank': nat)
    requires rank < rank'
    ensures Contribution(k, rank) > Contribution(k, rank')
  {
    ReciprocalDecreasing((k + rank + 1) as real, (k + rank' + 1) as real);
  }

  lemma ReciprocalDecreasing(a: real, b: real)
    requires 0.0 < a < b
    ensures 1.0 / a > 1.0 / b
  {
    var p, q := 1.0 / a, 1.0 / b;
    assert p * a == 1.0 && q * b == 1.0;
    assert q > 0.0;
    MulStrict(q, a, b);
    PositiveFactor(p - q, a);
  }

  lemma MulStrict(c: real, a: real, b: real)
    requires c > 0.0 && a < b
    ensures c * a < c * b
  {
  }

  lemma PositiveFactor(a: real, x: real)
    requires x > 0.0 && a * x > 0.0
    ensures a > 0.0
  {
  }

  /** A document found at a position of one result list. */
  datatype Occurrence = Occurrence(doc: Doc, rank: nat)

  /** The occurrences of one result list, with their 0-based ranks. */
  function Ranked(list: seq<Doc>): (r: seq<Occurrence>)
    ensures |r| == |list|
    ensures forall i :: 0 <= i < |list| ==> r[i] == Occurrence(list[i], i)
  {
    seq(|list|, i requires 0 <= i < |list| => Occurrence(list[i], i))
  }

  /** The occurrences in the order the two nested `forEach` loops visit them. */
  function Occurrences(lists: seq<seq<Doc>>): seq<Occurrence> {
    if lists == [] then [] else Occurrences(lists[..|lists| - 1]) + Ranked(lists[|lists| - 1])
  }

  /** The ids visited, one per occurrence. */
  function Ids(occ: seq<Occurrence>): (r: seq<string>)
    ensures |r| == |occ|
    ensures forall i :: 0 <= i < |occ| ==> r[i] == FusionId(occ[i].doc)
  {
    seq(|occ|, i requires 0 <= i < |occ| => FusionId(occ[i].doc))
  }

  /** The `docMap.set(docId, doc)` calls, in order. */
  function Stored(occ: seq<Occurrence>): (r: seq<(string, Doc)>)
    ensures |r| == |occ|
    ensures forall i :: 0 <= i < |occ| ==> r[i] == (FusionId(occ[i].doc), occ[i].doc)
  {
    seq(|occ|, i requires 0 <= i < |occ| => (FusionId(occ[i].doc), occ[i].doc))
  }

  /** The total of `id`: the sum of the contributions of all its occurrences, uncapped. */
  function Total(occ: seq<Occurrence>, id: string, k: nat): real {
    if occ == [] then 0.0
    else
      var n := |occ| - 1;
      Total(occ[..n], id, k) + (if FusionId(occ[n].doc) == id then Contribution(k, occ[n].rank) else 0.0)
  }

  /** `Array.from(scores.entries())`: every id in key order with its total. */
  function Scores(ids: seq<string>, occ: seq<Occurrence>, k: nat): (r: seq<Entry>)
    ensures |r| == |ids|
    ensures forall i :: 0 <= i < |ids| ==> r[i] == (ids[i], Total(occ, ids[i], k))
  {
    seq(|ids|, i requires 0 <= i < |ids| => (ids[i], Total(occ, ids[i], k)))
  }

  /** What the fusion keeps: the sorted score entries and the document map behind `top`. */
  datatype Fusion = Fusion(ranking: seq<Entry>, docs: map<string, Doc>)

  /** Every ranked id has a stored document, so `docMap.get` never yields `undefined`. */
  predicate WellFormed(f: Fusion) {
    forall i :: 0 <= i < |f.ranking| ==> f.ranking[i].0 in f.docs
  }

  /** The ids of all documents in all lists. */
  function DistinctIds(lists: seq<seq<Doc>>): set<string> {
    set x | x in Ids(Occurrences(lists))
  }

  /**
    The value of `reciprocalRankFusion(lists, k)`: the `scores` map has the
    ids in first-seen order with their totals, sorted stably by descending
    total; `docMap` holds each id's last document.
   */
  function Fuse(lists: seq<seq<Doc>>, k: nat): (f: Fusion)
    ensures WellFormed(f)
    ensures |f.ranking| == |DistinctIds(lists)|
  {
    var occ := Occurrences(lists);
    var ranking := SortByScoreDesc(Scores(FirstSeen(Ids(occ)), occ, k));
    RankingEntries(occ, k);
    StoredKeys(occ);
    FirstSeenLength(Ids(occ));
    Fusion(ranking, Latest(Stored(occ)))
  }

  lemma StoredKeys(occ: seq<Occurrence>)
    ensures Latest(Stored(occ)).Keys == set x | x in Ids(occ)
  {
    var st := Stored(occ);
    forall x | x in Ids(occ) ensures x in Latest(st) {
      var i :| 0 <= i < |occ| && Ids(occ)[i] == x;
      assert KeyAt(st, i) == x;
    }
    forall x | x in Latest(st) ensures x in Ids(occ) {
      var i :| 0 <= i < |st| && KeyAt(st, i) == x;
      assert Ids(occ)[i] == x;
    }
  }

  /** Every sorted entry is an id that occurs, paired with its total. */
  lemma RankingEntries(occ: seq<Occurrence>, k: nat)
    ensures forall e :: e in SortByScoreDesc(Scores(FirstSeen(Ids(occ)), occ, k)) ==>
              e.0 in Ids(occ) && e.1 == Total(occ, e.0, k)
  {
    var s := Scores(FirstSeen(Ids(occ)), occ, k);
    FirstSeenKeys(Ids(occ));
    forall e | e in SortByScoreDesc(s) ensures e.0 in Ids(occ) && e.1 == Total(occ, e.0, k) {
      assert e in multiset(s);
      var i :| 0 <= i < |s| && s[i] == e;
      assert e.0 == FirstSeen(Ids(occ))[i];
    }
  }

  /**
    `top(n)`: `sorted.slice(0, n).map(([docId]) => docMap.get(docId))`, the
    first `n` ranked ids, or all of them when there are fewer, replaced by
    their documents.
   */
  function Top(f: Fusion, n: nat): (r: seq<Doc>)
    requires WellFormed(f)
    ensures |r| == if n < |f.ranking| then n else |f.ranking|
    ensures forall i :: 0 <= i < |r| ==> r[i] == f.docs[f.ranking[i].0]
  {
    var m := if n < |f.ranking| then n else |f.ranking|;
    seq(m, i requires 0 <= i < m => f.docs[f.ranking[i].0])
  }

  lemma OccurrenceSnoc(occ: seq<Occurrence>, o: Occurrence)
    ensures Ids(occ + [o]) == Ids(occ) + [FusionId(o.doc)]
    ensures Stored(occ + [o]) == Stored(occ) + [(FusionId(o.doc), o.doc)]
  {
    assert (occ + [o])[..|occ|] == occ;
  }

  lemma OccurrencesSnoc(lists: seq<seq<Doc>>, list: seq<Doc>)
    ensures Occurrences(lists + [list]) == Occurrences(lists) + Ranked(list)
  {
    assert (lists + [list])[..|lists|] == lists;
  }

  /** An id that never occurs has total 0. */
  lemma {:induction false} TotalAbsent(occ: seq<Occurrence>, id: string, k: nat)
    requires id !in Ids(occ)
    ensures Total(occ, id, k) == 0.0
  {
    if occ != [] {
      var n := |occ| - 1;
      assert Ids(occ[..n]) == Ids(occ)[..n];
      TotalAbsent(occ[..n], id, k);
      assert Ids(occ)[n] == FusionId(occ[n].doc);
    }
  }

  /** An id that occurs has a positive total. */
  lemma {:induction false} TotalPresent(occ: seq<Occurrence>, id: string, k: nat)
    requires id in Ids(occ)
    ensures Total(occ, id, k) > 0.0
  {
    var n := |occ| - 1;
    assert Ids(occ[..n]) == Ids(occ)[..n];
    TotalNonNegative(occ[..n], id, k);
    if FusionId(occ[n].doc) != id {
      var i :| 0 <= i < |occ| && Ids(occ)[i] == id;
      assert Ids(occ[..n])[i] == id;
      TotalPresent(occ[..n], id, k);
    }
  }

  lemma {:induction false} TotalNonNegative(occ: seq<Occurrence>, id: string, k: nat)
    ensures Total(occ, id, k) >= 0.0
  {
    if occ != [] {
      TotalNonNegative(occ[..|occ| - 1], id, k);
    }
  }

  /** Totals add up over concatenated occurrences: the sum runs over all lists. */
  lemma {:induction false} TotalAppend(a: seq<Occurrence>, b: seq<Occurrence>, id: string, k: nat)
    ensures Total(a + b, id, k) == Total(a, id, k) + Total(b, id, k)
    decreases |b|
  {
    if b == [] {
      assert a + b == a;
    } else {
      var n := |b| - 1;
      assert (a + b)[..|a| + n] == a + b[..n];
      assert (a + b)[|a| + n] == b[n];
      TotalAppend(a, b[..n], id, k);
    }
  }

  /** Adding one more result list adds its contributions to the totals and changes nothing else. */
  lemma TotalOneMoreList(lists: seq<seq<Doc>>, list: seq<Doc>, id: string, k: nat)
    ensures Total(Occurrences(lists + [list]), id, k) ==
            Total(Occurrences(lists), id, k) + Total(Ranked(list), id, k)
  {
    OccurrencesSnoc(lists, list);
    TotalAppend(Occurrences(lists), Ranked(list), id, k);
  }

  /**
    The `scores` map after visiting `occ`: each visit adds the occurrence's
    contribution to `scores.get(docId) || 0`.
   */
  function ScoreMap(occ: seq<Occurrence>, k: nat): map<string, real> {
    if occ == [] then map[]
    else
      var n := |occ| - 1;
      var m := ScoreMap(occ[..n], k);
      var id := FusionId(occ[n].doc);
      m[id := (if id in m then m[id] else 0.0) + Contribution(k, occ[n].rank)]
  }

  /** The `scores` map has a key for exactly the ids visited. */
  lemma {:induction false} ScoreMapKey(occ: seq<Occurrence>, k: nat, x: string)
    ensures x in ScoreMap(occ, k) <==> x in Ids(occ)
  {
    if occ != [] {
      var n := |occ| - 1;
      ScoreMapKey(occ[..n], k, x);
      assert Ids(occ) == Ids(occ[..n]) + [FusionId(occ[n].doc)];
    }
  }

  /** One visit adds the occurrence's contribution to `scores.get(docId) || 0`. */
  lemma ScoresStep(occ: seq<Occurrence>, o: Occurrence, k: nat, scores: map<string, real>)
    requires scores == ScoreMap(occ, k)
    ensures var id := FusionId(o.doc);
            ScoreMap(occ + [o], k) == scores[id := (if id in scores then scores[id] else 0.0) + Contribution(k, o.rank)]
  {
    assert (occ + [o])[..|occ|] == occ;
  }

  /** The `scores` map holds every id's total. */
  lemma {:induction false} ScoreMapTotal(occ: seq<Occurrence>, k: nat, x: string)
    requires x in ScoreMap(occ, k)
    ensures ScoreMap(occ, k)[x] == Total(occ, x, k)
  {
    var n := |occ| - 1;
    var id := FusionId(occ[n].doc);
    ScoreMapKey(occ[..n], k, x);
    if x in ScoreMap(occ[..n], k) {
      ScoreMapTotal(occ[..n], k, x);
    } else {
      assert x == id;
      TotalAbsent(occ[..n], x, k);
    }
  }

  /** A new key goes to the end of the `Map`'s key order; a known key keeps its place. */
  lemma OrderStep(visited: seq<Occurrence>, o: Occurrence, order: seq<string>)
    requires order == FirstSeen(Ids(visited))
    ensures var id := FusionId(o.doc);
            FirstSeen(Ids(visited + [o])) == if id in order then order else order + [id]
  {
    OccurrenceSnoc(visited, o);
    FirstSeenSnoc(Ids(visited), FusionId(o.doc));
  }

  /** `docMap.set(docId, doc)` overwrites. */
  lemma DocMapStep(visited: seq<Occurrence>, o: Occurrence, docMap: map<string, Doc>)
    requires docMap == Latest(Stored(visited))
    ensures Latest(Stored(visited + [o])) == docMap[FusionId(o.doc) := o.doc]
  {
    OccurrenceSnoc(visited, o);
    LatestSnoc(Stored(visited), (FusionId(o.doc), o.doc));
  }

  /**
    The callback of the inner `forEach`, for the document `doc` at `rank`:
    `scores.set(docId, (scores.get(docId) || 0) + score)` and
    `docMap.set(docId, doc)`.
   */
  method VisitDoc(doc: Doc, rank: nat, k: nat, ghost visited: seq<Occurrence>,
                  order0: seq<string>, scores0: map<string, real>, docMap0: map<string, Doc>)
    returns (order: seq<string>, scores: map<string, real>, docMap: map<string, Doc>)
    requires order0 == FirstSeen(Ids(visited)) && scores0 == ScoreMap(visited, k) && docMap0 == Latest(Stored(visited))
    ensures order == FirstSeen(Ids(visited + [Occurrence(doc, rank)]))
    ensures scores == ScoreMap(visited + [Occurrence(doc, rank)], k)
    ensures docMap == Latest(Stored(visited + [Occurrence(doc, rank)]))
  {
    var docId := FusionId(doc);
    var score := Contribution(k, rank);
    var previous := if docId in scores0 then scores0[docId] else 0.0;
    ghost var o := Occurrence(doc, rank);
    assert (docId in scores0) == (docId in order0) by {
      ScoreMapKey(visited, k, docId);
      FirstSeenKey(Ids(visited), docId);
    }
    OrderStep(visited, o, order0);
    ScoresStep(visited, o, k, scores0);
    DocMapStep(visited, o, docMap0);
    order := if docId in scores0 then order0 else order0 + [docId];
    scores := scores0[docId := previous + score];
    docMap := docMap0[docId := doc];
  }

  lemma RankedPrefixSnoc(occ: seq<Occurrence>, list: seq<Doc>, rank: nat)
    requires rank < |list|
    ensures occ + Ranked(list)[..rank + 1] == (occ + Ranked(list)[..rank]) + [Occurrence(list[rank], rank)]
  {
    assert Ranked(list)[..rank + 1] == Ranked(list)[..rank] + [Occurrence(list[rank], rank)];
  }

  /**
    The inner `resultsFromOneQuery.forEach((doc, rank) => ...)`: adds each
    document's contribution to its id's score and stores the document under
    its id.
   */
  method VisitList(list: seq<Doc>, k: nat, ghost occ: seq<Occurrence>,
                   order0: seq<string>, scores0: map<string, real>, docMap0: map<string, Doc>)
    returns (order: seq<string>, scores: map<string, real>, docMap: map<string, Doc>)
    requires order0 == FirstSeen(Ids(occ)) && scores0 == ScoreMap(occ, k) && docMap0 == Latest(Stored(occ))
    ensures order == FirstSeen(Ids(occ + Ranked(list)))
    ensures scores == ScoreMap(occ + Ranked(list), k)
    ensures docMap == Latest(Stored(occ + Ranked(list)))
  {
    order, scores, docMap := order0, scores0, docMap0;
    assert occ + Ranked(list)[..0] == occ;
    var rank := 0;
    while rank < |list|
      invariant 0 <= rank <= |list|
      invariant order == FirstSeen(Ids(occ + Ranked(list)[..rank]))
      invariant scores == ScoreMap(occ + Ranked(list)[..rank], k)
      invariant docMap == Latest(Stored(occ + Ranked(list)[..rank]))
    {
      RankedPrefixSnoc(occ, list, rank);
      order, scores, docMap := VisitDoc(list[rank], rank, k, occ + Ranked(list)[..rank], order, scores, docMap);
      rank := rank + 1;
    }
    assert Ranked(list)[..|list|] == Ranked(list);
  }

  /** `reciprocalRankFusion(resultsArrays, k)`, with its two `Map`s and its nested loops. */
  method ReciprocalRankFusion(lists: seq<seq<Doc>>, k: nat) returns (f: Fusion)
    ensures f == Fuse(lists, k)
  {
    var scores: map<string, real> := map[];
    var order: seq<string> := [];  // the key order of `scores`
    var docMap: map<string, Doc> := map[];
    var i := 0;
    while i < |lists|
      invariant 0 <= i <= |lists|
      invariant order == FirstSeen(Ids(Occurrences(lists[..i])))
      invariant scores == ScoreMap(Occurrences(lists[..i]), k)
      invariant docMap == Latest(Stored(Occurrences(lists[..i])))
    {
      order, scores, docMap := VisitList(lists[i], k, Occurrences(lists[..i]), order, scores, docMap);
      assert lists[..i + 1] == lists[..i] + [lists[i]];
      OccurrencesSnoc(lists[..i], lists[i]);
      i := i + 1;
    }
    assert lists[..|lists|] == lists;
    var entries := ScoreEntries(order, scores, k, Occurrences(lists));
    f := Fusion(SortByScoreDesc(entries), docMap);
  }

  /** `Object.entries` of the score map, in key order: each id with its total. */
  method ScoreEntries(order: seq<string>, scores: map<string, real>, k: nat, ghost occ: seq<Occurrence>)
    returns (entries: seq<(string, real)>)
    requires order == FirstSeen(Ids(occ)) && scores == ScoreMap(occ, k)
    ensures entries == Scores(order, occ, k)
  {
    forall j | 0 <= j < |order| ensures order[j] in scores && scores[order[j]] == Total(occ, order[j], k) {
      FirstSeenKey(Ids(occ), order[j]);
      ScoreMapKey(occ, k, order[j]);
      ScoreMapTotal(occ, k, order[j]);
    }
    entries := seq(|order|, j requires 0 <= j < |order| => (order[j], scores[order[j]]));
  }

  /** `top(n)` gives `min(n, number of distinct ids)` documents, with no padding. */
  lemma TopLength(lists: seq<seq<Doc>>, k: nat, n: nat)
    ensures |Top(Fuse(lists, k), n)| == if n < |DistinctIds(lists)| then n else |DistinctIds(lists)|
  {
  }

  lemma RankingWithTotals(lists: seq<seq<Doc>>, k: nat)
    ensures forall i :: 0 <= i < |Fuse(lists, k).ranking| ==>
              Fuse(lists, k).ranking[i].1 == Total(Occurrences(lists), Fuse(lists, k).ranking[i].0, k)
  {
    var occ := Occurrences(lists);
    RankingEntries(occ, k);
    forall i | 0 <= i < |Fuse(lists, k).ranking|
      ensures Fuse(lists, k).ranking[i].1 == Total(occ, Fuse(lists, k).ranking[i].0, k)
    {
      assert Fuse(lists, k).ranking[i] in Fuse(lists, k).ranking;
    }
  }

  /** The document kept for an id is stored under that id. */
  lemma DocsUnderTheirIds(occ: seq<Occurrence>, id: string)
    requires id in Latest(Stored(occ))
    ensures FusionId(Latest(Stored(occ))[id]) == id
    ensures exists j :: 0 <= j < |occ| && occ[j].doc == Latest(Stored(occ))[id] &&
                        forall j' :: j < j' < |occ| ==> FusionId(occ[j'].doc) != id
  {
    var st := Stored(occ);
    LatestIsLastOccurrence(st, id);
    var j :| 0 <= j < |st| && st[j] == (id, Latest(st)[id]) &&
      forall j' :: j < j' < |st| ==> st[j'].0 != id;
    assert occ[j].doc == Latest(st)[id];
    forall j' | j < j' < |occ| ensures FusionId(occ[j'].doc) != id {
      assert st[j'].0 == FusionId(occ[j'].doc);
    }
  }

  /** The documents of `top(n)` have pairwise distinct ids, ranked ids in order. */
  lemma TopDistinct(lists: seq<seq<Doc>>, k: nat, n: nat)
    ensures forall i :: 0 <= i < |Top(Fuse(lists, k), n)| ==>
              FusionId(Top(Fuse(lists, k), n)[i]) == Fuse(lists, k).ranking[i].0
    ensures forall i, j :: 0 <= i < j < |Top(Fuse(lists, k), n)| ==>
              FusionId(Top(Fuse(lists, k), n)[i]) != FusionId(Top(Fuse(lists, k), n)[j])
  {
    var occ := Occurrences(lists);
    var f := Fuse(lists, k);
    var t := Top(f, n);
    forall i | 0 <= i < |t| ensures FusionId(t[i]) == f.ranking[i].0 {
      DocsUnderTheirIds(occ, f.ranking[i].0);
    }
    var s := Scores(FirstSeen(Ids(occ)), occ, k);
    FirstSeenKeys(Ids(occ));
    assert DistinctKeys(s);
    SortKeepsKeysDistinct(s);
  }

  /** Each document of `top(n)` is the last occurrence of its id across all lists. */
  lemma TopKeepsLastOccurrence(lists: seq<seq<Doc>>, k: nat, n: nat, i: nat)
    requires i < |Top(Fuse(lists, k), n)|
    ensures exists j :: 0 <= j < |Occurrences(lists)| &&
              Occurrences(lists)[j].doc == Top(Fuse(lists, k), n)[i] &&
              forall j' :: j < j' < |Occurrences(lists)| ==>
                FusionId(Occurrences(lists)[j'].doc) != FusionId(Top(Fuse(lists, k), n)[i])
  {
    var f := Fuse(lists, k);
    DocsUnderTheirIds(Occurrences(lists), f.ranking[i].0);
  }

  /** The documents of `top(n)` come by non-increasing total. */
  lemma TopByDescendingTotal(lists: seq<seq<Doc>>, k: nat, n: nat)
    ensures forall i, j :: 0 <= i < j < |Top(Fuse(lists, k), n)| ==>
              Total(Occurrences(lists), FusionId(Top(Fuse(lists, k), n)[i]), k) >=
              Total(Occurrences(lists), FusionId(Top(Fuse(lists, k), n)[j]), k)
  {
    TopDistinct(lists, k, n);
    RankingWithTotals(lists, k);
  }

  /**
    Ties keep first-seen order: of two ranked ids with equal totals, the one
    whose first occurrence comes earlier is ranked first.
   */
  lemma TiesInFirstSeenOrder(lists: seq<seq<Doc>>, k: nat, i: nat, j: nat)
    requires i < j < |Fuse(lists, k).ranking|
    requires Fuse(lists, k).ranking[i].1 == Fuse(lists, k).ranking[j].1
    ensures Fuse(lists, k).ranking[i].0 in Ids(Occurrences(lists))
    ensures Fuse(lists, k).ranking[j].0 in Ids(Occurrences(lists))
    ensures FirstIndex(Ids(Occurrences(lists)), Fuse(lists, k).ranking[i].0) <
            FirstIndex(Ids(Occurrences(lists)), Fuse(lists, k).ranking[j].0)
  {
    var occ := Occurrences(lists);
    var ids := Ids(occ);
    var order := FirstSeen(ids);
    var s := Scores(order, occ, k);
    var r := Fuse(lists, k).ranking;
    var a, b := r[i], r[j];
    RankingEntries(occ, k);
    assert a in r && b in r;
    assert Before(r, a, b);
    SortKeepsTiesInOrder(s, a, b);
    var p, q :| 0 <= p < q < |s| && s[p] == a && s[q] == b;
    assert order[p] == a.0 && order[q] == b.0;
    FirstSeenOrder(ids, p, q);
  }

  /** Without any retrieved document the fusion is empty, so `top(n)` is empty for every `n`. */
  lemma {:induction false} EmptyListsFuseToNothing(lists: seq<seq<Doc>>, k: nat, n: nat)
    requires forall i :: 0 <= i < |lists| ==> lists[i] == []
    ensures Occurrences(lists) == []
    ensures Top(Fuse(lists, k), n) == []
  {
    if lists != [] {
      var init := lists[..|lists| - 1];
      EmptyListsFuseToNothing(init, k, n);
      assert Ranked(lists[|lists| - 1]) == [];
    }
  }

  lemma TotalSnoc(occ: seq<Occurrence>, o: Occurrence, k: nat, x: string)
    ensures Total(occ + [o], x, k) == Total(occ, x, k) + (if FusionId(o.doc) == x then Contribution(k, o.rank) else 0.0)
  {
    assert (occ + [o])[..|occ|] == occ;
  }

  lemma ExampleOccurrences(a: Doc, b: Doc, c: Doc, a': Doc)
    ensures Occurrences([[a, b], [b, c], [a', c]]) ==
            [Occurrence(a, 0), Occurrence(b, 1), Occurrence(b, 0), Occurrence(c, 1), Occurrence(a', 0), Occurrence(c, 1)]
  {
    OccurrencesSnoc([], [a, b]);
    OccurrencesSnoc([[a, b]], [b, c]);
    OccurrencesSnoc([[a, b], [b, c]], [a', c]);
    assert [[a, b]] == [] + [[a, b]];
    assert [[a, b], [b, c]] == [[a, b]] + [[b, c]];
    assert [[a, b], [b, c], [a', c]] == [[a, b], [b, c]] + [[a', c]];
  }

  lemma ExampleTotal(occ: seq<Occurrence>, a: Doc, b: Doc, c: Doc, x: string)
    requires occ == [Occurrence(a, 0), Occurrence(b, 1), Occurrence(b, 0), Occurrence(c, 1), Occurrence(a, 0), Occurrence(c, 1)]
    ensures Total(occ, x, 60) ==
            (if FusionId(a) == x then 2.0 / 61.0 else 0.0) +
            (if FusionId(b) == x then 1.0 / 61.0 + 1.0 / 62.0 else 0.0) +
            (if FusionId(c) == x then 2.0 / 62.0 else 0.0)
  {
    var h1 := [Occurrence(a, 0), Occurrence(b, 1), Occurrence(b, 0)];
    var h2 := [Occurrence(c, 1), Occurrence(a, 0), Occurrence(c, 1)];
    assert occ == h1 + h2;
    TotalAppend(h1, h2, x, 60);
    TotalOfThree(h1[0], h1[1], h1[2], x, 60);
    TotalOfThree(h2[0], h2[1], h2[2], x, 60);
    assert Contribution(60, 0) == 1.0 / 61.0 && Contribution(60, 1) == 1.0 / 62.0;
  }

  /** What one occurrence adds to the total of `x`. */
  function Part(o: Occurrence, x: string, k: nat): real {
    if FusionId(o.doc) == x then Contribution(k, o.rank) else 0.0
  }

  lemma TotalOfThree(o1: Occurrence, o2: Occurrence, o3: Occurrence, x: string, k: nat)
    ensures Total([o1, o2, o3], x, k) == Part(o1, x, k) + Part(o2, x, k) + Part(o3, x, k)
  {
    var s0: seq<Occurrence> := [];
    TotalSnoc(s0, o1, k, x);
    TotalSnoc(s0 + [o1], o2, k, x);
    TotalSnoc(s0 + [o1] + [o2], o3, k, x);
    assert s0 + [o1] + [o2] + [o3] == [o1, o2, o3];
  }

  lemma ExampleFirstSeen(ia: string, ib: string, ic: string)
    requires ia != ib && ib != ic && ia != ic
    ensures FirstSeen([ia, ib, ib, ic, ia, ic]) == [ia, ib, ic]
  {
    var s3 := [ia, ib, ib];
    ExampleFirstSeenHead(ia, ib);
    FirstSeenGrows(s3, ic, [ia, ib]);
    FirstSeenGrows(s3 + [ic], ia, [ia, ib, ic]);
    FirstSeenGrows(s3 + [ic] + [ia], ic, [ia, ib, ic]);
    assert s3 + [ic] + [ia] + [ic] == [ia, ib, ib, ic, ia, ic];
  }

  lemma ExampleFirstSeenHead(ia: string, ib: string)
    requires ia != ib
    ensures FirstSeen([ia, ib, ib]) == [ia, ib]
  {
    var s0: seq<string> := [];
    FirstSeenGrows(s0, ia, []);
    FirstSeenGrows(s0 + [ia], ib, [ia]);
    FirstSeenGrows(s0 + [ia] + [ib], ib, [ia, ib]);
    assert s0 + [ia] + [ib] + [ib] == [ia, ib, ib];
  }

  lemma FirstSeenGrows(ks: seq<string>, x: string, p: seq<string>)
    requires FirstSeen(ks) == p
    ensures FirstSeen(ks + [x]) == if x in p then p else p + [x]
  {
    FirstSeenSnoc(ks, x);
  }

  lemma ExampleSort(ia: string, ib: string, ic: string)
    ensures SortByScoreDesc([(ia, 2.0 / 61.0), (ib, 1.0 / 61.0 + 1.0 / 62.0), (ic, 2.0 / 62.0)]) ==
            [(ia, 2.0 / 61.0), (ib, 1.0 / 61.0 + 1.0 / 62.0), (ic, 2.0 / 62.0)]
  {
    var ea, eb, ec := (ia, 2.0 / 61.0), (ib, 1.0 / 61.0 + 1.0 / 62.0), (ic, 2.0 / 62.0);
    var s := [ea, eb, ec];
    assert s[1..] == [eb, ec] && s[1..][1..] == [ec];
    assert SortByScoreDesc([ec]) == [ec];
    assert Insert(eb, [ec]) == [eb, ec];
    assert SortByScoreDesc([eb, ec]) == [eb, ec];
    assert Insert(ea, [eb, ec]) == [ea, eb, ec];
  }

  /**
    The fusion of [[A, B], [B, C], [A, C]] with k = 60: A totals 2/61, B
    1/61 + 1/62 and C 2/62, so the order is A, B, C.
   */
  lemma ThreeListsExample(a: Doc, b: Doc, c: Doc)
    requires FusionId(a) != FusionId(b) && FusionId(b) != FusionId(c) && FusionId(a) != FusionId(c)
    ensures Fuse([[a, b], [b, c], [a, c]], 60).ranking ==
            [(FusionId(a), 2.0 / 61.0), (FusionId(b), 1.0 / 61.0 + 1.0 / 62.0), (FusionId(c), 2.0 / 62.0)]
  {
    var ia, ib, ic := FusionId(a), FusionId(b), FusionId(c);
    var lists := [[a, b], [b, c], [a, c]];
    ExampleOccurrences(a, b, c, a);
    var occ := Occurrences(lists);
    assert Ids(occ) == [ia, ib, ib, ic, ia, ic];
    ExampleFirstSeen(ia, ib, ic);
    ExampleTotal(occ, a, b, c, ia);
    ExampleTotal(occ, a, b, c, ib);
    ExampleTotal(occ, a, b, c, ic);
    assert Scores([ia, ib, ic], occ, 60) == [(ia, 2.0 / 61.0), (ib, 1.0 / 61.0 + 1.0 / 62.0), (ic, 2.0 / 62.0)];
    ExampleSort(ia, ib, ic);
  }

  /** The fused context of the same three lists is A, B, C, each its last occurrence. */
  lemma ThreeListsExampleTop(a: Doc, b: Doc, c: Doc)
    requires FusionId(a) != FusionId(b) && FusionId(b) != FusionId(c) && FusionId(a) != FusionId(c)
    ensures Top(Fuse([[a, b], [b, c], [a, c]], 60), TopCount) == [a, b, c]
  {
    var f := Fuse([[a, b], [b, c], [a, c]], 60);
    ThreeListsExample(a, b, c);
    ExampleDocs(a, b, c, a);
    assert f.docs == Latest(Stored(Occurrences([[a, b], [b, c], [a, c]])));
    var t := Top(f, TopCount);
    assert |t| == 3;
    assert t[0] == a && t[1] == b && t[2] == c;
  }

  /**
    In the lists [[A, B], [B, C], [A', C]], where A' has the id of A but may
    be another document, the id of A keeps A', its last occurrence.
   */
  lemma ExampleDocs(a: Doc, b: Doc, c: Doc, a': Doc)
    requires FusionId(a) != FusionId(b) && FusionId(b) != FusionId(c) && FusionId(a) != FusionId(c)
    requires FusionId(a') == FusionId(a)
    ensures var docs := Latest(Stored(Occurrences([[a, b], [b, c], [a', c]])));
            FusionId(a) in docs && FusionId(b) in docs && FusionId(c) in docs &&
            docs[FusionId(a)] == a' && docs[FusionId(b)] == b && docs[FusionId(c)] == c
  {
    ExampleOccurrences(a, b, c, a');
    var occ := Occurrences([[a, b], [b, c], [a', c]]);
    DocLast(occ, a', 4);
    DocLast(occ, b, 2);
    DocLast(occ, c, 5);
  }

  /** The document stored for an id is the one of its last occurrence. */
  lemma DocLast(occ: seq<Occurrence>, d: Doc, j: nat)
    requires j < |occ| && occ[j].doc == d
    requires forall j' :: j < j' < |occ| ==> FusionId(occ[j'].doc) != FusionId(d)
    ensures FusionId(d) in Latest(Stored(occ)) && Latest(Stored(occ))[FusionId(d)] == d
  {
    StoredKeys(occ);
    assert Ids(occ)[j] == FusionId(d);
    DocsUnderTheirIds(occ, FusionId(d));
    var i :| 0 <= i < |occ| && occ[i].doc == Latest(Stored(occ))[FusionId(d)] &&
      forall j' :: i < j' < |occ| ==> FusionId(occ[j'].doc) != FusionId(d);
    assert FusionId(occ[j].doc) == FusionId(d);
    assert FusionId(occ[i].doc) == FusionId(d);
    assert i == j;
  }

  /**
    What the `retrieve` node does: return without an update (a parse
    failure), throw (logging a parsed value whose text conversion throws, or
    calling `map` on a parsed value that is not an array), or return a new
    context.
   */
  datatype Outcome = NoUpdate | Thrown | Update(context: seq<Doc>)

  /** The `retrieve` node, given the language model's reply to the query-generation prompt. */
  function Retrieve(parse: Parser, reply: string, search: Search): (r: Outcome)
    ensures r == NoUpdate <==> parse(reply).None?
    ensures r == Thrown <==> parse(reply).Some? && (TextThrows(parse(reply).value) || !parse(reply).value.JArray?)
    ensures r.Update? ==> parse(reply).Some? && parse(reply).value.JArray? && !TextThrows(parse(reply).value)
  {
    match parse(reply)
    case None => NoUpdate
    case Some(v) =>
      if ToText(v).None? then Thrown
      else if v.JArray? then Update(Top(Fuse(SearchAll(search, v.items, QueryDepth), DefaultDamping), TopCount))
      else Thrown
  }

  /**
    A parsed array of queries that can be logged fuses their depth-2 searches
    and keeps at most four documents, of distinct ids; one holding an item
    whose text conversion throws, such as `[{"toString":1}]`, throws.
   */
  lemma RetrieveParsedArray(parse: Parser, reply: string, search: Search, queries: seq<Json>)
    requires parse(reply) == Some(JArray(queries))
    ensures Retrieve(parse, reply, search) ==
            if exists i :: 0 <= i < |queries| && TextThrows(queries[i]) then Thrown
            else Update(Top(Fuse(SearchAll(search, queries, QueryDepth), DefaultDamping), TopCount))
    ensures Retrieve(parse, reply, search).Update? ==> |Retrieve(parse, reply, search).context| <= TopCount
    ensures Retrieve(parse, reply, search).Update? ==>
            forall i, j :: 0 <= i < j < |Retrieve(parse, reply, search).context| ==>
              FusionId(Retrieve(parse, reply, search).context[i]) !=
              FusionId(Retrieve(parse, reply, search).context[j])
  {
    TopDistinct(SearchAll(search, queries, QueryDepth), DefaultDamping, TopCount);
  }

  /**
    One run of the retrieve-then-generate graph on `question`. There is an
    answer only when `retrieve` produced a context: without an update,
    `state.context` is undefined and `generate` throws on `.map`.
   */
  function Run(parse: Parser, reply: string, search: Search, synthesize: Synthesize, question: string): (answer: Option<string>)
    ensures answer.Some? <==> Retrieve(parse, reply, search).Update?
    ensures parse(reply).None? ==> answer == None
  {
    match Retrieve(parse, reply, search)
    case Update(context) => Some(Answer(synthesize, JString(question), context))
    case _ => None
  }

  /** The answer is generated from the original question and the fused context, joined by line breaks. */
  lemma RunAnswersFromFusedContext(parse: Parser, reply: string, search: Search, synthesize: Synthesize, question: string, queries: seq<Json>)
    requires parse(reply) == Some(JArray(queries))
    ensures Run(parse, reply, search, synthesize, question) ==
            if exists i :: 0 <= i < |queries| && TextThrows(queries[i]) then None
            else Some(synthesize(JString(question), ContextText(Top(Fuse(SearchAll(search, queries, QueryDepth), DefaultDamping), TopCount))))
  {
    RetrieveParsedArray(parse, reply, search, queries);
  }
}
