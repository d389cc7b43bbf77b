/**
  `entries.sort((a, b) => b[1] - a[1])`: a stable sort of (key, score) pairs
  by descending score. `Array.prototype.sort` is stable, and a stable sort's
  result is unique, so this insertion sort is a reference for it.
 */
module StableSort {

  /** An entry of the score `Map`: a document id and its total. */
  type Entry = (string, real)

  predicate Descending(s: seq<Entry>) {
    forall i, j :: 0 <= i < j < |s| ==> s[i].1 >= s[j].1
  }

  predicate DistinctKeys(s: seq<Entry>) {
    forall i, j :: 0 <= i < j < |s| ==> s[i].0 != s[j].0
  }

  /** Puts `x` before the first entry whose score is not greater than its own. */
  function Insert(x: Entry, t: seq<Entry>): (r: seq<Entry>)
    ensures |r| == |t| + 1
    ensures multiset(r) == multiset(t) + multiset{x}
  {
    if t == [] || x.1 >= t[0].1 then [x] + t
    else
      assert t == [t[0]] + t[1..];
      [t[0]] + Insert(x, t[1..])
  }

  /** Inserting into a descending sequence keeps it descending. */
  lemma {:induction false} InsertDescending(x: Entry, t: seq<Entry>)
    requires Descending(t)
    ensures Descending(Insert(x, t))
  {
    if t != [] && x.1 < t[0].1 {
      var rest := Insert(x, t[1..]);
      InsertDescending(x, t[1..]);
      var r := [t[0]] + rest;
      forall j | 0 < j < |r| ensures r[0].1 >= r[j].1 {
        assert r[j] in multiset(rest);
        assert r[j] in multiset(t[1..]) + multiset{x};
        if r[j] != x {
          assert r[j] in t[1..];
        }
      }
      forall i, j | 0 <= i < j < |r| ensures r[i].1 >= r[j].1 {
        if i > 0 {
          assert r[i] == rest[i - 1] && r[j] == rest[j - 1];
        }
      }
    }
  }

  /** The entries by descending score, equal scores in their original order. */
  function SortByScoreDesc(s: seq<Entry>): (r: seq<Entry>)
    ensures |r| == |s| && multiset(r) == multiset(s)
    ensures Descending(r)
  {
    if s == [] then []
    else
      assert s == [s[0]] + s[1..];
      var t := SortByScoreDesc(s[1..]);
      InsertDescending(s[0], t);
      Insert(s[0], t)
  }

  /** The entries whose score is `c`, in order. */
  function WithScore(s: seq<Entry>, c: real): seq<Entry> {
    if s == [] then [] else (if s[0].1 == c then [s[0]] else []) + WithScore(s[1..], c)
  }

  lemma {:induction false} InsertWithScore(x: Entry, t: seq<Entry>, c: real)
    requires Descending(t)
    ensures WithScore(Insert(x, t), c) == if x.1 == c then [x] + WithScore(t, c) else WithScore(t, c)
  {
    if t == [] || x.1 >= t[0].1 {
      assert ([x] + t)[1..] == t;
    } else {
      var rest := Insert(x, t[1..]);
      InsertWithScore(x, t[1..], c);
      assert ([t[0]] + rest)[1..] == rest;
      assert ([t[0]] + rest)[0] == t[0];
    }
  }

  /** Stability: for every score, the entries holding it keep their relative order. */
  lemma {:induction false} SortIsStable(s: seq<Entry>, c: real)
    ensures WithScore(SortByScoreDesc(s), c) == WithScore(s, c)
  {
    if s != [] {
      SortIsStable(s[1..], c);
      InsertWithScore(s[0], SortByScoreDesc(s[1..]), c);
    }
  }

  /** `a` stands somewhere before `b` in `s`. */
  predicate Before(s: seq<Entry>, a: Entry, b: Entry) {
    exists i, j :: 0 <= i < j < |s| && s[i] == a && s[j] == b
  }

  lemma BeforeCons(h: Entry, t: seq<Entry>, a: Entry, b: Entry)
    ensures Before([h] + t, a, b) <==> (h == a && b in t) || Before(t, a, b)
  {
    var s := [h] + t;
    if Before(s, a, b) {
      var i, j :| 0 <= i < j < |s| && s[i] == a && s[j] == b;
      if i > 0 {
        assert t[i - 1] == a && t[j - 1] == b;
      } else {
        assert t[j - 1] == b;
      }
    }
    if h == a && b in t {
      var j :| 0 <= j < |t| && t[j] == b;
      assert s[0] == a && s[j + 1] == b;
    }
    if Before(t, a, b) {
      var i, j :| 0 <= i < j < |t| && t[i] == a && t[j] == b;
      assert s[i + 1] == a && s[j + 1] == b;
    }
  }

  lemma {:induction false} InWithScore(s: seq<Entry>, b: Entry, c: real)
    requires b.1 == c
    ensures b in s <==> b in WithScore(s, c)
  {
    if s != [] {
      InWithScore(s[1..], b, c);
      assert s == [s[0]] + s[1..];
    }
  }

  /** Among entries of one score, the order is the order of the entries holding that score. */
  lemma {:induction false} BeforeWithScore(s: seq<Entry>, a: Entry, b: Entry, c: real)
    requires a.1 == c && b.1 == c
    ensures Before(s, a, b) <==> Before(WithScore(s, c), a, b)
  {
    if s != [] {
      var h, t := s[0], s[1..];
      assert s == [h] + t;
      BeforeCons(h, t, a, b);
      BeforeWithScore(t, a, b, c);
      InWithScore(t, b, c);
      if h.1 == c {
        assert WithScore(s, c) == [h] + WithScore(t, c);
        BeforeCons(h, WithScore(t, c), a, b);
      } else {
        assert WithScore(s, c) == WithScore(t, c);
        assert h != a;
      }
    }
  }

  /**
    Stability stated pairwise: two entries of equal score stand in the sorted
    sequence in the order they stood in the input.
   */
  lemma SortKeepsTiesInOrder(s: seq<Entry>, a: Entry, b: Entry)
    requires a.1 == b.1
    ensures Before(SortByScoreDesc(s), a, b) <==> Before(s, a, b)
  {
    SortIsStable(s, a.1);
    BeforeWithScore(s, a, b, a.1);
    BeforeWithScore(SortByScoreDesc(s), a, b, a.1);
  }

  lemma {:induction false} InsertKeepsKeysDistinct(x: Entry, t: seq<Entry>)
    requires DistinctKeys(t)
    requires forall y :: y in t ==> y.0 != x.0
    ensures DistinctKeys(Insert(x, t))
  {
    if t != [] && x.1 < t[0].1 {
      var rest := Insert(x, t[1..]);
      InsertKeepsKeysDistinct(x, t[1..]);
      var r := [t[0]] + rest;
      forall i, j | 0 <= i < j < |r| ensures r[i].0 != r[j].0 {
        if i == 0 {
          assert r[j] in multiset(rest);
          assert r[j] in multiset(t[1..]) + multiset{x};
          if r[j] != x {
            assert r[j] in t[1..];
          }
        } else {
          assert r[i] == rest[i - 1] && r[j] == rest[j - 1];
        }
      }
    }
  }

  /** Sorting entries with distinct keys keeps them distinct. */
  lemma {:induction false} SortKeepsKeysDistinct(s: seq<Entry>)
    requires DistinctKeys(s)
    ensures DistinctKeys(SortByScoreDesc(s))
  {
    if s != [] {
      var t := SortByScoreDesc(s[1..]);
      SortKeepsKeysDistinct(s[1..]);
      forall y | y in t ensures y.0 != s[0].0 {
        assert y in multiset(s[1..]);
        var i :| 0 <= i < |s[1..]| && s[1..][i] == y;
        assert s[i + 1] == y;
      }
      InsertKeepsKeysDistinct(s[0], t);
    }
  }
}
