/**
  The semantics of a JavaScript `Map` filled by `set` calls: its keys keep
  the order in which each was first inserted, and each key holds the value of
  its last `set`.
 */
module InsertionMap {

  /** Both scripts that use a `Map` key it by strings. */
  type Key = string

  predicate Distinct(s: seq<Key>) {
    forall i, j :: 0 <= i < j < |s| ==> s[i] != s[j]
  }

  /** The key order of a `Map` after setting the keys `ks` in turn. */
  function FirstSeen(ks: seq<Key>): seq<Key> {
    if ks == [] then []
    else
      var p := FirstSeen(ks[..|ks| - 1]);
      var x := ks[|ks| - 1];
      if x in p then p else p + [x]
  }

  /** The key order lists every inserted key, once, and nothing else. */
  lemma {:induction false} FirstSeenKeys(ks: seq<Key>)
    ensures forall x :: x in FirstSeen(ks) <==> x in ks
    ensures Distinct(FirstSeen(ks))
    ensures |FirstSeen(ks)| <= |ks|
  {
    if ks != [] {
      var init := ks[..|ks| - 1];
      var x := ks[|ks| - 1];
      FirstSeenKeys(init);
      assert ks == init + [x];
    }
  }

  lemma FirstSeenKey(ks: seq<Key>, x: Key)
    ensures x in FirstSeen(ks) <==> x in ks
  {
    FirstSeenKeys(ks);
  }

  lemma FirstSeenSnoc(ks: seq<Key>, x: Key)
    ensures FirstSeen(ks + [x]) == if x in FirstSeen(ks) then FirstSeen(ks) else FirstSeen(ks) + [x]
  {
    assert (ks + [x])[..|ks|] == ks;
  }

  /** The position of the first occurrence of `x`. */
  function FirstIndex(ks: seq<Key>, x: Key): (i: nat)
    requires x in ks
    ensures i < |ks| && ks[i] == x && x !in ks[..i]
  {
    if ks[0] == x then 0 else 1 + FirstIndex(ks[1..], x)
  }

  lemma {:induction false} FirstIndexPrefix(ks: seq<Key>, m: nat, x: Key)
    requires m <= |ks| && x in ks[..m]
    ensures FirstIndex(ks, x) == FirstIndex(ks[..m], x)
  {
    if ks[0] != x {
      assert ks[1..][..m - 1] == ks[..m][1..];
      FirstIndexPrefix(ks[1..], m - 1, x);
    }
  }

  /** Keys come in the order of their first occurrence in the insertions. */
  lemma {:induction false} FirstSeenOrder(ks: seq<Key>, i: nat, j: nat)
    requires i < j < |FirstSeen(ks)|
    ensures FirstSeen(ks)[i] in ks && FirstSeen(ks)[j] in ks
    ensures FirstIndex(ks, FirstSeen(ks)[i]) < FirstIndex(ks, FirstSeen(ks)[j])
  {
    var n := |ks| - 1;
    var init := ks[..n];
    var p := FirstSeen(init);
    var r := FirstSeen(ks);
    FirstSeenKeys(ks);
    FirstSeenKeys(init);
    assert ks == init + [ks[n]];
    if j < |p| {
      FirstSeenOrder(init, i, j);
      FirstIndexPrefix(ks, n, r[i]);
      FirstIndexPrefix(ks, n, r[j]);
    } else {
      // r[j] is the new last key, first inserted at position n
      assert r == p + [ks[n]] && r[j] == ks[n] && ks[n] !in init;
      FirstIndexPrefix(ks, n, r[i]);
      assert FirstIndex(ks, r[j]) == n;
    }
  }

  /** A sequence without repetitions has as many distinct elements as it has elements. */
  lemma {:induction false} DistinctCardinality(s: seq<Key>)
    requires Distinct(s)
    ensures |set x | x in s| == |s|
  {
    if s != [] {
      var t := s[1..];
      DistinctCardinality(t);
      assert (set x | x in s) == (set x | x in t) + {s[0]};
      assert s[0] !in (set x | x in t);
    }
  }

  /** A `Map` has one key per distinct inserted key. */
  lemma FirstSeenLength(ks: seq<Key>)
    ensures |FirstSeen(ks)| == |set x | x in ks|
  {
    FirstSeenKeys(ks);
    DistinctCardinality(FirstSeen(ks));
    assert (set x | x in FirstSeen(ks)) == (set x | x in ks);
  }

  function KeyAt<V>(ps: seq<(Key, V)>, i: int): Key
    requires 0 <= i < |ps|
  {
    ps[i].0
  }

  /** The values of a `Map` after setting the pairs `ps` in turn: each later `set` overwrites. */
  function Latest<V>(ps: seq<(Key, V)>): (m: map<Key, V>)
    ensures m.Keys == set i | 0 <= i < |ps| :: KeyAt(ps, i)
  {
    if ps == [] then map[]
    else
      var init := ps[..|ps| - 1];
      var last := ps[|ps| - 1];
      assert (set i | 0 <= i < |ps| :: KeyAt(ps, i)) == (set i | 0 <= i < |init| :: KeyAt(init, i)) + {last.0} by {
        forall i | 0 <= i < |init| ensures KeyAt(ps, i) == KeyAt(init, i) { }
        assert KeyAt(ps, |init|) == last.0;
      }
      Latest(init)[last.0 := last.1]
  }

  lemma LatestSnoc<V>(ps: seq<(Key, V)>, p: (Key, V))
    ensures Latest(ps + [p]) == Latest(ps)[p.0 := p.1]
  {
    assert (ps + [p])[..|ps|] == ps;
  }

  /**
    The value stored for a key is the one of its last occurrence: there is a
    pair with that key and value after which the key never occurs again.
   */
  lemma {:induction false} LatestIsLastOccurrence<V>(ps: seq<(Key, V)>, k: Key)
    requires k in Latest(ps)
    ensures exists j :: 0 <= j < |ps| && ps[j] == (k, Latest(ps)[k]) &&
                        forall j' :: j < j' < |ps| ==> ps[j'].0 != k
  {
    var n := |ps| - 1;
    var init := ps[..n];
    assert ps == init + [ps[n]];
    if ps[n].0 == k {
      assert ps[n] == (k, Latest(ps)[k]);
    } else {
      LatestIsLastOccurrence(init, k);
      var j :| 0 <= j < |init| && init[j] == (k, Latest(init)[k]) &&
        forall j' :: j < j' < |init| ==> init[j'].0 != k;
      assert ps[j] == (k, Latest(ps)[k]);
    }
  }
}
