/**
  The values `JSON.parse` can produce, and the few JavaScript operations the
  scripts apply to them without checking their shape: `for...of`, indexing
  with `[0]`, `Object.entries` and conversion inside a template literal.
  `JSON.parse` itself is not modelled: every script receives it as a
  `Parser`, a partial function whose `None` stands for the thrown SyntaxError.
 */
module Json {
  import opened Wrappers
  import opened Text

  /**
    A parsed JSON value. A number carries the text JavaScript displays for it,
    so that no floating-point arithmetic is needed; an object carries its
    entries in the order `Object.entries` lists them.
   */
  datatype Json =
    | JNull
    | JBool(b: bool)
    | JNumber(text: string)
    | JString(s: string)
    | JArray(items: seq<Json>)
    | JObject(entries: seq<(string, Json)>)

  type Parser = string -> Option<Json>

  /** The one-character strings a `for...of` loop visits in a string. */
  function Characters(s: string): (r: seq<Json>)
    ensures |r| == |s|
    ensures forall i :: 0 <= i < |s| ==> r[i] == JString([s[i]])
  {
    seq(|s|, i requires 0 <= i < |s| => JString([s[i]]))
  }

  /**
    The values `for (const x of v)` visits: the items of an array, the
    characters of a string; `None` for every other value, on which the loop
    throws a TypeError (not iterable).
   */
  function ForOf(v: Json): (r: Option<seq<Json>>)
    ensures r.Some? <==> (v.JArray? || v.JString?)
    ensures v.JArray? ==> r == Some(v.items)
    ensures v.JString? ==> r == Some(Characters(v.s))
  {
    match v
    case JArray(items) => Some(items)
    case JString(s) => Some(Characters(s))
    case _ => None
  }

  /**
    Reading the property `key`: the value of the last entry with that key,
    since `JSON.parse` keeps the last of duplicate keys.
   */
  function Lookup(entries: seq<(string, Json)>, key: string): (r: Option<Json>)
    ensures r.Some? <==> exists i :: 0 <= i < |entries| && entries[i].0 == key
    ensures r.Some? ==> exists i :: 0 <= i < |entries| && entries[i] == (key, r.value) &&
                                   forall j :: i < j < |entries| ==> entries[j].0 != key
  {
    if entries == [] then None
    else
      var n := |entries| - 1;
      if entries[n].0 == key then Some(entries[n].1)
      else
        var r := Lookup(entries[..n], key);
        assert forall i :: 0 <= i < n ==> entries[..n][i] == entries[i];
        r
  }

  /** The entry at `i` is what reading `key` finds when no later entry has that key. */
  lemma LookupAt(entries: seq<(string, Json)>, key: string, i: nat)
    requires i < |entries| && entries[i].0 == key
    requires forall j :: i < j < |entries| ==> entries[j].0 != key
    ensures Lookup(entries, key) == Some(entries[i].1)
  {
    var r := Lookup(entries, key);
    var i' :| 0 <= i' < |entries| && entries[i'] == (key, r.value) &&
              forall j :: i' < j < |entries| ==> entries[j].0 != key;
    assert i' == i;
  }

  /** What reading `v[0]` does. */
  datatype Indexed = ThrowsTypeError | Undefined | Element(value: Json)

  /**
    `v[0]`: the first item of a non-empty array, the first character of a
    non-empty string, the property "0" of an object; `undefined` otherwise,
    and a TypeError on `null`.
   */
  function IndexZero(v: Json): (r: Indexed)
    ensures r == ThrowsTypeError <==> v == JNull
    ensures v.JArray? ==> r == (if |v.items| > 0 then Element(v.items[0]) else Undefined)
    ensures v.JString? ==> r == (if |v.s| > 0 then Element(JString([v.s[0]])) else Undefined)
    ensures v.JObject? ==> r == (match Lookup(v.entries, "0") case Some(x) => Element(x) case None => Undefined)
  {
    match v
    case JNull => ThrowsTypeError
    case JArray(items) => if |items| > 0 then Element(items[0]) else Undefined
    case JString(s) => if |s| > 0 then Element(JString([s[0]])) else Undefined
    case JObject(entries) =>
      (match Lookup(entries, "0")
       case Some(x) => Element(x)
       case None => Undefined)
    case _ => Undefined
  }

  /**
    Whether `${v}` throws a TypeError. Converting an object to text calls its
    `toString`; an own property "toString" of a parsed object is never a
    function, so the conversion falls back to `valueOf`, which returns the
    object itself, and that is not a primitive. An array converts through
    `join`, which converts each item that is not `null`.
   */
  predicate TextThrows(v: Json)
    decreases v
  {
    match v
    case JObject(entries) => exists i :: 0 <= i < |entries| && entries[i].0 == "toString"
    case JArray(items) => exists i :: 0 <= i < |items| && TextThrows(items[i])
    case _ => false
  }

  /**
    The text `${v}` gives: `String(v)`, or `None` when the conversion throws.
    Arrays render as their items joined by commas, with `null` items
    rendering as nothing; objects render as "[object Object]".
   */
  function ToText(v: Json): (r: Option<string>)
    ensures r.None? <==> TextThrows(v)
    decreases v, 1
  {
    match v
    case JNull => Some("null")
    case JBool(b) => Some(if b then "true" else "false")
    case JNumber(text) => Some(text)
    case JString(s) => Some(s)
    case JArray(items) =>
      (match ItemTexts(v, items)
       case Some(texts) => Some(Join(texts, ","))
       case None => None)
    case JObject(entries) => if Lookup(entries, "toString").Some? then None else Some("[object Object]")
  }

  /** The texts `join` gives the items of an array, or `None` when one of them throws. */
  function ItemTexts(v: Json, items: seq<Json>): (r: Option<seq<string>>)
    requires v.JArray? && items == v.items
    ensures r.None? <==> exists i :: 0 <= i < |items| && TextThrows(items[i])
    ensures r.Some? ==> |r.value| == |items| &&
                        forall i :: 0 <= i < |items| ==> r.value[i] == if items[i] == JNull then "" else ToText(items[i]).value
    decreases v, 0
  {
    if forall i :: 0 <= i < |items| ==> ToText(items[i]).Some? then
      Some(seq(|items|, i requires 0 <= i < |items| => if items[i] == JNull then "" else ToText(items[i]).value))
    else None
  }

  /**
    How `${v}` renders the values a log record holds: a string as itself,
    `null` as "null", and an object as "[object Object]" unless it has its
    own "toString" property, on which it throws.
   */
  lemma ToTextCases(s: string, entries: seq<(string, Json)>, x: Json)
    ensures ToText(JString(s)) == Some(s)
    ensures ToText(JNull) == Some("null")
    ensures (forall i :: 0 <= i < |entries| ==> entries[i].0 != "toString") ==>
              ToText(JObject(entries)) == Some("[object Object]")
    ensures ToText(JObject([("toString", x)] + entries)) == None
  {
    var o := [("toString", x)] + entries;
    assert o[0].0 == "toString";
  }

  /**
    An array renders as its items joined by commas, a `null` item as
    nothing, and throws when an item throws.
   */
  lemma ToTextArrays(s: string, x: Json)
    ensures ToText(JArray([JObject([("toString", x)])])) == None
    ensures ToText(JArray([JNull, JString(s)])) == Some("," + s)
    ensures ToText(JArray([x])) == if x == JNull then Some("") else ToText(x)
  {
    var a := [JObject([("toString", x)])];
    assert TextThrows(a[0]) by { assert [("toString", x)][0].0 == "toString"; }
    var v := JArray([JNull, JString(s)]);
    var parts := ["", s];
    assert !TextThrows(v.items[0]) && !TextThrows(v.items[1]);
    var t := ItemTexts(v, v.items);
    assert t.Some? && |t.value| == 2;
    assert t.value[0] == "" && t.value[1] == s;
    assert t.value == parts;
    assert parts[1..] == [s];
    assert Join(parts, ",") == "" + "," + s;
    assert "" + "," + s == "," + s;
    assert ToText(v) == Some(Join(t.value, ","));
    var w := JArray([x]);
    var u := ItemTexts(w, w.items);
    assert w.items[0] == x;
    if TextThrows(x) {
      assert TextThrows(w.items[0]);
    } else {
      assert u.Some? && |u.value| == 1;
      assert u.value == [u.value[0]];
    }
  }

  /**
    `Object.entries(v)`: the entries of an object; index keys paired with the
    items of an array or the characters of a string; no entries for a number
    or a boolean; `None` for `null`, on which it throws a TypeError.
   */
  function Entries(v: Json): (r: Option<seq<(string, Json)>>)
    ensures r.None? <==> v == JNull
    ensures v.JObject? ==> r == Some(v.entries)
    ensures v.JArray? ==> r.Some? && |r.value| == |v.items|
    ensures v.JArray? ==> forall i :: 0 <= i < |v.items| ==> r.value[i] == (NatToString(i), v.items[i])
  {
    match v
    case JNull => None
    case JObject(entries) => Some(entries)
    case JArray(items) => Some(seq(|items|, i requires 0 <= i < |items| => (NatToString(i), items[i])))
    case JString(s) => Some(seq(|s|, i requires 0 <= i < |s| => (NatToString(i), JString([s[i]]))))
    case _ => Some([])
  }
}
