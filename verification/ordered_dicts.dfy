/** Python dictionaries as insertion-ordered association lists: a key assigned for
    the first time goes to the end, a key assigned again keeps its place. */
module OrderedDicts {
  import opened Wrappers

  datatype Entry<K, V> = Entry(key: K, val: V)

  type Dict<K, V> = seq<Entry<K, V>>

  /** `list(d.keys())`. */
  function Keys<K, V>(d: Dict<K, V>): (ks: seq<K>)
    ensures |ks| == |d|
    ensures forall i :: 0 <= i < |d| ==> ks[i] == d[i].key
  {
    seq(|d|, i requires 0 <= i < |d| => d[i].key)
  }

  /** `list(d.values())`. */
  function Values<K, V>(d: Dict<K, V>): (vs: seq<V>)
    ensures |vs| == |d|
    ensures forall i :: 0 <= i < |d| ==> vs[i] == d[i].val
  {
    seq(|d|, i requires 0 <= i < |d| => d[i].val)
  }

  predicate Distinct<T(==)>(s: seq<T>)
  {
    forall i, j :: 0 <= i < j < |s| ==> s[i] != s[j]
  }

  /** The position of key `k`, or -1 when it is absent. */
  function IndexOf<K(==), V>(d: Dict<K, V>, k: K): (i: int)
    ensures -1 <= i < |d|
    ensures i >= 0 ==> d[i].key == k && forall j :: 0 <= j < i ==> d[j].key != k
    ensures i == -1 <==> k !in Keys(d)
    decreases |d|
  {
    if |d| == 0 then -1
    else if d[0].key == k then 0
    else
      var j := IndexOf(d[1..], k);
      assert Keys(d[1..]) == Keys(d)[1..];
      if j < 0 then -1 else j + 1
  }

  /** `d.get(k)`. */
  function Get<K(==), V>(d: Dict<K, V>, k: K): (r: Option<V>)
    ensures r.Some? <==> k in Keys(d)
  {
    var i := IndexOf(d, k);
    if i < 0 then None else Some(d[i].val)
  }

  /** `d[k]` on a `defaultdict` whose factory yields `default`. */
  function GetOr<K(==), V>(d: Dict<K, V>, k: K, default: V): (v: V)
    ensures k !in Keys(d) ==> v == default
    ensures k in Keys(d) ==> Get(d, k) == Some(v)
  {
    match Get(d, k)
    case Some(v) => v
    case None => default
  }

  /** With distinct keys, the entry at position `i` is what its key looks up. */
  lemma GetAt<K, V>(d: Dict<K, V>, i: int)
    requires Distinct(Keys(d))
    requires 0 <= i < |d|
    ensures Get(d, d[i].key) == Some(d[i].val)
  {
    var j := IndexOf(d, d[i].key);
    assert Keys(d)[j] == d[i].key == Keys(d)[i];
  }

  /** A key's position is its first occurrence. */
  lemma IndexOfFirst<K, V>(d: Dict<K, V>, k: K, j: int)
    requires 0 <= j < |d| && d[j].key == k
    requires forall l :: 0 <= l < j ==> d[l].key != k
    ensures IndexOf(d, k) == j
  {
    assert Keys(d)[j] == k;
  }

  /** A key held by no entry has no position. */
  lemma IndexOfMissing<K, V>(d: Dict<K, V>, k: K)
    requires forall l :: 0 <= l < |d| ==> d[l].key != k
    ensures IndexOf(d, k) == -1
  {
    assert forall l :: 0 <= l < |d| ==> Keys(d)[l] != k;
  }

  /** Assigning an existing key replaces its entry in place. */
  lemma PutExisting<K, V>(d: Dict<K, V>, k: K, v: V, i: int)
    requires 0 <= i < |d| && IndexOf(d, k) == i
    ensures var r := d[i := Entry(k, v)];
      && Keys(r) == Keys(d)
      && IndexOf(r, k) == i
      && forall j :: 0 <= j < |d| && d[j].key != k ==> IndexOf(r, d[j].key) == IndexOf(d, d[j].key)
  {
    var r := d[i := Entry(k, v)];
    IndexOfFirst(r, k, i);
    forall j | 0 <= j < |d| && d[j].key != k
      ensures IndexOf(r, d[j].key) == IndexOf(d, d[j].key)
    {
      var m := IndexOf(d, d[j].key);
      assert m != i;
      IndexOfFirst(r, d[j].key, m);
    }
  }

  /** Appending an entry leaves the position of every key already present unchanged. */
  lemma IndexOfAppend<K, V>(d: Dict<K, V>, e: Entry<K, V>, j: int)
    requires 0 <= j < |d|
    ensures IndexOf(d + [e], d[j].key) == IndexOf(d, d[j].key)
  {
    var r := d + [e];
    var m := IndexOf(d, d[j].key);
    assert r[m] == d[m];
    assert forall l :: 0 <= l < m ==> r[l] == d[l];
    IndexOfFirst(r, d[j].key, m);
  }

  /** Appending an entry appends its key. */
  lemma KeysAppend<K, V>(d: Dict<K, V>, e: Entry<K, V>)
    ensures Keys(d + [e]) == Keys(d) + [e.key]
  {
    var r := d + [e];
    assert forall l :: 0 <= l < |d| ==> Keys(r)[l] == (Keys(d) + [e.key])[l];
  }

  /** An appended key that was absent sits at the end. */
  lemma IndexOfAppended<K, V>(d: Dict<K, V>, k: K, v: V)
    requires IndexOf(d, k) == -1
    ensures IndexOf(d + [Entry(k, v)], k) == |d|
  {
    var r := d + [Entry(k, v)];
    assert forall l :: 0 <= l < |d| ==> Keys(d)[l] != k;
    assert forall l :: 0 <= l < |d| ==> r[l].key != k;
    IndexOfFirst(r, k, |d|);
  }

  /** Assigning a new key appends an entry. */
  lemma PutFresh<K, V>(d: Dict<K, V>, k: K, v: V)
    requires IndexOf(d, k) == -1
    ensures var r := d + [Entry(k, v)];
      && Keys(r) == Keys(d) + [k]
      && IndexOf(r, k) == |d|
      && forall j :: 0 <= j < |d| ==> IndexOf(r, d[j].key) == IndexOf(d, d[j].key)
  {
    KeysAppend(d, Entry(k, v));
    IndexOfAppended(d, k, v);
    forall j | 0 <= j < |d|
      ensures IndexOf(d + [Entry(k, v)], d[j].key) == IndexOf(d, d[j].key)
    {
      IndexOfAppend(d, Entry(k, v), j);
    }
  }

  /** `d[k] = v`. */
  function Put<K(==), V>(d: Dict<K, V>, k: K, v: V): (r: Dict<K, V>)
    ensures Keys(r) == if k in Keys(d) then Keys(d) else Keys(d) + [k]
    ensures Distinct(Keys(d)) ==> Distinct(Keys(r))
    ensures Get(r, k) == Some(v)
    ensures forall i :: 0 <= i < |d| && d[i].key != k ==> Get(r, d[i].key) == Get(d, d[i].key)
  {
    var i := IndexOf(d, k);
    if i >= 0 then
      PutExisting(d, k, v, i);
      d[i := Entry(k, v)]
    else
      PutFresh(d, k, v);
      d + [Entry(k, v)]
  }

  /** After `d[k] = v` each entry is either the new binding or the old entry at
      the same position under another key. */
  lemma PutAt<K, V>(d: Dict<K, V>, k: K, v: V, i: int)
    requires Distinct(Keys(d))
    requires 0 <= i < |Put(d, k, v)|
    ensures var r := Put(d, k, v);
      r[i] == Entry(k, v) || (i < |d| && r[i] == d[i] && d[i].key != k)
  {
    var r := Put(d, k, v);
    assert Keys(r)[i] == r[i].key;
    GetAt(r, i);
    if r[i].key != k {
      assert i < |d|;
      assert Keys(r)[i] == Keys(d)[i] == d[i].key;
      GetAt(d, i);
    }
  }

  /** `dict(items)`, or a dictionary comprehension over `items`: each pair is
      assigned in turn, so a repeated key keeps its first position and its last value. */
  function FromPairs<K(==), V>(items: Dict<K, V>): (d: Dict<K, V>)
    ensures Distinct(Keys(d))
    decreases |items|
  {
    if |items| == 0 then []
    else Put(FromPairs(items[..|items| - 1]), items[|items| - 1].key, items[|items| - 1].val)
  }

  /** Every entry of the built dictionary is one of the pairs. */
  lemma {:induction false} FromPairsEntries<K, V>(items: Dict<K, V>)
    ensures forall i :: 0 <= i < |FromPairs(items)| ==> FromPairs(items)[i] in items
    decreases |items|
  {
    if |items| > 0 {
      var prefix := items[..|items| - 1];
      var last := items[|items| - 1];
      var d := FromPairs(items);
      FromPairsEntries(prefix);
      assert d == Put(FromPairs(prefix), last.key, last.val);
      forall i | 0 <= i < |d|
        ensures d[i] in items
      {
        PutAt(FromPairs(prefix), last.key, last.val, i);
        if d[i] != last {
          assert d[i] in prefix;
        }
      }
    }
  }

  /** Every key of the pairs is a key of the built dictionary. */
  lemma {:induction false} FromPairsKeys<K, V>(items: Dict<K, V>)
    ensures forall i :: 0 <= i < |items| ==> items[i].key in Keys(FromPairs(items))
    decreases |items|
  {
    if |items| > 0 {
      var prefix := items[..|items| - 1];
      var d := FromPairs(prefix);
      FromPairsKeys(prefix);
      forall i | 0 <= i < |items| - 1
        ensures items[i].key in Keys(FromPairs(items))
      {
        assert prefix[i] == items[i];
        assert items[i].key in Keys(d);
      }
    }
  }

  /** A key maps to the value of its last pair. */
  lemma {:induction false} FromPairsLastWins<K, V>(items: Dict<K, V>)
    ensures var d := FromPairs(items);
      forall i :: 0 <= i < |items| && (forall j :: i < j < |items| ==> items[j].key != items[i].key) ==>
        Get(d, items[i].key) == Some(items[i].val)
    decreases |items|
  {
    if |items| > 0 {
      var prefix := items[..|items| - 1];
      var before := FromPairs(prefix);
      var d := FromPairs(items);
      FromPairsLastWins(prefix);
      FromPairsKeys(prefix);
      forall i | 0 <= i < |items| && (forall j :: i < j < |items| ==> items[j].key != items[i].key)
        ensures Get(d, items[i].key) == Some(items[i].val)
      {
        if i < |items| - 1 {
          assert prefix[i] == items[i];
          var j := IndexOf(before, items[i].key);
          assert Get(d, before[j].key) == Get(before, before[j].key);
        }
      }
    }
  }

  /** Assigning an absent key appends its entry. */
  lemma PutNew<K, V>(d: Dict<K, V>, k: K, v: V)
    requires IndexOf(d, k) == -1
    ensures Put(d, k, v) == d + [Entry(k, v)]
  {
  }

  /** Without its last entry a dictionary with distinct keys keeps distinct
      keys and no longer holds the last key. */
  lemma DistinctWithoutLast<K, V>(items: Dict<K, V>)
    requires |items| > 0 && Distinct(Keys(items))
    ensures Distinct(Keys(items[..|items| - 1]))
    ensures IndexOf(items[..|items| - 1], items[|items| - 1].key) == -1
  {
    var prefix := items[..|items| - 1];
    var last := items[|items| - 1];
    assert Keys(prefix) == Keys(items)[..|items| - 1];
    forall l | 0 <= l < |prefix|
      ensures prefix[l].key != last.key
    {
      assert Keys(items)[l] == prefix[l].key;
      assert Keys(items)[|items| - 1] == last.key;
    }
    IndexOfMissing(prefix, last.key);
  }

  /** A pair whose key is new to the built dictionary is appended to it. */
  lemma FromPairsAppendNew<K, V>(items: Dict<K, V>, e: Entry<K, V>)
    requires IndexOf(FromPairs(items), e.key) == -1
    ensures FromPairs(items + [e]) == FromPairs(items) + [e]
  {
    assert (items + [e])[..|items|] == items;
    PutNew(FromPairs(items), e.key, e.val);
  }

  /** Pairs with distinct keys already are the dictionary they build. */
  lemma {:induction false} FromPairsOfDistinct<K, V>(items: Dict<K, V>)
    requires Distinct(Keys(items))
    ensures FromPairs(items) == items
    decreases |items|
  {
    if |items| > 0 {
      var prefix := items[..|items| - 1];
      var last := items[|items| - 1];
      assert items == prefix + [last];
      DistinctWithoutLast(items);
      FromPairsOfDistinct(prefix);
      assert IndexOf(FromPairs(prefix), last.key) == -1;
      FromPairsAppendNew(prefix, last);
    }
  }
}
