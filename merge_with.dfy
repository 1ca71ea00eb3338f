/** The two generic merges of the export merger: an identity-keyed merge of
    two slices (mergeSlicesWith) and a key-wise merge of two maps
    (mergeMapsWith). Both abort on the first failing reconciliation. */
module MergeWith {
  import opened Wrappers

  // ---------------------------------------------------------------------------
  // mergeSlicesWith
  // ---------------------------------------------------------------------------

  /** One item entered into the table: a new id is stored, a known id has its
      stored value reconciled with the item. */
  function Step<T, E>(acc: Result<map<string, T>, E>, x: T, id: T -> string, merge: (T, T) -> Result<T, E>): Result<map<string, T>, E>
  {
    match acc
    case Err(e) => Err(e)
    case Ok(t) =>
      if id(x) in t then
        match merge(t[id(x)], x)
        case Err(e) => Err(e)
        case Ok(m) => Ok(t[id(x) := m])
      else Ok(t[id(x) := x])
  }

  /** The id -> value table built over items, left to right. */
  function Table<T, E>(items: seq<T>, id: T -> string, merge: (T, T) -> Result<T, E>): Result<map<string, T>, E>
    decreases |items|
  {
    if items == [] then Ok(map[])
    else Step(Table(items[..|items| - 1], id, merge), items[|items| - 1], id, merge)
  }

  /** The distinct ids of items in order of first occurrence: the order in
      which the table's keys are first inserted. */
  function FirstSeen<T>(items: seq<T>, id: T -> string): seq<string>
    decreases |items|
  {
    if items == [] then []
    else
      var p := FirstSeen(items[..|items| - 1], id);
      var k := id(items[|items| - 1]);
      if k in p then p else p + [k]
  }

  /** The values of t at the keys ks, in the order of ks. */
  function Values<T>(t: map<string, T>, ks: seq<string>): (r: seq<T>)
    requires forall k :: k in ks ==> k in t
    ensures |r| == |ks|
    ensures forall i :: 0 <= i < |ks| ==> r[i] == t[ks[i]]
  {
    seq(|ks|, i requires 0 <= i < |ks| => t[ks[i]])
  }

  /** The set of ids carried by items. */
  function Ids<T>(items: seq<T>, id: T -> string): set<string> {
    set i | 0 <= i < |items| :: id(items[i])
  }

  lemma TableSnoc<T, E>(items: seq<T>, x: T, id: T -> string, merge: (T, T) -> Result<T, E>)
    ensures Table(items + [x], id, merge) == Step(Table(items, id, merge), x, id, merge)
    ensures FirstSeen(items + [x], id) == if id(x) in FirstSeen(items, id) then FirstSeen(items, id) else FirstSeen(items, id) + [id(x)]
  {
    FirstSeenSnoc(items, x, id);
  }

  lemma FirstSeenSnoc<T>(items: seq<T>, x: T, id: T -> string)
    ensures FirstSeen(items + [x], id) == if id(x) in FirstSeen(items, id) then FirstSeen(items, id) else FirstSeen(items, id) + [id(x)]
  {
    assert (items + [x])[..|items|] == items;
  }

  lemma IdsSnoc<T>(items: seq<T>, x: T, id: T -> string)
    ensures Ids(items + [x], id) == Ids(items, id) + {id(x)}
  {
    var s := items + [x];
    assert forall i :: 0 <= i < |items| ==> s[i] == items[i];
    assert s[|items|] == x;
  }

  /** The ids of a concatenation. */
  lemma IdsAppend<T>(a: seq<T>, b: seq<T>, id: T -> string)
    ensures Ids(a + b, id) == Ids(a, id) + Ids(b, id)
  {
    var s := a + b;
    forall k | k in Ids(b, id) ensures k in Ids(s, id) {
      var i :| 0 <= i < |b| && id(b[i]) == k;
      assert s[|a| + i] == b[i];
    }
    forall k | k in Ids(a, id) ensures k in Ids(s, id) {
      var i :| 0 <= i < |a| && id(a[i]) == k;
      assert s[i] == a[i];
    }
  }

  /** The first-occurrence order lists every id of items exactly once. */
  lemma {:induction false} FirstSeenIds<T>(items: seq<T>, id: T -> string)
    ensures forall k :: k in FirstSeen(items, id) <==> k in Ids(items, id)
    ensures forall i, j :: 0 <= i < j < |FirstSeen(items, id)| ==> FirstSeen(items, id)[i] != FirstSeen(items, id)[j]
    decreases |items|
  {
    if items != [] {
      var p := items[..|items| - 1];
      var x := items[|items| - 1];
      assert items == p + [x];
      FirstSeenIds(p, id);
      FirstSeenSnoc(p, x, id);
      IdsSnoc(p, x, id);
    }
  }

  /** The keys of a successful table are the ids of the items. */
  lemma {:induction false} TableKeys<T, E>(items: seq<T>, id: T -> string, merge: (T, T) -> Result<T, E>)
    requires Table(items, id, merge).Ok?
    ensures Table(items, id, merge).value.Keys == Ids(items, id)
    decreases |items|
  {
    if items != [] {
      var p := items[..|items| - 1];
      var x := items[|items| - 1];
      assert items == p + [x];
      TableKeys(p, id, merge);
      IdsSnoc(p, x, id);
    }
  }

  /** A failure while reading a prefix is the failure of the whole. */
  lemma {:induction false} TableErrExtends<T, E>(items: seq<T>, n: nat, id: T -> string, merge: (T, T) -> Result<T, E>)
    requires n <= |items|
    requires Table(items[..n], id, merge).Err?
    ensures Table(items, id, merge) == Table(items[..n], id, merge)
    decreases |items| - n
  {
    if n < |items| {
      assert items[..n + 1] == items[..n] + [items[n]];
      TableSnoc(items[..n], items[n], id, merge);
      TableErrExtends(items, n + 1, id, merge);
    } else {
      assert items[..n] == items;
    }
  }

  /** The identity-keyed merge of a ++ b: one value per distinct id, in the
      order in which the ids first occur. */
  function MergeSlices<T, E>(a: seq<T>, b: seq<T>, id: T -> string, merge: (T, T) -> Result<T, E>): Result<seq<T>, E>
  {
    match Table(a + b, id, merge)
    case Err(e) => Err(e)
    case Ok(t) =>
      TableKeys(a + b, id, merge);
      FirstSeenIds(a + b, id);
      Ok(Values(t, FirstSeen(a + b, id)))
  }

  /** mergeSlicesWith: builds the id -> value table over a ++ b, reconciling
      values that share an id, then lists the table's values. Go lists them
      in map order; this model lists them in order of first occurrence. */
  method MergeSlicesWith<T, E>(a: seq<T>, b: seq<T>, id: T -> string, merge: (T, T) -> Result<T, E>)
    returns (r: Result<seq<T>, E>)
    ensures r == MergeSlices(a, b, id, merge)
  {
    var items := a + b;
    var itemMap: map<string, T> := map[];
    var order: seq<string> := [];
    var i := 0;
    while i < |items|
      invariant 0 <= i <= |items|
      invariant Table(items[..i], id, merge) == Ok(itemMap)
      invariant order == FirstSeen(items[..i], id)
    {
      var item := items[i];
      var itemId := id(item);
      assert items[..i + 1] == items[..i] + [item];
      TableSnoc(items[..i], item, id, merge);
      TableKeys(items[..i], id, merge);
      FirstSeenIds(items[..i], id);
      if itemId in itemMap {
        var merged := merge(itemMap[itemId], item);
        if merged.Err? {
          TableErrExtends(items, i + 1, id, merge);
          return Err(merged.error);
        }
        itemMap := itemMap[itemId := merged.value];
      } else {
        itemMap := itemMap[itemId := item];
        order := order + [itemId];
      }
      i := i + 1;
    }
    assert items[..i] == items;
    TableKeys(items, id, merge);
    FirstSeenIds(items, id);
    var ret: seq<T> := [];
    var j := 0;
    while j < |order|
      invariant 0 <= j <= |order|
      invariant |ret| == j
      invariant forall m :: 0 <= m < j ==> ret[m] == itemMap[order[m]]
    {
      ret := ret + [itemMap[order[j]]];
      j := j + 1;
    }
    assert ret == Values(itemMap, order);
    return Ok(ret);
  }

  // ---------------------------------------------------------------------------
  // What the identity-keyed merge guarantees
  // ---------------------------------------------------------------------------

  /** The reconciliation keeps the id of the values it reconciles. */
  ghost predicate IdPreserving<T(!new), E>(id: T -> string, merge: (T, T) -> Result<T, E>) {
    forall x, y :: id(x) == id(y) && merge(x, y).Ok? ==> id(merge(x, y).value) == id(x)
  }

  /** The reconciliation, when it succeeds, returns its first argument. */
  ghost predicate KeepsFirst<T(!new), E>(merge: (T, T) -> Result<T, E>) {
    forall x, y :: merge(x, y).Ok? ==> merge(x, y).value == x
  }

  ghost predicate DistinctIds<T>(s: seq<T>, id: T -> string) {
    forall i, j :: 0 <= i < j < |s| ==> id(s[i]) != id(s[j])
  }

  /** The i-th item is the first one carrying its id. */
  ghost predicate FirstOfItsId<T>(items: seq<T>, i: int, id: T -> string)
    requires 0 <= i < |items|
  {
    forall j :: 0 <= j < i ==> id(items[j]) != id(items[i])
  }

  lemma {:induction false} TableIds<T(!new), E>(items: seq<T>, id: T -> string, merge: (T, T) -> Result<T, E>)
    requires IdPreserving(id, merge)
    requires Table(items, id, merge).Ok?
    ensures forall k :: k in Table(items, id, merge).value ==> id(Table(items, id, merge).value[k]) == k
    decreases |items|
  {
    if items != [] {
      var p := items[..|items| - 1];
      var x := items[|items| - 1];
      assert items == p + [x];
      TableSnoc(p, x, id, merge);
      TableIds(p, id, merge);
    }
  }

  /** On success, the result holds exactly one value for each distinct id of
      a ++ b, and no other id. */
  lemma MergeSlicesIds<T(!new), E>(a: seq<T>, b: seq<T>, id: T -> string, merge: (T, T) -> Result<T, E>)
    requires IdPreserving(id, merge)
    requires MergeSlices(a, b, id, merge).Ok?
    ensures DistinctIds(MergeSlices(a, b, id, merge).value, id)
    ensures Ids(MergeSlices(a, b, id, merge).value, id) == Ids(a + b, id)
  {
    var t := Table(a + b, id, merge).value;
    var ks := FirstSeen(a + b, id);
    TableKeys(a + b, id, merge);
    TableIds(a + b, id, merge);
    FirstSeenIds(a + b, id);
    var r := MergeSlices(a, b, id, merge).value;
    assert forall i :: 0 <= i < |r| ==> id(r[i]) == ks[i];
    forall k | k in Ids(a + b, id) ensures k in Ids(r, id) {
      var i :| 0 <= i < |ks| && ks[i] == k;
      assert id(r[i]) == k;
    }
  }

  lemma {:induction false} TableDistinct<T, E>(items: seq<T>, id: T -> string, merge: (T, T) -> Result<T, E>)
    requires DistinctIds(items, id)
    ensures Table(items, id, merge).Ok?
    ensures FirstSeen(items, id) == seq(|items|, i requires 0 <= i < |items| => id(items[i]))
    ensures forall i :: 0 <= i < |items| ==> id(items[i]) in Table(items, id, merge).value && Table(items, id, merge).value[id(items[i])] == items[i]
    decreases |items|
  {
    if items != [] {
      var p := items[..|items| - 1];
      var x := items[|items| - 1];
      assert items == p + [x];
      assert DistinctIds(p, id);
      TableDistinct(p, id, merge);
      TableSnoc(p, x, id, merge);
      TableKeys(p, id, merge);
      FirstSeenIds(p, id);
      assert id(x) !in Ids(p, id) by {
        forall k | 0 <= k < |p| ensures id(p[k]) != id(x) {
          assert items[k] == p[k];
        }
      }
      assert FirstSeen(items, id) == FirstSeen(p, id) + [id(x)];
    }
  }

  /** When no id repeats, nothing is reconciled and the result is a ++ b. */
  lemma MergeSlicesDistinct<T, E>(a: seq<T>, b: seq<T>, id: T -> string, merge: (T, T) -> Result<T, E>)
    requires DistinctIds(a + b, id)
    ensures MergeSlices(a, b, id, merge) == Ok(a + b)
  {
    TableDistinct(a + b, id, merge);
    var t := Table(a + b, id, merge).value;
    var ks := FirstSeen(a + b, id);
    TableKeys(a + b, id, merge);
    FirstSeenIds(a + b, id);
    assert Values(t, ks) == a + b;
  }

  /** Items whose stored value reconciles with them to itself leave the table
      and the order unchanged. */
  lemma {:induction false} TableStable<T, E>(p: seq<T>, q: seq<T>, t: map<string, T>, id: T -> string, merge: (T, T) -> Result<T, E>)
    requires Table(p, id, merge) == Ok(t)
    requires forall x :: x in q ==> id(x) in t && merge(t[id(x)], x) == Ok(t[id(x)])
    ensures Table(p + q, id, merge) == Ok(t)
    ensures FirstSeen(p + q, id) == FirstSeen(p, id)
    decreases |q|
  {
    if q == [] {
      assert p + q == p;
    } else {
      var q' := q[..|q| - 1];
      var x := q[|q| - 1];
      assert p + q == (p + q') + [x];
      TableStable(p, q', t, id, merge);
      TableSnoc(p + q', x, id, merge);
      TableKeys(p, id, merge);
      FirstSeenIds(p, id);
      assert t[id(x) := t[id(x)]] == t;
    }
  }

  /** Merging a list of distinct-id values with itself, under a reconciliation
      that accepts every value paired with itself, gives back the list. */
  lemma MergeSlicesSelf<T, E>(a: seq<T>, id: T -> string, merge: (T, T) -> Result<T, E>)
    requires DistinctIds(a, id)
    requires forall x :: x in a ==> merge(x, x) == Ok(x)
    ensures MergeSlices(a, a, id, merge) == Ok(a)
  {
    TableDistinct(a, id, merge);
    var t := Table(a, id, merge).value;
    forall x | x in a ensures id(x) in t && merge(t[id(x)], x) == Ok(t[id(x)]) {
      var i :| 0 <= i < |a| && a[i] == x;
    }
    TableStable(a, a, t, id, merge);
    TableKeys(a, id, merge);
    FirstSeenIds(a, id);
    assert Values(t, FirstSeen(a, id)) == a;
  }

  /** The first-occurrence order names, for each id, its first item. */
  lemma {:induction false} FirstSeenFirst<T>(items: seq<T>, id: T -> string)
    ensures forall m :: 0 <= m < |FirstSeen(items, id)| ==>
      exists i :: 0 <= i < |items| && id(items[i]) == FirstSeen(items, id)[m] && FirstOfItsId(items, i, id)
    decreases |items|
  {
    if items != [] {
      var p := items[..|items| - 1];
      var x := items[|items| - 1];
      assert items == p + [x];
      FirstSeenFirst(p, id);
      FirstSeenIds(p, id);
      FirstSeenSnoc(p, x, id);
      var ks := FirstSeen(items, id);
      forall m | 0 <= m < |ks|
        ensures exists i :: 0 <= i < |items| && id(items[i]) == ks[m] && FirstOfItsId(items, i, id)
      {
        if m < |FirstSeen(p, id)| {
          var i :| 0 <= i < |p| && id(p[i]) == ks[m] && FirstOfItsId(p, i, id);
          assert items[i] == p[i];
          assert FirstOfItsId(items, i, id);
          assert 0 <= i < |items| && id(items[i]) == ks[m];
        } else {
          assert ks[m] == id(x);
          assert forall j :: 0 <= j < |p| ==> id(p[j]) in Ids(p, id);
          assert FirstOfItsId(items, |items| - 1, id);
          assert id(items[|items| - 1]) == ks[m];
        }
      }
      assert forall m :: 0 <= m < |FirstSeen(items, id)| ==>
        exists i :: 0 <= i < |items| && id(items[i]) == FirstSeen(items, id)[m] && FirstOfItsId(items, i, id);
    } else {
      assert FirstSeen(items, id) == [];
    }
  }

  /** Under a reconciliation that keeps its first argument, the stored value
      of each id is the first item with that id. */
  lemma {:induction false} TableKeepsFirst<T(!new), E>(items: seq<T>, id: T -> string, merge: (T, T) -> Result<T, E>)
    requires KeepsFirst(merge)
    requires Table(items, id, merge).Ok?
    ensures forall i :: 0 <= i < |items| && FirstOfItsId(items, i, id) ==>
      id(items[i]) in Table(items, id, merge).value && Table(items, id, merge).value[id(items[i])] == items[i]
    decreases |items|
  {
    if items != [] {
      var p := items[..|items| - 1];
      var x := items[|items| - 1];
      assert items == p + [x];
      TableSnoc(p, x, id, merge);
      TableKeepsFirst(p, id, merge);
      TableKeys(p, id, merge);
      var t' := Table(items, id, merge).value;
      forall i | 0 <= i < |items| && FirstOfItsId(items, i, id)
        ensures id(items[i]) in t' && t'[id(items[i])] == items[i]
      {
        if i < |p| {
          assert p[i] == items[i];
          assert FirstOfItsId(p, i, id);
        } else {
          assert forall j :: 0 <= j < |p| ==> p[j] == items[j];
          assert id(x) !in Ids(p, id);
        }
      }
    }
  }

  /** Under a reconciliation that keeps its first argument, the result is the
      first item of each id of a ++ b, in the order of those items. */
  lemma MergeSlicesKeepsFirst<T(!new), E>(a: seq<T>, b: seq<T>, id: T -> string, merge: (T, T) -> Result<T, E>)
    requires KeepsFirst(merge)
    requires MergeSlices(a, b, id, merge).Ok?
    ensures forall m :: 0 <= m < |MergeSlices(a, b, id, merge).value| ==>
      exists i :: 0 <= i < |a + b| && (a + b)[i] == MergeSlices(a, b, id, merge).value[m] && FirstOfItsId(a + b, i, id)
  {
    var items := a + b;
    TableKeepsFirst(items, id, merge);
    FirstSeenFirst(items, id);
    TableKeys(items, id, merge);
    FirstSeenIds(items, id);
    var t := Table(items, id, merge).value;
    var ks := FirstSeen(items, id);
    var r := MergeSlices(a, b, id, merge).value;
    assert r == Values(t, ks);
    forall m | 0 <= m < |r|
      ensures exists i :: 0 <= i < |items| && items[i] == r[m] && FirstOfItsId(items, i, id)
    {
      var i :| 0 <= i < |items| && id(items[i]) == ks[m] && FirstOfItsId(items, i, id);
      assert r[m] == t[ks[m]];
      assert t[id(items[i])] == items[i];
      assert items[i] == r[m];
    }
  }

  /** A failure of the table is a failure returned by the reconciliation on
      some item, paired with the value stored before it. */
  lemma {:induction false} TableErrFromMerge<T, E>(items: seq<T>, id: T -> string, merge: (T, T) -> Result<T, E>)
    returns (stored: T, i: nat)
    requires Table(items, id, merge).Err?
    ensures i < |items| && merge(stored, items[i]) == Err(Table(items, id, merge).error)
    decreases |items|
  {
    var p := items[..|items| - 1];
    var y := items[|items| - 1];
    assert items == p + [y];
    TableSnoc(p, y, id, merge);
    if Table(p, id, merge).Err? {
      stored, i := TableErrFromMerge(p, id, merge);
      assert items[i] == p[i];
    } else {
      var t := Table(p, id, merge).value;
      stored, i := t[id(y)], |items| - 1;
    }
  }

  /** A failure of the merge is a failure of reconciling some item of a ++ b
      with the value stored before it. */
  lemma MergeSlicesErr<T, E>(a: seq<T>, b: seq<T>, id: T -> string, merge: (T, T) -> Result<T, E>)
    returns (stored: T, i: nat)
    requires MergeSlices(a, b, id, merge).Err?
    ensures i < |a + b| && merge(stored, (a + b)[i]) == Err(MergeSlices(a, b, id, merge).error)
  {
    stored, i := TableErrFromMerge(a + b, id, merge);
  }

  // ---------------------------------------------------------------------------
  // mergeMapsWith and cloneMap
  // ---------------------------------------------------------------------------

  /** cloneMap: copies every entry of m into a new map. */
  method CloneMap<K, V>(m: map<K, V>) returns (ret: map<K, V>)
    ensures ret == m
  {
    ret := map[];
    var keys := m.Keys;
    while keys != {}
      invariant keys <= m.Keys
      invariant ret.Keys == m.Keys - keys
      invariant forall k :: k in ret ==> ret[k] == m[k]
      decreases keys
    {
      var k :| k in keys;
      ret := ret[k := m[k]];
      keys := keys - {k};
    }
  }

  /** The value mergeMapsWith stores at a key of a or b, when every shared
      key reconciles. */
  function MergedAt<K, V, E>(a: map<K, V>, b: map<K, V>, merge: (V, V) -> Result<V, E>, k: K): V
    requires k in a || k in b
    requires k in a && k in b ==> merge(a[k], b[k]).Ok?
  {
    if k in a && k in b then merge(a[k], b[k]).value else if k in a then a[k] else b[k]
  }

  /** Every key the two maps share reconciles. */
  predicate SharedKeysMerge<K, V, E>(a: map<K, V>, b: map<K, V>, merge: (V, V) -> Result<V, E>) {
    forall k | k in a && k in b :: merge(a[k], b[k]).Ok?
  }

  /** The key-wise merge of two maps, None when some shared key fails. */
  function MergeMaps<K, V, E>(a: map<K, V>, b: map<K, V>, merge: (V, V) -> Result<V, E>): Option<map<K, V>> {
    if SharedKeysMerge(a, b, merge) then Some(map k | k in a.Keys + b.Keys :: MergedAt(a, b, merge, k))
    else None
  }

  /** mergeMapsWith: starting from a copy of a, visits the keys of b in an
      unspecified order (Go's randomised map order; here any choice), stores
      a new key's value and reconciles a shared key's two values. The outcome
      does not depend on the order except for which failure is reported, and
      that is the failure of some shared key. */
  method MergeMapsWith<K, V, E>(a: map<K, V>, b: map<K, V>, merge: (V, V) -> Result<V, E>)
    returns (r: Result<map<K, V>, E>)
    ensures r.Ok? <==> MergeMaps(a, b, merge).Some?
    ensures r.Ok? ==> r.value == MergeMaps(a, b, merge).value
    ensures r.Err? ==> exists k :: k in a && k in b && merge(a[k], b[k]) == Err(r.error)
  {
    var ret := CloneMap(a);
    var keys := b.Keys;
    while keys != {}
      invariant keys <= b.Keys
      invariant ret.Keys == a.Keys + (b.Keys - keys)
      invariant forall k :: k in a && k in b && k !in keys ==> merge(a[k], b[k]).Ok?
      invariant forall k :: k in ret ==> ret[k] == if k in keys then a[k] else MergedAt(a, b, merge, k)
      decreases keys
    {
      var k :| k in keys;
      if k in ret {
        var merged := merge(ret[k], b[k]);
        if merged.Err? {
          return Err(merged.error);
        }
        ret := ret[k := merged.value];
      } else {
        ret := ret[k := b[k]];
      }
      keys := keys - {k};
    }
    return Ok(ret);
  }

  /** On success the keys are those of either map; a key of only one map
      keeps its value, a shared key holds the reconciled value. */
  lemma MergeMapsContents<K, V, E>(a: map<K, V>, b: map<K, V>, merge: (V, V) -> Result<V, E>)
    requires MergeMaps(a, b, merge).Some?
    ensures MergeMaps(a, b, merge).value.Keys == a.Keys + b.Keys
    ensures forall k :: k in a && k !in b ==> MergeMaps(a, b, merge).value[k] == a[k]
    ensures forall k :: k !in a && k in b ==> MergeMaps(a, b, merge).value[k] == b[k]
    ensures forall k :: k in a && k in b ==> Ok(MergeMaps(a, b, merge).value[k]) == merge(a[k], b[k])
  {
  }

  /** Maps with no shared key merge into their union. */
  lemma MergeMapsDisjoint<K, V, E>(a: map<K, V>, b: map<K, V>, merge: (V, V) -> Result<V, E>)
    requires a.Keys !! b.Keys
    ensures MergeMaps(a, b, merge) == Some(a + b)
  {
    var m := MergeMaps(a, b, merge).value;
    assert forall k :: k in m ==> m[k] == (a + b)[k];
    assert m == a + b;
  }

  /** A map merged with itself, under a reconciliation that gives back every
      one of its values paired with itself, is unchanged. */
  lemma MergeMapsSelf<K, V, E>(a: map<K, V>, merge: (V, V) -> Result<V, E>)
    requires forall k :: k in a ==> merge(a[k], a[k]) == Ok(a[k])
    ensures MergeMaps(a, a, merge) == Some(a)
  {
    var m := MergeMaps(a, a, merge).value;
    assert forall k :: k in m ==> m[k] == a[k];
    assert m == a;
  }
}
