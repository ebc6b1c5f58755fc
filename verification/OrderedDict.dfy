/** Python's insertion-ordered `dict`: assigning an existing key keeps its place and replaces its value. */
module OrderedDict {
  import opened Wrappers
  import JsSet

  type Dict<V> = seq<(string, V)>

  /** The position of a key, or the length when it is absent. */
  function IndexOf<V>(d: Dict<V>, k: string): (i: nat)
    ensures i <= |d|
    ensures forall j :: 0 <= j < i ==> d[j].0 != k
    ensures i < |d| ==> d[i].0 == k
  {
    if d == [] then 0 else if d[0].0 == k then 0 else 1 + IndexOf(d[1..], k)
  }

  /** `d[k] = v`. */
  function Put<V>(d: Dict<V>, k: string, v: V): Dict<V> {
    var i := IndexOf(d, k);
    if i < |d| then d[i := (k, v)] else d + [(k, v)]
  }

  /** `d.get(k)`. */
  function Get<V>(d: Dict<V>, k: string): Option<V> {
    var i := IndexOf(d, k);
    if i < |d| then Some(d[i].1) else None
  }

  ghost predicate Distinct<V>(d: Dict<V>) {
    forall i, j :: 0 <= i < j < |d| ==> d[i].0 != d[j].0
  }

  /** What the dict maps, with its order forgotten. */
  function AsMap<V>(d: Dict<V>): (m: map<string, V>)
    ensures forall k :: k in m <==> exists i :: 0 <= i < |d| && d[i].0 == k
  {
    if d == [] then map[] else AsMap(d[..|d| - 1])[d[|d| - 1].0 := d[|d| - 1].1]
  }

  lemma {:induction false} AsMapAt<V>(d: Dict<V>, i: nat)
    requires Distinct(d) && i < |d|
    ensures AsMap(d)[d[i].0] == d[i].1
  {
    if i < |d| - 1 {
      AsMapAt(d[..|d| - 1], i);
    }
  }

  lemma PutAbsent<V>(d: Dict<V>, k: string, v: V)
    requires forall i :: 0 <= i < |d| ==> d[i].0 != k
    ensures Put(d, k, v) == d + [(k, v)]
  {
  }

  lemma PutAt<V>(d: Dict<V>, k: string, v: V, x: string)
    requires Distinct(d) && IndexOf(d, k) < |d|
    ensures Distinct(Put(d, k, v))
    ensures x in AsMap(Put(d, k, v)) <==> x in AsMap(d)
    ensures x in AsMap(d) ==> AsMap(Put(d, k, v))[x] == if x == k then v else AsMap(d)[x]
  {
    var e := Put(d, k, v);
    if j: nat :| j < |d| && d[j].0 == x {
      assert e[j].0 == x;
      AsMapAt(e, j);
      AsMapAt(d, j);
    } else {
      assert forall j :: 0 <= j < |e| ==> e[j].0 == d[j].0;
    }
  }

  lemma PutIsUpdate<V>(d: Dict<V>, k: string, v: V)
    requires Distinct(d)
    ensures Distinct(Put(d, k, v))
    ensures AsMap(Put(d, k, v)) == AsMap(d)[k := v]
  {
    var i := IndexOf(d, k);
    var e := Put(d, k, v);
    if i < |d| {
      hide AsMap, Put, IndexOf;
      assert k in AsMap(d) by {
        assert d[i].0 == k;
      }
      forall x ensures x in AsMap(e) <==> x in AsMap(d) {
        PutAt(d, k, v, x);
      }
      forall x | x in AsMap(d) ensures AsMap(e)[x] == if x == k then v else AsMap(d)[x] {
        PutAt(d, k, v, x);
      }
      PutAt(d, k, v, k);
    } else {
      assert e[..|e| - 1] == d;
    }
  }

  lemma PutThenGet<V>(d: Dict<V>, k: string, v: V, x: string)
    ensures Get(Put(d, k, v), x) == if x == k then Some(v) else Get(d, x)
  {
    var e := Put(d, k, v);
    var i, j := IndexOf(d, x), IndexOf(e, x);
    if x == k || i < |d| {
      assert e[i].0 == x;
    }
    if j < |d| && d[j].0 == x {
      assert i <= j;
    }
  }

  /** The keys, in the order they were first assigned. */
  function KeysOf<V>(d: Dict<V>): (keys: seq<string>)
    ensures |keys| == |d|
  {
    seq(|d|, i requires 0 <= i < |d| => d[i].0)
  }

  lemma PutKeepsOrder<V>(d: Dict<V>, k: string, v: V)
    ensures KeysOf(Put(d, k, v)) == JsSet.AddTo(KeysOf(d), k)
  {
    var i := IndexOf(d, k);
    if i < |d| {
      assert KeysOf(d)[i] == k;
    }
  }
}
