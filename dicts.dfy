/** Dictionaries that remember insertion order, as a Python `dict` and a JavaScript
    object with string keys do. The order matters in the source: the order in which
    `insert_violations` walks its results decides which site receives which Site_ID,
    and `dict.update` keeps a key at its first position while replacing its value. */
module Dicts {
  import opened Wrappers
  import opened Seqs

  /** The key/value pairs in the order their keys were first stored. Every operation
      below keeps the keys distinct when they start distinct. */
  datatype Dict<K, V> = Dict(items: seq<(K, V)>)

  function Empty<K, V>(): Dict<K, V> {
    Dict([])
  }

  function Keys<K, V>(d: Dict<K, V>): (ks: seq<K>)
    ensures |ks| == |d.items|
    ensures forall i :: 0 <= i < |ks| ==> ks[i] == d.items[i].0
  {
    seq(|d.items|, i requires 0 <= i < |d.items| => d.items[i].0)
  }

  predicate UniqueKeys<K(==,!new), V>(d: Dict<K, V>) {
    Distinct(Keys(d))
  }

  /** `d.get(k)`: the value stored under `k`, if any. */
  function Get<K(==,!new), V>(d: Dict<K, V>, k: K): (r: Option<V>)
    ensures r.Some? <==> k in Keys(d)
  {
    if k in Keys(d) then Some(d.items[FirstIndex(Keys(d), k)].1) else None
  }

  /** `d.get(k, default)`, `d[k] || default`: the value under `k`, or `default`. */
  function ValueOr<K(==,!new), V>(d: Dict<K, V>, k: K, default: V): (r: V)
    ensures k in Keys(d) ==> Get(d, k) == Some(r)
    ensures k !in Keys(d) ==> r == default
  {
    match Get(d, k)
    case Some(v) => v
    case None => default
  }

  /** With distinct keys, the value found under the key of a pair is that pair's value. */
  lemma ValueAtUniqueKey<K(!new), V>(d: Dict<K, V>, i: nat, default: V)
    requires UniqueKeys(d) && i < |d.items|
    ensures ValueOr(d, d.items[i].0, default) == d.items[i].1
  {
    var j := FirstIndex(Keys(d), d.items[i].0);
    assert Keys(d)[j] == Keys(d)[i];
  }

  /** `d[k] = v`: a key already present keeps its position and takes the new value;
      a new key goes last. */
  function Put<K(==,!new), V>(d: Dict<K, V>, k: K, v: V): (r: Dict<K, V>)
    ensures Keys(r) == if k in Keys(d) then Keys(d) else Keys(d) + [k]
    ensures Get(r, k) == Some(v)
    ensures forall k' :: k' != k ==> Get(r, k') == Get(d, k')
  {
    if k in Keys(d) then
      var i := FirstIndex(Keys(d), k);
      var r := Dict(d.items[i := (k, v)]);
      assert Keys(r) == Keys(d);
      r
    else
      var r := Dict(d.items + [(k, v)]);
      assert Keys(r) == Keys(d) + [k];
      FirstIndexLast(Keys(d), k);
      forall k' | k' in Keys(d) ensures FirstIndex(Keys(r), k') == FirstIndex(Keys(d), k') {
        FirstIndexSnoc(Keys(d), k, k');
      }
      r
  }

  /** The value last paired with `k` in `ps`. */
  function LastValue<K(==,!new), V>(ps: seq<(K, V)>, k: K): Option<V>
  {
    if ps == [] then None
    else if ps[|ps| - 1].0 == k then Some(ps[|ps| - 1].1)
    else LastValue(ps[..|ps| - 1], k)
  }

  /** Stores the pairs of `ps` into `d` one after the other. */
  function PutAll<K(==,!new), V>(d: Dict<K, V>, ps: seq<(K, V)>): (r: Dict<K, V>)
    ensures Keys(r) == AppendNew(Keys(d), Keys(Dict(ps)))
    ensures forall k :: Get(r, k) == if LastValue(ps, k).Some? then LastValue(ps, k) else Get(d, k)
  {
    if ps == [] then d
    else
      var p := ps[..|ps| - 1];
      assert Keys(Dict(ps)) == Keys(Dict(p)) + [ps[|ps| - 1].0];
      assert Keys(Dict(ps))[..|ps| - 1] == Keys(Dict(p));
      Put(PutAll(d, p), ps[|ps| - 1].0, ps[|ps| - 1].1)
  }

  /** `dict.update`: every pair of `e`, in `e`'s order, is stored into `d`. */
  function Update<K(==,!new), V>(d: Dict<K, V>, e: Dict<K, V>): (r: Dict<K, V>)
    requires UniqueKeys(e)
    ensures Keys(r) == AppendNew(Keys(d), Keys(e))
    ensures forall k :: Get(r, k) == if k in Keys(e) then Get(e, k) else Get(d, k)
  {
    LastValueUnique(e);
    PutAll(d, e.items)
  }

  /** With distinct keys, the last pair for a key is the only one, which `Get` finds. */
  lemma {:induction false} LastValueUnique<K(!new), V>(e: Dict<K, V>)
    requires UniqueKeys(e)
    ensures forall k :: LastValue(e.items, k) == Get(e, k)
    decreases |e.items|
  {
    if e.items != [] {
      var p := Dict(e.items[..|e.items| - 1]);
      var x := e.items[|e.items| - 1];
      assert Keys(e) == Keys(p) + [x.0];
      assert e.items == p.items + [x];
      LastValueUnique(p);
      assert e == Put(p, x.0, x.1);
    }
  }

  /** The dictionary built from `ps` by storing its pairs in order. */
  function FromPairs<K(==,!new), V>(ps: seq<(K, V)>): (r: Dict<K, V>)
    ensures Keys(r) == Dedup(Keys(Dict(ps)))
    ensures UniqueKeys(r)
    ensures forall k :: Get(r, k) == LastValue(ps, k)
  {
    PutAll(Empty(), ps)
  }

  /** Sum of the values of a counting dictionary. */
  function SumValues<K>(d: Dict<K, nat>): nat
    decreases |d.items|
  {
    if d.items == [] then 0 else SumValues(Dict(d.items[..|d.items| - 1])) + d.items[|d.items| - 1].1
  }

  lemma {:induction false} SumValuesAt<K>(d: Dict<K, nat>, i: nat, x: (K, nat))
    requires i < |d.items|
    ensures SumValues(Dict(d.items[i := x])) + d.items[i].1 == SumValues(d) + x.1
    decreases |d.items|
  {
    var n := |d.items|;
    var e := Dict(d.items[i := x]);
    if i < n - 1 {
      SumValuesAt(Dict(d.items[..n - 1]), i, x);
      assert e.items[..n - 1] == d.items[..n - 1][i := x];
    } else {
      assert e.items[..n - 1] == d.items[..n - 1];
    }
  }

  /** Storing `v` under `k` moves the sum by `v` minus what `k` held before. */
  lemma PutSum<K(!new)>(d: Dict<K, nat>, k: K, v: nat)
    ensures SumValues(Put(d, k, v)) == SumValues(d) + v - (if Get(d, k).Some? then Get(d, k).value else 0)
  {
    if k in Keys(d) {
      SumValuesAt(d, FirstIndex(Keys(d), k), (k, v));
    } else {
      assert Put(d, k, v).items[..|d.items|] == d.items;
    }
  }

  /** `d[k] = d.get(k, 0) + c` in Python, `d[k] = (d[k] || 0) + c` in JavaScript: adds
      `c` to the count under `k`, which starts at 0 when absent, and so adds `c` to the
      sum. */
  function AddTo<K(==,!new)>(d: Dict<K, nat>, k: K, c: nat): (r: Dict<K, nat>)
    ensures Keys(r) == if k in Keys(d) then Keys(d) else Keys(d) + [k]
    ensures Get(r, k) == Some(ValueOr<K, nat>(d, k, 0) + c)
    ensures ValueOr<K, nat>(r, k, 0) == ValueOr<K, nat>(d, k, 0) + c
    ensures forall k' :: k' != k ==> Get(r, k') == Get(d, k')
    ensures SumValues(r) == SumValues(d) + c
  {
    PutSum(d, k, ValueOr<K, nat>(d, k, 0) + c);
    Put(d, k, ValueOr<K, nat>(d, k, 0) + c)
  }

  /** The counts of the other keys stay as they were. */
  lemma AddToCount<K(!new)>(d: Dict<K, nat>, k: K, c: nat, j: K)
    ensures ValueOr<K, nat>(AddTo(d, k, c), j, 0) == ValueOr<K, nat>(d, j, 0) + if j == k then c else 0
  {
  }

  /** A dictionary that counts the occurrences of each key in `ks` goes on doing so when
      one more key is counted. */
  lemma AddToTracks<K(!new)>(d: Dict<K, nat>, ks: seq<K>, x: K, k: K)
    requires ValueOr<K, nat>(d, k, 0) == Count(ks, k)
    ensures ValueOr<K, nat>(AddTo(d, x, 1), k, 0) == Count(ks + [x], k)
  {
    AddToCount(d, x, 1, k);
    CountSnoc(ks, x, k);
  }

  /** Applies `f` to every value, keeping keys and order (an in-place rewrite of
      each value while iterating over `d.values()`). */
  function MapValues<K(==,!new), V, W>(d: Dict<K, V>, f: V -> W): (r: Dict<K, W>)
    ensures Keys(r) == Keys(d)
    ensures forall k :: Get(r, k) == if k in Keys(d) then Some(f(Get(d, k).value)) else None
  {
    var r := Dict(seq(|d.items|, i requires 0 <= i < |d.items| => (d.items[i].0, f(d.items[i].1))));
    assert Keys(r) == Keys(d);
    r
  }
}
