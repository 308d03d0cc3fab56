/** Python's item assignment `d[k] = v` and `d.update(other)` on a dict kept
    as its entries in insertion order. */
module Dicts {
  import opened Wrappers
  import opened MetadataCleaning

  /** `d.get(k)`. */
  function Lookup(es: seq<Entry>, k: Key): (r: Option<Value>)
    ensures r.None? <==> k !in Keys(es)
    ensures r.Some? ==> exists i :: 0 <= i < |es| && es[i] == Entry(k, r.value)
  {
    if es == [] then None
    else if es[0].key == k then
      assert Keys(es)[0] == k;
      Some(es[0].val)
    else
      var r := Lookup(es[1..], k);
      assert Keys(es) == [es[0].key] + Keys(es[1..]);
      assert r.Some? ==> exists i :: 0 <= i < |es[1..]| && es[1..][i] == Entry(k, r.value);
      r
  }

  /** `d[k] = v`: an existing key keeps its place and takes the new value, a
      new key goes to the end. */
  function DictSet(es: seq<Entry>, k: Key, v: Value): (r: seq<Entry>)
    ensures Lookup(r, k) == Some(v)
    ensures forall k' :: k' != k ==> Lookup(r, k') == Lookup(es, k')
    ensures k in Keys(es) ==> Keys(r) == Keys(es)
    ensures k !in Keys(es) ==> r == es + [Entry(k, v)]
  {
    if es == [] then [Entry(k, v)]
    else if es[0].key == k then
      assert Keys([Entry(k, v)] + es[1..]) == [k] + Keys(es[1..]);
      assert Keys(es) == [k] + Keys(es[1..]);
      [Entry(k, v)] + es[1..]
    else
      var rest := DictSet(es[1..], k, v);
      assert Keys(es) == [es[0].key] + Keys(es[1..]);
      assert Keys([es[0]] + rest) == [es[0].key] + Keys(rest);
      assert es == [es[0]] + es[1..];
      [es[0]] + rest
  }

  /** `d.update(other)`: the entries of `other` are assigned one by one, in
      order. */
  function DictUpdate(es: seq<Entry>, other: seq<Entry>): (r: seq<Entry>)
    ensures forall k :: k !in Keys(other) ==> Lookup(r, k) == Lookup(es, k)
    ensures forall k :: k in Keys(other) ==> Lookup(r, k).Some?
    ensures other != [] ==> Lookup(r, other[|other| - 1].key) == Some(other[|other| - 1].val)
    ensures UniqueKeys(other) ==> forall i :: 0 <= i < |other| ==> Lookup(r, other[i].key) == Some(other[i].val)
    decreases other
  {
    if other == [] then es
    else
      assert Keys(other) == [other[0].key] + Keys(other[1..]);
      DictUpdate(DictSet(es, other[0].key, other[0].val), other[1..])
  }

  /** Updating with a dict none of whose keys are present appends its
      entries in order. */
  lemma {:induction false} UpdateWithNewKeys(es: seq<Entry>, other: seq<Entry>)
    requires UniqueKeys(es + other)
    ensures DictUpdate(es, other) == es + other
    decreases other
  {
    if other != [] {
      var es' := es + [other[0]];
      assert es' + other[1..] == es + other;
      assert other[0].key !in Keys(es) by {
        forall j | 0 <= j < |es| ensures Keys(es)[j] != other[0].key {
          assert (es + other)[j] == es[j] && (es + other)[|es|] == other[0];
        }
      }
      UpdateStep(es, other);
      UpdateWithNewKeys(es', other[1..]);
    }
  }

  /** The first assignment of an update with a new key appends it. */
  lemma UpdateStep(es: seq<Entry>, other: seq<Entry>)
    requires other != [] && other[0].key !in Keys(es)
    ensures DictUpdate(es, other) == DictUpdate(es + [other[0]], other[1..])
  {
    assert DictSet(es, other[0].key, other[0].val) == es + [other[0]];
  }
}
