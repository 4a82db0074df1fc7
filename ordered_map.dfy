/**
 * An insertion-ordered dictionary with string keys, as Python's `dict` and
 * JavaScript's `Map` behave: assigning to a new key appends it, assigning to an
 * existing key replaces the value and keeps the key's position, and iterating
 * the values follows key order.
 */
module OrderedMaps {
  import opened Options

  datatype OrderedMap<V> = OrderedMap(items: seq<(string, V)>) {

    /** No key occurs twice. */
    predicate DistinctKeys()
    {
      forall i, j :: 0 <= i < j < |items| ==> items[i].0 != items[j].0
    }

    /** The position of key `k`, if it is present. */
    function Find(k: string): (r: Option<nat>)
      ensures r.Some? ==> r.value < |items| && items[r.value].0 == k
      ensures r.Some? ==> forall j :: 0 <= j < r.value ==> items[j].0 != k
      ensures r.None? ==> forall j :: 0 <= j < |items| ==> items[j].0 != k
    {
      FindFrom(k, 0)
    }

    function FindFrom(k: string, from: nat): (r: Option<nat>)
      requires from <= |items|
      ensures r.Some? ==> from <= r.value < |items| && items[r.value].0 == k
      ensures r.Some? ==> forall j :: from <= j < r.value ==> items[j].0 != k
      ensures r.None? ==> forall j :: from <= j < |items| ==> items[j].0 != k
      decreases |items| - from
    {
      if from == |items| then None
      else if items[from].0 == k then Some(from)
      else FindFrom(k, from + 1)
    }

    /** `d.get(k)`. */
    function Get(k: string): (r: Option<V>)
      ensures r.None? <==> forall j :: 0 <= j < |items| ==> items[j].0 != k
      ensures r.Some? ==> exists j :: 0 <= j < |items| && items[j] == (k, r.value)
    {
      match Find(k)
      case None => None
      case Some(i) => Some(items[i].1)
    }

    /** `d[k] = v`: a present key keeps its position and gets the new value,
        a new key goes at the end; every other key keeps its value. */
    function Set(k: string, v: V): (r: OrderedMap<V>)
      ensures r.Get(k) == Some(v)
      ensures forall k' :: k' != k ==> r.Get(k') == Get(k')
      ensures r.Keys() == if Find(k).Some? then Keys() else Keys() + [k]
      ensures DistinctKeys() ==> r.DistinctKeys()
      ensures forall i :: 0 <= i < |r.items| ==> r.items[i] == (k, v) || r.items[i] in items
    {
      match Find(k)
      case Some(i) =>
        var r := OrderedMap(items[i := (k, v)]);
        SetKeepsOtherKeys(k, v, r);
        ReplaceShape(k, v, i);
        r
      case None =>
        var r := OrderedMap(items + [(k, v)]);
        SetKeepsOtherKeys(k, v, r);
        AppendShape(k, v);
        r
    }

    /** Proof helper for `Set` on a present key: the keys and their order stay. */
    lemma ReplaceShape(k: string, v: V, i: nat)
      requires i < |items| && items[i].0 == k
      ensures var r := OrderedMap(items[i := (k, v)]);
              && r.Keys() == Keys()
              && (DistinctKeys() ==> r.DistinctKeys())
              && forall j :: 0 <= j < |r.items| ==> r.items[j] == (k, v) || r.items[j] in items
    {
      var r := OrderedMap(items[i := (k, v)]);
      assert forall j :: 0 <= j < |items| ==> r.items[j].0 == items[j].0;
      assert r.Keys() == Keys();
    }

    /** Proof helper for `Set` on an absent key: the key joins at the end. */
    lemma AppendShape(k: string, v: V)
      requires forall j :: 0 <= j < |items| ==> items[j].0 != k
      ensures var r := OrderedMap(items + [(k, v)]);
              && r.Keys() == Keys() + [k]
              && (DistinctKeys() ==> r.DistinctKeys())
              && forall j :: 0 <= j < |r.items| ==> r.items[j] == (k, v) || r.items[j] in items
    {
      var r := OrderedMap(items + [(k, v)]);
      assert r.Keys() == Keys() + [k];
    }

    /** Proof helper for `Set`: in the updated item list, `k` is found where it was
        written and every other key where it was before. */
    lemma SetKeepsOtherKeys(k: string, v: V, r: OrderedMap<V>)
      requires r.items == match Find(k)
                          case Some(i) => items[i := (k, v)]
                          case None => items + [(k, v)]
      ensures r.Find(k) == Some(if Find(k).Some? then Find(k).value else |items|)
      ensures forall k' :: k' != k ==> r.Find(k') == Find(k')
    {
      r.FindIs(k, if Find(k).Some? then Find(k).value else |items|);
      forall k' | k' != k ensures r.Find(k') == Find(k') {
        match Find(k')
        case None => r.FindNone(k');
        case Some(i') => r.FindIs(k', i');
      }
    }

    /** Assigning a key twice leaves what assigning the second value once leaves. */
    lemma SetTwice(k: string, v: V, w: V)
      ensures Set(k, v).Set(k, w) == Set(k, w)
    {
      var once := Set(k, v);
      match Find(k)
      case Some(i) =>
        once.FindIs(k, i);
        assert once.items[i := (k, w)] == items[i := (k, w)];
      case None =>
        once.FindIs(k, |items|);
        assert once.items[|items| := (k, w)] == items + [(k, w)];
    }

    /** The first position holding `k` is what `Find` returns. */
    lemma FindIs(k: string, i: nat)
      requires i < |items| && items[i].0 == k
      requires forall j :: 0 <= j < i ==> items[j].0 != k
      ensures Find(k) == Some(i)
    {
    }

    /** The value at the first position holding `k` is what `Get` returns. */
    lemma GetAt(k: string, i: nat)
      requires i < |items| && items[i].0 == k
      requires forall j :: 0 <= j < i ==> items[j].0 != k
      ensures Get(k) == Some(items[i].1)
    {
      FindIs(k, i);
    }

    lemma FindNone(k: string)
      requires forall j :: 0 <= j < |items| ==> items[j].0 != k
      ensures Find(k) == None
    {
    }

    /** The keys in insertion order. */
    function Keys(): (r: seq<string>)
      ensures |r| == |items| && forall i :: 0 <= i < |items| ==> r[i] == items[i].0
    {
      seq(|items|, i requires 0 <= i < |items| => items[i].0)
    }

    /** `d.values()` in insertion order. */
    function Values(): (r: seq<V>)
      ensures |r| == |items| && forall i :: 0 <= i < |items| ==> r[i] == items[i].1
    {
      seq(|items|, i requires 0 <= i < |items| => items[i].1)
    }
  }

  /** `{}` / `new Map()`. */
  function Empty<V>(): (d: OrderedMap<V>)
    ensures d.DistinctKeys() && d.Keys() == []
    ensures forall k :: d.Get(k) == None
  {
    OrderedMap([])
  }
}
