/**
 A map from keys to elements of a doubly linked list, as Go programs pair
 `map[string]*list.Element` with a `*list.List`. The list is a sequence of element
 objects; the map holds references to the same objects.
 */
module LinkedMap {
  class Element<D> {
    const key: string
    var data: D

    constructor (key: string, data: D)
      ensures this.key == key && this.data == data
    {
      this.key := key;
      this.data := data;
    }
  }

  ghost function KeySet<D>(l: seq<Element<D>>): set<string> {
    set e | e in l :: e.key
  }

  /** Map and list hold exactly the same elements, one per key. */
  ghost predicate Linked<D>(l: seq<Element<D>>, m: map<string, Element<D>>) {
    && |m| == |l|
    && m.Keys == KeySet(l)
    && (forall i :: 0 <= i < |l| ==> l[i].key in m && m[l[i].key] == l[i])
    && (forall i, j :: 0 <= i < j < |l| ==> l[i].key != l[j].key)
  }

  /** Position of an element in the list, found by identity. */
  function PositionOf<D>(l: seq<Element<D>>, e: Element<D>): (i: nat)
    requires e in l
    ensures i < |l| && l[i] == e
  {
    if l[0] == e then 0 else 1 + PositionOf(l[1..], e)
  }

  function RemoveAt<T>(l: seq<T>, i: nat): seq<T>
    requires i < |l|
  {
    l[..i] + l[i + 1..]
  }

  lemma MapRemove<V>(m: map<string, V>, key: string)
    ensures (m - {key}).Keys == m.Keys - {key}
    ensures |m - {key}| == if key in m then |m| - 1 else |m|
  {
  }

  lemma LinkedIn<D>(l: seq<Element<D>>, m: map<string, Element<D>>, key: string)
    requires Linked(l, m) && key in m
    ensures m[key] in l && m[key].key == key
  {
  }

  lemma RemoveAtKeys<D>(l: seq<Element<D>>, i: nat)
    requires i < |l|
    requires forall a, b :: 0 <= a < b < |l| ==> l[a].key != l[b].key
    ensures KeySet(RemoveAt(l, i)) == KeySet(l) - {l[i].key}
  {
  }

  lemma LinkedRemove<D>(l: seq<Element<D>>, m: map<string, Element<D>>, i: nat)
    requires Linked(l, m) && i < |l|
    ensures Linked(RemoveAt(l, i), m - {l[i].key})
  {
    hide KeySet;
    var r := RemoveAt(l, i);
    RemoveAtKeys(l, i);
    MapRemove(m, l[i].key);
    forall k | 0 <= k < |r| ensures r[k] == l[if k < i then k else k + 1] && r[k].key != l[i].key {
    }
  }

  lemma LinkedPush<D>(l: seq<Element<D>>, m: map<string, Element<D>>, e: Element<D>)
    requires Linked(l, m) && e.key !in m
    ensures Linked([e] + l, m[e.key := e])
  {
  }

  lemma LinkedMoveToFront<D>(l: seq<Element<D>>, m: map<string, Element<D>>, i: nat)
    requires Linked(l, m) && i < |l|
    ensures Linked([l[i]] + RemoveAt(l, i), m)
  {
    LinkedRemove(l, m, i);
    var m' := m - {l[i].key};
    LinkedPush(RemoveAt(l, i), m', l[i]);
    assert m'[l[i].key := l[i]] == m;
  }
}
