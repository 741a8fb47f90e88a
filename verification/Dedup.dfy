/** The bounded first-in-first-out duplicate filter (internal/handler/state.go, Dedup). */
module Dedups {
  import opened Int64
  import opened LinkedMap
  import opened Recency

  // ----- what one call does to the list of remembered keys -----

  /** Is `key` remembered with a time no more than `w` before `now`? */
  predicate Remembered(s: seq<Slot>, key: string, now: int64, w: int64) {
    Lookup(s, key) != [] && Sub(now, Last(Lookup(s, key))) <= w
  }

  /** The list after the call, and whether the key was a duplicate. A duplicate changes nothing. */
  function DedupSeen(s: seq<Slot>, key: string, now: int64, w: int64, cap: nat): (seq<Slot>, bool)
    requires cap > 0
  {
    if Remembered(s, key, now, w) then (s, true) else (Touch(s, key, [now], cap), false)
  }

  lemma SeenCases(s: seq<Slot>, key: string, now: int64, w: int64)
    ensures if Has(s, key) && Lookup(s, key) != [] then
              Remembered(s, key, now, w) <==> Sub(now, Last(Lookup(s, key))) <= w
            else
              !Remembered(s, key, now, w)
  {
  }

  // ----- the class -----

  type Mark = Element<()>

  /** `s` lists the keys of `order` with the times held by `seen`. */
  ghost predicate Marks(order: seq<Mark>, seen: map<string, int64>, s: seq<Slot>) {
    && |s| == |order|
    && forall i :: 0 <= i < |order| ==> order[i].key in seen && s[i] == Slot(order[i].key, [seen[order[i].key]])
  }

  lemma MarksRemoveAt(order: seq<Mark>, elems: map<string, Mark>, seen: map<string, int64>, s: seq<Slot>, i: nat)
    requires Marks(order, seen, s) && Linked(order, elems) && i < |order|
    ensures Marks(RemoveAt(order, i), seen - {order[i].key}, RemoveAt(s, i))
  {
  }

  lemma MarksPush(order: seq<Mark>, elems: map<string, Mark>, seen: map<string, int64>, s: seq<Slot>,
                  e: Mark, at: int64)
    requires Marks(order, seen, s) && Linked(order, elems) && e.key !in elems
    ensures Marks([e] + order, seen[e.key := at], [Slot(e.key, [at])] + s)
  {
  }

  lemma MarksIndex(order: seq<Mark>, elems: map<string, Mark>, seen: map<string, int64>, s: seq<Slot>, i: nat)
    requires Marks(order, seen, s) && Linked(order, elems) && i < |order|
    ensures order[i].key in elems
    ensures IndexOf(s, order[i].key) == i && Lookup(s, order[i].key) == [seen[order[i].key]]
    ensures Without(s, order[i].key) == RemoveAt(s, i)
  {
  }

  lemma MarksHas(order: seq<Mark>, elems: map<string, Mark>, seen: map<string, int64>, s: seq<Slot>, key: string)
    requires Marks(order, seen, s) && Linked(order, elems)
    ensures Distinct(s) && (key in elems <==> Has(s, key))
    ensures key in elems ==> key in seen && Lookup(s, key) == [seen[key]]
  {
  }

  class Dedup {
    const windowUS: int64
    const maxKeys: nat
    var seen: map<string, int64>
    var order: seq<Mark>
    var elems: map<string, Mark>
    ghost var Contents: seq<Slot>

    /** The two maps and the list hold the same keys, once each, and no more than the cap. */
    ghost predicate Valid()
      reads this
    {
      && Linked(order, elems) && Marks(order, seen, Contents)
      && seen.Keys == elems.Keys
      && |seen| == |order| == |Contents| <= maxKeys && maxKeys > 0
    }

    constructor (windowUS: int64, maxKeys: int)
      ensures Valid() && Contents == []
      ensures this.windowUS == windowUS && this.maxKeys == if maxKeys <= 0 then 50000 else maxKeys
    {
      this.windowUS := windowUS;
      this.maxKeys := if maxKeys <= 0 then 50000 else maxKeys;
      seen := map[];
      order := [];
      elems := map[];
      Contents := [];
    }

    method Remove(key: string)
      requires Valid()
      modifies this
      ensures Valid() && seen == old(seen) - {key}
      ensures Contents == Without(old(Contents), key)
    {
      hide Linked, Marks;
      MarksHas(order, elems, seen, Contents, key);
      MapRemove(seen, key);
      MapRemove(elems, key);
      if key in elems {
        LinkedIn(order, elems, key);
        var i := PositionOf(order, elems[key]);
        MarksIndex(order, elems, seen, Contents, i);
        LinkedRemove(order, elems, i);
        MarksRemoveAt(order, elems, seen, Contents, i);
        order := RemoveAt(order, i);
        elems := elems - {key};
        Contents := RemoveAt(Contents, i);
      } else {
        assert seen - {key} == seen;
      }
      seen := seen - {key};
    }

    method EvictBack()
      requires Valid() && order != []
      modifies this
      ensures Valid() && |seen| == |old(seen)| - 1 && seen.Keys <= old(seen).Keys
      ensures Contents == old(Contents)[..|old(Contents)| - 1]
    {
      hide Linked, Marks, Without;
      var i := |order| - 1;
      MarksIndex(order, elems, seen, Contents, i);
      MapRemove(seen, order[i].key);
      Remove(order[i].key);
    }

    method EvictWhileFull()
      requires Valid()
      modifies this
      ensures Valid() && |seen| < maxKeys
      ensures seen.Keys <= old(seen).Keys
      ensures Contents == if |old(Contents)| >= maxKeys then old(Contents)[..maxKeys - 1] else old(Contents)
    {
      hide Linked, Marks, Without;
      while |seen| >= maxKeys
        invariant Valid() && seen.Keys <= old(seen).Keys
        invariant |old(Contents)| < maxKeys ==> Contents == old(Contents)
        invariant |old(Contents)| >= maxKeys ==>
                    Contents == old(Contents) || Contents == old(Contents)[..maxKeys - 1]
        decreases |seen|
      {
        if |order| == 0 {
          break;
        }
        EvictBack();
      }
    }

    /** Record `key` and report whether it had already been recorded inside the window. */
    method Seen(key: string, nowUS: int64) returns (dup: bool)
      requires Valid()
      modifies this
      ensures Valid()
      ensures (Contents, dup) == DedupSeen(old(Contents), key, nowUS, windowUS, maxKeys)
    {
      hide Linked, Marks, Touch, Keep, Without, Distinct, Has, Lookup, Remembered;
      SeenCases(Contents, key, nowUS, windowUS);
      MarksHas(order, elems, seen, Contents, key);
      if key in seen {
        var at := seen[key];
        if Sub(nowUS, at) <= windowUS {
          return true;
        }
        KeepWithout(Contents, key, maxKeys);
        MapRemove(seen, key);
        Remove(key);
        EvictWhileFull();
      } else {
        KeepRoom(Contents, key, maxKeys);
        EvictWhileFull();
      }
      TouchIs(old(Contents), key, [nowUS], maxKeys);
      Push(key, nowUS);
      return false;
    }

    method Push(key: string, nowUS: int64)
      requires Valid() && key !in seen && |seen| < maxKeys
      modifies this
      ensures Valid() && Contents == [Slot(key, [nowUS])] + old(Contents)
    {
      hide Linked, Marks;
      var e := new Element(key, ());
      MarksPush(order, elems, seen, Contents, e, nowUS);
      LinkedPush(order, elems, e);
      seen := seen[key := nowUS];
      order := [e] + order;
      elems := elems[key := e];
      Contents := [Slot(key, [nowUS])] + Contents;
    }
  }
}
