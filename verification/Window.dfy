/** The sliding-window counter with an LRU cap (internal/handler/state.go, Window). */
module Windows {
  import opened Int64
  import opened LinkedMap
  import opened Recency

  // ----- what one operation does to the recency list -----

  /** Drop stamps from the front while they are before `cutoff`. */
  function Trim(ts: seq<int>, cutoff: int): seq<int> {
    if ts != [] && ts[0] < cutoff then Trim(ts[1..], cutoff) else ts
  }

  function WindowAdd(s: seq<Slot>, key: string, now: int64, w: int64, cap: nat): (seq<Slot>, nat)
    requires cap > 0
  {
    var ts := Trim(Lookup(s, key) + [now], Sub(now, w));
    (Touch(s, key, ts, cap), |ts|)
  }

  predicate Stale(x: Slot, cutoff: int) {
    x.times == [] || Last(x.times) < cutoff
  }

  /** `s` without the slots of the keys in `dead`. */
  function Purge(s: seq<Slot>, dead: set<string>): seq<Slot> {
    if s == [] then []
    else (if s[0].key in dead then [] else [s[0]]) + Purge(s[1..], dead)
  }

  /** The slots that a complete sweep leaves. */
  function Alive(s: seq<Slot>, cutoff: int): seq<Slot> {
    if s == [] then []
    else (if Stale(s[0], cutoff) then [] else [s[0]]) + Alive(s[1..], cutoff)
  }

  function WindowSweep(s: seq<Slot>, now: int64, w: int64): seq<Slot> {
    Alive(s, Sub(now, w))
  }

  lemma {:induction false} PurgeStale(s: seq<Slot>, dead: set<string>, cutoff: int)
    requires forall i :: 0 <= i < |s| ==> (s[i].key in dead <==> Stale(s[i], cutoff))
    ensures Purge(s, dead) == Alive(s, cutoff)
  {
    if s != [] {
      PurgeStale(s[1..], dead, cutoff);
    }
  }

  lemma {:induction false} PurgeNone(s: seq<Slot>, dead: set<string>)
    requires forall x :: x in s ==> x.key !in dead
    ensures Purge(s, dead) == s
  {
    if s != [] {
      assert s[0] in s;
      PurgeNone(s[1..], dead);
    }
  }

  lemma {:induction false} PurgeTwice(s: seq<Slot>, a: set<string>, b: set<string>)
    ensures Purge(Purge(s, a), b) == Purge(s, a + b)
  {
    if s != [] {
      PurgeTwice(s[1..], a, b);
      var rest := Purge(s[1..], a);
      if s[0].key in a {
        assert Purge(s, a) == rest;
      } else {
        assert Purge(s, a) == [s[0]] + rest;
        assert ([s[0]] + rest)[1..] == rest;
      }
    }
  }

  lemma {:induction false} PurgePrefix(s: seq<Slot>, i: nat)
    requires Distinct(s) && i < |s|
    ensures Purge(s, {s[i].key}) == s[..i] + s[i + 1..]
  {
    if i == 0 {
      PurgeNone(s[1..], {s[0].key});
    } else {
      PurgePrefix(s[1..], i - 1);
      assert s[..i] == [s[0]] + s[1..][..i - 1];
    }
  }

  lemma PurgeOne(s: seq<Slot>, key: string)
    requires Distinct(s)
    ensures Purge(s, {key}) == Without(s, key)
  {
    var i := IndexOf(s, key);
    if i < |s| {
      PurgePrefix(s, i);
    } else {
      PurgeNone(s, {key});
    }
  }

  lemma {:induction false} PurgeMembers(s: seq<Slot>, dead: set<string>)
    ensures forall x :: x in Purge(s, dead) ==> x in s
  {
    if s != [] {
      PurgeMembers(s[1..], dead);
    }
  }

  /** A slot that is still there while a sweep goes on is the one the sweep began with. */
  lemma PurgeLookup(s: seq<Slot>, dead: set<string>, key: string)
    requires Distinct(s) && Has(Purge(s, dead), key)
    ensures forall i :: 0 <= i < |s| && s[i].key == key ==> s[i].times == Lookup(Purge(s, dead), key)
  {
    var x := Purge(s, dead)[IndexOf(Purge(s, dead), key)];
    PurgeMembers(s, dead);
    assert x in Purge(s, dead);
    var j :| 0 <= j < |s| && s[j] == x;
    assert forall i :: 0 <= i < |s| && s[i].key == key ==> i == j;
  }

  /** How far a sweep is: outside `todo`, exactly the stale keys are in `dead`. */
  ghost predicate Visited(s: seq<Slot>, todo: set<string>, dead: set<string>, cutoff: int) {
    && Distinct(s) && todo !! dead
    && forall i :: 0 <= i < |s| && s[i].key !in todo ==> (s[i].key in dead <==> Stale(s[i], cutoff))
  }

  lemma VisitStart(s: seq<Slot>, todo: set<string>, cutoff: int)
    requires Distinct(s) && forall i :: 0 <= i < |s| ==> s[i].key in todo
    ensures Visited(s, todo, {}, cutoff)
  {
  }

  lemma VisitEnd(s: seq<Slot>, dead: set<string>, cutoff: int)
    requires Visited(s, {}, dead, cutoff)
    ensures Purge(s, dead) == Alive(s, cutoff)
  {
    PurgeStale(s, dead, cutoff);
  }

  lemma VisitNext(s: seq<Slot>, todo: set<string>, dead: set<string>, key: string, cutoff: int)
    requires Visited(s, todo + {key}, dead, cutoff) && Has(Purge(s, dead), key) && key !in todo
    ensures var ts := Lookup(Purge(s, dead), key);
            Visited(s, todo, if ts == [] || Last(ts) < cutoff then dead + {key} else dead, cutoff)
  {
    PurgeLookup(s, dead, key);
  }

  // ----- the class -----

  type Entry = Element<seq<int64>>

  /** `s` is the list of keys and stamps held by the entries of `l`. */
  ghost predicate Views(l: seq<Entry>, s: seq<Slot>)
    reads l
  {
    |s| == |l| && forall i :: 0 <= i < |l| ==> s[i].key == l[i].key && s[i].times == l[i].data
  }

  lemma ViewsRemoveAt(l: seq<Entry>, s: seq<Slot>, i: nat)
    requires Views(l, s) && i < |l|
    ensures Views(RemoveAt(l, i), RemoveAt(s, i))
  {
  }

  lemma ViewsPush(l: seq<Entry>, s: seq<Slot>, e: Entry)
    requires Views(l, s)
    ensures Views([e] + l, [Slot(e.key, e.data)] + s)
  {
  }

  lemma ViewsIndex(l: seq<Entry>, m: map<string, Entry>, s: seq<Slot>, i: nat)
    requires Linked(l, m) && Views(l, s) && i < |l|
    ensures s[i] == Slot(l[i].key, l[i].data)
    ensures IndexOf(s, l[i].key) == i && Lookup(s, l[i].key) == l[i].data
    ensures Without(s, l[i].key) == RemoveAt(s, i)
  {
  }

  lemma ViewsHas(l: seq<Entry>, m: map<string, Entry>, s: seq<Slot>, key: string)
    requires Linked(l, m) && Views(l, s)
    ensures key in m <==> Has(s, key)
    ensures Distinct(s)
  {
  }

  lemma LinkedEntry(l: seq<Entry>, m: map<string, Entry>, i: nat)
    requires Linked(l, m) && i < |l|
    ensures l[i].key in m
  {
  }

  lemma ViewsKeys(l: seq<Entry>, m: map<string, Entry>, s: seq<Slot>)
    requires Linked(l, m) && Views(l, s)
    ensures Distinct(s) && forall i :: 0 <= i < |s| ==> s[i].key in m
  {
  }

  class Window {
    const windowUS: int64
    const maxKeys: nat
    var entries: map<string, Entry>
    var lru: seq<Entry>
    ghost var Contents: seq<Slot>

    /** Map and list hold the same entries, one per key, and no more than the cap. */
    ghost predicate Valid()
      reads this, lru
    {
      && Linked(lru, entries) && Views(lru, Contents)
      && |entries| == |lru| == |Contents| <= maxKeys && maxKeys > 0
    }

    constructor (windowUS: int64, maxKeys: int)
      ensures Valid() && Contents == [] && lru == []
      ensures this.windowUS == windowUS && this.maxKeys == if maxKeys <= 0 then 10000 else maxKeys
    {
      this.windowUS := windowUS;
      this.maxKeys := if maxKeys <= 0 then 10000 else maxKeys;
      entries := map[];
      lru := [];
      Contents := [];
    }

    method EvictIfFull()
      requires Valid()
      modifies this
      ensures Valid() && |entries| < maxKeys
      ensures Contents == if |old(Contents)| >= maxKeys then old(Contents)[..maxKeys - 1] else old(Contents)
      ensures forall e :: e in lru ==> e in old(lru)
      ensures entries.Keys <= old(entries).Keys
    {
      hide Linked, Views;
      while |entries| >= maxKeys
        invariant Valid() && entries.Keys <= old(entries).Keys
        invariant forall e :: e in lru ==> e in old(lru)
        invariant |old(Contents)| < maxKeys ==> Contents == old(Contents)
        invariant |old(Contents)| >= maxKeys ==>
                    Contents == old(Contents) || Contents == old(Contents)[..maxKeys - 1]
        decreases |entries|
      {
        if |lru| == 0 {
          return;
        }
        var i := |lru| - 1;
        var back := lru[i];
        LinkedRemove(lru, entries, i);
        LinkedEntry(lru, entries, i);
        ViewsRemoveAt(lru, Contents, i);
        lru := RemoveAt(lru, i);
        entries := entries - {back.key};
        Contents := RemoveAt(Contents, i);
      }
    }

    /** Create the entry of an unknown key at the front, making room for it first. */
    method Insert(key: string)
      requires Valid() && key !in entries
      modifies this
      ensures Valid() && forall x :: x in lru ==> x in old(lru) || fresh(x)
      ensures Contents == Touch(old(Contents), key, [], maxKeys)
    {
      hide Linked, Views;
      ViewsHas(lru, entries, Contents, key);
      EvictIfFull();
      var e := new Element(key, []);
      LinkedPush(lru, entries, e);
      ViewsPush(lru, Contents, e);
      lru := [e] + lru;
      entries := entries[key := e];
      Contents := [Slot(key, [])] + Contents;
    }

    /** `container/list`'s MoveToFront of the entry of a known key. */
    method MoveToFront(key: string)
      requires Valid() && key in entries
      modifies this
      ensures Valid() && forall x :: x in lru ==> x in old(lru)
      ensures Contents == Touch(old(Contents), key, Lookup(old(Contents), key), maxKeys)
    {
      hide Linked, Views;
      ViewsHas(lru, entries, Contents, key);
      LinkedIn(lru, entries, key);
      var e := entries[key];
      var i := PositionOf(lru, e);
      ViewsIndex(lru, entries, Contents, i);
      LinkedMoveToFront(lru, entries, i);
      ViewsRemoveAt(lru, Contents, i);
      ViewsPush(RemoveAt(lru, i), RemoveAt(Contents, i), e);
      lru := [e] + RemoveAt(lru, i);
      Contents := [Slot(key, e.data)] + RemoveAt(Contents, i);
    }

    /** Append a stamp to the front entry and trim what fell out of the window. */
    method Record(nowUS: int64) returns (count: nat)
      requires Valid() && lru != []
      modifies this`Contents, lru[0]
      ensures Valid() && count == |Contents[0].times|
      ensures Contents == old(Contents)[0 := Slot(old(Contents)[0].key,
                                                  Trim(old(Contents)[0].times + [nowUS], Sub(nowUS, windowUS)))]
    {
      var e := lru[0];
      assert forall i :: 1 <= i < |lru| ==> lru[i].key != e.key;
      e.data := e.data + [nowUS];
      var cutoff := Sub(nowUS, windowUS);
      var i := 0;
      while i < |e.data| && e.data[i] < cutoff
        invariant i <= |e.data|
        invariant Trim(e.data, cutoff) == Trim(e.data[i..], cutoff)
      {
        assert e.data[i..][1..] == e.data[i + 1..];
        i := i + 1;
      }
      if i > 0 {
        e.data := e.data[i..];
      }
      count := |e.data|;
      Contents := Contents[0 := Slot(e.key, e.data)];
    }

    /** Record one occurrence of `key` and return how many are within the window. */
    method Add(key: string, nowUS: int64) returns (count: nat)
      requires Valid()
      modifies this, lru
      ensures Valid() && forall e :: e in lru ==> e in old(lru) || fresh(e)
      ensures (Contents, count) == WindowAdd(old(Contents), key, nowUS, windowUS, maxKeys)
    {
      hide Linked, Views, Trim, Keep;
      ViewsHas(lru, entries, Contents, key);
      if key !in entries {
        Insert(key);
      } else {
        MoveToFront(key);
      }
      assert lru != [] && lru[0] in lru;
      count := Record(nowUS);
      ghost var ts := Trim(Lookup(old(Contents), key) + [nowUS], Sub(nowUS, windowUS));
      assert Contents == Touch(old(Contents), key, ts, maxKeys);
    }

    method Remove(key: string)
      requires Valid() && key in entries
      modifies this
      ensures Valid() && forall e :: e in lru ==> e in old(lru)
      ensures Contents == Without(old(Contents), key)
      ensures entries == old(entries) - {key}
    {
      hide Linked, Views;
      LinkedIn(lru, entries, key);
      var i := PositionOf(lru, entries[key]);
      ViewsIndex(lru, entries, Contents, i);
      LinkedRemove(lru, entries, i);
      ViewsRemoveAt(lru, Contents, i);
      lru := RemoveAt(lru, i);
      entries := entries - {key};
      Contents := RemoveAt(Contents, i);
    }

    /** Drop the keys with no occurrence left inside the window, in any order of the map. */
    method Sweep(nowUS: int64)
      requires Valid()
      modifies this
      ensures Valid() && forall e :: e in lru ==> e in old(lru)
      ensures Contents == WindowSweep(old(Contents), nowUS, windowUS)
    {
      hide Linked, Views, Visited, Purge, Lookup, Has, Without, Alive;
      var cutoff := Sub(nowUS, windowUS);
      ghost var s := Contents;
      ghost var dead: set<string> := {};
      var todo := entries.Keys;
      PurgeNone(s, dead);
      ViewsKeys(lru, entries, s);
      VisitStart(s, todo, cutoff);
      while todo != {}
        invariant Valid() && todo <= entries.Keys
        invariant forall e :: e in lru ==> e in old(lru)
        invariant Contents == Purge(s, dead)
        invariant Visited(s, todo, dead, cutoff)
        decreases todo
      {
        var key :| key in todo;
        assert todo == (todo - {key}) + {key};
        todo := todo - {key};
        var e := entries[key];
        LinkedIn(lru, entries, key);
        ViewsIndex(lru, entries, Contents, PositionOf(lru, e));
        VisitNext(s, todo, dead, key, cutoff);
        if |e.data| == 0 || e.data[|e.data| - 1] < cutoff {
          ViewsHas(lru, entries, Contents, key);
          PurgeOne(Contents, key);
          PurgeTwice(s, dead, {key});
          Remove(key);
          dead := dead + {key};
        }
      }
      VisitEnd(s, dead, cutoff);
    }
  }
}
