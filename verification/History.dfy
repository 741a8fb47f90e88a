/**
 Complete histories of hits, never trimmed and never evicted, and what the bounded lists
 are compared with: the times of a key since a cutoff, the keys seen since a cutoff.
 */
module History {
  import opened Recency
  import opened Windows

  /** One recorded occurrence of a key at an event time. */
  datatype Hit = Hit(key: string, time: int)

  /** Event times never go back and have reached `t`. */
  ghost predicate InOrder(h: seq<Hit>, t: int) {
    && (forall i :: 0 <= i < |h| ==> h[i].time <= t)
    && (forall i, j :: 0 <= i < j < |h| ==> h[i].time <= h[j].time)
  }

  /** All times of `key` at `cutoff` or later, in order of arrival. */
  function TimesSince(h: seq<Hit>, key: string, cutoff: int): seq<int> {
    if h == [] then []
    else
      var x := h[|h| - 1];
      TimesSince(h[..|h| - 1], key, cutoff) + if x.key == key && x.time >= cutoff then [x.time] else []
  }

  ghost function KeysSince(h: seq<Hit>, cutoff: int): set<string> {
    set x | x in h && x.time >= cutoff :: x.key
  }

  // ----- unbounded maps built from a history -----

  function Get(m: map<string, seq<int>>, key: string): seq<int> {
    if key in m then m[key] else []
  }

  /** Per key, the stamps that are within `w` of the key's last hit. */
  function StampMap(h: seq<Hit>, w: int): map<string, seq<int>> {
    if h == [] then map[]
    else
      var x, m := h[|h| - 1], StampMap(h[..|h| - 1], w);
      m[x.key := Trim(Get(m, x.key) + [x.time], x.time - w)]
  }

  /** Per key, the time of its last hit. */
  function MarkMap(h: seq<Hit>): map<string, seq<int>> {
    if h == [] then map[]
    else
      var x, m := h[|h| - 1], MarkMap(h[..|h| - 1]);
      m[x.key := [x.time]]
  }

  lemma Snoc(h: seq<Hit>, x: Hit, w: int, key: string, cutoff: int)
    ensures StampMap(h + [x], w) == StampMap(h, w)[x.key := Trim(Get(StampMap(h, w), x.key) + [x.time], x.time - w)]
    ensures MarkMap(h + [x]) == MarkMap(h)[x.key := [x.time]]
    ensures TimesSince(h + [x], key, cutoff)
         == TimesSince(h, key, cutoff) + if x.key == key && x.time >= cutoff then [x.time] else []
  {
  }

  lemma InOrderSnoc(h: seq<Hit>, t: int, x: Hit)
    requires InOrder(h, t) && t <= x.time
    ensures InOrder(h + [x], x.time)
  {
  }

  // ----- trimming -----

  lemma {:induction false} TrimSnoc(ts: seq<int>, x: int, cutoff: int)
    ensures Trim(ts + [x], cutoff) == if x < cutoff && Trim(ts, cutoff) == [] then [] else Trim(ts, cutoff) + [x]
  {
    if ts == [] {
      assert Trim([x], cutoff) == if x < cutoff then [] else [x];
    } else {
      TrimSnoc(ts[1..], x, cutoff);
      assert (ts + [x])[1..] == ts[1..] + [x];
    }
  }

  lemma {:induction false} TrimTwice(ts: seq<int>, x: int, c: int, c': int)
    requires c <= c'
    ensures Trim(Trim(ts, c) + [x], c') == Trim(ts + [x], c')
    ensures Trim(Trim(ts, c), c') == Trim(ts, c')
  {
    if ts != [] && ts[0] < c {
      TrimTwice(ts[1..], x, c, c');
      assert (ts + [x])[1..] == ts[1..] + [x];
    }
  }

  ghost predicate Ascending(ts: seq<int>) {
    forall i, j :: 0 <= i < j < |ts| ==> ts[i] <= ts[j]
  }

  lemma {:induction false} TrimStale(ts: seq<int>, cutoff: int)
    requires forall i :: 0 <= i < |ts| ==> ts[i] < cutoff
    ensures Trim(ts, cutoff) == []
  {
    if ts != [] {
      TrimStale(ts[1..], cutoff);
    }
  }

  lemma TrimPushed(ts: seq<int>, now: int, cutoff: int)
    requires cutoff <= now
    ensures Trim(ts + [now], cutoff) == Trim(ts, cutoff) + [now]
  {
    TrimSnoc(ts, now, cutoff);
  }

  // ----- what the maps mean -----

  ghost predicate MapFacts(h: seq<Hit>, m: map<string, seq<int>>) {
    && (forall k :: k in m ==> m[k] != [] && exists x :: x in h && x.key == k && x.time == Last(m[k]))
    && (forall x :: x in h ==> x.key in m && x.time <= Last(m[x.key]))
  }

  lemma NoFacts()
    ensures MapFacts([], map[])
  {
  }

  lemma {:induction false} StampMapFacts(h: seq<Hit>, t: int, w: int)
    requires InOrder(h, t) && 0 <= w
    ensures MapFacts(h, StampMap(h, w))
  {
    hide MapFacts;
    if h == [] {
      NoFacts();
    } else {
      var x, l := h[|h| - 1], h[..|h| - 1];
      StampMapFacts(l, t, w);
      var ts := Trim(Get(StampMap(l, w), x.key) + [x.time], x.time - w);
      TrimPushed(Get(StampMap(l, w), x.key), x.time, x.time - w);
      assert h == l + [x];
      MapFactsSnoc(l, x, StampMap(l, w), ts, t);
      assert StampMap(h, w) == StampMap(l, w)[x.key := ts];
    }
  }

  lemma {:induction false} MarkMapFacts(h: seq<Hit>, t: int)
    requires InOrder(h, t)
    ensures MapFacts(h, MarkMap(h))
  {
    if h != [] {
      var x, l := h[|h| - 1], h[..|h| - 1];
      MarkMapFacts(l, t);
      MapFactsSnoc(l, x, MarkMap(l), [x.time], t);
    }
  }

  lemma MapFactsSnoc(l: seq<Hit>, x: Hit, m: map<string, seq<int>>, ts: seq<int>, t: int)
    requires MapFacts(l, m) && InOrder(l + [x], t) && ts != [] && Last(ts) == x.time
    ensures MapFacts(l + [x], m[x.key := ts])
  {
    assert x == (l + [x])[|l|];
    assert x in l + [x];
    forall y | y in l ensures y.time <= x.time {
      var i :| 0 <= i < |l| && l[i] == y;
      assert (l + [x])[i] == y;
    }
  }

  /** The keys live in the map are the keys seen since the cutoff. */
  lemma LiveIsSince(h: seq<Hit>, m: map<string, seq<int>>, cutoff: int)
    requires MapFacts(h, m)
    ensures LiveKeys(m, cutoff) == KeysSince(h, cutoff)
  {
  }

  lemma NotSince(h: seq<Hit>, key: string, cutoff: int)
    requires key !in KeysSince(h, cutoff)
    ensures TimesSince(h, key, cutoff) == []
  {
    forall i | 0 <= i < |h| ensures h[i].key != key || h[i].time < cutoff {
      assert h[i] in h;
    }
    NoneSince(h, key, cutoff);
  }

  lemma {:induction false} NoneSince(h: seq<Hit>, key: string, cutoff: int)
    requires forall i :: 0 <= i < |h| ==> h[i].key != key || h[i].time < cutoff
    ensures TimesSince(h, key, cutoff) == []
  {
    if h != [] {
      NoneSince(h[..|h| - 1], key, cutoff);
    }
  }

  /** Trimming what the map kept gives every time of the key since the cutoff. */
  lemma {:induction false} StampsAreTimes(h: seq<Hit>, t: int, w: int, key: string, cutoff: int)
    requires InOrder(h, t) && 0 <= w
    requires h != [] ==> cutoff >= h[|h| - 1].time - w
    ensures Trim(Get(StampMap(h, w), key), cutoff) == TimesSince(h, key, cutoff)
  {
    if h != [] {
      var x, l := h[|h| - 1], h[..|h| - 1];
      var ts := Get(StampMap(l, w), key);
      StampsAreTimes(l, t, w, key, cutoff);
      if x.key == key {
        TrimTwice(ts + [x.time], x.time, x.time - w, cutoff);
        TrimSnoc(ts, x.time, cutoff);
        if x.time < cutoff {
          NoneSince(l, key, cutoff);
        }
      }
    }
  }
}
