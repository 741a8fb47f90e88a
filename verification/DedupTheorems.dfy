/** What Dedup promises over whole runs. */
module DedupTheorems {
  import opened Int64
  import opened Recency
  import opened Sets
  import opened Dedups
  import opened History

  // ----- exactness while the recently accepted keys fit the cap -----

  /** A key is a duplicate exactly when the full history holds a hit of it in the window. */
  lemma DuplicateIsSince(s: seq<Slot>, h: seq<Hit>, t: int, w: int64, key: string, now: int64)
    requires Tracks(s, MarkMap(h), t, w) && InOrder(h, t) && t <= now
    requires 0 <= w && 0 <= now && forall x :: x in h ==> 0 <= x.time
    ensures Remembered(s, key, now, w) <==> key in KeysSince(h, now - w)
  {
    hide Tracks, MapFacts;
    var m := MarkMap(h);
    MarkMapFacts(h, t);
    LiveIsSince(h, m, t - w);
    LiveIsSince(h, m, now - w);
    TracksLookup(s, m, t, w, key);
    MarkTimes(h, key, t);
  }

  lemma {:induction false} MarkTimes(h: seq<Hit>, key: string, t: int)
    requires InOrder(h, t) && forall x :: x in h ==> 0 <= x.time
    ensures key in MarkMap(h) ==> MarkMap(h)[key] != [] && 0 <= Last(MarkMap(h)[key]) <= t
  {
    if h != [] {
      assert h[|h| - 1] in h;
      MarkTimes(h[..|h| - 1], key, t);
    }
  }

  lemma SeenKeepsTracking(s: seq<Slot>, h: seq<Hit>, t: int, w: int64, key: string, now: int64, cap: nat)
    requires Tracks(s, MarkMap(h), t, w) && InOrder(h, t) && t <= now
    requires 0 <= w && 0 <= now && |s| <= cap && cap > 0
    requires |KeysSince(h + [Hit(key, now)], now - w)| <= cap
    ensures Tracks(Touch(s, key, [now], cap), MarkMap(h + [Hit(key, now)]), now, w)
    ensures |Touch(s, key, [now], cap)| <= cap
  {
    hide Tracks, MapFacts, Touch, InOrder, KeysSince, MarkMap, StampMap, TimesSince, LiveKeys;
    var x := Hit(key, now);
    Snoc(h, x, w, key, 0);
    InOrderSnoc(h, t, x);
    MarkMapFacts(h + [x], now);
    LiveIsSince(h + [x], MarkMap(h + [x]), now - w);
    TouchTracks(s, MarkMap(h), t, w, key, [now], now, cap);
  }

  // ----- how strong the filter is with any order of times and any load -----

  datatype Call = Call(key: string, time: int64)

  function After(calls: seq<Call>, w: int64, cap: nat): seq<Slot>
    requires cap > 0
  {
    if calls == [] then []
    else
      var x := calls[|calls| - 1];
      DedupSeen(After(calls[..|calls| - 1], w, cap), x.key, x.time, w, cap).0
  }

  /** Call `m` recorded its key instead of reporting a duplicate. */
  predicate Accepted(calls: seq<Call>, w: int64, cap: nat, m: nat)
    requires cap > 0 && m < |calls|
  {
    !DedupSeen(After(calls[..m], w, cap), calls[m].key, calls[m].time, w, cap).1
  }

  ghost function AcceptedBetween(calls: seq<Call>, w: int64, cap: nat, i: nat, j: nat): set<string>
    requires cap > 0 && j <= |calls|
  {
    set m | i < m < j && Accepted(calls, w, cap, m) :: calls[m].key
  }

  lemma {:induction false} AfterFits(calls: seq<Call>, w: int64, cap: nat)
    requires cap > 0
    ensures Distinct(After(calls, w, cap)) && |After(calls, w, cap)| <= cap
  {
    if calls != [] {
      var l, x := calls[..|calls| - 1], calls[|calls| - 1];
      AfterFits(l, w, cap);
      TouchDistinct(After(l, w, cap), x.key, [x.time], cap);
    }
  }

  /** `key`, recorded at `at`, is still in the list with only keys of `newer` in front of it. */
  ghost predicate BuriedUnder(s: seq<Slot>, key: string, at: int, newer: set<string>) {
    var i := IndexOf(s, key);
    i < |s| && s[i].times == [at] && forall k :: 0 <= k < i ==> s[k].key in newer
  }

  lemma FrontIsFull(s: seq<Slot>, key: string, newer: set<string>, other: string, i: nat)
    requires Distinct(s) && i < |s| && !Has(s, other)
    requires forall k :: 0 <= k < i ==> s[k].key in newer
    ensures |newer + {other}| >= i + 1
  {
    var front := s[..i];
    KeysCard(front);
    assert Keys(front) <= newer;
    assert other !in Keys(front);
    SubsetSize(Keys(front) + {other}, newer + {other});
  }

  lemma PushedDown(s: seq<Slot>, i: nat, newer: set<string>, other: string, now: int, cap: nat)
    requires |s| <= cap && cap > 0 && i < |s| && other != s[i].key
    requires Has(s, other) || |s| < cap || i < cap - 1
    requires forall k :: 0 <= k < i ==> s[k].key in newer
    ensures var i' := Shifted(s, other, i);
            var s' := Touch(s, other, [now], cap);
            i' < |s'| && s'[i'] == s[i] && forall k :: 0 <= k < i' ==> s'[k].key in newer + {other}
  {
    hide Touch;
    var s' := Touch(s, other, [now], cap);
    TouchShifts(s, other, [now], cap, i);
    TouchIs(s, other, [now], cap);
    forall k | 1 <= k < Shifted(s, other, i) ensures s'[k].key in newer {
      TouchOrigin(s, other, [now], cap, k);
    }
  }

  /** Recording another key leaves `key` under one more, unless a full cap of others is in front. */
  lemma TouchBuries(s: seq<Slot>, key: string, at: int, newer: set<string>, other: string, now: int, cap: nat)
    requires Distinct(s) && |s| <= cap && cap > 0 && other != key
    requires BuriedUnder(s, key, at, newer)
    ensures || BuriedUnder(Touch(s, other, [now], cap), key, at, newer + {other})
            || |newer + {other}| >= cap
  {
    hide Distinct, Touch;
    var i, o, s' := IndexOf(s, key), IndexOf(s, other), Touch(s, other, [now], cap);
    TouchDistinct(s, other, [now], cap);
    if o == |s| == cap && i == cap - 1 {
      FrontIsFull(s, key, newer, other, i);
    } else {
      PushedDown(s, i, newer, other, now, cap);
      IndexIs(s', Shifted(s, other, i));
    }
  }

  lemma OneMoreAccepted(calls: seq<Call>, w: int64, cap: nat, i: nat, n: nat)
    requires cap > 0 && i < n < |calls|
    ensures AcceptedBetween(calls, w, cap, i, n + 1)
         == AcceptedBetween(calls, w, cap, i, n) + if Accepted(calls, w, cap, n) then {calls[n].key} else {}
  {
  }

  lemma AfterNext(calls: seq<Call>, w: int64, cap: nat, n: nat)
    requires cap > 0 && n < |calls|
    ensures var s, s', x := After(calls[..n], w, cap), After(calls[..n + 1], w, cap), calls[n];
            && Distinct(s) && |s| <= cap
            && s' == if Accepted(calls, w, cap, n) then Touch(s, x.key, [x.time], cap) else s
  {
    assert calls[..n + 1][..n] == calls[..n];
    AfterFits(calls[..n], w, cap);
  }

  lemma {:induction false} StillBuried(calls: seq<Call>, w: int64, cap: nat, i: nat, n: nat)
    requires cap > 0 && i < n <= |calls|
    requires Accepted(calls, w, cap, i)
    requires forall m :: i < m < n && calls[m].key == calls[i].key ==> !Accepted(calls, w, cap, m)
    ensures var newer := AcceptedBetween(calls, w, cap, i, n);
            || BuriedUnder(After(calls[..n], w, cap), calls[i].key, calls[i].time, newer)
            || |newer| >= cap
  {
    hide Accepted, AcceptedBetween, After, BuriedUnder, Touch;
    AfterNext(calls, w, cap, n - 1);
    var x := calls[n - 1];
    if n == i + 1 {
      OnTop(After(calls[..i], w, cap), x.key, x.time, cap, AcceptedBetween(calls, w, cap, i, n));
    } else {
      StillBuried(calls, w, cap, i, n - 1);
      OneMoreAccepted(calls, w, cap, i, n - 1);
      var before, newer := AcceptedBetween(calls, w, cap, i, n - 1), AcceptedBetween(calls, w, cap, i, n);
      if |before| >= cap {
        SubsetSize(before, newer);
      } else if Accepted(calls, w, cap, n - 1) {
        TouchBuries(After(calls[..n - 1], w, cap), calls[i].key, calls[i].time, before, x.key, x.time, cap);
      }
    }
  }

  lemma OnTop(s: seq<Slot>, key: string, at: int, cap: nat, newer: set<string>)
    requires cap > 0
    ensures BuriedUnder(Touch(s, key, [at], cap), key, at, newer)
  {
  }

  /** A key is recorded again inside its window only after at least `cap` distinct other keys
      were recorded since it was. This holds for event times in any order. */
  lemma ReacceptedOnlyUnderPressure(calls: seq<Call>, w: int64, cap: nat, i: nat, j: nat)
    requires cap > 0 && i < j < |calls|
    requires calls[i].key == calls[j].key
    requires Accepted(calls, w, cap, i) && Accepted(calls, w, cap, j)
    requires forall m :: i < m < j && calls[m].key == calls[i].key ==> !Accepted(calls, w, cap, m)
    requires Sub(calls[j].time, calls[i].time) <= w
    ensures |AcceptedBetween(calls, w, cap, i, j)| >= cap
    ensures calls[i].key !in AcceptedBetween(calls, w, cap, i, j)
  {
    StillBuried(calls, w, cap, i, j);
  }
}
