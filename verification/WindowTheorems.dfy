/** What Window promises over whole runs: exact counts, invisible sweeps, bounded skew. */
module WindowTheorems {
  import opened Int64
  import opened Recency
  import opened Windows
  import opened History

  // ----- sweeping a sorted list keeps a prefix -----

  lemma {:induction false} AliveIsPrefix(s: seq<Slot>, t: int, cutoff: int) returns (n: nat)
    requires Sorted(s, t)
    ensures n <= |s| && Alive(s, cutoff) == s[..n]
    ensures forall i :: 0 <= i < |s| ==> (i < n <==> Last(s[i].times) >= cutoff)
  {
    if s == [] {
      n := 0;
    } else {
      var r := AliveIsPrefix(s[1..], t, cutoff);
      if Stale(s[0], cutoff) {
        n := 0;
      } else {
        n := r + 1;
        assert s[..n] == [s[0]] + s[1..][..r];
      }
    }
  }

  lemma SweepTracks(s: seq<Slot>, m: map<string, seq<int>>, t: int, w: int, now: int)
    requires Tracks(s, m, t, w) && t <= now
    ensures Tracks(Alive(s, now - w), m, now, w) && |Alive(s, now - w)| <= |s|
  {
    var n := AliveIsPrefix(s, t, now - w);
    forall k | k in LiveKeys(m, now - w) ensures Has(s[..n], k) {
      assert k in LiveKeys(m, t - w);
      var i := IndexOf(s, k);
      assert Has(s, k) && s[i].times == m[k];
      assert s[..n][i].key == k;
      IndexIs(s[..n], i);
    }
  }

  // ----- exactness while the working set fits the cap -----

  /** A new stamp after the last one, when the slot of the key may have been forgotten. */
  lemma LookupSince(s: seq<Slot>, h: seq<Hit>, t: int, w: int, key: string, now: int)
    requires Tracks(s, StampMap(h, w), t, w) && InOrder(h, t) && t <= now && 0 <= w
    ensures Trim(Lookup(s, key), now - w) == TimesSince(h, key, now - w)
  {
    hide Tracks, MapFacts, Trim;
    var m := StampMap(h, w);
    StampMapFacts(h, t, w);
    LastInOrder(h, t);
    StampsAreTimes(h, t, w, key, now - w);
    TracksLookup(s, m, t, w, key);
    if !Has(s, key) {
      LiveIsSince(h, m, t - w);
      NotSince(h, key, now - w);
      TrimEmpty(now - w);
    }
  }

  lemma TrimEmpty(cutoff: int)
    ensures Trim([], cutoff) == []
  {
  }

  lemma LastInOrder(h: seq<Hit>, t: int)
    requires InOrder(h, t)
    ensures h != [] ==> h[|h| - 1].time <= t
  {
  }

  /** While the keys of the trailing window fit the cap, the LRU list loses nothing that matters:
      the count is the number of hits of the key in the closed window ending now. */
  lemma AddIsExact(s: seq<Slot>, h: seq<Hit>, t: int, w: int64, key: string, now: int64, cap: nat)
    requires Tracks(s, StampMap(h, w), t, w) && InOrder(h, t) && t <= now
    requires 0 <= w && 0 <= now && |s| <= cap && cap > 0
    requires |KeysSince(h + [Hit(key, now)], now - w)| <= cap
    ensures var (s', n) := WindowAdd(s, key, now, w, cap);
            var h' := h + [Hit(key, now)];
            && n == |TimesSince(h', key, now - w)|
            && Tracks(s', StampMap(h', w), now, w) && |s'| <= cap
  {
    hide Tracks, MapFacts, Trim, Touch, InOrder, KeysSince, StampMap, TimesSince;
    var x, m, cutoff := Hit(key, now), StampMap(h, w), now - w;
    var h', ts := h + [x], Trim(Lookup(s, key) + [now], cutoff);
    Snoc(h, x, w, key, cutoff);
    LookupSince(s, h, t, w, key, now);
    LastInOrder(h, t);
    StampsAreTimes(h, t, w, key, cutoff);
    TrimPushed(Lookup(s, key), now, cutoff);
    TrimPushed(Get(m, key), now, cutoff);
    InOrderSnoc(h, t, x);
    StampMapFacts(h', now, w);
    LiveIsSince(h', StampMap(h', w), cutoff);
    TouchTracks(s, m, t, w, key, ts, now, cap);
  }

  // ----- runs of adds and sweeps -----

  datatype Op = AddOp(key: string, time: int64) | SweepOp(time: int64)

  /** The list after the operations and the count that each add returned. */
  datatype Outcome = Outcome(slots: seq<Slot>, counts: seq<nat>)

  function Run(ops: seq<Op>, w: int64, cap: nat): Outcome
    requires cap > 0
  {
    if ops == [] then Outcome([], [])
    else
      var o := Run(ops[..|ops| - 1], w, cap);
      match ops[|ops| - 1]
      case AddOp(key, time) =>
        var (s, n) := WindowAdd(o.slots, key, time, w, cap);
        Outcome(s, o.counts + [n])
      case SweepOp(time) =>
        Outcome(WindowSweep(o.slots, time, w), o.counts)
  }

  /** The same run without its sweeps. */
  function Unswept(ops: seq<Op>): seq<Op> {
    if ops == [] then []
    else Unswept(ops[..|ops| - 1]) + if ops[|ops| - 1].AddOp? then [ops[|ops| - 1]] else []
  }

  ghost predicate Chronological(ops: seq<Op>) {
    && (forall i :: 0 <= i < |ops| ==> 0 <= ops[i].time)
    && (forall i, j :: 0 <= i < j < |ops| ==> ops[i].time <= ops[j].time)
  }

  // ----- exactness over whole runs -----

  /** The hits that the operations record. */
  function HitsOf(ops: seq<Op>): seq<Hit> {
    if ops == [] then []
    else
      var x := ops[|ops| - 1];
      HitsOf(ops[..|ops| - 1]) + if x.AddOp? then [Hit(x.key, x.time)] else []
  }

  /** At every add the keys of the trailing window, the added one included, fit the cap. */
  ghost predicate AlwaysFits(ops: seq<Op>, w: int, cap: nat) {
    forall i :: 0 < i <= |ops| && ops[i - 1].AddOp? ==> |KeysSince(HitsOf(ops[..i]), ops[i - 1].time - w)| <= cap
  }

  /** For each add, the hits of its key in the closed window that ends at the add. */
  function TrueCounts(ops: seq<Op>, w: int): seq<nat> {
    if ops == [] then []
    else
      var x := ops[|ops| - 1];
      TrueCounts(ops[..|ops| - 1], w) + if x.AddOp? then [|TimesSince(HitsOf(ops), x.key, x.time - w)|] else []
  }

  lemma LatestInOrder(ops: seq<Op>)
    requires Chronological(ops) && ops != []
    ensures Chronological(ops[..|ops| - 1]) && 0 <= Latest(ops[..|ops| - 1]) <= Latest(ops)
  {
  }

  function Latest(ops: seq<Op>): int {
    if ops == [] then 0 else ops[|ops| - 1].time
  }

  /** Over any run of adds and sweeps, while the live keys fit the cap at every add, every count is the true one. */
  lemma {:induction false} RunIsExact(ops: seq<Op>, w: int64, cap: nat)
    requires Chronological(ops) && 0 <= w && cap > 0 && AlwaysFits(ops, w, cap)
    ensures Run(ops, w, cap).counts == TrueCounts(ops, w)
    ensures Tracks(Run(ops, w, cap).slots, StampMap(HitsOf(ops), w), Latest(ops), w) && |Run(ops, w, cap).slots| <= cap
    ensures InOrder(HitsOf(ops), Latest(ops))
  {
    hide Tracks, StampMap, TimesSince, KeysSince, InOrder, WindowAdd, WindowSweep, Chronological, Run, HitsOf, TrueCounts;
    if ops == [] {
      NoOps(w, cap);
    } else {
      OneMore(ops, w, cap);
      var l, x := ops[..|ops| - 1], ops[|ops| - 1];
      LatestInOrder(ops);
      ShorterFits(ops, w, cap);
      RunIsExact(l, w, cap);
      LaterInOrder(HitsOf(l), Latest(l), Latest(ops));
      match x
      case AddOp(key, time) =>
        assert ops[..|ops|] == ops;
        AddIsExact(Run(l, w, cap).slots, HitsOf(l), Latest(l), w, key, time, cap);
        InOrderSnoc(HitsOf(l), Latest(l), Hit(key, time));
      case SweepOp(time) =>
        SweepTracks(Run(l, w, cap).slots, StampMap(HitsOf(l), w), Latest(l), w, time);
        SweepIsAlive(Run(l, w, cap).slots, time, w);
    }
  }

  lemma NoOps(w: int64, cap: nat)
    requires cap > 0
    ensures Run([], w, cap) == Outcome([], []) && HitsOf([]) == [] && TrueCounts([], w) == []
    ensures Tracks([], StampMap([], w), 0, w) && InOrder([], 0)
  {
  }

  /** What the last operation adds to the run, to the hits and to the true counts. */
  lemma OneMore(ops: seq<Op>, w: int64, cap: nat)
    requires ops != [] && cap > 0
    ensures var l, x := ops[..|ops| - 1], ops[|ops| - 1];
            var o := Run(l, w, cap);
            match x
            case AddOp(key, time) =>
              var (s, n) := WindowAdd(o.slots, key, time, w, cap);
              && Run(ops, w, cap) == Outcome(s, o.counts + [n]) && HitsOf(ops) == HitsOf(l) + [Hit(key, time)]
              && TrueCounts(ops, w) == TrueCounts(l, w) + [|TimesSince(HitsOf(ops), key, time - w)|]
            case SweepOp(time) =>
              && Run(ops, w, cap) == Outcome(WindowSweep(o.slots, time, w), o.counts)
              && HitsOf(ops) == HitsOf(l) && TrueCounts(ops, w) == TrueCounts(l, w)
  {
  }

  lemma ShorterFits(ops: seq<Op>, w: int, cap: nat)
    requires ops != [] && AlwaysFits(ops, w, cap)
    ensures AlwaysFits(ops[..|ops| - 1], w, cap)
  {
    hide KeysSince;
    var l := ops[..|ops| - 1];
    forall i | 0 < i <= |l| && l[i - 1].AddOp? ensures |KeysSince(HitsOf(l[..i]), l[i - 1].time - w)| <= cap {
      assert l[..i] == ops[..i];
    }
  }

  lemma LaterInOrder(h: seq<Hit>, t: int, t': int)
    requires InOrder(h, t) && t <= t'
    ensures InOrder(h, t')
  {
  }

  lemma SweepIsAlive(s: seq<Slot>, now: int64, w: int64)
    requires 0 <= w && 0 <= now
    ensures WindowSweep(s, now, w) == Alive(s, now - w)
  {
  }

  // ----- sweeping is invisible -----

  /** `a` is what is left of `b` after dropping slots that are out of the window. */
  ghost predicate Behind(a: seq<Slot>, b: seq<Slot>, cutoff: int) {
    && |a| <= |b| && a == b[..|a|]
    && forall i :: |a| <= i < |b| ==> b[i].times != [] && Last(b[i].times) < cutoff
  }

  ghost predicate AllAscending(s: seq<Slot>) {
    forall i :: 0 <= i < |s| ==> Ascending(s[i].times)
  }

  ghost predicate Chained(a: seq<Slot>, b: seq<Slot>, t: int, w: int, cap: nat) {
    && Behind(a, b, t - w) && Distinct(b) && Sorted(b, t) && AllAscending(b) && |b| <= cap
  }

  lemma BehindLookup(a: seq<Slot>, b: seq<Slot>, cutoff: int, key: string)
    requires Behind(a, b, cutoff) && Distinct(b) && AllAscending(b)
    ensures Has(a, key) ==> IndexOf(b, key) == IndexOf(a, key)
    ensures Trim(Lookup(a, key), cutoff) == Trim(Lookup(b, key), cutoff)
  {
    var i, j := IndexOf(a, key), IndexOf(b, key);
    if i < |a| {
      assert b[i] == a[i];
      IndexIs(b, i);
    } else if j < |b| {
      assert forall k :: 0 <= k < |a| ==> a[k] == b[k];
      TrimStale(b[j].times, cutoff);
    }
  }

  lemma BehindRemoveAt(a: seq<Slot>, b: seq<Slot>, cutoff: int, i: nat)
    requires Behind(a, b, cutoff) && i < |b|
    ensures Behind(if i < |a| then a[..i] + a[i + 1..] else a, b[..i] + b[i + 1..], cutoff)
  {
  }

  lemma BehindKeep(a: seq<Slot>, b: seq<Slot>, cutoff: int, key: string, cap: nat)
    requires Behind(a, b, cutoff) && Distinct(b) && |b| <= cap && cap > 0
    ensures Behind(Keep(a, key, cap), Keep(b, key, cap), cutoff)
  {
    var i, j := IndexOf(a, key), IndexOf(b, key);
    assert forall k :: 0 <= k < |a| ==> a[k] == b[k];
    if j < |b| {
      hide Behind;
      BehindRemoveAt(a, b, cutoff, j);
    }
  }

  lemma {:induction false} TrimAscending(ts: seq<int>, cutoff: int)
    requires Ascending(ts)
    ensures Ascending(Trim(ts, cutoff))
    ensures forall x :: x in Trim(ts, cutoff) ==> x in ts
  {
    if ts != [] && ts[0] < cutoff {
      TrimAscending(ts[1..], cutoff);
    }
  }

  lemma AddAscending(s: seq<Slot>, t: int, key: string, now: int64, w: int64, cap: nat)
    requires Sorted(s, t) && AllAscending(s) && t <= now && cap > 0
    ensures AllAscending(WindowAdd(s, key, now, w, cap).0)
  {
    hide Sorted, Ascending, Trim, Lookup;
    var ts, s' := Lookup(s, key) + [now], WindowAdd(s, key, now, w, cap).0;
    StampAscending(s, t, key, now);
    TrimAscending(ts, Sub(now, w));
    forall i | 1 <= i < |s'| ensures Ascending(s'[i].times) {
      TouchOrigin(s, key, Trim(ts, Sub(now, w)), cap, i);
    }
  }

  lemma StampAscending(s: seq<Slot>, t: int, key: string, now: int)
    requires Sorted(s, t) && AllAscending(s) && t <= now
    ensures Ascending(Lookup(s, key) + [now])
  {
  }

  /** One add gives the same count on both lists, and the shorter one stays a prefix. */
  lemma AddBehind(a: seq<Slot>, b: seq<Slot>, t: int, w: int64, key: string, now: int64, cap: nat)
    requires Chained(a, b, t, w, cap) && t <= now && 0 <= w && 0 <= now && cap > 0
    ensures WindowAdd(a, key, now, w, cap).1 == WindowAdd(b, key, now, w, cap).1
    ensures Chained(WindowAdd(a, key, now, w, cap).0, WindowAdd(b, key, now, w, cap).0, now, w, cap)
  {
    hide Behind, Trim, Sorted, Distinct, AllAscending, Keep, Lookup;
    var cutoff := now - w;
    BehindLater(a, b, t - w, cutoff);
    BehindLookup(a, b, cutoff, key);
    TrimPushed(Lookup(a, key), now, cutoff);
    TrimPushed(Lookup(b, key), now, cutoff);
    var ts := Trim(Lookup(b, key), cutoff) + [now];
    BehindKeep(a, b, cutoff, key, cap);
    BehindPush(Keep(a, key, cap), Keep(b, key, cap), cutoff, Slot(key, ts));
    TouchDistinct(b, key, ts, cap);
    TouchSorted(b, t, key, ts, now, cap);
    AddAscending(b, t, key, now, w, cap);
  }

  lemma BehindLater(a: seq<Slot>, b: seq<Slot>, cutoff: int, cutoff': int)
    requires Behind(a, b, cutoff) && cutoff <= cutoff'
    ensures Behind(a, b, cutoff')
  {
  }

  lemma BehindPush(a: seq<Slot>, b: seq<Slot>, cutoff: int, x: Slot)
    requires Behind(a, b, cutoff)
    ensures Behind([x] + a, [x] + b, cutoff)
  {
  }

  lemma SweepBehind(a: seq<Slot>, b: seq<Slot>, t: int, w: int64, now: int64, cap: nat)
    requires Chained(a, b, t, w, cap) && t <= now && 0 <= w && 0 <= now
    ensures Chained(WindowSweep(a, now, w), b, now, w, cap)
  {
    assert Sorted(a, t);
    var n := AliveIsPrefix(a, t, now - w);
    assert forall i :: n <= i < |a| ==> b[i] == a[i];
  }

  /** A window that is swept at any moments and one that never is, both under LRU eviction,
      return the same counts; the swept list is a prefix of the other, and what it lacks is stale. */
  lemma {:induction false} SweepingIsInvisible(ops: seq<Op>, w: int64, cap: nat)
    requires Chronological(ops) && 0 <= w && cap > 0
    ensures Run(ops, w, cap).counts == Run(Unswept(ops), w, cap).counts
    ensures var t := if ops == [] then 0 else ops[|ops| - 1].time;
            Chained(Run(ops, w, cap).slots, Run(Unswept(ops), w, cap).slots, t, w, cap)
  {
    if ops != [] {
      var l, x := ops[..|ops| - 1], ops[|ops| - 1];
      SweepingIsInvisible(l, w, cap);
      var a, b := Run(l, w, cap), Run(Unswept(l), w, cap);
      var t := if l == [] then 0 else l[|l| - 1].time;
      match x
      case AddOp(key, time) =>
        AddBehind(a.slots, b.slots, t, w, key, time, cap);
        assert (Unswept(l) + [x])[..|Unswept(l)|] == Unswept(l);
      case SweepOp(time) =>
        SweepBehind(a.slots, b.slots, t, w, time, cap);
        assert Unswept(l) + [] == Unswept(l);
    }
  }

  /** Hence the moments at which a window is swept never show in its counts. */
  lemma AnySweepSchedule(ops: seq<Op>, ops': seq<Op>, w: int64, cap: nat)
    requires Chronological(ops) && Chronological(ops') && 0 <= w && cap > 0
    requires Unswept(ops) == Unswept(ops')
    ensures Run(ops, w, cap).counts == Run(ops', w, cap).counts
  {
    SweepingIsInvisible(ops, w, cap);
    SweepingIsInvisible(ops', w, cap);
  }

  // ----- stamps that arrive out of order -----

  /** The times of `key` since its slot was last created. */
  function SinceInsertion(ops: seq<Op>, w: int64, cap: nat, key: string): seq<int64>
    requires cap > 0
  {
    if ops == [] then []
    else
      var l, x := ops[..|ops| - 1], ops[|ops| - 1];
      var earlier := SinceInsertion(l, w, cap, key);
      if x.AddOp? && x.key == key then
        (if Has(Run(l, w, cap).slots, key) then earlier else []) + [x.time]
      else earlier
  }

  function CountSince(ts: seq<int>, cutoff: int): nat {
    if ts == [] then 0
    else CountSince(ts[..|ts| - 1], cutoff) + if ts[|ts| - 1] >= cutoff then 1 else 0
  }

  /** What the front-only trim retains of stamps recorded in this order. */
  function Retained(ts: seq<int>, w: int): seq<int> {
    if ts == [] then []
    else Trim(Retained(ts[..|ts| - 1], w) + [ts[|ts| - 1]], ts[|ts| - 1] - w)
  }

  /** No stamp is more than `j` behind an earlier one. */
  ghost predicate SkewAtMost(ts: seq<int>, j: int) {
    forall p, q :: 0 <= p < q < |ts| ==> ts[q] >= ts[p] - j
  }

  lemma {:induction false} TrimIsSuffix(ts: seq<int>, cutoff: int) returns (n: nat)
    ensures n <= |ts| && Trim(ts, cutoff) == ts[n..]
    ensures forall i :: 0 <= i < n ==> ts[i] < cutoff
    ensures n < |ts| ==> ts[n] >= cutoff
  {
    if ts != [] && ts[0] < cutoff {
      var r := TrimIsSuffix(ts[1..], cutoff);
      n := r + 1;
    } else {
      n := 0;
    }
  }

  /** A later stamp was more than `w` ahead of stamp `i`. */
  ghost predicate Overtaken(ts: seq<int>, i: nat, w: int) {
    i < |ts| && exists q :: i < q < |ts| && ts[i] < ts[q] - w
  }

  lemma OvertakenLonger(ts: seq<int>, i: nat, w: int, now: int)
    requires Overtaken(ts, i, w)
    ensures Overtaken(ts + [now], i, w)
  {
    var q :| i < q < |ts| && ts[i] < ts[q] - w;
    assert (ts + [now])[q] == ts[q];
  }

  lemma OvertakenByLast(ts: seq<int>, i: nat, w: int, now: int)
    requires i < |ts| && ts[i] < now - w
    ensures Overtaken(ts + [now], i, w)
  {
    assert (ts + [now])[|ts|] == now;
  }

  lemma SuffixStep(l: seq<int>, now: int, w: int, k: nat) returns (n: nat)
    requires 0 <= w && k <= |l|
    requires forall i :: 0 <= i < k ==> Overtaken(l, i, w)
    ensures n <= |l| && Trim(l[k..] + [now], now - w) == (l + [now])[n..]
    ensures forall i :: 0 <= i < n ==> Overtaken(l + [now], i, w)
    ensures (l + [now])[n] >= now - w
  {
    hide Overtaken, Trim;
    var r := TrimIsSuffix(l[k..], now - w);
    TrimPushed(l[k..], now, now - w);
    n := k + r;
    assert l[k..][r..] + [now] == (l + [now])[n..];
    forall i | 0 <= i < n ensures Overtaken(l + [now], i, w) {
      if i < k {
        OvertakenLonger(l, i, w, now);
      } else {
        assert l[i] == l[k..][i - k];
        OvertakenByLast(l, i, w, now);
      }
    }
    assert n < |l| ==> l[n] == l[k..][r];
  }

  lemma NothingRetained(w: int)
    ensures Retained([], w) == []
  {
  }

  /** The retained stamps are a suffix, and everything before it was overtaken by more than `w`. */
  lemma {:induction false} RetainedIsSuffix(ts: seq<int>, w: int) returns (n: nat)
    requires 0 <= w
    ensures n <= |ts| && Retained(ts, w) == ts[n..]
    ensures forall i :: 0 <= i < n ==> Overtaken(ts, i, w)
    ensures ts != [] ==> n < |ts| && ts[n] >= ts[|ts| - 1] - w
  {
    hide Overtaken, Trim, Retained;
    if ts == [] {
      n := 0;
      NothingRetained(w);
    } else {
      var l, now := ts[..|ts| - 1], ts[|ts| - 1];
      assert ts == l + [now];
      var k := RetainedIsSuffix(l, w);
      RetainedSnoc(l, now, w);
      n := SuffixStep(l, now, w, k);
    }
  }

  lemma {:induction false} CountSplit(ts: seq<int>, n: nat, cutoff: int)
    requires n <= |ts|
    ensures CountSince(ts, cutoff) == CountSince(ts[..n], cutoff) + CountSince(ts[n..], cutoff)
  {
    if n < |ts| {
      CountSplit(ts[..|ts| - 1], n, cutoff);
      assert ts[..|ts| - 1][..n] == ts[..n];
      assert ts[n..][..|ts[n..]| - 1] == ts[..|ts| - 1][n..];
    } else {
      assert ts[..n] == ts;
    }
  }

  lemma {:induction false} CountBounds(ts: seq<int>, cutoff: int)
    ensures CountSince(ts, cutoff) <= |ts|
    ensures (forall i :: 0 <= i < |ts| ==> ts[i] >= cutoff) ==> CountSince(ts, cutoff) == |ts|
    ensures (forall i :: 0 <= i < |ts| ==> ts[i] < cutoff) ==> CountSince(ts, cutoff) == 0
  {
    if ts != [] {
      CountBounds(ts[..|ts| - 1], cutoff);
    }
  }

  lemma OvertakenIsOld(ts: seq<int>, i: nat, w: int, j: int)
    requires Overtaken(ts, i, w) && SkewAtMost(ts, j) && 0 <= j
    ensures ts[i] < ts[|ts| - 1] - (w - j)
  {
  }

  lemma SuffixIsRecent(ts: seq<int>, n: nat, w: int, j: int)
    requires n < |ts| && SkewAtMost(ts, j) && 0 <= j && ts[n] >= ts[|ts| - 1] - w
    ensures CountSince(ts[n..], ts[|ts| - 1] - (w + j)) == |ts| - n
  {
    forall i | n <= i < |ts| ensures ts[i] >= ts[n] - j {
    }
    CountBounds(ts[n..], ts[|ts| - 1] - (w + j));
  }

  /** Front-only trimming over-counts and under-counts by no more than the skew allows. */
  lemma RetainedSandwich(ts: seq<int>, w: int, j: int)
    requires ts != [] && 0 <= w && 0 <= j && SkewAtMost(ts, j)
    ensures var now := ts[|ts| - 1];
            CountSince(ts, now - (w - j)) <= |Retained(ts, w)| <= CountSince(ts, now - (w + j))
  {
    hide SkewAtMost, Overtaken, Retained, CountSince;
    var now := ts[|ts| - 1];
    var n := RetainedIsSuffix(ts, w);
    SuffixIsRecent(ts, n, w, j);
    forall i | 0 <= i < n ensures ts[..n][i] < now - (w - j) {
      OvertakenIsOld(ts, i, w, j);
    }
    CountSplit(ts, n, now - (w - j));
    CountSplit(ts, n, now - (w + j));
    CountBounds(ts[..n], now - (w - j));
    CountBounds(ts[n..], now - (w - j));
  }

  ghost predicate Slotted(s: seq<Slot>, key: string, since: seq<int>, w: int, cap: nat) {
    && Distinct(s) && |s| <= cap
    && (Has(s, key) ==> Lookup(s, key) == Retained(since, w))
  }

  lemma SlottedAdd(s: seq<Slot>, key: string, since: seq<int>, w: int64, cap: nat, k: string, time: int64)
    requires Slotted(s, key, since, w, cap) && 0 <= w && 0 <= time && cap > 0
    ensures var since' := if k == key then (if Has(s, key) then since else []) + [time] else since;
            Slotted(WindowAdd(s, k, time, w, cap).0, key, since', w, cap)
  {
    hide Distinct, Touch, Trim, Retained;
    var ts := Trim(Lookup(s, k) + [time], Sub(time, w));
    TouchDistinct(s, k, ts, cap);
    TouchLookup(s, k, ts, cap, key);
    RetainedSnoc(if Has(s, key) then since else [], time, w);
    NoSlotNoStamps(s, key, w);
  }

  lemma SlottedSweep(s: seq<Slot>, key: string, since: seq<int>, w: int, cap: nat, cutoff: int)
    requires Slotted(s, key, since, w, cap)
    ensures Slotted(Alive(s, cutoff), key, since, w, cap)
  {
    AliveMembers(s, cutoff);
    AliveLookup(s, cutoff, key);
  }

  /** The slot of a key holds what trimming retains of its stamps since insertion. */
  lemma {:induction false} SlotIsRetained(ops: seq<Op>, w: int64, cap: nat, key: string)
    requires 0 <= w && cap > 0
    requires forall i :: 0 <= i < |ops| ==> 0 <= ops[i].time
    ensures Slotted(Run(ops, w, cap).slots, key, SinceInsertion(ops, w, cap, key), w, cap)
  {
    hide Slotted, WindowAdd, WindowSweep;
    if ops == [] {
      NothingSlotted(key, w, cap);
    } else {
      var l, x := ops[..|ops| - 1], ops[|ops| - 1];
      var s, since := Run(l, w, cap).slots, SinceInsertion(l, w, cap, key);
      SlotIsRetained(l, w, cap, key);
      match x
      case AddOp(k, time) => SlottedAdd(s, key, since, w, cap, k, time);
      case SweepOp(time) =>
        SlottedSweep(s, key, since, w, cap, Sub(time, w));
        SweepIs(s, time, w);
    }
  }

  lemma NothingSlotted(key: string, w: int, cap: nat)
    ensures Slotted([], key, [], w, cap)
  {
  }

  lemma SweepIs(s: seq<Slot>, time: int64, w: int64)
    ensures WindowSweep(s, time, w) == Alive(s, Sub(time, w))
  {
  }

  lemma TouchLookup(s: seq<Slot>, k: string, ts: seq<int>, cap: nat, key: string)
    requires Distinct(s) && |s| <= cap && cap > 0
    ensures Lookup(Touch(s, k, ts, cap), k) == ts
    ensures key != k && Has(Touch(s, k, ts, cap), key) ==> Has(s, key) && Lookup(Touch(s, k, ts, cap), key) == Lookup(s, key)
  {
    var s' := Touch(s, k, ts, cap);
    if key != k && Has(s', key) {
      var i := IndexOf(s', key);
      TouchOrigin(s, k, ts, cap, i);
      IndexIs(s, Origin(s, k, i));
    }
  }

  lemma {:induction false} AliveMembers(s: seq<Slot>, cutoff: int)
    requires Distinct(s)
    ensures Distinct(Alive(s, cutoff)) && |Alive(s, cutoff)| <= |s|
    ensures forall i :: 0 <= i < |Alive(s, cutoff)| ==> Alive(s, cutoff)[i] in s
  {
    if s != [] {
      var r := Alive(s[1..], cutoff);
      AliveMembers(s[1..], cutoff);
      forall i | 0 <= i < |r| ensures r[i] in s && r[i].key != s[0].key {
        assert r[i] in s[1..];
      }
    }
  }

  lemma AliveLookup(s: seq<Slot>, cutoff: int, key: string)
    requires Distinct(s)
    ensures Has(Alive(s, cutoff), key) ==> Has(s, key) && Lookup(Alive(s, cutoff), key) == Lookup(s, key)
  {
    hide Distinct, Alive;
    var r := Alive(s, cutoff);
    AliveMembers(s, cutoff);
    if Has(r, key) {
      var i := IndexOf(r, key);
      var j :| 0 <= j < |s| && s[j] == r[i];
      IndexIs(s, j);
    }
  }

  ghost predicate EndsInAdd(ops: seq<Op>) {
    && ops != [] && ops[|ops| - 1].AddOp?
    && forall i :: 0 <= i < |ops| ==> 0 <= ops[i].time
  }

  /** What the add at the end of the run returned. */
  ghost function LastCount(ops: seq<Op>, w: int64, cap: nat): nat
    requires EndsInAdd(ops) && cap > 0
    ensures var counts := Run(ops, w, cap).counts;
            counts != [] && LastCount(ops, w, cap) == counts[|counts| - 1]
  {
    var x := ops[|ops| - 1];
    WindowAdd(Run(ops[..|ops| - 1], w, cap).slots, x.key, x.time, w, cap).1
  }

  lemma SinceEndsNow(ops: seq<Op>, w: int64, cap: nat)
    requires EndsInAdd(ops) && cap > 0
    ensures var x := ops[|ops| - 1];
            var ts := SinceInsertion(ops, w, cap, x.key);
            ts != [] && ts[|ts| - 1] == x.time
  {
  }

  lemma RetainedSnoc(ts: seq<int>, now: int, w: int)
    ensures Retained(ts + [now], w) == Trim(Retained(ts, w) + [now], now - w)
  {
  }

  /** The count of an add is the number of stamps retained since insertion. */
  lemma CountIsRetained(ops: seq<Op>, w: int64, cap: nat)
    requires 0 <= w && cap > 0 && EndsInAdd(ops)
    ensures LastCount(ops, w, cap) == |Retained(SinceInsertion(ops, w, cap, ops[|ops| - 1].key), w)|
  {
    hide Run, Retained, Trim, Touch, Lookup;
    var l, x := ops[..|ops| - 1], ops[|ops| - 1];
    var s := Run(l, w, cap).slots;
    var earlier := if Has(s, x.key) then SinceInsertion(l, w, cap, x.key) else [];
    SlotIsRetained(l, w, cap, x.key);
    RetainedSnoc(earlier, x.time, w);
    NoSlotNoStamps(s, x.key, w);
  }

  lemma NoSlotNoStamps(s: seq<Slot>, key: string, w: int)
    ensures !Has(s, key) ==> Lookup(s, key) == [] == Retained([], w)
  {
  }

  /** If each stamp of a key is at most `j` behind any earlier one, Add counts at least the stamps
      since insertion in the window narrowed by `j`, and at most those in the window widened by `j`. */
  lemma BoundedSkew(ops: seq<Op>, w: int64, cap: nat, j: int, since: seq<int64>)
    requires 0 <= w && cap > 0 && 0 <= j && EndsInAdd(ops)
    requires since == SinceInsertion(ops, w, cap, ops[|ops| - 1].key) && SkewAtMost(since, j)
    ensures var now := ops[|ops| - 1].time;
            CountSince(since, now - (w - j)) <= LastCount(ops, w, cap) <= CountSince(since, now - (w + j))
  {
    hide Run, SinceInsertion, CountSince, Retained, LastCount, SkewAtMost;
    CountIsRetained(ops, w, cap);
    SinceEndsNow(ops, w, cap);
    RetainedSandwich(since, w, j);
  }

  // ----- in order, the cap can only lose counts -----

  function TimesOf(ops: seq<Op>, key: string): seq<int64> {
    if ops == [] then []
    else
      var x := ops[|ops| - 1];
      TimesOf(ops[..|ops| - 1], key) + if x.AddOp? && x.key == key then [x.time] else []
  }

  lemma {:induction false} SinceIsSuffix(ops: seq<Op>, w: int64, cap: nat, key: string) returns (n: nat)
    requires cap > 0
    ensures n <= |TimesOf(ops, key)| && SinceInsertion(ops, w, cap, key) == TimesOf(ops, key)[n..]
  {
    if ops == [] {
      n := 0;
    } else {
      var l, x := ops[..|ops| - 1], ops[|ops| - 1];
      n := SinceIsSuffix(l, w, cap, key);
      if x.AddOp? && x.key == key && !Has(Run(l, w, cap).slots, key) {
        n := |TimesOf(l, key)|;
      }
    }
  }

  lemma {:induction false} TimesOfOrdered(ops: seq<Op>, key: string)
    requires Chronological(ops)
    ensures Ascending(TimesOf(ops, key))
    ensures forall i :: 0 <= i < |TimesOf(ops, key)| ==> ops != [] && TimesOf(ops, key)[i] <= ops[|ops| - 1].time
  {
    if ops != [] {
      TimesOfOrdered(ops[..|ops| - 1], key);
    }
  }

  /** With event times in order, a count misses exactly the hits in the trailing window that came
      before the key's last insertion: it never over-counts, and it is right if and only if the
      evictions of the key lost no hit that is still in the window. */
  lemma NeverOverCounts(ops: seq<Op>, w: int64, cap: nat)
    requires 0 <= w && cap > 0 && Chronological(ops) && EndsInAdd(ops)
    ensures var x := ops[|ops| - 1];
            var all, since := TimesOf(ops, x.key), SinceInsertion(ops, w, cap, x.key);
            && LastCount(ops, w, cap) == CountSince(since, x.time - w)
            && |since| <= |all|
            && LastCount(ops, w, cap) + CountSince(all[..|all| - |since|], x.time - w) == CountSince(all, x.time - w)
  {
    hide Run, SinceInsertion, CountSince, TimesOf, LastCount;
    var x := ops[|ops| - 1];
    var n := SinceIsSuffix(ops, w, cap, x.key);
    TimesOfOrdered(ops, x.key);
    BoundedSkew(ops, w, cap, 0, SinceInsertion(ops, w, cap, x.key));
    CountSplit(TimesOf(ops, x.key), n, x.time - w);
  }

  lemma RunAdd(l: seq<Op>, key: string, time: int64, w: int64, cap: nat)
    requires cap > 0
    ensures var (s, n) := WindowAdd(Run(l, w, cap).slots, key, time, w, cap);
            Run(l + [AddOp(key, time)], w, cap) == Outcome(s, Run(l, w, cap).counts + [n])
    ensures forall k :: TimesOf(l + [AddOp(key, time)], k) == TimesOf(l, k) + if key == k then [time] else []
  {
  }

  /** One hit of `a`, then one of each of the other keys. */
  function Crowd(a: string, t0: int64, ks: seq<string>, t1: int64, n: nat): (ops: seq<Op>)
    requires n <= |ks|
    ensures |ops| == n + 1
  {
    if n == 0 then [AddOp(a, t0)] else Crowd(a, t0, ks, t1, n - 1) + [AddOp(ks[n - 1], t1)]
  }

  /** The list after the crowd: the other keys, the last one first, and `a` behind them while there is room. */
  ghost predicate Crowded(s: seq<Slot>, a: string, ks: seq<string>, n: nat, cap: nat)
    requires n <= |ks|
  {
    && |s| == (if n < cap then n + 1 else cap)
    && (forall i :: 0 <= i < n && i < |s| ==> s[i].key == ks[n - 1 - i])
    && (n < cap ==> s[n].key == a)
  }

  lemma CrowdStep(s: seq<Slot>, a: string, ks: seq<string>, n: nat, now: int64, w: int64)
    requires n < |ks| && Crowded(s, a, ks, n, |ks|) && a !in ks
    requires forall i, j :: 0 <= i < j < |ks| ==> ks[i] != ks[j]
    ensures Crowded(WindowAdd(s, ks[n], now, w, |ks|).0, a, ks, n + 1, |ks|)
  {
    forall i | 0 <= i < |s| ensures s[i].key != ks[n] {
    }
    assert !Has(s, ks[n]);
  }

  lemma {:induction false} CrowdPushesOut(a: string, t0: int64, ks: seq<string>, t1: int64, n: nat, w: int64)
    requires n <= |ks| && |ks| > 0 && a !in ks
    requires forall i, j :: 0 <= i < j < |ks| ==> ks[i] != ks[j]
    ensures Crowded(Run(Crowd(a, t0, ks, t1, n), w, |ks|).slots, a, ks, n, |ks|)
    ensures TimesOf(Crowd(a, t0, ks, t1, n), a) == [t0]
  {
    hide Run, TimesOf, WindowAdd, Crowded;
    NothingRun(w, |ks|, a);
    if n == 0 {
      RunAdd([], a, t0, w, |ks|);
      assert [] + [AddOp(a, t0)] == [AddOp(a, t0)] && [] + [t0] == [t0];
      FirstSlot(a, t0, ks, w);
    } else {
      var l := Crowd(a, t0, ks, t1, n - 1);
      CrowdPushesOut(a, t0, ks, t1, n - 1, w);
      RunAdd(l, ks[n - 1], t1, w, |ks|);
      CrowdStep(Run(l, w, |ks|).slots, a, ks, n - 1, t1, w);
      assert [t0] + [] == [t0];
    }
  }

  lemma FirstSlot(a: string, now: int64, ks: seq<string>, w: int64)
    requires |ks| > 0
    ensures Crowded(WindowAdd([], a, now, w, |ks|).0, a, ks, 0, |ks|)
  {
  }

  /** Whatever the cap, one live key more is enough to under-count: as many other keys as there is room for evict `a`
      while its hit is still in the window. */
  lemma OneKeyTooMany(a: string, t0: int64, ks: seq<string>, t1: int64, t2: int64, w: int64)
    requires |ks| > 0 && a !in ks && forall i, j :: 0 <= i < j < |ks| ==> ks[i] != ks[j]
    requires 0 <= t0 <= t1 <= t2 && t2 - t0 <= w
    ensures var ops := Crowd(a, t0, ks, t1, |ks|) + [AddOp(a, t2)];
            var counts := Run(ops, w, |ks|).counts;
            counts != [] && counts[|counts| - 1] == 1 && CountSince(TimesOf(ops, a), t2 - w) == 2
  {
    hide Run, TimesOf, WindowAdd, CountSince;
    var l := Crowd(a, t0, ks, t1, |ks|);
    CrowdPushesOut(a, t0, ks, t1, |ks|, w);
    RunAdd(l, a, t2, w, |ks|);
    assert !Has(Run(l, w, |ks|).slots, a);
    FreshCountsOne(Run(l, w, |ks|).slots, a, t2, w, |ks|);
    CountSnoc([t0], t2, t2 - w);
    CountSnoc([], t0, t2 - w);
    assert [] + [t0] == [t0];
  }

  lemma FreshCountsOne(s: seq<Slot>, key: string, now: int64, w: int64, cap: nat)
    requires !Has(s, key) && 0 <= now && 0 <= w && cap > 0
    ensures WindowAdd(s, key, now, w, cap).1 == 1
  {
    assert Sub(now, w) == now - w;
    assert Lookup(s, key) + [now] == [now];
  }

  lemma CountSnoc(ts: seq<int>, t: int, cutoff: int)
    ensures CountSince([], cutoff) == 0
    ensures CountSince(ts + [t], cutoff) == CountSince(ts, cutoff) + if t >= cutoff then 1 else 0
  {
  }

  lemma NothingRun(w: int64, cap: nat, key: string)
    requires cap > 0
    ensures Run([], w, cap) == Outcome([], []) && TimesOf([], key) == []
  {
  }
}
