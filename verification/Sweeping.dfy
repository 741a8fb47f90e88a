/** When a shard sweeps its window, or whether it ever does, never shows in a verdict (internal/handler/shard.go). */
module Sweeping {
  import opened Int64
  import opened Recency
  import opened Windows
  import opened Dedups
  import opened Throttles
  import opened WindowTheorems
  import opened Shards
  import opened LogSpec
  import opened Sharding

  /** The run of a set of shards that sweeps at other moments: before event `i` the counter of its shard is set to
      `pace[i]`. All zeros never sweeps, SWEEP_EVERY sweeps at every accepted event. */
  function PacedSet(c: Config, hash: string -> nat, n: nat, es: seq<Occurrence>, pace: seq<nat>, threshold: int): (r: SetRun)
    requires c.Valid() && n > 0 && |pace| == |es|
    ensures |r.states| == n && |r.verdicts| == |es|
  {
    if es == [] then SetRun(seq(n, i => EMPTY), [])
    else
      var k, ev := |es| - 1, es[|es| - 1];
      var r := PacedSet(c, hash, n, es[..k], pace[..k], threshold);
      var i := ShardOf(hash, n, ev.subject);
      var (sts, v) := SetStep(c, hash, r.states[i := r.states[i].(sinceSweep := pace[k])], ev, threshold);
      SetRun(sts, r.verdicts + [v])
  }

  function Never(k: nat): seq<nat> {
    seq(k, i => 0)
  }

  /** No time is negative, and the events of one shard are in order. */
  ghost predicate InOrderPerShard(hash: string -> nat, n: nat, es: seq<Occurrence>)
    requires n > 0
  {
    && (forall i :: 0 <= i < |es| ==> 0 <= es[i].time)
    && (forall i, j :: 0 <= i < j < |es| && ShardOf(hash, n, es[i].subject) == ShardOf(hash, n, es[j].subject) ==>
          es[i].time <= es[j].time)
  }

  /** The time of the last event of shard `i`. */
  ghost function LastIn(hash: string -> nat, n: nat, es: seq<Occurrence>, i: nat): int
    requires n > 0
  {
    if es == [] then 0
    else if ShardOf(hash, n, es[|es| - 1].subject) == i then es[|es| - 1].time
    else LastIn(hash, n, es[..|es| - 1], i)
  }

  lemma {:induction false} LastInIs(hash: string -> nat, n: nat, es: seq<Occurrence>, i: nat)
    requires n > 0
    ensures LastIn(hash, n, es, i) == 0
            || exists k :: 0 <= k < |es| && ShardOf(hash, n, es[k].subject) == i && es[k].time == LastIn(hash, n, es, i)
  {
    if es != [] && ShardOf(hash, n, es[|es| - 1].subject) != i {
      var l := es[..|es| - 1];
      LastInIs(hash, n, l, i);
      assert forall k :: 0 <= k < |l| ==> l[k] == es[k];
    }
  }

  /** The same but for stale keys that only `b` still holds. */
  ghost predicate Alike(c: Config, a: ShardState, b: ShardState, t: int) {
    && a.dedup == b.dedup && a.last == b.last
    && Chained(a.window, b.window, t, c.windowUS, c.windowKeys)
  }

  lemma CountedAlike(c: Config, a: ShardState, b: ShardState, t: int, subject: string, now: int64)
    requires Windowed(c) && Alike(c, a, b, t) && 0 <= t <= now && b.sinceSweep == 0
    ensures Alike(c, Counted(c, a, subject, now), Counted(c, b, subject, now), now)
    ensures WindowAdd(a.window, subject, now, c.windowUS, c.windowKeys).1
         == WindowAdd(b.window, subject, now, c.windowUS, c.windowKeys).1
  {
    hide WindowAdd, WindowSweep, Chained;
    AddBehind(a.window, b.window, t, c.windowUS, subject, now, c.windowKeys);
    SweepBehind(WindowAdd(a.window, subject, now, c.windowUS, c.windowKeys).0,
                WindowAdd(b.window, subject, now, c.windowUS, c.windowKeys).0, now, c.windowUS, now, c.windowKeys);
  }

  lemma ChainedLater(a: seq<Slot>, b: seq<Slot>, t: int, w: int, cap: nat, t': int)
    requires Chained(a, b, t, w, cap) && t <= t'
    ensures Chained(a, b, t', w, cap)
  {
  }

  /** Whatever its counter, the one answers like the other, which is not swept. */
  lemma ObserveAlike(c: Config, a: ShardState, b: ShardState, t: int, ev: Occurrence, threshold: int)
    requires Windowed(c) && Alike(c, a, b, t) && 0 <= t <= ev.time && b.sinceSweep == 0
    ensures ObserveStep(c, a, ev, threshold).1 == ObserveStep(c, b, ev, threshold).1
    ensures Alike(c, ObserveStep(c, a, ev, threshold).0, ObserveStep(c, b, ev, threshold).0, ev.time)
  {
    hide WindowAdd, Counted, Chained, DedupSeen, ThrottleAllow;
    var (marks, dup) := DedupSeen(a.dedup, ev.dedup, ev.time, c.dedupUS, c.dedupKeys);
    if dup {
      ChainedLater(a.window, b.window, t, c.windowUS, c.windowKeys, ev.time);
    } else {
      CountedAlike(c, a.(dedup := marks), b.(dedup := marks), t, ev.subject, ev.time);
    }
  }

  ghost predicate AllAlike(c: Config, hash: string -> nat, n: nat, es: seq<Occurrence>, a: seq<ShardState>,
                           b: seq<ShardState>)
    requires n > 0
  {
    |a| == |b| == n && forall i :: 0 <= i < n ==> Alike(c, a[i], b[i], LastIn(hash, n, es, i))
  }

  lemma SetAlike(c: Config, hash: string -> nat, n: nat, es: seq<Occurrence>, a: seq<ShardState>, b: seq<ShardState>,
                 k: nat, threshold: int)
    requires Windowed(c) && n > 0 && es != [] && InOrderPerShard(hash, n, es)
    requires AllAlike(c, hash, n, es[..|es| - 1], a, b)
    ensures var ev := es[|es| - 1];
            var i := ShardOf(hash, n, ev.subject);
            var (a', v) := SetStep(c, hash, a[i := a[i].(sinceSweep := k)], ev, threshold);
            var (b', v') := SetStep(c, hash, b[i := b[i].(sinceSweep := 0)], ev, threshold);
            v == v' && AllAlike(c, hash, n, es, a', b')
  {
    hide ObserveStep, ShardOf, Chained;
    var l, ev := es[..|es| - 1], es[|es| - 1];
    var i := ShardOf(hash, n, ev.subject);
    LastInIs(hash, n, l, i);
    ObserveAlike(c, a[i].(sinceSweep := k), b[i].(sinceSweep := 0), LastIn(hash, n, l, i), ev, threshold);
  }

  /** No pace of sweeping shows: every verdict is that of the shards that are never swept, also where the caps force
      evictions. What a swept shard holds is a prefix of what the other holds, and the rest is out of the window. */
  lemma {:induction false} PaceIsInvisible(c: Config, hash: string -> nat, n: nat, es: seq<Occurrence>, pace: seq<nat>,
                                           threshold: int)
    requires Windowed(c) && n > 0 && InOrderPerShard(hash, n, es) && |pace| == |es|
    ensures PacedSet(c, hash, n, es, pace, threshold).verdicts == PacedSet(c, hash, n, es, Never(|es|), threshold).verdicts
    ensures AllAlike(c, hash, n, es, PacedSet(c, hash, n, es, pace, threshold).states,
                     PacedSet(c, hash, n, es, Never(|es|), threshold).states)
  {
    hide SetStep, Alike, ShardOf;
    if es == [] {
      EmptyAlike(c, hash, n);
    } else {
      hide AllAlike;
      var k := |es| - 1;
      PaceIsInvisible(c, hash, n, es[..k], pace[..k], threshold);
      assert Never(|es|)[..k] == Never(k);
      SetAlike(c, hash, n, es, PacedSet(c, hash, n, es[..k], pace[..k], threshold).states,
               PacedSet(c, hash, n, es[..k], Never(k), threshold).states, pace[k], threshold);
    }
  }

  lemma EmptyAlike(c: Config, hash: string -> nat, n: nat)
    requires n > 0
    ensures AllAlike(c, hash, n, [], seq(n, i => EMPTY), seq(n, i => EMPTY))
  {
  }

  // ----- the program's own pace -----

  /** What the counter of the shard of each event is when the event comes. */
  function OwnPace(c: Config, hash: string -> nat, n: nat, es: seq<Occurrence>, threshold: int): (pace: seq<nat>)
    requires c.Valid() && n > 0
    ensures |pace| == |es|
  {
    if es == [] then []
    else
      var l := es[..|es| - 1];
      OwnPace(c, hash, n, l, threshold)
        + [RunSet(c, hash, n, l, threshold).states[ShardOf(hash, n, es[|es| - 1].subject)].sinceSweep]
  }

  lemma {:induction false} OwnPaceIsOwn(c: Config, hash: string -> nat, n: nat, es: seq<Occurrence>, threshold: int)
    requires c.Valid() && n > 0
    ensures PacedSet(c, hash, n, es, OwnPace(c, hash, n, es, threshold), threshold) == RunSet(c, hash, n, es, threshold)
  {
    hide SetStep, ShardOf;
    if es != [] {
      var l := es[..|es| - 1];
      OwnPaceIsOwn(c, hash, n, l, threshold);
      assert OwnPace(c, hash, n, es, threshold)[..|l|] == OwnPace(c, hash, n, l, threshold);
      var sts, i := RunSet(c, hash, n, l, threshold).states, ShardOf(hash, n, es[|l|].subject);
      assert sts[i := sts[i].(sinceSweep := sts[i].sinceSweep)] == sts;
    }
  }

  /** The verdicts of a set of shards are those of any other pace of sweeping, never included, whatever the caps. */
  lemma SweepPaceIsInvisible(c: Config, hash: string -> nat, n: nat, es: seq<Occurrence>, pace: seq<nat>, threshold: int)
    requires Windowed(c) && n > 0 && InOrderPerShard(hash, n, es) && |pace| == |es|
    ensures RunSet(c, hash, n, es, threshold).verdicts == PacedSet(c, hash, n, es, pace, threshold).verdicts
  {
    OwnPaceIsOwn(c, hash, n, es, threshold);
    PaceIsInvisible(c, hash, n, es, OwnPace(c, hash, n, es, threshold), threshold);
    PaceIsInvisible(c, hash, n, es, pace, threshold);
  }
}
