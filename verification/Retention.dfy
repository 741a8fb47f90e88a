/** What a shard can hold between two sweeps: the bound in keys and the bound in age. */
module Retention {
  import opened Int64
  import opened Recency
  import opened Windows
  import opened Dedups
  import opened WindowTheorems
  import opened Shards
  import opened LogSpec

  /** The last sweep: its event time and how many keys it left. */
  datatype Mark = Mark(at: int, kept: nat)

  /** Nothing was held at the start, which is as good as a sweep at the beginning of time. */
  function NeverSwept(c: Config): Mark {
    Mark(c.windowUS + MIN, 0)
  }

  function StateAfter(c: Config, es: seq<Occurrence>, threshold: int): ShardState
    requires c.Valid()
  {
    if es == [] then EMPTY
    else ObserveStep(c, StateAfter(c, es[..|es| - 1], threshold), es[|es| - 1], threshold).0
  }

  /** The last sweep of the run. */
  function MarkAfter(c: Config, es: seq<Occurrence>, threshold: int): Mark
    requires c.Valid()
  {
    if es == [] then NeverSwept(c)
    else
      var l, ev := es[..|es| - 1], es[|es| - 1];
      var st := StateAfter(c, l, threshold);
      var (st', v) := ObserveStep(c, st, ev, threshold);
      if !v.dup && st.sinceSweep + 1 >= SWEEP_EVERY then Mark(ev.time, |st'.window|) else MarkAfter(c, l, threshold)
  }

  ghost predicate Bounded(c: Config, st: ShardState, m: Mark, t: int) {
    && Distinct(st.window) && Sorted(st.window, t) && |st.window| <= c.windowKeys
    && st.sinceSweep < SWEEP_EVERY && |st.window| <= m.kept + st.sinceSweep && m.at - c.windowUS <= t
    && forall i :: 0 <= i < |st.window| ==> Last(st.window[i].times) >= m.at - c.windowUS
  }

  /** An add keeps the window sorted, puts the event in front and lets it grow by at most one. */
  lemma AddFacts(s: seq<Slot>, t: int, key: string, now: int64, w: int64, cap: nat)
    requires Distinct(s) && Sorted(s, t) && |s| <= cap && cap > 0 && t <= now && 0 <= w && 0 <= now
    ensures var s' := WindowAdd(s, key, now, w, cap).0;
            && Distinct(s') && Sorted(s', now) && |s'| <= cap && |s'| <= |s| + 1
            && Last(s'[0].times) == now
            && forall i :: 1 <= i < |s'| ==> s'[i] in s
  {
    hide Trim, Distinct, Sorted;
    var ts := Trim(Lookup(s, key) + [now], now - w);
    History.TrimPushed(Lookup(s, key), now, now - w);
    TouchDistinct(s, key, ts, cap);
    TouchSorted(s, t, key, ts, now, cap);
    forall i | 1 <= i < |Touch(s, key, ts, cap)| ensures Touch(s, key, ts, cap)[i] in s {
      TouchOrigin(s, key, ts, cap, i);
    }
  }

  lemma ObserveWindow(c: Config, st: ShardState, ev: Occurrence, threshold: int)
    requires c.Valid()
    ensures var (st', v) := ObserveStep(c, st, ev, threshold);
            && v.dup == DedupSeen(st.dedup, ev.dedup, ev.time, c.dedupUS, c.dedupKeys).1
            && var counted := Counted(c, st, ev.subject, ev.time);
               st'.window == (if v.dup then st.window else counted.window)
               && st'.sinceSweep == (if v.dup then st.sinceSweep else counted.sinceSweep)
  {
  }

  lemma SweptFacts(s: seq<Slot>, t: int, now: int64, w: int64)
    requires Distinct(s) && Sorted(s, t) && t <= now && 0 <= w && 0 <= now
    ensures var s' := WindowSweep(s, now, w);
            && Distinct(s') && Sorted(s', now) && |s'| <= |s|
            && forall i :: 0 <= i < |s'| ==> Last(s'[i].times) >= now - w
  {
    var n := AliveIsPrefix(s, t, now - w);
  }

  lemma ObserveBounded(c: Config, st: ShardState, m: Mark, t: int, ev: Occurrence, threshold: int)
    requires Windowed(c) && Bounded(c, st, m, t) && t <= ev.time && 0 <= ev.time
    ensures var (st', v) := ObserveStep(c, st, ev, threshold);
            var m' := if !v.dup && st.sinceSweep + 1 >= SWEEP_EVERY then Mark(ev.time, |st'.window|) else m;
            Bounded(c, st', m', ev.time)
  {
    hide WindowAdd, WindowSweep, ObserveStep, Distinct;
    ObserveWindow(c, st, ev, threshold);
    AddFacts(st.window, t, ev.subject, ev.time, c.windowUS, c.windowKeys);
    var s := WindowAdd(st.window, ev.subject, ev.time, c.windowUS, c.windowKeys).0;
    SweptFacts(s, ev.time, ev.time, c.windowUS);
  }

  /** Bounded in size and in age: after any in-order run a shard holds at most its cap, at most the keys
      that survived the last sweep plus the events accepted since, and no key whose last occurrence was
      already out of the window at that sweep. */
  lemma {:induction false} RetentionIsBounded(c: Config, es: seq<Occurrence>, threshold: int)
    requires Windowed(c) && NonDecreasing(es)
    ensures Bounded(c, StateAfter(c, es, threshold), MarkAfter(c, es, threshold), if es == [] then 0 else es[|es| - 1].time)
  {
    hide Bounded, ObserveStep;
    if es == [] {
      EmptyBounded(c);
    } else {
      var l := es[..|es| - 1];
      RetentionIsBounded(c, l, threshold);
      ObserveBounded(c, StateAfter(c, l, threshold), MarkAfter(c, l, threshold), if l == [] then 0 else l[|l| - 1].time,
                     es[|es| - 1], threshold);
    }
  }

  /** The events that were not duplicates. */
  function Accepted(c: Config, es: seq<Occurrence>, threshold: int): nat
    requires c.Valid()
  {
    if es == [] then 0
    else
      var l, ev := es[..|es| - 1], es[|es| - 1];
      Accepted(c, l, threshold) + if ObserveStep(c, StateAfter(c, l, threshold), ev, threshold).1.dup then 0 else 1
  }

  /** In any run, in order or not, the window is swept at each 2048th accepted event: the counter is what is left over. */
  lemma {:induction false} SweepsOnSchedule(c: Config, es: seq<Occurrence>, threshold: int)
    requires c.Valid()
    ensures StateAfter(c, es, threshold).sinceSweep == Accepted(c, es, threshold) % 2048
  {
    hide ObserveStep, WindowAdd, WindowSweep;
    if es != [] {
      SweepsOnSchedule(c, es[..|es| - 1], threshold);
      ObserveWindow(c, StateAfter(c, es[..|es| - 1], threshold), es[|es| - 1], threshold);
    }
  }

  lemma EmptyBounded(c: Config)
    requires Windowed(c)
    ensures Bounded(c, EMPTY, NeverSwept(c), 0)
  {
  }
}
