/** One shard of bounded structures answers like the unbounded log, while its caps suffice. */
module Refinement {
  import opened Int64
  import opened Sets
  import opened Recency
  import opened Windows
  import opened History
  import opened WindowTheorems
  import opened Dedups
  import opened DedupTheorems
  import opened Throttles
  import opened Shards
  import opened LogSpec

  /** The table holds the last alert time of every subject that alerted. */
  ghost predicate TableOf(last: Table, h: seq<Hit>) {
    && (forall k :: k in last ==> Hit(k, last[k]) in h)
    && (forall x :: x in h ==> x.key in last && x.time <= last[x.key])
  }

  /** The shard state stands for the log at time `t`. */
  ghost predicate Rel(c: Config, st: ShardState, log: Log, t: int)
  {
    && Timed(log, t)
    && Tracks(st.window, StampMap(SubjectHits(log), c.windowUS), t, c.windowUS) && |st.window| <= c.windowKeys
    && Tracks(st.dedup, MarkMap(DedupHits(log)), t, c.dedupUS) && |st.dedup| <= c.dedupKeys
    && TableOf(st.last, AlertHits(log))
  }

  lemma TracksLater(s: seq<Slot>, m: map<string, seq<int>>, t: int, w: int, t': int)
    requires Tracks(s, m, t, w) && t <= t'
    ensures Tracks(s, m, t', w)
  {
  }

  lemma RelLater(c: Config, st: ShardState, log: Log, t: int, t': int)
    requires Rel(c, st, log, t) && t <= t'
    ensures Rel(c, st, log, t')
  {
    hide Tracks;
    TracksLater(st.window, StampMap(SubjectHits(log), c.windowUS), t, c.windowUS, t');
    TracksLater(st.dedup, MarkMap(DedupHits(log)), t, c.dedupUS, t');
  }

  lemma TableKeys(last: Table, h: seq<Hit>)
    requires TableOf(last, h)
    ensures last.Keys == set x | x in h :: x.key
  {
  }

  /** Below its cap the throttle answers from the last alert of the subject. */
  lemma AllowIsQuiet(last: Table, h: seq<Hit>, t: int, key: string, now: int64, interval: int64, cap: nat)
    requires TableOf(last, h) && InOrder(h, t) && 0 <= t <= now && 0 <= interval && |last| < cap
    requires forall x :: x in h ==> 0 <= x.time
    ensures var (last', ok) := ThrottleAllow(last, key, now, interval, cap);
            && (ok <==> key !in KeysSince(h, now - interval + 1))
            && TableOf(last', if ok then h + [Hit(key, now)] else h)
  {
  }

  /** The counting half keeps the window exact, whether or not a sweep was due. */
  lemma CountedIsExact(c: Config, st: ShardState, h: seq<Hit>, t: int, subject: string, now: int64)
    requires Windowed(c) && Tracks(st.window, StampMap(h, c.windowUS), t, c.windowUS) && |st.window| <= c.windowKeys
    requires InOrder(h, t) && 0 <= t <= now
    requires |KeysSince(h + [Hit(subject, now)], now - c.windowUS)| <= c.windowKeys
    ensures var st' := Counted(c, st, subject, now);
            && Tracks(st'.window, StampMap(h + [Hit(subject, now)], c.windowUS), now, c.windowUS)
            && |st'.window| <= c.windowKeys && st'.dedup == st.dedup && st'.last == st.last
    ensures WindowAdd(st.window, subject, now, c.windowUS, c.windowKeys).1
         == |TimesSince(h, subject, now - c.windowUS)| + 1
  {
    hide Tracks, StampMap, InOrder, WindowAdd, KeysSince, TimesSince;
    var h', w := h + [Hit(subject, now)], c.windowUS;
    AddIsExact(st.window, h, t, w, subject, now, c.windowKeys);
    Snoc(h, Hit(subject, now), w, subject, now - w);
    var s := WindowAdd(st.window, subject, now, w, c.windowKeys).0;
    SweepTracks(s, StampMap(h', w), now, w, now);
  }

  lemma TimedSnoc(log: Log, t: int, x: Logged)
    requires Timed(log, t) && 0 <= t <= x.ev.time
    ensures Timed(log + [x], x.ev.time)
  {
  }

  /** A duplicate is recognised from the log and changes nothing. */
  lemma DuplicateStep(c: Config, st: ShardState, log: Log, t: int, ev: Occurrence, threshold: int)
    requires Windowed(c) && Rel(c, st, log, t) && 0 <= t <= ev.time
    ensures Remembered(st.dedup, ev.dedup, ev.time, c.dedupUS) <==> SpecVerdict(c, log, ev, threshold).dup
    ensures var v := Verdict(0, true, false);
            SpecVerdict(c, log, ev, threshold).dup ==>
              && SpecVerdict(c, log, ev, threshold) == v
              && ObserveStep(c, st, ev, threshold) == (st, v)
              && Rel(c, st, log + [Logged(ev, v)], ev.time)
  {
    hide Tracks, KeysSince, TimesSince, StampMap, MarkMap, Counted, Remembered, WindowAdd, Touch;
    HitsTimed(log, t);
    DuplicateIsSince(st.dedup, DedupHits(log), t, c.dedupUS, ev.dedup, ev.time);
    var x := Logged(ev, Verdict(0, true, false));
    HitsSnoc(log, x);
    TimedSnoc(log, t, x);
    RelLater(c, st, log, t, ev.time);
  }

  lemma FitsNow(c: Config, log: Log, ev: Occurrence, v: Verdict)
    requires Fits(c, log + [Logged(ev, v)]) && !v.dup
    ensures |KeysSince(SubjectHits(log) + [Hit(ev.subject, ev.time)], ev.time - c.windowUS)| <= c.windowKeys
    ensures |KeysSince(DedupHits(log) + [Hit(ev.dedup, ev.time)], ev.time - c.dedupUS)| <= c.dedupKeys
    ensures |AlertKeys(log)| < c.throttleKeys
  {
    hide KeysSince, SubjectHits, DedupHits, AlertHits;
    HitsSnoc(log, Logged(ev, v));
    assert AlertKeys(log) <= AlertKeys(log + [Logged(ev, v)]);
    SubsetSize(AlertKeys(log), AlertKeys(log + [Logged(ev, v)]));
  }

  /** An accepted event is counted and alerted as the log says. */
  lemma AcceptedStep(c: Config, st: ShardState, log: Log, t: int, ev: Occurrence, threshold: int)
    requires Windowed(c) && Rel(c, st, log, t) && 0 <= t <= ev.time
    requires !SpecVerdict(c, log, ev, threshold).dup
    requires Fits(c, log + [Logged(ev, SpecVerdict(c, log, ev, threshold))])
    ensures var v := SpecVerdict(c, log, ev, threshold);
            && ObserveStep(c, st, ev, threshold).1 == v
            && Rel(c, ObserveStep(c, st, ev, threshold).0, log + [Logged(ev, v)], ev.time)
  {
    hide Tracks, KeysSince, TimesSince, StampMap, MarkMap, Counted, Remembered, WindowAdd, Touch, Fits, Timed;
    hide TableOf, ThrottleAllow, InOrder, SubjectHits, DedupHits, AlertHits;
    var v := SpecVerdict(c, log, ev, threshold);
    var x := Logged(ev, v);
    DuplicateStep(c, st, log, t, ev, threshold);
    FitsNow(c, log, ev, v);
    HitsTimed(log, t);
    HitsSnoc(log, x);
    TimedSnoc(log, t, x);
    var st1 := st.(dedup := Touch(st.dedup, ev.dedup, [ev.time], c.dedupKeys));
    SeenKeepsTracking(st.dedup, DedupHits(log), t, c.dedupUS, ev.dedup, ev.time, c.dedupKeys);
    CountedIsExact(c, st1, SubjectHits(log), t, ev.subject, ev.time);
    TableKeys(st.last, AlertHits(log));
    assert |st.last.Keys| == |AlertKeys(log)|;
    AllowIsQuiet(st.last, AlertHits(log), t, ev.subject, ev.time, c.windowUS, c.throttleKeys);
  }

  /** One observation: the same verdict as the log, and the state still stands for the log. */
  lemma ObserveRefinesLog(c: Config, st: ShardState, log: Log, t: int, ev: Occurrence, threshold: int)
    requires Windowed(c) && Rel(c, st, log, t) && 0 <= t <= ev.time
    requires Fits(c, log + [Logged(ev, SpecVerdict(c, log, ev, threshold))])
    ensures var v := SpecVerdict(c, log, ev, threshold);
            && ObserveStep(c, st, ev, threshold).1 == v
            && Rel(c, ObserveStep(c, st, ev, threshold).0, log + [Logged(ev, v)], ev.time)
  {
    hide Rel, Fits, ObserveStep, SpecVerdict;
    if SpecVerdict(c, log, ev, threshold).dup {
      DuplicateStep(c, st, log, t, ev, threshold);
    } else {
      AcceptedStep(c, st, log, t, ev, threshold);
    }
  }
}
