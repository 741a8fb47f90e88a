/** Replayed events are absorbed: feeding them again changes no state and adds no alert. */
module Replay {
  import opened Int64
  import opened Recency
  import opened Dedups
  import opened History
  import opened Shards
  import opened LogSpec
  import opened Refinement
  import opened Sharding

  /** `feed` is `es` with events that were already observed fed again in between, each while its
      dedup key is still remembered by the shard of its subject. */
  ghost predicate ReplayOf(c: Config, hash: string -> nat, n: nat, es: seq<Occurrence>, feed: seq<Occurrence>,
                           threshold: int)
    requires c.Valid() && n > 0
    decreases |feed|
  {
    if feed == [] then es == []
    else
      var x, before := feed[|feed| - 1], feed[..|feed| - 1];
      || (es != [] && es[|es| - 1] == x && ReplayOf(c, hash, n, es[..|es| - 1], before, threshold))
      || (x in es && ReplayOf(c, hash, n, es, before, threshold)
          && Has(StateFor(hash, RunSet(c, hash, n, before, threshold).states, x.subject).dedup, x.dedup))
  }

  // ----- what a shard remembers is recent enough to recognise a replay -----

  /** The time recorded for the key, if any, lies no more than a dedup window before the event. */
  ghost predicate Covers(c: Config, st: ShardState, ev: Occurrence) {
    Has(st.dedup, ev.dedup) ==>
      Lookup(st.dedup, ev.dedup) != [] && Last(Lookup(st.dedup, ev.dedup)) >= ev.time - c.dedupUS
  }

  ghost predicate Sound(c: Config, st: ShardState, t: int) {
    && Distinct(st.dedup) && |st.dedup| <= c.dedupKeys
    && forall i :: 0 <= i < |st.dedup| ==> st.dedup[i].times != [] && 0 <= Last(st.dedup[i].times) <= t
  }

  lemma ObserveDedup(c: Config, st: ShardState, ev: Occurrence, threshold: int)
    requires c.Valid()
    ensures ObserveStep(c, st, ev, threshold).0.dedup == DedupSeen(st.dedup, ev.dedup, ev.time, c.dedupUS, c.dedupKeys).0
    ensures ObserveStep(c, st, ev, threshold).1.dup == DedupSeen(st.dedup, ev.dedup, ev.time, c.dedupUS, c.dedupKeys).1
  {
  }

  lemma ObserveKeepsSound(c: Config, st: ShardState, t: int, ev: Occurrence, threshold: int)
    requires Windowed(c) && Sound(c, st, t) && t <= ev.time && 0 <= ev.time
    ensures Sound(c, ObserveStep(c, st, ev, threshold).0, ev.time)
  {
    hide ObserveStep, Distinct, Touch;
    ObserveDedup(c, st, ev, threshold);
    TouchDistinct(st.dedup, ev.dedup, [ev.time], c.dedupKeys);
    var s' := Touch(st.dedup, ev.dedup, [ev.time], c.dedupKeys);
    TouchIs(st.dedup, ev.dedup, [ev.time], c.dedupKeys);
    forall i | 1 <= i < |s'| ensures s'[i].times != [] && 0 <= Last(s'[i].times) <= ev.time {
      TouchOrigin(st.dedup, ev.dedup, [ev.time], c.dedupKeys, i);
    }
  }

  /** Observing `ev` keeps every earlier event covered, and covers `ev` itself. */
  lemma ObserveKeepsCover(c: Config, st: ShardState, t: int, ev: Occurrence, earlier: Occurrence, threshold: int)
    requires Windowed(c) && Sound(c, st, t) && t <= ev.time && 0 <= ev.time
    requires earlier == ev || (Covers(c, st, earlier) && earlier.time <= ev.time)
    ensures Covers(c, ObserveStep(c, st, ev, threshold).0, earlier)
  {
    hide ObserveStep, Touch, Distinct;
    ObserveDedup(c, st, ev, threshold);
    var s, s' := st.dedup, Touch(st.dedup, ev.dedup, [ev.time], c.dedupKeys);
    TouchDistinct(s, ev.dedup, [ev.time], c.dedupKeys);
    TouchIs(s, ev.dedup, [ev.time], c.dedupKeys);
    if earlier.dedup == ev.dedup {
      IndexIs(s', 0);
    } else if Has(s', earlier.dedup) {
      var i := IndexOf(s', earlier.dedup);
      TouchOrigin(s, ev.dedup, [ev.time], c.dedupKeys, i);
      IndexIs(s, Origin(s, ev.dedup, i));
    }
  }

  /** A covered event whose key is remembered is a duplicate, and a duplicate changes nothing. */
  lemma ReplayIsNoOp(c: Config, st: ShardState, t: int64, ev: Occurrence, threshold: int)
    requires Windowed(c) && Sound(c, st, t) && 0 <= ev.time
    requires Has(st.dedup, ev.dedup) && Covers(c, st, ev)
    ensures ObserveStep(c, st, ev, threshold) == (st, Verdict(0, true, false))
  {
  }

  // ----- runs -----

  ghost predicate AllCovered(c: Config, hash: string -> nat, sts: seq<ShardState>, es: seq<Occurrence>, t: int)
    requires sts != []
  {
    && (forall i :: 0 <= i < |sts| ==> Sound(c, sts[i], t))
    && (forall x :: x in es ==> Covers(c, StateFor(hash, sts, x.subject), x) && 0 <= x.time <= t)
  }

  lemma SetStepCovers(c: Config, hash: string -> nat, sts: seq<ShardState>, es: seq<Occurrence>, t: int, ev: Occurrence,
                      threshold: int)
    requires Windowed(c) && sts != [] && AllCovered(c, hash, sts, es, t) && t <= ev.time && 0 <= ev.time
    ensures AllCovered(c, hash, SetStep(c, hash, sts, ev, threshold).0, es + [ev], ev.time)
  {
    hide Covers, Sound, ObserveStep, ShardOf;
    var sts' := SetStep(c, hash, sts, ev, threshold).0;
    var k := ShardOf(hash, |sts|, ev.subject);
    forall i | 0 <= i < |sts| ensures Sound(c, sts'[i], ev.time) {
      if i == k {
        ObserveKeepsSound(c, sts[i], t, ev, threshold);
      } else {
        SoundLater(c, sts[i], t, ev.time);
      }
    }
    forall x | x in es + [ev] ensures Covers(c, StateFor(hash, sts', x.subject), x) {
      if ShardOf(hash, |sts|, x.subject) == k {
        ObserveKeepsCover(c, sts[k], t, ev, x, threshold);
      }
    }
  }

  lemma SoundLater(c: Config, st: ShardState, t: int, t': int)
    requires Sound(c, st, t) && t <= t'
    ensures Sound(c, st, t')
  {
  }

  lemma {:induction false} RunCovers(c: Config, hash: string -> nat, n: nat, es: seq<Occurrence>, threshold: int)
    requires Windowed(c) && n > 0 && NonDecreasing(es)
    ensures AllCovered(c, hash, RunSet(c, hash, n, es, threshold).states, es, if es == [] then 0 else es[|es| - 1].time)
  {
    hide AllCovered, SetStep;
    if es == [] {
      NothingCovered(c, hash, n);
    } else {
      var l, ev := es[..|es| - 1], es[|es| - 1];
      RunCovers(c, hash, n, l, threshold);
      var t := if l == [] then 0 else l[|l| - 1].time;
      SetStepCovers(c, hash, RunSet(c, hash, n, l, threshold).states, l, t, ev, threshold);
      assert es == l + [ev];
    }
  }

  lemma NothingCovered(c: Config, hash: string -> nat, n: nat)
    requires n > 0
    ensures AllCovered(c, hash, seq(n, i => EMPTY), [], 0)
  {
  }

  /** The occurrences that raised an alert, in order. */
  function AlertsOf(es: seq<Occurrence>, vs: seq<Verdict>): seq<Occurrence>
    requires |es| == |vs|
  {
    if es == [] then []
    else AlertsOf(es[..|es| - 1], vs[..|vs| - 1]) + if vs[|vs| - 1].alert then [es[|es| - 1]] else []
  }

  lemma AlertsSnoc(es: seq<Occurrence>, vs: seq<Verdict>, x: Occurrence, v: Verdict)
    requires |es| == |vs|
    ensures AlertsOf(es + [x], vs + [v]) == if v.alert then AlertsOf(es, vs) + [x] else AlertsOf(es, vs)
  {
  }

  lemma RunSnoc(c: Config, hash: string -> nat, n: nat, es: seq<Occurrence>, x: Occurrence, threshold: int)
    requires c.Valid() && n > 0
    ensures var r := RunSet(c, hash, n, es, threshold);
            var (sts, v) := SetStep(c, hash, r.states, x, threshold);
            RunSet(c, hash, n, es + [x], threshold) == SetRun(sts, r.verdicts + [v])
  {
  }

  /** Feeding an in-order stream with any number of absorbed replays ends in the same state and
      raises the same alerts in the same order as feeding the stream once. */
  lemma {:induction false} ReplaysAreAbsorbed(c: Config, hash: string -> nat, n: nat, es: seq<Occurrence>,
                                              feed: seq<Occurrence>, threshold: int)
    requires Windowed(c) && n > 0 && NonDecreasing(es)
    requires ReplayOf(c, hash, n, es, feed, threshold)
    ensures RunSet(c, hash, n, feed, threshold).states == RunSet(c, hash, n, es, threshold).states
    ensures AlertsOf(feed, RunSet(c, hash, n, feed, threshold).verdicts)
         == AlertsOf(es, RunSet(c, hash, n, es, threshold).verdicts)
    decreases |feed|
  {
    hide RunSet, SetStep, AlertsOf, Has;
    if feed != [] {
      var x, before := feed[|feed| - 1], feed[..|feed| - 1];
      assert feed == before + [x];
      RunSnoc(c, hash, n, before, x, threshold);
      var v := SetStep(c, hash, RunSet(c, hash, n, before, threshold).states, x, threshold).1;
      AlertsSnoc(before, RunSet(c, hash, n, before, threshold).verdicts, x, v);
      if es != [] && es[|es| - 1] == x && ReplayOf(c, hash, n, es[..|es| - 1], before, threshold) {
        var l := es[..|es| - 1];
        assert es == l + [x];
        ReplaysAreAbsorbed(c, hash, n, l, before, threshold);
        RunSnoc(c, hash, n, l, x, threshold);
        AlertsSnoc(l, RunSet(c, hash, n, l, threshold).verdicts, x, v);
      } else {
        ReplaysAreAbsorbed(c, hash, n, es, before, threshold);
        ReplayStep(c, hash, n, es, x, threshold);
      }
    }
  }

  lemma ReplayStep(c: Config, hash: string -> nat, n: nat, es: seq<Occurrence>, x: Occurrence, threshold: int)
    requires Windowed(c) && n > 0 && NonDecreasing(es) && x in es
    requires Has(StateFor(hash, RunSet(c, hash, n, es, threshold).states, x.subject).dedup, x.dedup)
    ensures SetStep(c, hash, RunSet(c, hash, n, es, threshold).states, x, threshold)
         == (RunSet(c, hash, n, es, threshold).states, Verdict(0, true, false))
  {
    hide RunSet, Has, ObserveStep, ShardOf, Sound, Covers;
    RunCovers(c, hash, n, es, threshold);
    var sts := RunSet(c, hash, n, es, threshold).states;
    ReplayIsNoOp(c, StateFor(hash, sts, x.subject), es[|es| - 1].time, x, threshold);
    var k := ShardOf(hash, n, x.subject);
    assert sts[k := sts[k]] == sts;
  }

  // ----- enough room keeps every recent key -----

  /** Two events with the same dedup key are more than a dedup window apart. */
  ghost predicate SpacedKeys(c: Config, es: seq<Occurrence>) {
    forall i, j :: 0 <= i < j < |es| && es[i].dedup == es[j].dedup ==> es[i].time < es[j].time - c.dedupUS
  }

  lemma {:induction false} HitsComeFromLog(log: Log)
    ensures forall h :: h in DedupHits(log) ==>
              exists i :: 0 <= i < |log| && log[i].ev.dedup == h.key && log[i].ev.time == h.time
    ensures forall x :: x in log && !x.verdict.dup ==> Hit(x.ev.dedup, x.ev.time) in DedupHits(log)
  {
    if log != [] {
      var l, x := log[..|log| - 1], log[|log| - 1];
      HitsComeFromLog(l);
      assert log == l + [x];
      HitsSnoc(l, x);
      ExtendMembers(DedupHits(l), !x.verdict.dup, Hit(x.ev.dedup, x.ev.time));
      forall h | h in DedupHits(log)
        ensures exists i :: 0 <= i < |log| && log[i].ev.dedup == h.key && log[i].ev.time == h.time
      {
        if h in DedupHits(l) {
          var i :| 0 <= i < |l| && l[i].ev.dedup == h.key && l[i].ev.time == h.time;
          assert log[i].ev.dedup == h.key;
        } else {
          assert log[|l|].ev.dedup == h.key;
        }
      }
    }
  }

  lemma {:induction false} SpacedAreNeverDuplicates(c: Config, es: seq<Occurrence>, threshold: int)
    requires SpacedKeys(c, es)
    ensures forall x :: x in SpecLog(c, es, threshold) ==> !x.verdict.dup
  {
    if es != [] {
      var l, ev := es[..|es| - 1], es[|es| - 1];
      var log := SpecLog(c, l, threshold);
      SpacedAreNeverDuplicates(c, l, threshold);
      SpecLogEvents(c, l, threshold);
      HitsComeFromLog(log);
      assert forall i :: 0 <= i < |log| && log[i].ev.dedup == ev.dedup ==> es[i].time < ev.time - c.dedupUS;
      assert ev.dedup !in KeysSince(DedupHits(log), ev.time - c.dedupUS);
    }
  }

  /** While the caps of its shard suffice, an accepted event is remembered for at least a dedup window of what
      its shard sees, however often its key occurs. */
  lemma RecentIsRemembered(c: Config, hash: string -> nat, n: nat, es: seq<Occurrence>, threshold: int, k: nat)
    requires Windowed(c) && n > 0 && k < |es|
    requires var log := SpecLog(c, es, threshold);
             && OrderedInShards(hash, n, log) && FitsInShards(c, hash, n, log) && Colocated(hash, n, log)
             && |log| == |es| && !log[k].verdict.dup
             && es[k].time >= LastTime(ShardLog(log, hash, n, ShardOf(hash, n, es[k].subject))) - c.dedupUS
    ensures Has(StateFor(hash, RunSet(c, hash, n, es, threshold).states, es[k].subject).dedup, es[k].dedup)
  {
    hide RunSet, Has, Tracks, ShardOf, FitsInShards, OrderedInShards, Colocated, TableOf, Timed, MarkMap, SpecVerdict;
    hide SpecLog, ShardLog;
    var log, i := SpecLog(c, es, threshold), ShardOf(hash, n, es[k].subject);
    ShardsRefineLog(c, hash, n, es, threshold);
    var st, part := RunSet(c, hash, n, es, threshold).states[i], ShardLog(log, hash, n, i);
    var t := LastTime(part);
    assert Rel(c, st, part, t);
    SpecLogEvents(c, es, threshold);
    ShardLogMembers(log, hash, n, i);
    assert log[k] in log && log[k].ev == es[k];
    HitsComeFromLog(part);
    HitsTimed(part, t);
    MarkMapFacts(DedupHits(part), t);
    LiveIsSince(DedupHits(part), MarkMap(DedupHits(part)), t - c.dedupUS);
    TracksLookup(st.dedup, MarkMap(DedupHits(part)), t, c.dedupUS, es[k].dedup);
  }
}
