/** The whole set of shards answers like one unbounded log, whatever the hash and the shard count. */
module Sharding {
  import opened Sets
  import opened History
  import opened Shards
  import opened LogSpec
  import opened Refinement

  /** The entries of the log whose subject belongs to shard `i` of `n`. */
  function ShardLog(log: Log, hash: string -> nat, n: nat, i: nat): Log
    requires n > 0
  {
    if log == [] then []
    else
      var x := log[|log| - 1];
      var l := ShardLog(log[..|log| - 1], hash, n, i);
      if ShardOf(hash, n, x.ev.subject) == i then l + [x] else l
  }

  lemma ShardLogSnoc(log: Log, hash: string -> nat, n: nat, i: nat, x: Logged)
    requires n > 0
    ensures ShardLog(log + [x], hash, n, i)
         == if ShardOf(hash, n, x.ev.subject) == i then ShardLog(log, hash, n, i) + [x] else ShardLog(log, hash, n, i)
  {
  }

  /** Events with the same dedup key go to the same shard; it is enough that a dedup key
      determines its subject. */
  ghost predicate Colocated(hash: string -> nat, n: nat, log: Log)
    requires n > 0
  {
    forall x, y :: x in log && y in log && x.ev.dedup == y.ev.dedup ==>
      ShardOf(hash, n, x.ev.subject) == ShardOf(hash, n, y.ev.subject)
  }

  // ----- a shard's part of the log has the same hits of its subjects -----

  lemma ExtendMembers(h: seq<Hit>, more: bool, x: Hit)
    ensures forall y :: y in Extend(h, more, x) <==> y in h || (more && y == x)
  {
  }

  lemma {:induction false} ShardSubjects(log: Log, hash: string -> nat, n: nat, i: nat, key: string, cutoff: int)
    requires n > 0
    ensures forall x :: x in SubjectHits(ShardLog(log, hash, n, i)) ==> x in SubjectHits(log)
    ensures ShardOf(hash, n, key) == i ==>
              TimesSince(SubjectHits(ShardLog(log, hash, n, i)), key, cutoff) == TimesSince(SubjectHits(log), key, cutoff)
  {
    if log != [] {
      hide ShardOf;
      var l, x := log[..|log| - 1], log[|log| - 1];
      var hit := Hit(x.ev.subject, x.ev.time);
      ShardSubjects(l, hash, n, i, key, cutoff);
      assert log == l + [x];
      HitsSnoc(l, x);
      HitsSnoc(ShardLog(l, hash, n, i), x);
      Snoc(SubjectHits(l), hit, 0, key, cutoff);
      Snoc(SubjectHits(ShardLog(l, hash, n, i)), hit, 0, key, cutoff);
    }
  }

  lemma {:induction false} ShardAlerts(log: Log, hash: string -> nat, n: nat, i: nat)
    requires n > 0
    ensures forall x :: x in AlertHits(ShardLog(log, hash, n, i)) <==>
                        x in AlertHits(log) && ShardOf(hash, n, x.key) == i
  {
    if log != [] {
      var l, x := log[..|log| - 1], log[|log| - 1];
      ShardAlerts(l, hash, n, i);
      assert log == l + [x];
      HitsSnoc(l, x);
      HitsSnoc(ShardLog(l, hash, n, i), x);
    }
  }

  lemma {:induction false} ShardDedups(log: Log, hash: string -> nat, n: nat, i: nat)
    requires n > 0
    ensures forall x :: x in DedupHits(ShardLog(log, hash, n, i)) ==> x in DedupHits(log)
    ensures forall h :: h in DedupHits(log) ==>
              exists x :: x in log && x.ev.dedup == h.key
                       && (ShardOf(hash, n, x.ev.subject) == i ==> h in DedupHits(ShardLog(log, hash, n, i)))
  {
    if log != [] {
      var l, x := log[..|log| - 1], log[|log| - 1];
      ShardDedups(l, hash, n, i);
      assert log == l + [x];
      HitsSnoc(l, x);
      HitsSnoc(ShardLog(l, hash, n, i), x);
      forall h | h in DedupHits(log)
        ensures exists x :: x in log && x.ev.dedup == h.key
                         && (ShardOf(hash, n, x.ev.subject) == i ==> h in DedupHits(ShardLog(log, hash, n, i)))
      {
        if h in DedupHits(l) {
          var y :| y in l && y.ev.dedup == h.key
                && (ShardOf(hash, n, y.ev.subject) == i ==> h in DedupHits(ShardLog(l, hash, n, i)));
          assert y in log;
        } else {
          assert x in log;
        }
      }
    }
  }

  /** The log of the subject's shard is all that the verdict depends on. */
  lemma VerdictIsLocal(c: Config, hash: string -> nat, n: nat, log: Log, ev: Occurrence, v: Verdict, threshold: int)
    requires n > 0 && Colocated(hash, n, log + [Logged(ev, v)])
    ensures SpecVerdict(c, ShardLog(log, hash, n, ShardOf(hash, n, ev.subject)), ev, threshold)
         == SpecVerdict(c, log, ev, threshold)
  {
    hide ShardOf, ShardLog, SubjectHits, DedupHits, AlertHits, TimesSince;
    var i := ShardOf(hash, n, ev.subject);
    var part, now := ShardLog(log, hash, n, i), ev.time;
    ShardSubjects(log, hash, n, i, ev.subject, now - c.windowUS);
    ShardAlerts(log, hash, n, i);
    ShardDedups(log, hash, n, i);
    SameDuplicates(c, hash, n, log, ev, v);
  }

  lemma SameDuplicates(c: Config, hash: string -> nat, n: nat, log: Log, ev: Occurrence, v: Verdict)
    requires n > 0 && Colocated(hash, n, log + [Logged(ev, v)])
    ensures var part := ShardLog(log, hash, n, ShardOf(hash, n, ev.subject));
            ev.dedup in KeysSince(DedupHits(part), ev.time - c.dedupUS)
            <==> ev.dedup in KeysSince(DedupHits(log), ev.time - c.dedupUS)
  {
    hide ShardOf, ShardLog, DedupHits;
    var i := ShardOf(hash, n, ev.subject);
    ShardDedups(log, hash, n, i);
    var cutoff := ev.time - c.dedupUS;
    if ev.dedup in KeysSince(DedupHits(log), cutoff) {
      var h :| h in DedupHits(log) && h.time >= cutoff && h.key == ev.dedup;
      var x :| x in log && x.ev.dedup == h.key
            && (ShardOf(hash, n, x.ev.subject) == i ==> h in DedupHits(ShardLog(log, hash, n, i)));
      var e := Logged(ev, v);
      assert x in log + [e] && e in log + [e];
      assert h in DedupHits(ShardLog(log, hash, n, i));
    }
  }

  lemma PartIsSmaller(c: Config, log: Log, hash: string -> nat, n: nat, i: nat, now: int)
    requires n > 0
    ensures var part := ShardLog(log, hash, n, i);
            && KeysSince(SubjectHits(part), now - c.windowUS) <= KeysSince(SubjectHits(log), now - c.windowUS)
            && KeysSince(DedupHits(part), now - c.dedupUS) <= KeysSince(DedupHits(log), now - c.dedupUS)
            && AlertKeys(part) <= AlertKeys(log)
  {
    hide ShardOf, ShardLog, SubjectHits, DedupHits, AlertHits;
    ShardSubjects(log, hash, n, i, "", 0);
    ShardAlerts(log, hash, n, i);
    ShardDedups(log, hash, n, i);
  }

  /** What fits the caps as a whole fits them in each shard. */
  lemma FitIsLocal(c: Config, hash: string -> nat, n: nat, log: Log, x: Logged)
    requires n > 0 && Fits(c, log + [x])
    ensures Fits(c, ShardLog(log, hash, n, ShardOf(hash, n, x.ev.subject)) + [x])
  {
    hide ShardOf, ShardLog, SubjectHits, DedupHits, AlertHits, KeysSince, AlertKeys;
    var i, whole := ShardOf(hash, n, x.ev.subject), log + [x];
    var part, now := ShardLog(whole, hash, n, i), x.ev.time;
    ShardLogSnoc(log, hash, n, i, x);
    PartIsSmaller(c, whole, hash, n, i, now);
    SubsetSize(KeysSince(SubjectHits(part), now - c.windowUS), KeysSince(SubjectHits(whole), now - c.windowUS));
    SubsetSize(KeysSince(DedupHits(part), now - c.dedupUS), KeysSince(DedupHits(whole), now - c.dedupUS));
    SubsetSize(AlertKeys(part), AlertKeys(whole));
  }

  // ----- runs -----

  function StateFor(hash: string -> nat, sts: seq<ShardState>, subject: string): ShardState
    requires sts != []
  {
    sts[ShardOf(hash, |sts|, subject)]
  }

  datatype SetRun = SetRun(states: seq<ShardState>, verdicts: seq<Verdict>)

  function RunSet(c: Config, hash: string -> nat, n: nat, es: seq<Occurrence>, threshold: int): (r: SetRun)
    requires c.Valid() && n > 0
    ensures |r.states| == n && |r.verdicts| == |es|
  {
    if es == [] then SetRun(seq(n, i => EMPTY), [])
    else
      var r := RunSet(c, hash, n, es[..|es| - 1], threshold);
      var (sts, v) := SetStep(c, hash, r.states, es[|es| - 1], threshold);
      SetRun(sts, r.verdicts + [v])
  }

  ghost function SpecVerdicts(log: Log): seq<Verdict> {
    seq(|log|, i requires 0 <= i < |log| => log[i].verdict)
  }

  function LastTime(log: Log): int {
    if log == [] then 0 else log[|log| - 1].ev.time
  }

  /** Each shard stands for its part of the log, at the time of the last event it has seen. */
  ghost predicate SetRel(c: Config, hash: string -> nat, sts: seq<ShardState>, log: Log) {
    sts != [] && forall i :: 0 <= i < |sts| ==>
      var part := ShardLog(log, hash, |sts|, i);
      Rel(c, sts[i], part, LastTime(part))
  }

  lemma SetStepRefines(c: Config, hash: string -> nat, sts: seq<ShardState>, log: Log, ev: Occurrence, threshold: int)
    requires Windowed(c) && SetRel(c, hash, sts, log)
    requires var x, part := Logged(ev, SpecVerdict(c, log, ev, threshold)),
                            ShardLog(log, hash, |sts|, ShardOf(hash, |sts|, ev.subject));
             && 0 <= LastTime(part) <= ev.time
             && Fits(c, part + [x]) && Colocated(hash, |sts|, log + [x])
    ensures var (sts', v) := SetStep(c, hash, sts, ev, threshold);
            v == SpecVerdict(c, log, ev, threshold) && SetRel(c, hash, sts', log + [Logged(ev, v)])
  {
    hide Rel, Fits, Colocated, ObserveStep, SpecVerdict, ShardLog, ShardOf;
    var n, v := |sts|, SpecVerdict(c, log, ev, threshold);
    var i, x := ShardOf(hash, n, ev.subject), Logged(ev, v);
    VerdictIsLocal(c, hash, n, log, ev, v, threshold);
    ObserveRefinesLog(c, sts[i], ShardLog(log, hash, n, i), LastTime(ShardLog(log, hash, n, i)), ev, threshold);
    forall j | 0 <= j < n
      ensures var part := ShardLog(log + [x], hash, n, j);
              Rel(c, SetStep(c, hash, sts, ev, threshold).0[j], part, LastTime(part))
    {
      ShardLogSnoc(log, hash, n, j, x);
    }
  }

  lemma {:induction false} SpecLogEvents(c: Config, es: seq<Occurrence>, threshold: int)
    ensures |SpecLog(c, es, threshold)| == |es|
    ensures forall i :: 0 <= i < |es| ==> SpecLog(c, es, threshold)[i].ev == es[i]
  {
    if es != [] {
      SpecLogEvents(c, es[..|es| - 1], threshold);
    }
  }

  lemma EmptySetRel(c: Config, hash: string -> nat, n: nat)
    requires n > 0 && Windowed(c)
    ensures SetRel(c, hash, seq(n, i => EMPTY), [])
  {
  }

  // ----- order and room, shard by shard -----

  /** No time is negative, and the events of one shard are in order. */
  ghost predicate OrderedInShards(hash: string -> nat, n: nat, log: Log)
    requires n > 0
  {
    && (forall i :: 0 <= i < |log| ==> 0 <= log[i].ev.time)
    && (forall i, j :: 0 <= i < j < |log| && ShardOf(hash, n, log[i].ev.subject) == ShardOf(hash, n, log[j].ev.subject) ==>
          log[i].ev.time <= log[j].ev.time)
  }

  /** The caps fit the trailing windows of each shard's own part of the log. */
  ghost predicate FitsInShards(c: Config, hash: string -> nat, n: nat, log: Log)
    requires n > 0
  {
    forall i :: 0 <= i < n ==> Provisioned(c, ShardLog(log, hash, n, i))
  }

  lemma {:induction false} ShardLogMembers(log: Log, hash: string -> nat, n: nat, i: nat)
    requires n > 0
    ensures forall x :: x in ShardLog(log, hash, n, i) <==> x in log && ShardOf(hash, n, x.ev.subject) == i
  {
    if log != [] {
      ShardLogMembers(log[..|log| - 1], hash, n, i);
      assert log == log[..|log| - 1] + [log[|log| - 1]];
    }
  }

  lemma ShorterProvisioned(c: Config, log: Log, x: Logged)
    requires Provisioned(c, log + [x])
    ensures Provisioned(c, log) && Fits(c, log + [x])
  {
    hide Fits;
    assert (log + [x])[..|log| + 1] == log + [x];
    forall k | 0 < k <= |log| ensures Fits(c, log[..k]) {
      assert (log + [x])[..k] == log[..k];
    }
  }

  lemma ShorterLog(c: Config, hash: string -> nat, n: nat, log: Log, x: Logged)
    requires n > 0 && OrderedInShards(hash, n, log + [x])
    requires FitsInShards(c, hash, n, log + [x]) && Colocated(hash, n, log + [x])
    ensures OrderedInShards(hash, n, log) && FitsInShards(c, hash, n, log) && Colocated(hash, n, log)
    ensures var part := ShardLog(log, hash, n, ShardOf(hash, n, x.ev.subject));
            0 <= LastTime(part) <= x.ev.time && Fits(c, part + [x])
  {
    hide Fits, ShardOf, ShardLog, Provisioned;
    var k := ShardOf(hash, n, x.ev.subject);
    forall i | 0 <= i < n ensures Provisioned(c, ShardLog(log, hash, n, i)) {
      ShardLogSnoc(log, hash, n, i, x);
      if i == k {
        ShorterProvisioned(c, ShardLog(log, hash, n, i), x);
      }
    }
    ShardLogSnoc(log, hash, n, k, x);
    ShorterProvisioned(c, ShardLog(log, hash, n, k), x);
    forall y | y in log ensures y in log + [x] {
    }
    forall i | 0 <= i < |log| ensures (log + [x])[i] == log[i] {
    }
    LastIsBefore(hash, n, log, x);
  }

  lemma LastIsBefore(hash: string -> nat, n: nat, log: Log, x: Logged)
    requires n > 0 && OrderedInShards(hash, n, log + [x])
    ensures 0 <= LastTime(ShardLog(log, hash, n, ShardOf(hash, n, x.ev.subject))) <= x.ev.time
  {
    hide ShardOf, ShardLog;
    var k := ShardOf(hash, n, x.ev.subject);
    var part := ShardLog(log, hash, n, k);
    assert (log + [x])[|log|] == x;
    if part != [] {
      ShardLogMembers(log, hash, n, k);
      var y := part[|part| - 1];
      assert y in part;
      var i :| 0 <= i < |log| && log[i] == y;
      assert (log + [x])[i] == y;
    }
  }

  /** The main refinement. With caps that fit the trailing windows of each shard, event times in order within
      each shard, and each dedup key kept to one shard, every observation on any number of bounded, swept
      and evicting shards returns what the complete log says. Nothing is asked of the shards together:
      they may hold far more than one shard could, and their events may interleave out of order. */
  lemma {:induction false} ShardsRefineLog(c: Config, hash: string -> nat, n: nat, es: seq<Occurrence>, threshold: int)
    requires Windowed(c) && n > 0
    requires var log := SpecLog(c, es, threshold);
             OrderedInShards(hash, n, log) && FitsInShards(c, hash, n, log) && Colocated(hash, n, log)
    ensures RunSet(c, hash, n, es, threshold).verdicts == SpecVerdicts(SpecLog(c, es, threshold))
    ensures SetRel(c, hash, RunSet(c, hash, n, es, threshold).states, SpecLog(c, es, threshold))
  {
    hide SetRel, Fits, OrderedInShards, FitsInShards, Colocated, SpecVerdict, SetStep, ShardLog;
    if es == [] {
      EmptySetRel(c, hash, n);
    } else {
      var l, ev := es[..|es| - 1], es[|es| - 1];
      var log := SpecLog(c, l, threshold);
      var x := Logged(ev, SpecVerdict(c, log, ev, threshold));
      ShorterLog(c, hash, n, log, x);
      ShardsRefineLog(c, hash, n, l, threshold);
      SetStepRefines(c, hash, RunSet(c, hash, n, l, threshold).states, log, ev, threshold);
      assert SpecVerdicts(log + [x]) == SpecVerdicts(log) + [x.verdict];
    }
  }

  // ----- what is in order and fits as a whole does so in each shard -----

  lemma {:induction false} FitsEverywhere(c: Config, hash: string -> nat, n: nat, log: Log, i: nat)
    requires n > 0 && i < n && Provisioned(c, log)
    ensures Provisioned(c, ShardLog(log, hash, n, i))
  {
    hide Fits, ShardOf;
    if log != [] {
      var l, x := log[..|log| - 1], log[|log| - 1];
      assert log == l + [x];
      ShorterProvisioned(c, l, x);
      FitsEverywhere(c, hash, n, l, i);
      ShardLogSnoc(l, hash, n, i, x);
      if ShardOf(hash, n, x.ev.subject) == i {
        FitIsLocal(c, hash, n, l, x);
        LongerProvisioned(c, ShardLog(l, hash, n, i), x);
      }
    }
  }

  lemma LongerProvisioned(c: Config, log: Log, x: Logged)
    requires Provisioned(c, log) && Fits(c, log + [x])
    ensures Provisioned(c, log + [x])
  {
    hide Fits;
    assert (log + [x])[..|log| + 1] == log + [x];
    forall k | 0 < k <= |log| ensures Fits(c, (log + [x])[..k]) {
      assert (log + [x])[..k] == log[..k];
    }
  }

  lemma InOrderEverywhere(c: Config, hash: string -> nat, n: nat, es: seq<Occurrence>, threshold: int)
    requires n > 0 && NonDecreasing(es)
    ensures OrderedInShards(hash, n, SpecLog(c, es, threshold))
  {
    hide SpecLog;
    SpecLogEvents(c, es, threshold);
  }

  /** A dedup key belongs to one subject. */
  ghost predicate Owned(es: seq<Occurrence>) {
    forall i, j :: 0 <= i < |es| && 0 <= j < |es| && es[i].dedup == es[j].dedup ==> es[i].subject == es[j].subject
  }

  lemma OwnedIsColocated(c: Config, hash: string -> nat, n: nat, es: seq<Occurrence>, threshold: int)
    requires n > 0 && (Owned(es) || n == 1)
    ensures Colocated(hash, n, SpecLog(c, es, threshold))
  {
    var log := SpecLog(c, es, threshold);
    SpecLogEvents(c, es, threshold);
    forall x, y | x in log && y in log && x.ev.dedup == y.ev.dedup
      ensures ShardOf(hash, n, x.ev.subject) == ShardOf(hash, n, y.ev.subject)
    {
      var i :| 0 <= i < |log| && log[i] == x;
      var j :| 0 <= j < |log| && log[j] == y;
      assert log[i].ev == es[i] && log[j].ev == es[j];
    }
  }

  lemma GlobalRoomRefines(c: Config, hash: string -> nat, n: nat, es: seq<Occurrence>, threshold: int)
    requires Windowed(c) && n > 0 && NonDecreasing(es) && (Owned(es) || n == 1)
    requires Provisioned(c, SpecLog(c, es, threshold))
    ensures RunSet(c, hash, n, es, threshold).verdicts == SpecVerdicts(SpecLog(c, es, threshold))
  {
    hide Provisioned, SpecLog, Owned, NonDecreasing, Colocated, OrderedInShards;
    var log := SpecLog(c, es, threshold);
    InOrderEverywhere(c, hash, n, es, threshold);
    OwnedIsColocated(c, hash, n, es, threshold);
    forall i | 0 <= i < n ensures Provisioned(c, ShardLog(log, hash, n, i)) {
      FitsEverywhere(c, hash, n, log, i);
    }
    ShardsRefineLog(c, hash, n, es, threshold);
  }

  /** How many shards there are, and how keys hash to them, never shows in an answer, once the working set
      fits the caps of a single shard. */
  lemma ShardCountIsInvisible(c: Config, hash: string -> nat, n: nat, hash': string -> nat, n': nat,
                              es: seq<Occurrence>, threshold: int)
    requires Windowed(c) && n > 0 && n' > 0 && NonDecreasing(es) && Owned(es)
    requires Provisioned(c, SpecLog(c, es, threshold))
    ensures RunSet(c, hash, n, es, threshold).verdicts == RunSet(c, hash', n', es, threshold).verdicts
  {
    GlobalRoomRefines(c, hash, n, es, threshold);
    GlobalRoomRefines(c, hash', n', es, threshold);
  }

  /** A single shard needs no assumption on dedup keys. */
  lemma OneShardRefinesLog(c: Config, hash: string -> nat, es: seq<Occurrence>, threshold: int)
    requires Windowed(c) && NonDecreasing(es) && Provisioned(c, SpecLog(c, es, threshold))
    ensures RunSet(c, hash, 1, es, threshold).verdicts == SpecVerdicts(SpecLog(c, es, threshold))
  {
    GlobalRoomRefines(c, hash, 1, es, threshold);
  }
}
