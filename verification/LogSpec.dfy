/**
 The specification a route's aggregation state is meant to implement: keep every event
 ever observed with its verdict, and recompute each verdict from that log. Nothing is
 bounded, trimmed, swept or evicted.
 */
module LogSpec {
  import opened History
  import opened Shards

  datatype Logged = Logged(ev: Occurrence, verdict: Verdict)

  type Log = seq<Logged>

  /** `h`, extended by `x` when `more`. */
  function Extend(h: seq<Hit>, more: bool, x: Hit): seq<Hit> {
    if more then h + [x] else h
  }

  /** Hits of the accepted events on their subjects. */
  function SubjectHits(log: Log): seq<Hit> {
    if log == [] then []
    else
      var x := log[|log| - 1];
      Extend(SubjectHits(log[..|log| - 1]), !x.verdict.dup, Hit(x.ev.subject, x.ev.time))
  }

  /** Hits of the accepted events on their dedup keys. */
  function DedupHits(log: Log): seq<Hit> {
    if log == [] then []
    else
      var x := log[|log| - 1];
      Extend(DedupHits(log[..|log| - 1]), !x.verdict.dup, Hit(x.ev.dedup, x.ev.time))
  }

  function AlertHits(log: Log): seq<Hit> {
    if log == [] then []
    else
      var x := log[|log| - 1];
      Extend(AlertHits(log[..|log| - 1]), x.verdict.alert, Hit(x.ev.subject, x.ev.time))
  }

  /** A duplicate is an event whose key was accepted within the dedup window. The count is the
      accepted events of the subject within the counting window, this one included. An alert needs
      the threshold and no alert of the subject less than one counting window ago. */
  ghost function SpecVerdict(c: Config, log: Log, ev: Occurrence, threshold: int): Verdict {
    if ev.dedup in KeysSince(DedupHits(log), ev.time - c.dedupUS) then Verdict(0, true, false)
    else
      var count := |TimesSince(SubjectHits(log), ev.subject, ev.time - c.windowUS)| + 1;
      var quiet := ev.subject !in KeysSince(AlertHits(log), ev.time - c.windowUS + 1);
      Verdict(count, false, count >= threshold && quiet)
  }

  ghost function SpecLog(c: Config, es: seq<Occurrence>, threshold: int): Log {
    if es == [] then []
    else
      var log, ev := SpecLog(c, es[..|es| - 1], threshold), es[|es| - 1];
      log + [Logged(ev, SpecVerdict(c, log, ev, threshold))]
  }

  // ----- when the bounds are large enough -----

  ghost function AlertKeys(log: Log): set<string> {
    set x | x in AlertHits(log) :: x.key
  }

  /** At the last event of `log`: the subjects of the trailing counting window and the keys accepted
      in the trailing dedup window fit the caps, and fewer subjects than the cap ever alerted. */
  ghost predicate Fits(c: Config, log: Log)
    requires log != []
  {
    var now := log[|log| - 1].ev.time;
    && |KeysSince(SubjectHits(log), now - c.windowUS)| <= c.windowKeys
    && |KeysSince(DedupHits(log), now - c.dedupUS)| <= c.dedupKeys
    && |AlertKeys(log)| < c.throttleKeys
  }

  ghost predicate Provisioned(c: Config, log: Log) {
    forall n :: 0 < n <= |log| ==> Fits(c, log[..n])
  }

  ghost predicate Windowed(c: Config) {
    c.Valid() && 0 <= c.windowUS && 0 <= c.dedupUS
  }

  ghost predicate NonDecreasing(es: seq<Occurrence>) {
    && (forall i :: 0 <= i < |es| ==> 0 <= es[i].time)
    && (forall i, j :: 0 <= i < j < |es| ==> es[i].time <= es[j].time)
  }

  /** Times in the log are not negative, do not go back, and have reached `t`. */
  ghost predicate Timed(log: Log, t: int) {
    && (forall i :: 0 <= i < |log| ==> 0 <= log[i].ev.time <= t)
    && (forall i, j :: 0 <= i < j < |log| ==> log[i].ev.time <= log[j].ev.time)
  }

  lemma {:induction false} HitsTimed(log: Log, t: int)
    requires Timed(log, t)
    ensures InOrder(SubjectHits(log), t) && InOrder(DedupHits(log), t) && InOrder(AlertHits(log), t)
    ensures forall x :: x in SubjectHits(log) || x in DedupHits(log) || x in AlertHits(log) ==> 0 <= x.time
  {
    if log != [] {
      var l, x := log[..|log| - 1], log[|log| - 1];
      HitsTimed(l, x.ev.time);
      SnocOrder(SubjectHits(l), Hit(x.ev.subject, x.ev.time), t);
      SnocOrder(DedupHits(l), Hit(x.ev.dedup, x.ev.time), t);
      SnocOrder(AlertHits(l), Hit(x.ev.subject, x.ev.time), t);
    }
  }

  lemma SnocOrder(h: seq<Hit>, x: Hit, t: int)
    requires InOrder(h, x.time) && x.time <= t
    ensures InOrder(h, t) && InOrder(h + [x], t)
  {
  }

  lemma HitsSnoc(log: Log, x: Logged)
    ensures SubjectHits(log + [x]) == Extend(SubjectHits(log), !x.verdict.dup, Hit(x.ev.subject, x.ev.time))
    ensures DedupHits(log + [x]) == Extend(DedupHits(log), !x.verdict.dup, Hit(x.ev.dedup, x.ev.time))
    ensures AlertHits(log + [x]) == Extend(AlertHits(log), x.verdict.alert, Hit(x.ev.subject, x.ev.time))
  {
  }
}
