/**
 Reconnecting early: a rewind may reach back before the first frame the process ever dispatched. When does that
 change what the routes do, and what can the process check beforehand (internal/jetstream/ingest.go)?
 */
module EarlyReconnect {
  import opened Int64
  import opened Events
  import opened Wrappers
  import opened Recency
  import opened Shards
  import opened LogSpec
  import opened Sharding
  import opened Replay
  import opened Reconnect
  import Stream

  /** What a process can check before it reconnects: the resume cursor is later than the first frame it dispatched,
      unless that was the first frame there ever was. */
  ghost predicate Guard(s: Stream.Settings, log: Stream.ServerLog, r: Stream.Reader) {
    r.stretches != [] ==>
      var first := r.stretches[0].from;
      first == 0 || (Stream.Good(log, first) && Stream.EventAt(log, first).timeUS < Stream.ResumeAt(s, r.latest))
  }

  /** The logs that look the same to a process that has seen nothing before `first`. */
  ghost predicate SamePresent(log: Stream.ServerLog, log': Stream.ServerLog, first: nat) {
    first <= |log| == |log'| && log'[first..] == log[first..] && InOrderLog(log')
  }

  lemma GuardStaysInside(s: Stream.Settings, log: Stream.ServerLog, r: Stream.Reader)
    requires InOrderLog(log) && Guard(s, log, r)
    ensures RewindStaysInside(s, log, r)
  {
    hide Decode, Stream.ResumeAt;
  }

  ghost predicate GuardedRun(s: Stream.Settings, log: Stream.ServerLog, r: Stream.Reader,
                             hs: seq<Stream.Happening>)
    decreases |hs|
  {
    hs == [] ||
    (&& hs[0].Connect? && Stream.Possible(log, r, hs[0]) && Guard(s, log, r)
     && GuardedRun(s, log, Stream.Next(s, log, r, hs[0]), hs[1..]))
  }

  lemma {:induction false} GuardedIsClean(s: Stream.Settings, log: Stream.ServerLog, r: Stream.Reader,
                                         hs: seq<Stream.Happening>)
    requires InOrderLog(log) && GuardedRun(s, log, r, hs)
    ensures CleanRun(s, log, r, hs)
    decreases |hs|
  {
    hide InOrderLog, Guard, RewindStaysInside, Stream.Next;
    if hs != [] {
      GuardStaysInside(s, log, r);
      GuardedIsClean(s, log, Stream.Next(s, log, r, hs[0]), hs[1..]);
    }
  }

  /** Reconnects are idempotent when the process checks the guard before each of them. */
  lemma GuardedReconnectsAreIdempotent(c: Config, hash: string -> nat, n: nat, subjectOf: SubjectOf, s: Stream.Settings,
                                       log: Stream.ServerLog, threshold: int, hs: seq<Stream.Happening>, r: Stream.Reader)
    requires Windowed(c) && n > 0 && InOrderLog(log) && 0 <= s.rewindNS
    requires Stream.Reaches(s, log, Stream.FRESH, hs, r) && GuardedRun(s, log, Stream.FRESH, hs) && r.gaps == 0
    requires RememberedRun(c, hash, n, subjectOf, s, log, Stream.FRESH, threshold, hs)
    ensures forall i: nat :: i in r.dispatched ==> Stream.Good(log, i)
    ensures SameOutcome(c, hash, n, threshold, Feed(subjectOf, log, r.dispatched), Expected(subjectOf, log, r))
  {
    hide InOrderLog, GuardedRun, CleanRun, RememberedRun, Stream.Reaches, SameOutcome, Feed, Expected;
    GuardedIsClean(s, log, Stream.FRESH, hs);
    ReconnectsAreIdempotent(c, hash, n, subjectOf, s, log, threshold, hs, r);
  }

  /** A process that has dispatched something, without a lapse, and nothing older than its first frame. */
  ghost predicate Settled(log: Stream.ServerLog, r: Stream.Reader) {
    && Stream.Inv(log, r) && r.gaps == 0 && r.afresh == 0 && r.latest > 0 && r.stretches != []
    && r.stretches[0].from <= r.at
    && forall i: nat :: i in r.dispatched ==>
         r.stretches[0].from <= i && Stream.Good(log, i) && Stream.EventAt(log, i).timeUS <= r.latest
  }

  lemma SettledFirst(log: Stream.ServerLog, r: Stream.Reader)
    requires Settled(log, r)
    ensures r.stretches[0].from in r.dispatched && Stream.Wanted(log, r.stretches[0].from)
    ensures r.stretches[0].from < |log|
  {
    Stream.FirstWantedIn(log, r.dispatched);
  }

  lemma ConnectSettles(s: Stream.Settings, log: Stream.ServerLog, r: Stream.Reader, h: Stream.Happening)
    requires InOrderLog(log) && h.Connect? && Stream.Possible(log, r, h) && RewindStaysInside(s, log, r) && 0 <= s.rewindNS
    requires r.gaps == 0 && r.afresh == 0 && Stream.Next(s, log, r, h).gaps == 0
    requires Settled(log, r) || (r.latest == 0 && r.dispatched == [] && Stream.Inv(log, r))
    ensures var r' := Stream.Next(s, log, r, h);
            Settled(log, r') || (r'.latest == 0 && r'.dispatched == [] && Stream.Inv(log, r'))
  {
    hide Decode, Stream.Next, Stream.Delivered, Stream.FirstWanted, Stream.DisorderAtMost;
    var r' := Stream.Next(s, log, r, h);
    OrderIsNoDisorder(log);
    Stream.NextInv(s, log, r, 0, h);
    Stream.ConnectIs(s, log, r, h.nowNS, h.tip, h.upto);
    var sub := Stream.Subscribe(s, r.latest, h.nowNS);
    var ids := Stream.Delivered(log, sub, h.tip, h.upto);
    Stream.FirstIsEarliest(log, sub, h.tip, h.upto);
    EmptyOrMember(ids);
  }

  /** Every clean run gets there with its first frame. */
  lemma {:induction false} CleanRunSettles(s: Stream.Settings, log: Stream.ServerLog, r: Stream.Reader,
                                           hs: seq<Stream.Happening>, r': Stream.Reader)
    requires InOrderLog(log) && 0 <= s.rewindNS && r.gaps == 0 && r.afresh == 0
    requires Settled(log, r) || (r.latest == 0 && r.dispatched == [] && Stream.Inv(log, r))
    requires Stream.Reaches(s, log, r, hs, r') && CleanRun(s, log, r, hs) && r'.gaps == 0
    ensures Settled(log, r') || (r'.latest == 0 && r'.dispatched == [])
    decreases |hs|
  {
    hide InOrderLog, Settled, RewindStaysInside, Stream.Inv, Stream.Next;
    if hs != [] {
      var r1 := Stream.Next(s, log, r, hs[0]);
      GapsGrow(s, log, r1, hs[1..], r');
      Stream.ConnectIs(s, log, r, hs[0].nowNS, hs[0].tip, hs[0].upto);
      ConnectSettles(s, log, r, hs[0]);
      CleanRunSettles(s, log, r1, hs[1..], r');
    }
  }

  // ----- a past that the process has not seen -----

  /** A DID that no frame of the log has. */
  lemma {:induction false} NewDid(log: Stream.ServerLog) returns (did: string)
    ensures forall i :: 0 <= i < |log| && log[i].Some? ==> |log[i].value.did| < |did|
  {
    if log == [] {
      did := "";
    } else {
      var l, x := log[..|log| - 1], log[|log| - 1];
      did := NewDid(l);
      if x.Some? {
        did := did + x.value.did + "d";
      }
    }
  }

  /** The log with just one well-formed frame before `first`. */
  function WithPast(log: Stream.ServerLog, first: nat, e: Envelope): Stream.ServerLog
    requires 0 < first <= |log|
  {
    seq(first - 1, i => None) + [Some(e)] + log[first..]
  }

  function Stranger(did: string, timeUS: int64): Envelope {
    Envelope(did, timeUS, "identity", None)
  }

  lemma PastIsPresent(log: Stream.ServerLog, first: nat, did: string, timeUS: int64)
    requires InOrderLog(log) && 0 < first < |log| && Stream.Good(log, first)
    requires 0 < timeUS <= Stream.EventAt(log, first).timeUS
    ensures var log' := WithPast(log, first, Stranger(did, timeUS));
            && SamePresent(log, log', first) && Stream.Good(log', first - 1)
            && Stream.EventAt(log', first - 1).timeUS == timeUS && Stream.EventAt(log', first - 1).did == did
            && (forall i: nat :: i < first - 1 ==> !Stream.Good(log', i))
            && (forall i: nat :: first <= i < |log| ==> log'[i] == log[i])
  {
    var e := Stranger(did, timeUS);
    var log' := WithPast(log, first, e);
    assert Decode(Some(e)) == Some(Event(Key("identity", "", ""), did, timeUS, "", ""));
    forall i: nat | first <= i < |log| ensures log'[i] == log[i] {
      assert log'[i] == log[first..][i - first];
    }
    assert log'[first..] == log[first..];
    PastInOrder(log, log', first);
  }

  lemma PastInOrder(log: Stream.ServerLog, log': Stream.ServerLog, first: nat)
    requires InOrderLog(log) && 0 < first < |log| == |log'| && Stream.Good(log, first)
    requires Stream.Good(log', first - 1)
    requires 0 < Stream.EventAt(log', first - 1).timeUS <= Stream.EventAt(log, first).timeUS
    requires forall i: nat :: i < first - 1 ==> !Stream.Good(log', i)
    requires forall i: nat :: first <= i < |log| ==> log'[i] == log[i]
    ensures InOrderLog(log')
  {
    hide Decode;
    forall i: nat | first <= i && Stream.Good(log', i)
      ensures Stream.Good(log, i) && Stream.EventAt(log, i) == Stream.EventAt(log', i)
    {
    }
  }

  /** No rewind reaches back in any past that the process could have come after, if and only if the guard holds. */
  lemma StaysInsideExactly(s: Stream.Settings, log: Stream.ServerLog, r: Stream.Reader)
    requires Settled(log, r) && InOrderLog(log)
    ensures (forall log' :: SamePresent(log, log', r.stretches[0].from) ==> RewindStaysInside(s, log', r))
            <==> Guard(s, log, r)
  {
    hide Decode, Stream.ResumeAt, InOrderLog, Stream.Inv;
    SettledFirst(log, r);
    var first := r.stretches[0].from;
    if Guard(s, log, r) {
      forall log' | SamePresent(log, log', first) ensures RewindStaysInside(s, log', r) {
        assert log'[first] == log'[first..][0] == log[first..][0] == log[first];
        GuardStaysInside(s, log', r);
      }
    } else {
      var log' := WithPast(log, first, Stranger("", Stream.EventAt(log, first).timeUS));
      PastIsPresent(log, first, "", Stream.EventAt(log, first).timeUS);
    }
  }

  /** Who looks at the stream: a set of shards with its configuration, and the handler's view of events. */
  datatype Observer = Observer(c: Config, hash: string -> nat, n: nat, subjectOf: SubjectOf, threshold: int)

  /** The connection leaves the observer where the uninterrupted stream would have left it, provided the observer was
      there before and no key sent again had been evicted. */
  ghost predicate KeepsOutcome(o: Observer, s: Stream.Settings, log: Stream.ServerLog, r: Stream.Reader, nowNS: int,
                               tip: nat, upto: nat) {
    (&& Windowed(o.c) && o.n > 0 && Mirrored(o.c, o.hash, o.n, o.subjectOf, log, r, o.threshold)
     && Stream.Possible(log, r, Stream.Connect(nowNS, tip, upto))
     && ReplaysRemembered(o.c, o.hash, o.n, o.subjectOf, s, log, r, o.threshold, upto)) ==>
      var r' := Stream.Next(s, log, r, Stream.Connect(nowNS, tip, upto));
      && (forall i: nat :: i in r'.dispatched ==> Stream.Good(log, i))
      && SameOutcome(o.c, o.hash, o.n, o.threshold, Feed(o.subjectOf, log, r'.dispatched), Expected(o.subjectOf, log, r'))
  }

  lemma GuardKeepsOutcome(o: Observer, s: Stream.Settings, log: Stream.ServerLog, r: Stream.Reader, nowNS: int,
                          tip: nat, upto: nat)
    requires InOrderLog(log) && Guard(s, log, r) && 0 <= s.rewindNS && Stream.Subscribe(s, r.latest, nowNS).From?
    ensures KeepsOutcome(o, s, log, r, nowNS, tip, upto)
  {
    hide InOrderLog, Guard, RewindStaysInside, ReplaysRemembered, ReplayOf, Stream.Next, Stream.Inv, Feed, RunSet, AlertsOf;
    hide Expected;
    if Windowed(o.c) && o.n > 0 && Mirrored(o.c, o.hash, o.n, o.subjectOf, log, r, o.threshold)
       && Stream.Possible(log, r, Stream.Connect(nowNS, tip, upto))
       && ReplaysRemembered(o.c, o.hash, o.n, o.subjectOf, s, log, r, o.threshold, upto) {
      var r' := Stream.Next(s, log, r, Stream.Connect(nowNS, tip, upto));
      GuardStaysInside(s, log, r);
      Stream.ConnectIs(s, log, r, nowNS, tip, upto);
      ConnectMirror(o.c, o.hash, o.n, o.subjectOf, s, log, r, o.threshold, Stream.Connect(nowNS, tip, upto));
      ExpectedNotLater(o.c, o.hash, o.n, o.subjectOf, log, r', o.threshold);
      ReplaysAreAbsorbed(o.c, o.hash, o.n, Expected(o.subjectOf, log, r'),
                         Feed(o.subjectOf, log, r'.dispatched), o.threshold);
    }
  }

  lemma {:induction false} FirstWantedSame(log: Stream.ServerLog, log': Stream.ServerLog, ids: seq<nat>)
    requires forall i: nat :: i in ids ==> Stream.Wanted(log, i) == Stream.Wanted(log', i)
    ensures Stream.FirstWanted(log, ids) == Stream.FirstWanted(log', ids)
  {
    hide Stream.Wanted;
    if ids != [] {
      assert ids == ids[..|ids| - 1] + [ids[|ids| - 1]];
      FirstWantedSame(log, log', ids[..|ids| - 1]);
    }
  }

  /** The process is in the same state after any past. */
  lemma SettledAfterAnyPast(log: Stream.ServerLog, log': Stream.ServerLog, r: Stream.Reader)
    requires Settled(log, r) && |log'| == |log|
    requires forall i: nat :: r.stretches[0].from <= i < |log| ==> log'[i] == log[i]
    ensures Settled(log', r)
  {
    hide Decode, Stream.FirstWanted;
    var first := r.stretches[0].from;
    forall i: nat | first <= i
      ensures Stream.Good(log', i) == Stream.Good(log, i) && Stream.Wanted(log', i) == Stream.Wanted(log, i)
    {
    }
    FirstWantedSame(log, log', r.dispatched);
  }

  /** Nothing is fed by frames without a subject. */
  lemma {:induction false} NoSubjectNoFeed(subjectOf: SubjectOf, log: Stream.ServerLog, ids: seq<nat>)
    requires forall i: nat :: i in ids ==> Stream.Good(log, i) && subjectOf(Stream.EventAt(log, i)) == ""
    ensures Feed(subjectOf, log, ids) == []
  {
    hide Stream.Good, Stream.EventAt;
    if ids != [] {
      assert ids == ids[..|ids| - 1] + [ids[|ids| - 1]];
      NoSubjectNoFeed(subjectOf, log, ids[..|ids| - 1]);
    }
  }

  /** Shards that were fed anything remember something. */
  lemma FedShardsRemember(c: Config, hash: string -> nat, n: nat, es: seq<Occurrence>, threshold: int)
    requires c.Valid() && n > 0 && es != []
    ensures RunSet(c, hash, n, es, threshold).states != RunSet(c, hash, n, [], threshold).states
  {
    var l, ev := es[..|es| - 1], es[|es| - 1];
    var i := ShardOf(hash, n, ev.subject);
    ObserveDedup(c, RunSet(c, hash, n, l, threshold).states[i], ev, threshold);
    assert RunSet(c, hash, n, es, threshold).states[i].dedup != [];
    assert RunSet(c, hash, n, [], threshold).states[i] == EMPTY;
  }

  /** An observer of one DID only, to whom the process has shown nothing yet. */
  function Watcher(did: string): Observer {
    Observer(Config(1, 1, 1, 2, 1), (x: string) => 0, 1, (e: Event) => if e.did == did then "s" else "", 1)
  }

  lemma WatcherSawNothing(log: Stream.ServerLog, r: Stream.Reader, s: Stream.Settings, did: string, upto: nat)
    requires Settled(log, r) && InOrderLog(log)
    requires forall i: nat :: r.stretches[0].from <= i && Stream.Good(log, i) ==> Stream.EventAt(log, i).did != did
    ensures var o := Watcher(did);
            && Windowed(o.c) && Mirrored(o.c, o.hash, o.n, o.subjectOf, log, r, o.threshold)
            && ReplaysRemembered(o.c, o.hash, o.n, o.subjectOf, s, log, r, o.threshold, upto)
  {
    hide Stream.Good, Stream.EventAt, Stream.Inv, Feed;
    var o := Watcher(did);
    NoSubjectNoFeed(o.subjectOf, log, r.dispatched);
    var k := r.stretches[|r.stretches| - 1];
    OneStretch(log, r);
    NoSubjectNoFeed(o.subjectOf, log, Straight(log, k.from, k.to));
    NothingFed(o.c, o.hash, o.n, o.subjectOf, log, o.threshold);
  }

  /** Without the guard there is a past, and someone watching, for whom the very next connection makes a difference. */
  lemma UnguardedChangesOutcome(s: Stream.Settings, log: Stream.ServerLog, r: Stream.Reader, nowNS: int, tip: nat, upto: nat)
    returns (log': Stream.ServerLog, o: Observer)
    requires Settled(log, r) && InOrderLog(log) && 0 <= s.rewindNS && !Guard(s, log, r)
    requires Stream.Possible(log, r, Stream.Connect(nowNS, tip, upto)) && Stream.Subscribe(s, r.latest, nowNS).From?
    requires r.stretches[0].from <= upto
    ensures SamePresent(log, log', r.stretches[0].from) && !KeepsOutcome(o, s, log', r, nowNS, tip, upto)
  {
    hide Decode, Stream.Next, Stream.Inv, Stream.FirstWanted, Stream.Delivered, Feed, RunSet, ReplaysRemembered, ReplayOf;
    hide InOrderLog, Straight;
    SettledFirst(log, r);
    var first := r.stretches[0].from;
    var did := NewDid(log);
    PastIsPresent(log, first, did, Stream.EventAt(log, first).timeUS);
    log', o := WithPast(log, first, Stranger(did, Stream.EventAt(log, first).timeUS)), Watcher(did);
    SettledAfterAnyPast(log, log', r);
    forall i: nat | first <= i && Stream.Good(log', i) ensures Stream.EventAt(log', i).did != did {
      DidOf(log', i);
    }
    WatcherSawNothing(log', r, s, did, upto);
    Stream.ConnectIs(s, log', r, nowNS, tip, upto);
    OneStretch(log', r);
    var r' := Stream.Next(s, log', r, Stream.Connect(nowNS, tip, upto));
    assert first - 1 in r'.dispatched;
    StrangerIsFed(log', r', o, did, first);
  }

  lemma DidOf(log: Stream.ServerLog, i: nat)
    requires Stream.Good(log, i)
    ensures log[i].Some? && Stream.EventAt(log, i).did == log[i].value.did
  {
  }

  /** Once the stranger's frame is dispatched, the shards hold something that the uninterrupted stream would not have
      brought. */
  lemma StrangerIsFed(log: Stream.ServerLog, r: Stream.Reader, o: Observer, did: string, first: nat)
    requires o == Watcher(did) && 0 < first && r.stretches != [] && first <= r.stretches[|r.stretches| - 1].from
    requires (forall i: nat :: i in r.dispatched ==> Stream.Good(log, i)) && first - 1 in r.dispatched
    requires Stream.EventAt(log, first - 1).did == did
    requires forall i: nat :: first <= i && Stream.Good(log, i) ==> Stream.EventAt(log, i).did != did
    ensures !SameOutcome(o.c, o.hash, o.n, o.threshold, Feed(o.subjectOf, log, r.dispatched), Expected(o.subjectOf, log, r))
  {
    hide Stream.Good, Stream.EventAt, Feed, RunSet;
    FeedMembers(o.subjectOf, log, r.dispatched);
    assert OccurrenceOf(o.subjectOf, Stream.EventAt(log, first - 1)) in Feed(o.subjectOf, log, r.dispatched);
    FedShardsRemember(o.c, o.hash, o.n, Feed(o.subjectOf, log, r.dispatched), o.threshold);
    var k := r.stretches[|r.stretches| - 1];
    NoSubjectNoFeed(o.subjectOf, log, Straight(log, k.from, k.to));
  }

  /** Exactly when a reconnect is safe. Take a process that has dispatched something, and its next connection, resumed
      and getting as far as its first frame. Whatever came before the process, and whoever observes the stream, the
      outcome stays that of the uninterrupted stream, as long as no key sent again had been evicted, if and
      only if the guard holds. */
  lemma ReconnectIsSafeExactly(s: Stream.Settings, log: Stream.ServerLog, r: Stream.Reader, nowNS: int, tip: nat, upto: nat)
    requires Settled(log, r) && InOrderLog(log) && 0 <= s.rewindNS
    requires Stream.Possible(log, r, Stream.Connect(nowNS, tip, upto)) && Stream.Subscribe(s, r.latest, nowNS).From?
    requires r.stretches[0].from <= upto
    ensures Guard(s, log, r) <==>
              forall log', o :: SamePresent(log, log', r.stretches[0].from) ==> KeepsOutcome(o, s, log', r, nowNS, tip, upto)
  {
    hide Decode, KeepsOutcome, InOrderLog, Stream.Inv, Stream.ResumeAt;
    SettledFirst(log, r);
    if Guard(s, log, r) {
      var first := r.stretches[0].from;
      forall log', o | SamePresent(log, log', first) ensures KeepsOutcome(o, s, log', r, nowNS, tip, upto) {
        assert log'[first] == log'[first..][0] == log[first..][0] == log[first];
        GuardKeepsOutcome(o, s, log', r, nowNS, tip, upto);
      }
    } else {
      var log', o := UnguardedChangesOutcome(s, log, r, nowNS, tip, upto);
    }
  }

  // ----- a reachable case, and the alert it raises -----

  lemma LateHitAlerts(c: Config, hash: string -> nat, n: nat, x: Occurrence, y: Occurrence)
    requires Windowed(c) && n > 0 && x.subject == y.subject && x.dedup != y.dedup && 0 <= y.time <= x.time
    ensures RunSet(c, hash, n, [x], 2).verdicts == [Verdict(1, false, false)]
    ensures RunSet(c, hash, n, [x, y], 2).verdicts == [Verdict(1, false, false), Verdict(2, false, true)]
  {
    assert [x][..0] == [] && [x, y][..1] == [x];
    var i := ShardOf(hash, n, x.subject);
    FirstHit(c, x);
    assert RunSet(c, hash, n, [], 2).states[i] == EMPTY;
    assert RunSet(c, hash, n, [x], 2).states[i]
        == ShardState([Slot(x.subject, [x.time])], [Slot(x.dedup, [x.time])], map[], 1);
    SecondHit(c, x, y);
  }

  lemma FirstHit(c: Config, x: Occurrence)
    requires Windowed(c) && 0 <= x.time
    ensures ObserveStep(c, EMPTY, x, 2)
         == (ShardState([Slot(x.subject, [x.time])], [Slot(x.dedup, [x.time])], map[], 1), Verdict(1, false, false))
  {
    assert [] + [x.time] == [x.time];
    assert Keep([], x.subject, c.windowKeys) == [] && Keep([], x.dedup, c.dedupKeys) == [];
    assert [Slot(x.subject, [x.time])] + [] == [Slot(x.subject, [x.time])];
    assert [Slot(x.dedup, [x.time])] + [] == [Slot(x.dedup, [x.time])];
  }

  lemma SecondHit(c: Config, x: Occurrence, y: Occurrence)
    requires Windowed(c) && x.subject == y.subject && x.dedup != y.dedup && 0 <= y.time <= x.time
    ensures ObserveStep(c, ShardState([Slot(x.subject, [x.time])], [Slot(x.dedup, [x.time])], map[], 1), y, 2).1
         == Verdict(2, false, true)
  {
    assert IndexOf([Slot(x.dedup, [x.time])], y.dedup) == 1;
    assert [x.time] + [y.time] == [x.time, y.time];
  }

  /** Joining a stream that is already running and reconnecting at once does bring in an older frame. */
  lemma EarlyReconnectReachesBack(s: Stream.Settings, now: int, later: int) returns (r1: Stream.Reader, r2: Stream.Reader)
    requires s.rewindNS >= 1000 && s.windowNS == 0
    ensures Stream.Possible(Stream.THREE_FRAMES, Stream.FRESH, Stream.Connect(now, 1, 2))
    ensures r1 == Stream.Next(s, Stream.THREE_FRAMES, Stream.FRESH, Stream.Connect(now, 1, 2))
    ensures Stream.Possible(Stream.THREE_FRAMES, r1, Stream.Connect(later, 3, 1))
    ensures r2 == Stream.Next(s, Stream.THREE_FRAMES, r1, Stream.Connect(later, 3, 1))
    ensures r1.dispatched == [1] && r2.dispatched == [1, 0] && r2.gaps == 0
    ensures r2.stretches == [Stream.Stretch(1, 2)]
  {
    hide Stream.Next, Stream.Possible;
    r1 := JoinsAtSecondFrame(s, now);
    r2 := RewindsToFirstFrame(s, r1, later);
  }

  lemma JoinsAtSecondFrame(s: Stream.Settings, now: int) returns (r: Stream.Reader)
    ensures Stream.Possible(Stream.THREE_FRAMES, Stream.FRESH, Stream.Connect(now, 1, 2))
    ensures r == Stream.Next(s, Stream.THREE_FRAMES, Stream.FRESH, Stream.Connect(now, 1, 2))
    ensures r.dispatched == [1] && r.gaps == 0 && r.reached == 2 && r.latest == 2 && r.stretches == [Stream.Stretch(1, 2)]
  {
    hide Stream.Next;
    Stream.OneFromTip(s, Stream.FRESH, 1, now);
    r := Stream.Next(s, Stream.THREE_FRAMES, Stream.FRESH, Stream.Connect(now, 1, 2));
  }

  lemma RewindsToFirstFrame(s: Stream.Settings, r: Stream.Reader, later: int) returns (r': Stream.Reader)
    requires s.rewindNS >= 1000 && s.windowNS == 0
    requires r.dispatched == [1] && r.gaps == 0 && r.reached == 2 && r.latest == 2 && r.stretches == [Stream.Stretch(1, 2)]
    ensures Stream.Possible(Stream.THREE_FRAMES, r, Stream.Connect(later, 3, 1))
    ensures r' == Stream.Next(s, Stream.THREE_FRAMES, r, Stream.Connect(later, 3, 1))
    ensures r'.dispatched == [1, 0] && r'.gaps == 0 && r'.stretches == [Stream.Stretch(1, 2)]
  {
    hide Decode, Stream.Wanted, Stream.EventAt, Stream.Next, Stream.DisorderAtMost, Stream.Consume, Stream.FirstWanted;
    var log := Stream.THREE_FRAMES;
    Stream.ThreeFrames();
    var sub := Stream.Subscribe(s, r.latest, later);
    assert sub == Stream.From(Stream.ResumeAt(s, 2)) && sub.cursor <= 1;
    assert Stream.Delivered(log, sub, 3, 0) == [];
    assert Stream.Delivered(log, sub, 3, 1) == [0];
    Stream.ConnectIs(s, log, r, later, 3, 1);
    r' := Stream.Next(s, log, r, Stream.Connect(later, 3, 1));
  }

  /** And it can raise an alert that the uninterrupted stream does not: when the two events are of one subject and the
      threshold is two, whatever the windows, caps and shards. */
  lemma EarlyReconnectAlerts(s: Stream.Settings, now: int, later: int, c: Config, hash: string -> nat, n: nat,
                             subjectOf: SubjectOf) returns (r: Stream.Reader)
    requires s.rewindNS >= 1000 && s.windowNS == 0 && Windowed(c) && n > 0
    requires subjectOf(Stream.EventAt(Stream.THREE_FRAMES, 0)) == subjectOf(Stream.EventAt(Stream.THREE_FRAMES, 1)) != ""
    ensures Stream.Reaches(s, Stream.THREE_FRAMES, Stream.FRESH, [Stream.Connect(now, 1, 2), Stream.Connect(later, 3, 1)], r)
    ensures forall i: nat :: i in r.dispatched ==> Stream.Good(Stream.THREE_FRAMES, i)
    ensures var log := Stream.THREE_FRAMES;
            var once, cut := Expected(subjectOf, log, r), Feed(subjectOf, log, r.dispatched);
            && AlertsOf(once, RunSet(c, hash, n, once, 2).verdicts) == []
            && AlertsOf(cut, RunSet(c, hash, n, cut, 2).verdicts)
               == [OccurrenceOf(subjectOf, Stream.EventAt(log, 0))]
  {
    hide Stream.Next, Stream.EventAt, Stream.Good, Feed, RunSet, DedupKey, Stream.Possible;
    var log := Stream.THREE_FRAMES;
    var r1: Stream.Reader;
    r1, r := EarlyReconnectReachesBack(s, now, later);
    TwoSteps(s, log, Stream.Connect(now, 1, 2), Stream.Connect(later, 3, 1), r1, r);
    Stream.ThreeFrames();
    var x, y := OccurrenceOf(subjectOf, Stream.EventAt(log, 1)), OccurrenceOf(subjectOf, Stream.EventAt(log, 0));
    FeedOne(subjectOf, log, 1);
    FeedOne(subjectOf, log, 0);
    FeedAppend(subjectOf, log, [1], [0]);
    assert [1] + [0] == [1, 0] && [x] + [y] == [x, y];
    JustOne(log);
    LateHitAlerts(c, hash, n, x, y);
    AlertsOfTwo(x, y);
  }

  lemma TwoSteps(s: Stream.Settings, log: Stream.ServerLog, g: Stream.Happening, h: Stream.Happening, r1: Stream.Reader,
                 r2: Stream.Reader)
    requires Stream.Possible(log, Stream.FRESH, g) && r1 == Stream.Next(s, log, Stream.FRESH, g)
    requires Stream.Possible(log, r1, h) && r2 == Stream.Next(s, log, r1, h)
    ensures Stream.Reaches(s, log, Stream.FRESH, [g, h], r2)
  {
    hide Stream.Next;
    assert [g, h][1..] == [h] && [h][1..] == [];
    assert Stream.Reaches(s, log, r2, [], r2);
    assert Stream.Reaches(s, log, r1, [h], r2);
  }

  lemma JustOne(log: Stream.ServerLog)
    requires Stream.Good(log, 1)
    ensures Straight(log, 1, 2) == [1]
  {
    hide Stream.Good;
    Stream.NothingBefore(log, 1, 1);
  }

  lemma AlertsOfTwo(x: Occurrence, y: Occurrence)
    ensures AlertsOf([x], [Verdict(1, false, false)]) == []
    ensures AlertsOf([x, y], [Verdict(1, false, false), Verdict(2, false, true)]) == [y]
  {
    hide AlertsOf;
    var v, v' := Verdict(1, false, false), Verdict(2, false, true);
    assert [] + [x] == [x] && [x] + [y] == [x, y] && [] + [v] == [v] && [v] + [v'] == [v, v'] && [] + [y] == [y];
    NoAlerts();
    AlertsSnoc([], [], x, v);
    AlertsSnoc([x], [v], y, v');
  }

  lemma NoAlerts()
    ensures AlertsOf([], []) == []
  {
  }
}
