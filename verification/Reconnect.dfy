/**
 End to end: an in-order stream cut by any number of disconnects, each followed by the
 rewound redelivery, leaves a stateful route exactly where the uninterrupted stream
 would have left it.
 */
module Reconnect {
  import opened Events
  import opened Wrappers
  import opened Recency
  import opened Shards
  import opened LogSpec
  import opened Sharding
  import opened Replay
  import Stream

  type Log = Stream.ServerLog
  type Reader = Stream.Reader

  // ----- from frames to the occurrences a stateful route observes -----

  /** The handler's view of an event: its subject, empty when the record names none or the event
      is not routed here. Such events are not observed. */
  type SubjectOf = Event -> string

  function OccurrenceOf(subjectOf: SubjectOf, ev: Event): Occurrence {
    Occurrence(subjectOf(ev), DedupKey(ev), ev.timeUS)
  }

  function Feed(subjectOf: SubjectOf, log: Log, ids: seq<nat>): seq<Occurrence>
    requires forall i: nat :: i in ids ==> Stream.Good(log, i)
  {
    if ids == [] then []
    else
      var i := ids[|ids| - 1];
      assert i in ids;
      var ev := Stream.EventAt(log, i);
      Feed(subjectOf, log, ids[..|ids| - 1]) + if subjectOf(ev) == "" then [] else [OccurrenceOf(subjectOf, ev)]
  }

  lemma {:induction false} FeedAppend(subjectOf: SubjectOf, log: Log, a: seq<nat>, b: seq<nat>)
    requires forall i: nat :: i in a || i in b ==> Stream.Good(log, i)
    ensures Feed(subjectOf, log, a + b) == Feed(subjectOf, log, a) + Feed(subjectOf, log, b)
  {
    hide Stream.Good, Stream.EventAt, OccurrenceOf;
    if b == [] {
      assert a + b == a;
    } else {
      var l, k := b[..|b| - 1], b[|b| - 1];
      FeedAppend(subjectOf, log, a, l);
      assert (a + b)[..|a + b| - 1] == a + l && (a + b)[|a + b| - 1] == k;
    }
  }

  lemma {:induction false} FeedMembers(subjectOf: SubjectOf, log: Log, ids: seq<nat>)
    requires forall i: nat :: i in ids ==> Stream.Good(log, i)
    ensures forall x :: x in Feed(subjectOf, log, ids) <==>
              exists i: nat :: i in ids && subjectOf(Stream.EventAt(log, i)) != ""
                            && x == OccurrenceOf(subjectOf, Stream.EventAt(log, i))
  {
    if ids != [] {
      var l, k := ids[..|ids| - 1], ids[|ids| - 1];
      assert ids == l + [k];
      assert forall i: nat :: i in l ==> i in ids;
      FeedMembers(subjectOf, log, l);
      forall x | x in Feed(subjectOf, log, ids)
        ensures exists i: nat :: i in ids && subjectOf(Stream.EventAt(log, i)) != ""
                              && x == OccurrenceOf(subjectOf, Stream.EventAt(log, i))
      {
        if x in Feed(subjectOf, log, l) {
          var i: nat :| i in l && subjectOf(Stream.EventAt(log, i)) != ""
                     && x == OccurrenceOf(subjectOf, Stream.EventAt(log, i));
          assert i in ids;
        } else {
          assert k in ids;
        }
      }
    }
  }

  // ----- the uninterrupted stream -----

  /** The well-formed frames of a stretch, in order: what one connection never cut delivers. */
  function Straight(log: Log, from: nat, to: nat): (ids: seq<nat>)
    ensures forall i: nat :: i in ids <==> from <= i < to && Stream.Good(log, i)
  {
    Stream.DeliveredMembers(log, Stream.Tip, from, to);
    Stream.Delivered(log, Stream.Tip, from, to)
  }

  lemma {:induction false} DeliveredSplit(log: Log, sub: Stream.Subscription, tip: nat, a: nat, b: nat)
    requires a <= b && forall i: nat :: a <= i < b && Stream.Good(log, i) ==> Stream.Sent(log, sub, tip, i)
    ensures Stream.Delivered(log, sub, tip, b)
         == Stream.Delivered(log, sub, tip, a) + Stream.Delivered(log, Stream.Tip, a, b)
  {
    if a == b {
      Stream.NothingBefore(log, a, b);
    } else {
      DeliveredSplit(log, sub, tip, a, b - 1);
    }
  }

  // ----- feeding replays and fresh events -----

  lemma {:induction false} FeedFresh(c: Config, hash: string -> nat, n: nat, es: seq<Occurrence>, feed: seq<Occurrence>,
                                     xs: seq<Occurrence>, threshold: int)
    requires c.Valid() && n > 0 && ReplayOf(c, hash, n, es, feed, threshold)
    ensures ReplayOf(c, hash, n, es + xs, feed + xs, threshold)
    decreases |xs|
  {
    if xs == [] {
      assert es + xs == es && feed + xs == feed;
    } else {
      var l := xs[..|xs| - 1];
      FeedFresh(c, hash, n, es, feed, l, threshold);
      assert (es + xs)[..|es + xs| - 1] == es + l && (feed + xs)[..|feed + xs| - 1] == feed + l;
    }
  }

  lemma {:induction false} FeedReplays(c: Config, hash: string -> nat, n: nat, es: seq<Occurrence>, feed: seq<Occurrence>,
                                       xs: seq<Occurrence>, threshold: int)
    requires Windowed(c) && n > 0 && NonDecreasing(es) && ReplayOf(c, hash, n, es, feed, threshold)
    requires forall x :: x in xs ==>
               x in es && Knows(c, hash, n, es, threshold, x)
    ensures ReplayOf(c, hash, n, es, feed + xs, threshold)
    decreases |xs|
  {
    hide RunSet, Has;
    if xs == [] {
      assert feed + xs == feed;
    } else {
      var l, x := xs[..|xs| - 1], xs[|xs| - 1];
      assert x in xs && forall y :: y in l ==> y in xs;
      FeedReplays(c, hash, n, es, feed, l, threshold);
      ReplaysAreAbsorbed(c, hash, n, es, feed + l, threshold);
      assert (feed + xs)[..|feed + xs| - 1] == feed + l;
    }
  }

  // ----- the stream is in order -----

  /** Every well-formed frame has a positive time, and times never go back. */
  ghost predicate InOrderLog(log: Log) {
    && (forall i: nat :: Stream.Good(log, i) ==> Stream.EventAt(log, i).timeUS > 0)
    && (forall i: nat, j: nat :: i < j && Stream.Good(log, i) && Stream.Good(log, j) ==>
          Stream.EventAt(log, i).timeUS <= Stream.EventAt(log, j).timeUS)
  }

  lemma OrderedSnoc(es: seq<Occurrence>, x: Occurrence)
    requires NonDecreasing(es) && 0 <= x.time && forall y :: y in es ==> y.time <= x.time
    ensures NonDecreasing(es + [x])
  {
  }

  /** What the uninterrupted stretch feeds is in order and not later than any frame after it. */
  lemma {:induction false} StraightOrdered(subjectOf: SubjectOf, log: Log, from: nat, to: nat)
    requires InOrderLog(log)
    ensures NonDecreasing(Feed(subjectOf, log, Straight(log, from, to)))
    ensures forall x, j: nat :: x in Feed(subjectOf, log, Straight(log, from, to)) && to <= j && Stream.Good(log, j) ==>
              x.time <= Stream.EventAt(log, j).timeUS
  {
    hide Stream.Good, Stream.EventAt, DedupKey, Feed, NonDecreasing;
    FeedMembers(subjectOf, log, Straight(log, from, to));
    if to > 0 {
      var l, k := Straight(log, from, to - 1), to - 1;
      StraightOrdered(subjectOf, log, from, k);
      if k in Straight(log, from, to) && subjectOf(Stream.EventAt(log, k)) != "" {
        assert Straight(log, from, to) == l + [k];
        FeedAppend(subjectOf, log, l, [k]);
        FeedOne(subjectOf, log, k);
        OrderedSnoc(Feed(subjectOf, log, l), OccurrenceOf(subjectOf, Stream.EventAt(log, k)));
      } else {
        StraightSkip(subjectOf, log, from, k);
      }
    } else {
      NothingStraight(subjectOf, log, from);
    }
  }

  lemma NothingStraight(subjectOf: SubjectOf, log: Log, from: nat)
    ensures Feed(subjectOf, log, Straight(log, from, 0)) == [] && NonDecreasing([])
  {
  }

  lemma FeedOne(subjectOf: SubjectOf, log: Log, i: nat)
    requires Stream.Good(log, i)
    ensures var ev := Stream.EventAt(log, i);
            Feed(subjectOf, log, [i]) == if subjectOf(ev) == "" then [] else [OccurrenceOf(subjectOf, ev)]
  {
  }

  lemma StraightSkip(subjectOf: SubjectOf, log: Log, from: nat, k: nat)
    requires k in Straight(log, from, k + 1) ==> subjectOf(Stream.EventAt(log, k)) == ""
    ensures Feed(subjectOf, log, Straight(log, from, k + 1)) == Feed(subjectOf, log, Straight(log, from, k))
  {
    var l := Straight(log, from, k);
    if k in Straight(log, from, k + 1) {
      assert Straight(log, from, k + 1) == l + [k];
      FeedAppend(subjectOf, log, l, [k]);
      FeedOne(subjectOf, log, k);
    } else {
      assert Straight(log, from, k + 1) == l;
    }
  }

  // ----- what every run of connections keeps -----

  /** What the uninterrupted stream would have fed by now. */
  function Expected(subjectOf: SubjectOf, log: Log, r: Reader): seq<Occurrence> {
    if r.stretches == [] then []
    else
      var k := r.stretches[|r.stretches| - 1];
      Feed(subjectOf, log, Straight(log, k.from, k.to))
  }

  ghost predicate Mirrored(c: Config, hash: string -> nat, n: nat, subjectOf: SubjectOf, log: Log, r: Reader, threshold: int)
    requires c.Valid() && n > 0
  {
    && Stream.Inv(log, r) && r.gaps == 0 && r.afresh == 0
    && (r.stretches == [] ==> r.dispatched == [])
    && (forall i: nat :: i in r.dispatched ==> Stream.Good(log, i) && Stream.EventAt(log, i).timeUS <= r.latest)
    && ReplayOf(c, hash, n, Expected(subjectOf, log, r), Feed(subjectOf, log, r.dispatched), threshold)
  }

  /** The rewind does not reach back before the first frame this process ever dispatched. */
  ghost predicate RewindStaysInside(s: Stream.Settings, log: Log, r: Reader) {
    r.stretches != [] ==>
      forall i: nat :: i < r.stretches[0].from && Stream.Good(log, i) ==>
        Stream.EventAt(log, i).timeUS < Stream.ResumeAt(s, r.latest)
  }

  /** Every frame that a connection getting as far as `upto` sends again, and that the route observes, still has
      its dedup key in the table of its shard. */
  ghost predicate ReplaysRemembered(c: Config, hash: string -> nat, n: nat, subjectOf: SubjectOf, s: Stream.Settings,
                                    log: Log, r: Reader, threshold: int, upto: nat)
    requires c.Valid() && n > 0
  {
    r.stretches != [] ==>
      forall i: nat :: r.stretches[0].from <= i < Stream.LastTo(r) && i < upto && Stream.Good(log, i)
                       && Stream.EventAt(log, i).timeUS >= Stream.ResumeAt(s, r.latest)
                       && subjectOf(Stream.EventAt(log, i)) != "" ==>
        Knows(c, hash, n, Expected(subjectOf, log, r), threshold, OccurrenceOf(subjectOf, Stream.EventAt(log, i)))
  }

  /** After `es`, the shard of the subject remembers the dedup key. */
  predicate Knows(c: Config, hash: string -> nat, n: nat, es: seq<Occurrence>, threshold: int, x: Occurrence)
    requires c.Valid() && n > 0
  {
    Has(StateFor(hash, RunSet(c, hash, n, es, threshold).states, x.subject).dedup, x.dedup)
  }

  /** Without lapses there is one stretch, not empty, and it was dispatched completely. */
  lemma OneStretch(log: Log, r: Reader)
    requires Stream.Inv(log, r) && r.gaps == 0 && r.afresh == 0 && r.stretches != [] && InOrderLog(log)
    ensures |r.stretches| == 1 && r.stretches[0].from < r.stretches[0].to == Stream.LastTo(r)
    ensures forall i: nat :: i in Straight(log, r.stretches[0].from, r.stretches[0].to) ==> i in r.dispatched
  {
    Stream.FirstWantedIn(log, r.dispatched);
  }

  /** The events expected so far are not later than the cursor. */
  lemma ExpectedNotLater(c: Config, hash: string -> nat, n: nat, subjectOf: SubjectOf, log: Log, r: Reader, threshold: int)
    requires c.Valid() && n > 0 && Mirrored(c, hash, n, subjectOf, log, r, threshold) && InOrderLog(log)
    ensures NonDecreasing(Expected(subjectOf, log, r))
    ensures forall x :: x in Expected(subjectOf, log, r) ==> x.time <= r.latest
  {
    hide ReplayOf, Stream.Good, Stream.EventAt, DedupKey, Stream.Inv;
    if r.stretches != [] {
      OneStretch(log, r);
      var k := r.stretches[0];
      StraightOrdered(subjectOf, log, k.from, k.to);
      FeedMembers(subjectOf, log, Straight(log, k.from, k.to));
    }
  }

  lemma ExpectedHas(subjectOf: SubjectOf, log: Log, r: Reader, i: nat)
    requires Stream.Inv(log, r) && r.gaps == 0 && r.afresh == 0 && InOrderLog(log) && r.stretches != []
    requires r.stretches[0].from <= i < Stream.LastTo(r) && Stream.Good(log, i)
    requires subjectOf(Stream.EventAt(log, i)) != ""
    ensures OccurrenceOf(subjectOf, Stream.EventAt(log, i)) in Expected(subjectOf, log, r)
  {
    hide Stream.Good, Stream.EventAt, DedupKey, Stream.Inv, InOrderLog, Feed;
    OneStretch(log, r);
    FeedMembers(subjectOf, log, Straight(log, r.stretches[0].from, r.stretches[0].to));
  }

  /** The first part of a resumed connection only replays what was observed and is remembered. */
  lemma ReplayPart(c: Config, hash: string -> nat, n: nat, subjectOf: SubjectOf, s: Stream.Settings, log: Log, r: Reader,
                   threshold: int, upto: nat, tip: nat, mid: nat)
    requires Windowed(c) && n > 0 && Mirrored(c, hash, n, subjectOf, log, r, threshold) && InOrderLog(log)
    requires r.stretches != [] && mid <= Stream.LastTo(r) && mid <= upto && RewindStaysInside(s, log, r)
    requires ReplaysRemembered(c, hash, n, subjectOf, s, log, r, threshold, upto)
    ensures var sub := Stream.From(Stream.ResumeAt(s, r.latest));
            var ids := Stream.Delivered(log, sub, tip, mid);
            var es := Expected(subjectOf, log, r);
            && (forall i: nat :: i in ids ==> Stream.Good(log, i))
            && forall x :: x in Feed(subjectOf, log, ids) ==> x in es && Knows(c, hash, n, es, threshold, x)
  {
    hide ReplayOf, Stream.Good, Stream.EventAt, Stream.Inv, OccurrenceOf, Knows, InOrderLog, Expected, Feed;
    hide Stream.ResumeAt;
    var sub := Stream.From(Stream.ResumeAt(s, r.latest));
    var ids, es := Stream.Delivered(log, sub, tip, mid), Expected(subjectOf, log, r);
    Stream.DeliveredMembers(log, sub, tip, mid);
    FeedMembers(subjectOf, log, ids);
    forall x | x in Feed(subjectOf, log, ids) ensures x in es && Knows(c, hash, n, es, threshold, x) {
      var i: nat :| i in ids && subjectOf(Stream.EventAt(log, i)) != ""
                    && x == OccurrenceOf(subjectOf, Stream.EventAt(log, i));
      ExpectedHas(subjectOf, log, r, i);
    }
  }

  /** A resumed connection delivers a part that was covered before and a part that continues it. */
  lemma ResumedParts(s: Stream.Settings, log: Log, r: Reader, tip: nat, upto: nat)
    requires Stream.Inv(log, r) && r.gaps == 0 && r.afresh == 0 && r.latest > 0 && InOrderLog(log) && 0 <= s.rewindNS
    requires upto <= |log|
    ensures var sub, to := Stream.From(Stream.ResumeAt(s, r.latest)), Stream.LastTo(r);
            var mid, end := if upto < to then upto else to, if upto < to then to else upto;
            && Stream.Delivered(log, sub, tip, upto)
               == Stream.Delivered(log, sub, tip, mid) + Straight(log, to, end)
            && Straight(log, r.stretches[0].from, end) == Straight(log, r.stretches[0].from, to) + Straight(log, to, end)
  {
    hide Stream.Good, Stream.EventAt, Stream.Inv;
    LatestIsSet(log, r);
    OneStretch(log, r);
    var sub, to := Stream.From(Stream.ResumeAt(s, r.latest)), Stream.LastTo(r);
    var end := if upto < to then to else upto;
    Stream.NothingBefore(log, to, to);
    if to <= upto {
      forall i: nat | to <= i < upto && Stream.Good(log, i) ensures Stream.Sent(log, sub, tip, i) {
        Stream.RewindCoversDisorder(s, log, r, 0, i);
      }
      DeliveredSplit(log, sub, tip, to, upto);
    }
    DeliveredSplit(log, Stream.Tip, r.stretches[0].from, to, end);
  }

  lemma ResumedMirror(c: Config, hash: string -> nat, n: nat, subjectOf: SubjectOf, s: Stream.Settings, log: Log, r: Reader,
                      threshold: int, nowNS: int, tip: nat, upto: nat, r': Reader)
    requires Windowed(c) && n > 0 && Mirrored(c, hash, n, subjectOf, log, r, threshold) && InOrderLog(log)
    requires RewindStaysInside(s, log, r) && 0 <= s.rewindNS
    requires ReplaysRemembered(c, hash, n, subjectOf, s, log, r, threshold, upto)
    requires Stream.Possible(log, r, Stream.Connect(nowNS, tip, upto)) && Stream.Subscribe(s, r.latest, nowNS).From?
    requires Stream.Connected(s, log, r, nowNS, tip, upto, r') && Stream.Inv(log, r')
    ensures Mirrored(c, hash, n, subjectOf, log, r', threshold)
  {
    hide ReplayOf, Stream.Good, Stream.EventAt, DedupKey, Stream.Inv, Has, RunSet, NonDecreasing, Feed;
    hide Stream.Delivered, InOrderLog, Straight, RewindStaysInside, Stream.FirstWanted, ReplaysRemembered;
    LatestIsSet(log, r);
    OneStretch(log, r);
    var sub, to := Stream.From(Stream.ResumeAt(s, r.latest)), Stream.LastTo(r);
    var mid, end := if upto < to then upto else to, if upto < to then to else upto;
    var old1, fresh1 := Stream.Delivered(log, sub, tip, mid), Straight(log, to, end);
    ResumedParts(s, log, r, tip, upto);
    ReplayPart(c, hash, n, subjectOf, s, log, r, threshold, upto, tip, mid);
    ExpectedNotLater(c, hash, n, subjectOf, log, r, threshold);
    var es, feed := Expected(subjectOf, log, r), Feed(subjectOf, log, r.dispatched);
    var xs, ys := Feed(subjectOf, log, old1), Feed(subjectOf, log, fresh1);
    FeedReplays(c, hash, n, es, feed, xs, threshold);
    FeedFresh(c, hash, n, es, feed + xs, ys, threshold);
    FeedAppend(subjectOf, log, old1, fresh1);
    FeedAppend(subjectOf, log, r.dispatched, old1 + fresh1);
    FeedAppend(subjectOf, log, Straight(log, r.stretches[0].from, to), fresh1);
    assert (feed + xs) + ys == feed + (xs + ys);
    assert Expected(subjectOf, log, r') == es + ys;
    AllGoodBelow(s, log, r, nowNS, tip, upto, r');
  }

  lemma LatestIsSet(log: Log, r: Reader)
    requires Stream.Inv(log, r) && r.latest > 0
    ensures r.stretches != []
  {
  }

  lemma AllGoodBelow(s: Stream.Settings, log: Log, r: Reader, nowNS: int, tip: nat, upto: nat, r': Reader)
    requires Stream.Connected(s, log, r, nowNS, tip, upto, r') && InOrderLog(log)
    requires forall i: nat :: i in r.dispatched ==> Stream.Good(log, i) && Stream.EventAt(log, i).timeUS <= r.latest
    ensures forall i: nat :: i in r'.dispatched ==> Stream.Good(log, i) && Stream.EventAt(log, i).timeUS <= r'.latest
  {
  }

  /** The first connection that dispatches anything starts both streams. */
  lemma FirstMirror(c: Config, hash: string -> nat, n: nat, subjectOf: SubjectOf, s: Stream.Settings, log: Log, r: Reader,
                    threshold: int, nowNS: int, tip: nat, upto: nat, r': Reader)
    requires c.Valid() && n > 0 && Mirrored(c, hash, n, subjectOf, log, r, threshold) && InOrderLog(log)
    requires Stream.Subscribe(s, r.latest, nowNS).Tip? && r.stretches == []
    requires Stream.Connected(s, log, r, nowNS, tip, upto, r') && Stream.Inv(log, r') && r'.gaps == 0
    ensures Mirrored(c, hash, n, subjectOf, log, r', threshold)
  {
    hide ReplayOf, Stream.Good, Stream.EventAt, DedupKey, Stream.Inv, Feed, Stream.Delivered, Stream.FirstWanted, Stream.Sent;
    var ids := Stream.Delivered(log, Stream.Tip, tip, upto);
    assert ids == Straight(log, tip, upto);
    Stream.FirstIsEarliest(log, Stream.Tip, tip, upto);
    AllGoodBelow(s, log, r, nowNS, tip, upto, r');
    NothingFed(c, hash, n, subjectOf, log, threshold);
    var first := Stream.FirstWanted(log, ids);
    if first.None? {
      NoneGood(log, ids);
      assert r'.dispatched == [];
    } else {
      assert r'.dispatched == ids;
      assert Expected(subjectOf, log, r') == Feed(subjectOf, log, ids) by {
        StartAtFirst(log, tip, first.value, upto);
      }
      FromNothing(c, hash, n, Feed(subjectOf, log, ids), threshold);
    }
  }

  lemma FromNothing(c: Config, hash: string -> nat, n: nat, xs: seq<Occurrence>, threshold: int)
    requires c.Valid() && n > 0 && ReplayOf(c, hash, n, [], [], threshold)
    ensures ReplayOf(c, hash, n, xs, xs, threshold)
  {
    FeedFresh(c, hash, n, [], [], xs, threshold);
    assert [] + xs == xs;
  }

  lemma NothingFed(c: Config, hash: string -> nat, n: nat, subjectOf: SubjectOf, log: Log, threshold: int)
    requires c.Valid() && n > 0
    ensures Feed(subjectOf, log, []) == [] && ReplayOf(c, hash, n, [], [], threshold)
  {
  }

  lemma EmptyOrMember(ids: seq<nat>)
    ensures ids == [] || exists i: nat :: i in ids
  {
    if ids != [] {
      assert ids[0] in ids;
    }
  }

  lemma NoneGood(log: Log, ids: seq<nat>)
    requires forall i: nat :: i in ids ==> Stream.Good(log, i) && !Stream.Wanted(log, i)
    requires InOrderLog(log)
    ensures ids == []
  {
    EmptyOrMember(ids);
  }

  lemma StartAtFirst(log: Log, tip: nat, first: nat, upto: nat)
    requires tip <= first <= upto && forall i: nat :: tip <= i < first ==> !Stream.Good(log, i)
    ensures Straight(log, tip, upto) == Straight(log, first, upto)
  {
    DeliveredSplit(log, Stream.Tip, tip, first, upto);
    var l := Straight(log, tip, first);
    EmptyOrMember(l);
  }

  // ----- whole runs -----

  /** Only connections, and no rewind reaches back before the first dispatched frame. */
  ghost predicate CleanRun(s: Stream.Settings, log: Log, r: Reader, hs: seq<Stream.Happening>)
    decreases |hs|
  {
    hs == [] ||
    (&& hs[0].Connect? && Stream.Possible(log, r, hs[0]) && RewindStaysInside(s, log, r)
     && CleanRun(s, log, Stream.Next(s, log, r, hs[0]), hs[1..]))
  }

  lemma ConnectMirror(c: Config, hash: string -> nat, n: nat, subjectOf: SubjectOf, s: Stream.Settings, log: Log, r: Reader,
                      threshold: int, h: Stream.Happening)
    requires Windowed(c) && n > 0 && Mirrored(c, hash, n, subjectOf, log, r, threshold) && InOrderLog(log)
    requires h.Connect? && Stream.Possible(log, r, h) && RewindStaysInside(s, log, r) && 0 <= s.rewindNS
    requires ReplaysRemembered(c, hash, n, subjectOf, s, log, r, threshold, h.upto)
    requires Stream.Next(s, log, r, h).gaps == 0
    ensures Mirrored(c, hash, n, subjectOf, log, Stream.Next(s, log, r, h), threshold)
  {
    hide ReplaysRemembered, Decode, RewindStaysInside, Expected, Stream.Next, ReplayOf, Feed, Stream.Delivered, Stream.Covered;
    var r' := Stream.Next(s, log, r, h);
    Stream.ConnectIs(s, log, r, h.nowNS, h.tip, h.upto);
    assert Stream.DisorderAtMost(log, 0);
    Stream.NextInv(s, log, r, 0, h);
    match Stream.Subscribe(s, r.latest, h.nowNS)
    case Tip => FirstMirror(c, hash, n, subjectOf, s, log, r, threshold, h.nowNS, h.tip, h.upto, r');
    case From(cursor) => ResumedMirror(c, hash, n, subjectOf, s, log, r, threshold, h.nowNS, h.tip, h.upto, r');
    case Lapsed => assert false;
  }

  /** Whenever a connection of the run sends frames again, their dedup keys are still remembered. */
  ghost predicate RememberedRun(c: Config, hash: string -> nat, n: nat, subjectOf: SubjectOf, s: Stream.Settings, log: Log,
                                r: Reader, threshold: int, hs: seq<Stream.Happening>)
    requires c.Valid() && n > 0
    decreases |hs|
  {
    hs == [] ||
    (&& hs[0].Connect? && Stream.Possible(log, r, hs[0])
     && ReplaysRemembered(c, hash, n, subjectOf, s, log, r, threshold, hs[0].upto)
     && RememberedRun(c, hash, n, subjectOf, s, log, Stream.Next(s, log, r, hs[0]), threshold, hs[1..]))
  }

  lemma OrderIsNoDisorder(log: Log)
    requires InOrderLog(log)
    ensures Stream.DisorderAtMost(log, 0)
  {
  }

  /** Lapses are never uncounted. */
  lemma {:induction false} GapsGrow(s: Stream.Settings, log: Log, r: Reader, hs: seq<Stream.Happening>, r': Reader)
    requires Stream.Reaches(s, log, r, hs, r') && CleanRun(s, log, r, hs)
    ensures r.gaps <= r'.gaps
    decreases |hs|
  {
    hide RewindStaysInside;
    if hs != [] {
      GapsGrow(s, log, Stream.Next(s, log, r, hs[0]), hs[1..], r');
      Stream.ConnectIs(s, log, r, hs[0].nowNS, hs[0].tip, hs[0].upto);
    }
  }

  lemma {:induction false} RunMirror(c: Config, hash: string -> nat, n: nat, subjectOf: SubjectOf, s: Stream.Settings,
                                     log: Log, r: Reader, threshold: int, hs: seq<Stream.Happening>, r': Reader)
    requires Windowed(c) && n > 0 && Mirrored(c, hash, n, subjectOf, log, r, threshold) && InOrderLog(log)
    requires Stream.Reaches(s, log, r, hs, r') && CleanRun(s, log, r, hs) && r'.gaps == 0 && 0 <= s.rewindNS
    requires RememberedRun(c, hash, n, subjectOf, s, log, r, threshold, hs)
    ensures Mirrored(c, hash, n, subjectOf, log, r', threshold)
    decreases |hs|
  {
    hide InOrderLog, Expected, RewindStaysInside, ReplaysRemembered, ReplayOf, Stream.Next, Stream.Inv;
    if hs != [] {
      var r1 := Stream.Next(s, log, r, hs[0]);
      GapsGrow(s, log, r1, hs[1..], r');
      GapsGrow(s, log, r, hs, r');
      Stream.ConnectIs(s, log, r, hs[0].nowNS, hs[0].tip, hs[0].upto);
      ConnectMirror(c, hash, n, subjectOf, s, log, r, threshold, hs[0]);
      RunMirror(c, hash, n, subjectOf, s, log, r1, threshold, hs[1..], r');
    }
  }

  lemma FreshMirror(c: Config, hash: string -> nat, n: nat, subjectOf: SubjectOf, log: Log, threshold: int)
    requires c.Valid() && n > 0
    ensures Mirrored(c, hash, n, subjectOf, log, Stream.FRESH, threshold)
  {
  }

  /** Reconnects are idempotent end to end. Take an in-order server log and any connections cut anywhere, each
      resuming from the cursor less the rewind, however long the rewind is, with no lapse counted and no rewind
      reaching back before the first dispatched frame. If no key that a connection sends again had been evicted
      from its shard, the shards end in the same state and raise the same alerts, in the same order, as if that
      stretch had arrived once and uncut. Keys may repeat, and the caps need not fit the stream. */
  lemma ReconnectsAreIdempotent(c: Config, hash: string -> nat, n: nat, subjectOf: SubjectOf, s: Stream.Settings,
                                log: Log, threshold: int, hs: seq<Stream.Happening>, r: Reader)
    requires Windowed(c) && n > 0 && InOrderLog(log) && 0 <= s.rewindNS
    requires Stream.Reaches(s, log, Stream.FRESH, hs, r) && CleanRun(s, log, Stream.FRESH, hs) && r.gaps == 0
    requires RememberedRun(c, hash, n, subjectOf, s, log, Stream.FRESH, threshold, hs)
    ensures forall i: nat :: i in r.dispatched ==> Stream.Good(log, i)
    ensures SameOutcome(c, hash, n, threshold, Feed(subjectOf, log, r.dispatched), Expected(subjectOf, log, r))
  {
    hide InOrderLog, RewindStaysInside, ReplaysRemembered, ReplayOf, Stream.Next, Stream.Inv, Feed, RunSet, AlertsOf;
    hide Stream.Reaches, CleanRun, RememberedRun, Expected;
    FreshMirror(c, hash, n, subjectOf, log, threshold);
    RunMirror(c, hash, n, subjectOf, s, log, Stream.FRESH, threshold, hs, r);
    ExpectedNotLater(c, hash, n, subjectOf, log, r, threshold);
    ReplaysAreAbsorbed(c, hash, n, Expected(subjectOf, log, r), Feed(subjectOf, log, r.dispatched), threshold);
  }

  /** The same shards and the same alert sequence. */
  ghost predicate SameOutcome(c: Config, hash: string -> nat, n: nat, threshold: int, es: seq<Occurrence>,
                              es': seq<Occurrence>)
    requires c.Valid() && n > 0
  {
    var r, r' := RunSet(c, hash, n, es, threshold), RunSet(c, hash, n, es', threshold);
    r.states == r'.states && AlertsOf(es, r.verdicts) == AlertsOf(es', r'.verdicts)
  }

  // ----- enough room for the rewind keeps every replayed key -----

  /** The capacity conditions: keys recur no sooner than a dedup window later and stay in their shard, and the caps
      of each shard fit what the stream has fed it. */
  ghost predicate Roomy(c: Config, hash: string -> nat, n: nat, es: seq<Occurrence>, threshold: int)
    requires n > 0
  {
    var log := SpecLog(c, es, threshold);
    SpacedKeys(c, es) && FitsInShards(c, hash, n, log) && Colocated(hash, n, log)
  }

  /** A replayed event is still remembered by its shard. */
  lemma RoomKnows(c: Config, hash: string -> nat, n: nat, es: seq<Occurrence>, x: Occurrence, threshold: int, t: int)
    requires Windowed(c) && n > 0 && NonDecreasing(es) && Roomy(c, hash, n, es, threshold)
    requires x in es && es[|es| - 1].time <= t && x.time >= t - c.dedupUS
    ensures Knows(c, hash, n, es, threshold, x)
  {
    hide FitsInShards, Colocated, OrderedInShards, SpacedKeys, SpecLog, ShardLog, ShardOf, Has, RunSet;
    var log := SpecLog(c, es, threshold);
    var k :| 0 <= k < |es| && es[k] == x;
    SpecLogEvents(c, es, threshold);
    SpacedAreNeverDuplicates(c, es, threshold);
    InOrderEverywhere(c, hash, n, es, threshold);
    var part := ShardLog(log, hash, n, ShardOf(hash, n, x.subject));
    ShardLogMembers(log, hash, n, ShardOf(hash, n, x.subject));
    assert log[k] in log && log[k].ev == x;
    if part != [] {
      assert part[|part| - 1] in part;
      var j :| 0 <= j < |log| && log[j] == part[|part| - 1];
      assert log[j].ev == es[j];
    }
    RecentIsRemembered(c, hash, n, es, threshold, k);
  }

  lemma RoomRemembers(c: Config, hash: string -> nat, n: nat, subjectOf: SubjectOf, s: Stream.Settings, log: Log, r: Reader,
                      threshold: int, upto: nat)
    requires Windowed(c) && n > 0 && Mirrored(c, hash, n, subjectOf, log, r, threshold) && InOrderLog(log)
    requires 0 <= s.rewindNS <= 1000 * c.dedupUS && RewindStaysInside(s, log, r)
    requires Roomy(c, hash, n, Expected(subjectOf, log, r), threshold)
    ensures ReplaysRemembered(c, hash, n, subjectOf, s, log, r, threshold, upto)
  {
    hide ReplayOf, Stream.Good, Stream.EventAt, DedupKey, Stream.Inv, Knows, Roomy, NonDecreasing, InOrderLog, Expected;
    var es := Expected(subjectOf, log, r);
    ExpectedNotLater(c, hash, n, subjectOf, log, r, threshold);
    if r.stretches == [] {
      return;
    }
    forall i: nat | r.stretches[0].from <= i < Stream.LastTo(r) && i < upto && Stream.Good(log, i)
                    && Stream.EventAt(log, i).timeUS >= Stream.ResumeAt(s, r.latest)
                    && subjectOf(Stream.EventAt(log, i)) != ""
      ensures Knows(c, hash, n, es, threshold, OccurrenceOf(subjectOf, Stream.EventAt(log, i)))
    {
      ExpectedHas(subjectOf, log, r, i);
      assert es[|es| - 1] in es;
      RoomKnows(c, hash, n, es, OccurrenceOf(subjectOf, Stream.EventAt(log, i)), threshold, r.latest);
    }
  }

  lemma ExpectedGrows(subjectOf: SubjectOf, s: Stream.Settings, log: Log, r: Reader, h: Stream.Happening)
    requires Stream.Inv(log, r) && InOrderLog(log) && r.gaps == 0 && r.afresh == 0
    requires h.Connect? && Stream.Possible(log, r, h) && Stream.Next(s, log, r, h).gaps == 0
    ensures Expected(subjectOf, log, r) <= Expected(subjectOf, log, Stream.Next(s, log, r, h))
  {
    hide Decode, Stream.Good, Stream.EventAt, Feed, Stream.Delivered, Stream.FirstWanted, Straight;
    var r' := Stream.Next(s, log, r, h);
    Stream.ConnectIs(s, log, r, h.nowNS, h.tip, h.upto);
    if r.stretches != [] {
      OneStretch(log, r);
      var k, k' := r.stretches[0], r'.stretches[0];
      assert k'.from == k.from && k.to <= k'.to;
      SplitStraight(log, k.from, k.to, k'.to);
      FeedAppend(subjectOf, log, Straight(log, k.from, k.to), Straight(log, k.to, k'.to));
    }
  }

  lemma SplitStraight(log: Log, from: nat, to: nat, to': nat)
    requires from <= to <= to'
    ensures Straight(log, from, to') == Straight(log, from, to) + Straight(log, to, to')
  {
    DeliveredSplit(log, Stream.Tip, from, to, to');
  }

  lemma {:induction false} SpecLogPrefix(c: Config, es: seq<Occurrence>, k: nat, threshold: int)
    requires k <= |es|
    ensures |SpecLog(c, es, threshold)| == |es| && SpecLog(c, es[..k], threshold) == SpecLog(c, es, threshold)[..k]
    decreases |es|
  {
    if k < |es| {
      SpecLogPrefix(c, es[..|es| - 1], k, threshold);
      assert es[..|es| - 1][..k] == es[..k];
    } else {
      assert es[..k] == es;
      if es != [] {
        SpecLogPrefix(c, es[..|es| - 1], |es| - 1, threshold);
      }
    }
  }

  lemma {:induction false} FitsPrefix(c: Config, hash: string -> nat, n: nat, log: LogSpec.Log, k: nat)
    requires n > 0 && k <= |log| && FitsInShards(c, hash, n, log)
    ensures FitsInShards(c, hash, n, log[..k])
    decreases |log|
  {
    hide ShardLog, Provisioned, Fits, ShardOf;
    if k == |log| {
      assert log[..k] == log;
    } else {
      var l, x := log[..|log| - 1], log[|log| - 1];
      assert log == l + [x] && log[..k] == l[..k];
      forall i | 0 <= i < n ensures Provisioned(c, ShardLog(l, hash, n, i)) {
        ShardLogSnoc(l, hash, n, i, x);
        if ShardOf(hash, n, x.ev.subject) == i {
          ShorterProvisioned(c, ShardLog(l, hash, n, i), x);
        }
      }
      FitsPrefix(c, hash, n, l, k);
    }
  }

  lemma RoomyPrefix(c: Config, hash: string -> nat, n: nat, es: seq<Occurrence>, es': seq<Occurrence>, threshold: int)
    requires n > 0 && es <= es' && Roomy(c, hash, n, es', threshold)
    ensures Roomy(c, hash, n, es, threshold)
  {
    hide SpecLog, FitsInShards, ShardOf;
    assert es'[..|es|] == es;
    SpecLogPrefix(c, es', |es|, threshold);
    FitsPrefix(c, hash, n, SpecLog(c, es', threshold), |es|);
  }

  /** The expected stream only grows. */
  lemma {:induction false} RunGrows(subjectOf: SubjectOf, s: Stream.Settings, log: Log, r: Reader, hs: seq<Stream.Happening>,
                                    r': Reader)
    requires Stream.Inv(log, r) && InOrderLog(log) && 0 <= s.rewindNS && r'.gaps == 0 && r.afresh == 0
    requires Stream.Reaches(s, log, r, hs, r') && CleanRun(s, log, r, hs)
    ensures Expected(subjectOf, log, r) <= Expected(subjectOf, log, r')
    decreases |hs|
  {
    hide Stream.Inv, InOrderLog, Expected, RewindStaysInside;
    if hs != [] {
      var r1 := Stream.Next(s, log, r, hs[0]);
      OrderIsNoDisorder(log);
      Stream.NextInv(s, log, r, 0, hs[0]);
      GapsGrow(s, log, r1, hs[1..], r');
      GapsGrow(s, log, r, hs, r');
      Stream.ConnectIs(s, log, r, hs[0].nowNS, hs[0].tip, hs[0].upto);
      RunGrows(subjectOf, s, log, r1, hs[1..], r');
      ExpectedGrows(subjectOf, s, log, r, hs[0]);
    }
  }

  lemma {:induction false} RoomRemembersRun(c: Config, hash: string -> nat, n: nat, subjectOf: SubjectOf,
                                            s: Stream.Settings, log: Log, r: Reader, threshold: int,
                                            hs: seq<Stream.Happening>, r': Reader)
    requires Windowed(c) && n > 0 && Mirrored(c, hash, n, subjectOf, log, r, threshold) && InOrderLog(log)
    requires Stream.Reaches(s, log, r, hs, r') && CleanRun(s, log, r, hs) && r'.gaps == 0
    requires 0 <= s.rewindNS <= 1000 * c.dedupUS && Roomy(c, hash, n, Expected(subjectOf, log, r'), threshold)
    ensures RememberedRun(c, hash, n, subjectOf, s, log, r, threshold, hs)
    decreases |hs|
  {
    hide InOrderLog, Expected, RewindStaysInside, Roomy, ReplayOf, Stream.Next, Stream.Inv, ReplaysRemembered;
    if hs != [] {
      var h, r1 := hs[0], Stream.Next(s, log, r, hs[0]);
      GapsGrow(s, log, r1, hs[1..], r');
      Stream.ConnectIs(s, log, r, h.nowNS, h.tip, h.upto);
      RunGrows(subjectOf, s, log, r, hs, r');
      RoomyPrefix(c, hash, n, Expected(subjectOf, log, r), Expected(subjectOf, log, r'), threshold);
      RoomRemembers(c, hash, n, subjectOf, s, log, r, threshold, h.upto);
      ConnectMirror(c, hash, n, subjectOf, s, log, r, threshold, h);
      RoomRemembersRun(c, hash, n, subjectOf, s, log, r1, threshold, hs[1..], r');
    }
  }

  /** In particular the outcome is the same when the rewind is no longer than the dedup window, no key recurs within
      one, and the caps of each shard fit its part of the stream. */
  lemma EnoughRoomIsIdempotent(c: Config, hash: string -> nat, n: nat, subjectOf: SubjectOf, s: Stream.Settings,
                               log: Log, threshold: int, hs: seq<Stream.Happening>, r: Reader)
    requires Windowed(c) && n > 0 && InOrderLog(log)
    requires 0 <= s.rewindNS <= 1000 * c.dedupUS
    requires Stream.Reaches(s, log, Stream.FRESH, hs, r) && CleanRun(s, log, Stream.FRESH, hs) && r.gaps == 0
    requires Roomy(c, hash, n, Expected(subjectOf, log, r), threshold)
    ensures forall i: nat :: i in r.dispatched ==> Stream.Good(log, i)
    ensures SameOutcome(c, hash, n, threshold, Feed(subjectOf, log, r.dispatched), Expected(subjectOf, log, r))
  {
    hide InOrderLog, Roomy, Mirrored, Feed, Expected, CleanRun, RememberedRun, Stream.Reaches, SameOutcome;
    FreshMirror(c, hash, n, subjectOf, log, threshold);
    RoomRemembersRun(c, hash, n, subjectOf, s, log, Stream.FRESH, threshold, hs, r);
    ReconnectsAreIdempotent(c, hash, n, subjectOf, s, log, threshold, hs, r);
  }
}
