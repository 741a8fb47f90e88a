/** The connection lifecycle: Run, connectAndRead and subscribeURL (internal/jetstream/ingest.go). */
module Lifecycle {
  import opened Int64
  import opened Durations
  import opened Wrappers
  import opened Events
  import opened Cursors
  import Stream

  datatype ConnState = Disconnected | Connecting | Replaying | Live | Reconnecting

  const HEALTHY_FOR_NS := 60 * SECOND_NS

  datatype Settings = Settings(stream: Stream.Settings, liveThresholdNS: int64, backoffMaxNS: int64)

  /** When the context is cancelled during one iteration of Run, if it is. */
  datatype Cancel = NotCancelled | InRead | InBackoff

  /** What the world does in one iteration: whether the dial succeeds, the frames read before the
      connection ends, the cursor lag after each frame, how long it was held, and the jitter drawn. */
  datatype Iteration = Iteration(nowNS: int, dialOk: bool, frames: seq<Option<Envelope>>, lagNS: seq<int64>,
                                 heldNS: int, jitter: nat, cancel: Cancel)

  datatype Backoff = Backoff(attempt: nat, delayNS: int)

  // ----- specifications -----

  function DecodedEvents(frames: seq<Option<Envelope>>): seq<Event> {
    if frames == [] then []
    else
      var d := Decode(frames[|frames| - 1]);
      DecodedEvents(frames[..|frames| - 1]) + if d.Some? then [d.value] else []
  }

  function PositionAfter(latest: int64, frames: seq<Option<Envelope>>): int64 {
    if frames == [] then latest
    else
      var pos, d := PositionAfter(latest, frames[..|frames| - 1]), Decode(frames[|frames| - 1]);
      if d.Some? && d.value.timeUS > 0 then Max(pos, d.value.timeUS) else pos
  }

  predicate Allowed(a: ConnState, b: ConnState) {
    match a
    case Disconnected => b.Connecting? || b.Reconnecting?
    case Connecting => b.Replaying? || b.Live? || b.Disconnected?
    case Reconnecting => b.Replaying? || b.Live? || b.Disconnected?
    case Replaying => b.Live? || b.Disconnected?
    case Live => b.Disconnected?
  }

  /** `trace` is a walk through the documented state machine from `first`. */
  ghost predicate Walk(first: ConnState, trace: seq<ConnState>) {
    && (trace != [] ==> Allowed(first, trace[0]))
    && forall i :: 0 < i < |trace| ==> Allowed(trace[i - 1], trace[i])
  }

  lemma WalkStep(first: ConnState, trace: seq<ConnState>, next: ConnState)
    requires Walk(first, trace) && Allowed(if trace == [] then first else trace[|trace| - 1], next)
    ensures Walk(first, trace + [next])
  {
  }

  /** Failures since and including the last connection held longer than the healthy time, or all of
      them when there was none. */
  function FailureStreak(its: seq<Iteration>): nat {
    |its| - LastHealthy(its)
  }

  function LastHealthy(its: seq<Iteration>): (k: nat)
    ensures k <= |its|
    ensures k == 0 || (k < |its| && its[k].heldNS > HEALTHY_FOR_NS)
    ensures forall j :: k < j < |its| ==> its[j].heldNS <= HEALTHY_FOR_NS
  {
    if its == [] then 0
    else if its[|its| - 1].heldNS > HEALTHY_FOR_NS then |its| - 1
    else LastHealthy(its[..|its| - 1])
  }

  function Min(a: int, b: int): int {
    if a < b then a else b
  }

  /** The longest delay that may be drawn for an attempt. */
  function BackoffCap(s: Settings, attempt: nat): int {
    Min(Pow2(if attempt < 6 then attempt else 6) * SECOND_NS, s.backoffMaxNS)
  }

  /** How many backoffs the iterations from number `i` on lead to: one each until the context is cancelled, none for
      the read that a cancellation ends. */
  function Backed(its: seq<Iteration>, i: nat): nat
    requires i <= |its|
    decreases |its| - i
  {
    if i == |its| || its[i].cancel.InRead? then 0
    else if its[i].cancel.InBackoff? then 1
    else 1 + Backed(its, i + 1)
  }

  /** How many of the iterations from number `i` on are begun. */
  function Begun(its: seq<Iteration>, i: nat): (n: nat)
    requires i <= |its|
    ensures i + n <= |its|
    decreases |its| - i
  {
    if i == |its| then 0 else if !its[i].cancel.NotCancelled? then 1 else 1 + Begun(its, i + 1)
  }

  /** The first cap is two seconds, and it doubles with each failure up to the sixth, never beyond BackoffMax. */
  lemma CapDoubles(s: Settings, attempt: nat)
    requires s.backoffMaxNS >= 0 && attempt >= 1
    ensures BackoffCap(s, 1) == Min(2 * SECOND_NS, s.backoffMaxNS)
    ensures BackoffCap(s, attempt + 1)
         == Min(if attempt < 6 then 2 * BackoffCap(s, attempt) else BackoffCap(s, attempt), s.backoffMaxNS)
  {
  }

  /** Each backoff's attempt is the failure streak of the iterations so far, and its delay is any within the cap that the
      jitter may choose. */
  ghost predicate InStep(s: Settings, its: seq<Iteration>, delays: seq<Backoff>) {
    && |delays| <= |its|
    && forall k :: 0 <= k < |delays| ==>
         && delays[k].attempt == FailureStreak(its[..k + 1])
         && 0 <= delays[k].delayNS <= BackoffCap(s, delays[k].attempt)
         && (its[k].jitter <= BackoffCap(s, delays[k].attempt) ==> delays[k].delayNS == its[k].jitter)
  }

  lemma InStepNext(s: Settings, its: seq<Iteration>, delays: seq<Backoff>, attempt: nat, delayNS: int)
    requires InStep(s, its, delays) && |delays| < |its|
    requires attempt == FailureStreak(its[..|delays| + 1]) && 0 <= delayNS <= BackoffCap(s, attempt)
    requires its[|delays|].jitter <= BackoffCap(s, attempt) ==> delayNS == its[|delays|].jitter
    ensures InStep(s, its, delays + [Backoff(attempt, delayNS)])
  {
    hide FailureStreak, BackoffCap;
  }

  /** Connecting is entered at most as the first state. */
  ghost predicate ConnectsFirst(trace: seq<ConnState>) {
    forall i :: 0 < i < |trace| ==> trace[i] != Connecting
  }

  lemma ConnectsFirstMore(trace: seq<ConnState>, more: seq<ConnState>)
    requires ConnectsFirst(trace) && trace <= more
    requires forall i :: |trace| <= i < |more| ==> i == 0 || more[i] != Connecting
    ensures ConnectsFirst(more)
  {
  }

  /** The position, what was dispatched, the counted malformed frames and lapses, and the states entered. */
  datatype Progress = Progress(latest: int64, dispatched: seq<Event>, malformed: int, gaps: nat, states: seq<ConnState>)

  /** A good frame is read while the lag is small. */
  predicate CatchesUp(s: Settings, frames: seq<Option<Envelope>>, lagNS: seq<int64>) {
    exists i :: 0 <= i < |frames| && i < |lagNS| && Decode(frames[i]).Some? && lagNS[i] <= s.liveThresholdNS
  }

  /** The states a connection passes through once it is announced. */
  function Passed(s: Settings, latest: int64, it: Iteration): seq<ConnState> {
    if !it.dialOk then []
    else if latest <= 0 then [Live]
    else if CatchesUp(s, it.frames, it.lagNS) then [Replaying, Live]
    else [Replaying]
  }

  /** One iteration of Run. */
  function Advanced(s: Settings, p: Progress, it: Iteration): Progress {
    Progress(if it.dialOk then PositionAfter(p.latest, it.frames) else p.latest,
             p.dispatched + (if it.dialOk then DecodedEvents(it.frames) else []),
             p.malformed + (if it.dialOk then |it.frames| - |DecodedEvents(it.frames)| else 0),
             p.gaps + (if Stream.Subscribe(s.stream, p.latest, it.nowNS).Lapsed? then 1 else 0),
             p.states + [if p.states == [] then Connecting else Reconnecting] + Passed(s, p.latest, it) + [Disconnected])
  }

  function ProgressAfter(s: Settings, p: Progress, its: seq<Iteration>): Progress
    decreases |its|
  {
    if its == [] then p else ProgressAfter(s, Advanced(s, p, its[0]), its[1..])
  }

  lemma {:induction false} ProgressSnoc(s: Settings, p: Progress, its: seq<Iteration>, it: Iteration)
    ensures ProgressAfter(s, p, its + [it]) == Advanced(s, ProgressAfter(s, p, its), it)
    decreases |its|
  {
    hide Advanced;
    if its == [] {
      assert [it][1..] == [] && [] + [it] == [it];
    } else {
      assert (its + [it])[1..] == its[1..] + [it];
      ProgressSnoc(s, Advanced(s, p, its[0]), its[1..], it);
    }
  }

  lemma ProgressNext(s: Settings, p: Progress, its: seq<Iteration>, n: nat)
    requires n < |its|
    ensures ProgressAfter(s, p, its[..n + 1]) == Advanced(s, ProgressAfter(s, p, its[..n]), its[n])
  {
    assert its[..n + 1] == its[..n] + [its[n]];
    ProgressSnoc(s, p, its[..n], its[n]);
  }

  // ----- the class -----

  class Ingestor {
    const settings: Settings
    const cursor: Cursor
    var state: ConnState
    var connected: bool
    var ready: bool
    var replayGaps: nat
    var reconnects: nat
    var malformed: nat
    ghost var dispatched: seq<Event>
    ghost var trace: seq<ConnState>

    constructor (settings: Settings, cursor: Cursor)
      ensures this.settings == settings && this.cursor == cursor
      ensures state == Disconnected && !connected && !ready && trace == [] && dispatched == []
      ensures replayGaps == reconnects == malformed == 0
    {
      this.settings, this.cursor := settings, cursor;
      state, connected, ready := Disconnected, false, false;
      replayGaps, reconnects, malformed := 0, 0, 0;
      dispatched, trace := [], [];
    }

    ghost function Reached(): Progress
      reads this, cursor
    {
      Progress(cursor.latest, dispatched, malformed, replayGaps, trace)
    }

    /** The states entered since the start form a walk of the state machine ending in this one. */
    ghost predicate OnTrack()
      reads this
    {
      Walk(Disconnected, trace) && state == if trace == [] then Disconnected else trace[|trace| - 1]
    }

    method SetState(s: ConnState)
      requires OnTrack() && (state == s || Allowed(state, s))
      modifies this`state, this`trace
      ensures OnTrack() && state == s
      ensures trace == if old(state) == s then old(trace) else old(trace) + [s]
    {
      if state == s {
        return;
      }
      WalkStep(Disconnected, trace, s);
      state := s;
      trace := trace + [s];
    }

    /** The cursor parameter of the next subscription; a lapsed window is counted and resumes live. */
    method SubscribeURL(nowNS: int) returns (from: Option<int>)
      modifies this`replayGaps
      ensures match Stream.Subscribe(settings.stream, cursor.latest, nowNS) {
                case Tip => from == None && replayGaps == old(replayGaps)
                case Lapsed => from == None && replayGaps == old(replayGaps) + 1
                case From(c) => from == Some(c) && replayGaps == old(replayGaps)
              }
    {
      var pos := cursor.latest;
      if pos > 0 {
        var age := Stream.Saturated(nowNS - (pos * 1000 - settings.stream.rewindNS));
        if settings.stream.windowNS > 0 && age > settings.stream.windowNS {
          replayGaps := replayGaps + 1;
          return None;
        }
        return Some(Stream.ResumeAt(settings.stream, pos));
      }
      return None;
    }

    /** The read loop: malformed frames are counted and skipped, all others are dispatched and move
        the cursor; Replaying turns into Live once, when the lag is small after a read. */
    method ReadFrames(frames: seq<Option<Envelope>>, lagNS: seq<int64>)
      requires OnTrack() && (state.Replaying? || state.Live?) && |lagNS| == |frames|
      modifies this`state, this`trace, this`malformed, this`dispatched, cursor`latest
      ensures OnTrack() && (state.Replaying? || state.Live?) && (old(state).Live? ==> state.Live?)
      ensures trace == if old(state) == state then old(trace) else old(trace) + [Live]
      ensures dispatched == old(dispatched) + DecodedEvents(frames)
      ensures cursor.latest == PositionAfter(old(cursor.latest), frames)
      ensures malformed + |DecodedEvents(frames)| == old(malformed) + |frames|
      ensures state == Live <==> old(state) == Live || CatchesUp(settings, frames, lagNS)
    {
      hide Decode, Walk;
      for i := 0 to |frames|
        invariant OnTrack() && (state.Replaying? || state.Live?) && (old(state).Live? ==> state.Live?)
        invariant trace == if old(state) == state then old(trace) else old(trace) + [Live]
        invariant dispatched == old(dispatched) + DecodedEvents(frames[..i])
        invariant cursor.latest == PositionAfter(old(cursor.latest), frames[..i])
        invariant malformed + |DecodedEvents(frames[..i])| == old(malformed) + i
        invariant state == Live <==> old(state) == Live || CatchesUp(settings, frames[..i], lagNS)
      {
        assert frames[..i + 1][..i] == frames[..i];
        var d := Decode(frames[i]);
        if d.None? {
          malformed := malformed + 1;
        } else {
          dispatched := dispatched + [d.value];
          var _ := cursor.Advance(d.value.timeUS, []);
          if state == Replaying && lagNS[i] <= settings.liveThresholdNS {
            SetState(Live);
          }
        }
      }
      assert frames[..|frames|] == frames;
    }
  
    /** One connection, from subscribing to the error that ends it. */
    method ConnectAndRead(it: Iteration)
      requires OnTrack() && !connected && (state.Connecting? || state.Reconnecting?) && |it.lagNS| == |it.frames|
      modifies this`state, this`trace, this`malformed, this`dispatched, this`connected, this`ready, this`replayGaps
      modifies cursor`latest
      ensures OnTrack() && !connected
      ensures trace == old(trace) + Passed(settings, old(cursor.latest), it)
      ensures !it.dialOk ==> trace == old(trace)
      ensures it.dialOk && old(cursor.latest) <= 0 ==> trace == old(trace) + [Live]
      ensures it.dialOk && old(cursor.latest) > 0 ==>
                trace == old(trace) + [Replaying]
                         + if exists i :: 0 <= i < |it.frames| && Decode(it.frames[i]).Some?
                                          && it.lagNS[i] <= settings.liveThresholdNS then [Live] else []
      ensures dispatched == old(dispatched) + if it.dialOk then DecodedEvents(it.frames) else []
      ensures malformed == old(malformed) + if it.dialOk then |it.frames| - |DecodedEvents(it.frames)| else 0
      ensures cursor.latest == if it.dialOk then PositionAfter(old(cursor.latest), it.frames) else old(cursor.latest)
      ensures replayGaps == old(replayGaps)
                            + if Stream.Subscribe(settings.stream, old(cursor.latest), it.nowNS).Lapsed? then 1 else 0
      ensures ready == (old(ready) || it.dialOk)
      ensures !state.Disconnected?
    {
      hide Walk;
      var _ := SubscribeURL(it.nowNS);
      if !it.dialOk {
        return;
      }
      if cursor.latest > 0 {
        SetState(Replaying);
      } else {
        SetState(Live);
      }
      connected := true;
      ready := true;
      ReadFrames(it.frames, it.lagNS);
      connected := false;
    }

    /** What Run does after a connection failed: reset the count after a healthy one, count the
        failure, report it, and draw the delay. `None` is the panic of a draw from an empty range. */
    method BackOff(it: Iteration, attempt: nat) returns (next: nat, delay: Option<int>)
      requires OnTrack() && !state.Disconnected?
      modifies this`state, this`trace, this`ready, this`reconnects
      ensures OnTrack() && state.Disconnected? && !ready && reconnects == old(reconnects) + 1
      ensures trace == old(trace) + [Disconnected] && (old(ConnectsFirst(trace)) ==> ConnectsFirst(trace))
      ensures next == (if it.heldNS > HEALTHY_FOR_NS then 0 else attempt) + 1
      ensures delay.None? <==> settings.backoffMaxNS < 0
      ensures delay.Some? ==> 0 <= delay.value <= BackoffCap(settings, next)
      ensures delay.Some? && it.jitter <= BackoffCap(settings, next) ==> delay.value == it.jitter
    {
      hide Walk, Pow2;
      next := attempt;
      if it.heldNS > HEALTHY_FOR_NS {
        next := 0;
      }
      next := next + 1;
      reconnects := reconnects + 1;
      SetState(Disconnected);
      ready := false;
      var e := if next < 6 then next else 6;
      var d := Pow2(e) * SECOND_NS;
      if d > settings.backoffMaxNS {
        d := settings.backoffMaxNS;
      }
      delay := None;
      if d + 1 > 0 {
        SmallRemainder(it.jitter, d + 1);
        delay := Some(it.jitter % (d + 1));
      }
    }

    /** The first half of an iteration of Run: announce the attempt and hold the connection. */
    method Attempt(it: Iteration, attempt: nat)
      requires OnTrack() && state.Disconnected? && !connected && ConnectsFirst(trace) && (attempt == 0 <==> trace == [])
      requires |it.lagNS| == |it.frames|
      modifies this`state, this`trace, this`malformed, this`dispatched, this`connected, this`ready, this`replayGaps
      modifies cursor`latest
      ensures OnTrack() && !state.Disconnected? && !connected && ConnectsFirst(trace) && trace != []
      ensures Reached().(states := trace + [Disconnected]) == Advanced(settings, old(Reached()), it)
    {
      hide Walk, Passed, CatchesUp, DecodedEvents, PositionAfter, Stream.Subscribe;
      if attempt == 0 {
        SetState(Connecting);
      } else {
        SetState(Reconnecting);
      }
      ConnectAndRead(it);
      ConnectsFirstMore(old(trace), trace);
    }

    /** The reconnect loop. It ends when the context is cancelled: at the head of the loop once the
        iterations are used up, inside a read, or inside a backoff. A negative BackoffMax makes the
        jitter draw panic at the first failure. */
    method Run(its: seq<Iteration>) returns (delays: seq<Backoff>, panicked: bool)
      requires OnTrack() && state.Disconnected? && !connected && trace == []
      requires forall i :: 0 <= i < |its| ==> |its[i].lagNS| == |its[i].frames|
      modifies this`state, this`trace, this`malformed, this`dispatched, this`connected, this`ready, this`replayGaps
      modifies this`reconnects, cursor`latest
      ensures OnTrack() && state.Disconnected? && !connected
      ensures panicked <==> settings.backoffMaxNS < 0 && its != [] && its[0].cancel != InRead
      ensures |delays| == if panicked then 0 else Backed(its, 0)
      ensures InStep(settings, its, delays)
      ensures reconnects == old(reconnects) + |delays| + if panicked then 1 else 0
      ensures Reached() == ProgressAfter(settings, old(Reached()), its[..if panicked then 1 else Begun(its, 0)])
      ensures ConnectsFirst(trace)
    {
      hide Walk, InStep, ConnectsFirst, Backed, Begun, BackoffCap, FailureStreak, LastHealthy, ProgressAfter,
        Advanced;
      delays, panicked := [], false;
      RunStart(settings, its, Reached(), trace);
      var attempt := 0;
      for n := 0 to |its|
        invariant OnTrack() && state.Disconnected? && !connected && !panicked
        invariant |delays| == n && attempt == FailureStreak(its[..n])
        invariant n > 0 ==> attempt > 0 && trace != []
        invariant n == 0 ==> trace == []
        invariant reconnects == old(reconnects) + n
        invariant Backed(its, 0) == n + Backed(its, n) && Begun(its, 0) == n + Begun(its, n)
        invariant Reached() == ProgressAfter(settings, old(Reached()), its[..n])
        invariant n > 0 ==> settings.backoffMaxNS >= 0
        invariant InStep(settings, its, delays)
        invariant ConnectsFirst(trace)
      {
        Attempt(its[n], attempt);
        Counts(its, n);
        ProgressNext(settings, old(Reached()), its, n);
        if its[n].cancel == InRead {
          break;
        }
        StreakStep(its, n);
        var delay: Option<int>;
        attempt, delay := BackOff(its[n], attempt);
        if delay.None? {
          panicked := true;
          return;
        }
        InStepNext(settings, its, delays, attempt, delay.value);
        delays := delays + [Backoff(attempt, delay.value)];
        if its[n].cancel == InBackoff {
          return;
        }
      }
      ghost var before := trace;
      SetState(Disconnected);
      ConnectsFirstMore(before, trace);
    }
  }

  lemma SmallRemainder(x: nat, n: nat)
    requires n > 0
    ensures 0 <= x % n < n && (x < n ==> x % n == x)
  {
  }

  lemma RunStart(s: Settings, its: seq<Iteration>, p: Progress, trace: seq<ConnState>)
    ensures ProgressAfter(s, p, its[..0]) == p && FailureStreak(its[..0]) == 0 && InStep(s, its, [])
    ensures (trace == [] ==> ConnectsFirst(trace)) && Backed(its, |its|) == Begun(its, |its|) == 0
  {
  }

  lemma Counts(its: seq<Iteration>, n: nat)
    requires n < |its|
    ensures Backed(its, n) == match its[n].cancel
                              case InRead => 0
                              case InBackoff => 1
                              case NotCancelled => 1 + Backed(its, n + 1)
    ensures Begun(its, n) == if its[n].cancel.NotCancelled? then 1 + Begun(its, n + 1) else 1
  {
  }

  lemma StreakStep(its: seq<Iteration>, n: nat)
    requires n < |its|
    ensures FailureStreak(its[..n + 1]) == (if its[n].heldNS > HEALTHY_FOR_NS then 0 else FailureStreak(its[..n])) + 1
  {
  }

  // ----- the states of a whole run -----

  /** What one iteration enters, told from what was read: the announcement; then, if the dial succeeds, Live at once
      without a position, and with one Replaying, followed by Live if and only if some well-formed frame is read
      with a small lag; then Disconnected. */
  ghost predicate EntersAs(s: Settings, latest: int64, it: Iteration, first: ConnState, entered: seq<ConnState>)
    requires |it.lagNS| == |it.frames|
  {
    && 2 <= |entered| <= 4 && entered[0] == first && entered[|entered| - 1] == Disconnected
    && (!it.dialOk <==> |entered| == 2)
    && (it.dialOk && latest <= 0 ==> entered[1..] == [Live, Disconnected])
    && (it.dialOk && latest > 0 ==> entered[1] == Replaying)
    && (it.dialOk && latest > 0 ==>
          (entered[2] == Live <==> exists i :: 0 <= i < |it.frames| && Decode(it.frames[i]).Some?
                                               && it.lagNS[i] <= s.liveThresholdNS))
  }

  lemma PassedEnters(s: Settings, latest: int64, it: Iteration, first: ConnState)
    requires |it.lagNS| == |it.frames|
    ensures EntersAs(s, latest, it, first, [first] + Passed(s, latest, it) + [Disconnected])
  {
    hide Decode;
  }

  /** So does each iteration of a run, the first ever being announced as Connecting and all others as Reconnecting. */
  lemma IterationStates(s: Settings, p: Progress, its: seq<Iteration>, n: nat)
    requires n < |its| && |its[n].lagNS| == |its[n].frames|
    ensures var before, after := ProgressAfter(s, p, its[..n]), ProgressAfter(s, p, its[..n + 1]);
            && before.states < after.states
            && EntersAs(s, before.latest, its[n], if n == 0 && p.states == [] then Connecting else Reconnecting,
                        after.states[|before.states|..])
  {
    hide EntersAs, Passed, DecodedEvents, PositionAfter, Stream.Subscribe, ProgressAfter;
    var it, before := its[n], ProgressAfter(s, p, its[..n]);
    var first := if before.states == [] then Connecting else Reconnecting;
    ProgressNext(s, p, its, n);
    NoStatesAtStart(s, p, its, n);
    PassedEnters(s, before.latest, it, first);
    var entered := [first] + Passed(s, before.latest, it) + [Disconnected];
    var after := ProgressAfter(s, p, its[..n + 1]);
    assert after.states == before.states + entered;
    assert after.states[|before.states|..] == entered;
  }

  lemma {:induction false} NoStatesAtStart(s: Settings, p: Progress, its: seq<Iteration>, n: nat)
    requires n <= |its|
    ensures ProgressAfter(s, p, its[..n]).states == [] <==> n == 0 && p.states == []
  {
    hide ProgressAfter;
    if n == 0 {
      NothingRun(s, p, its);
    } else {
      ProgressNext(s, p, its, n - 1);
    }
  }

  lemma NothingRun(s: Settings, p: Progress, its: seq<Iteration>)
    ensures ProgressAfter(s, p, its[..0]) == p
  {
  }

  // ----- the read loop and the stream model agree -----

  /** The frames at the given places of the log. */
  function FramesAt(log: Stream.ServerLog, ids: seq<nat>): seq<Option<Envelope>>
    requires forall i: nat :: i in ids ==> Stream.Good(log, i)
  {
    if ids == [] then []
    else
      assert ids[|ids| - 1] in ids && Stream.Good(log, ids[|ids| - 1]);
      FramesAt(log, ids[..|ids| - 1]) + [log[ids[|ids| - 1]]]
  }

  function EventsAt(log: Stream.ServerLog, ids: seq<nat>): seq<Event>
    requires forall i: nat :: i in ids ==> Stream.Good(log, i)
  {
    if ids == [] then []
    else
      assert ids[|ids| - 1] in ids;
      EventsAt(log, ids[..|ids| - 1]) + [Stream.EventAt(log, ids[|ids| - 1])]
  }

  lemma FramesSnoc(frames: seq<Option<Envelope>>, x: Option<Envelope>, latest: int64)
    ensures DecodedEvents(frames + [x]) == DecodedEvents(frames) + if Decode(x).Some? then [Decode(x).value] else []
    ensures PositionAfter(latest, frames + [x])
         == if Decode(x).Some? && Decode(x).value.timeUS > 0 then Max(PositionAfter(latest, frames), Decode(x).value.timeUS)
            else PositionAfter(latest, frames)
  {
  }

  lemma {:induction false} ReadIsConsume(log: Stream.ServerLog, r: Stream.Reader, ids: seq<nat>)
    requires forall i: nat :: i in ids ==> Stream.Good(log, i)
    ensures DecodedEvents(FramesAt(log, ids)) == EventsAt(log, ids)
    ensures PositionAfter(r.latest, FramesAt(log, ids)) == Stream.Consume(log, r, ids).latest
  {
    hide Decode;
    if ids != [] {
      var l, i := ids[..|ids| - 1], ids[|ids| - 1];
      assert i in ids && forall j: nat :: j in l ==> j in ids;
      ReadIsConsume(log, r, l);
      FramesSnoc(FramesAt(log, l), log[i], r.latest);
    }
  }

  /** Malformed frames in between change neither what is dispatched nor the position. */
  lemma {:induction false} MalformedAreInvisible(frames: seq<Option<Envelope>>, latest: int64)
    ensures DecodedEvents(frames) == DecodedEvents(WellFormed(frames))
    ensures PositionAfter(latest, frames) == PositionAfter(latest, WellFormed(frames))
  {
    hide Decode;
    if frames != [] {
      var l, x := frames[..|frames| - 1], frames[|frames| - 1];
      MalformedAreInvisible(l, latest);
      assert frames == l + [x];
      FramesSnoc(l, x, latest);
      FramesSnoc(WellFormed(l), x, latest);
      assert Decode(x).None? ==> WellFormed(frames) == WellFormed(l);
      assert DecodedEvents(l) + [] == DecodedEvents(l);
    }
  }

  function WellFormed(frames: seq<Option<Envelope>>): seq<Option<Envelope>> {
    if frames == [] then []
    else WellFormed(frames[..|frames| - 1]) + if Decode(frames[|frames| - 1]).Some? then [frames[|frames| - 1]] else []
  }

  // ----- a whole run follows the stream model -----

  /** The iterations get what the server delivers: each successful dial reads, apart from malformed frames, a part of
      what its subscription is sent. A failed dial is a connection that gets nothing. */
  ghost predicate Served(s: Stream.Settings, log: Stream.ServerLog, r: Stream.Reader, hs: seq<Stream.Happening>,
                         its: seq<Iteration>)
    decreases |its|
  {
    |hs| == |its| &&
    (its == [] ||
     (&& hs[0].Connect? && Stream.Possible(log, r, hs[0]) && hs[0].nowNS == its[0].nowNS
      && GetsSent(s, log, r, hs[0], its[0])
      && Served(s, log, Stream.Next(s, log, r, hs[0]), hs[1..], its[1..])))
  }

  ghost predicate GetsSent(s: Stream.Settings, log: Stream.ServerLog, r: Stream.Reader, h: Stream.Happening, it: Iteration)
    requires h.Connect?
  {
    var ids := Stream.Delivered(log, Stream.Subscribe(s, r.latest, it.nowNS), h.tip, h.upto);
    && (forall i: nat :: i in ids ==> Stream.Good(log, i))
    && if it.dialOk then WellFormed(it.frames) == FramesAt(log, ids) else h.upto == 0
  }

  lemma {:induction false} EventsAppend(log: Stream.ServerLog, a: seq<nat>, b: seq<nat>)
    requires forall i: nat :: i in a || i in b ==> Stream.Good(log, i)
    ensures EventsAt(log, a + b) == EventsAt(log, a) + EventsAt(log, b)
  {
    hide Stream.Good, Stream.EventAt;
    if b == [] {
      assert a + b == a;
    } else {
      EventsAppend(log, a, b[..|b| - 1]);
      assert (a + b)[..|a + b| - 1] == a + b[..|b| - 1];
    }
  }

  /** What the stream model says the run has reached. */
  ghost predicate Follows(log: Stream.ServerLog, r: Stream.Reader, p: Progress) {
    && (forall i: nat :: i in r.dispatched ==> Stream.Good(log, i))
    && p.latest == r.latest && p.dispatched == EventsAt(log, r.dispatched) && p.gaps == r.gaps
  }

  lemma ConnectFollows(s: Settings, log: Stream.ServerLog, r: Stream.Reader, h: Stream.Happening, it: Iteration,
                       p: Progress)
    requires h.Connect? && Stream.Possible(log, r, h) && h.nowNS == it.nowNS && GetsSent(s.stream, log, r, h, it)
    requires Follows(log, r, p)
    ensures Follows(log, Stream.Next(s.stream, log, r, h), Advanced(s, p, it))
  {
    hide Stream.Good, Stream.EventAt, Stream.Covered, Stream.Sent, Stream.Subscribe, WellFormed, DecodedEvents,
      PositionAfter;
    var ids := Stream.Delivered(log, Stream.Subscribe(s.stream, r.latest, it.nowNS), h.tip, h.upto);
    Stream.ConsumeFacts(log, r, ids);
    EventsAppend(log, r.dispatched, ids);
    ReadIsConsume(log, r, ids);
    MalformedAreInvisible(it.frames, r.latest);
    assert EventsAt(log, r.dispatched) + [] == EventsAt(log, r.dispatched);
  }

  /** Served by the stream, the position, the dispatches and the counted lapses of a run are those of the stream
      model's reader after the same connections. */
  lemma {:induction false} RunFollowsStream(s: Settings, log: Stream.ServerLog, r: Stream.Reader,
                                            hs: seq<Stream.Happening>, its: seq<Iteration>, r': Stream.Reader, p: Progress)
    requires Served(s.stream, log, r, hs, its) && Stream.Reaches(s.stream, log, r, hs, r') && Follows(log, r, p)
    ensures Follows(log, r', ProgressAfter(s, p, its))
    decreases |its|
  {
    hide GetsSent, Follows, Stream.Next, Advanced;
    if its != [] {
      ConnectFollows(s, log, r, hs[0], its[0], p);
      RunFollowsStream(s, log, Stream.Next(s.stream, log, r, hs[0]), hs[1..], its[1..], r', Advanced(s, p, its[0]));
    }
  }
}
