/**
 The server's event log, the cursor a subscription resumes from, and what any sequence
 of connections, lapses and restarts has dispatched (internal/jetstream/ingest.go).
 */
module Stream {
  import opened Int64
  import opened Wrappers
  import opened Events

  /** `rewindNS` and `windowNS` are ReplayRewind and ReplayWindow in nanoseconds. */
  datatype Settings = Settings(rewindNS: int64, windowNS: int64)

  datatype Subscription = Tip | From(cursor: int) | Lapsed

  /** The position minus the rewind, in whole microseconds rounded down. */
  function ResumeAt(s: Settings, pos: int64): int {
    pos - (s.rewindNS + 999) / 1000
  }

  /** As the program computes it: rewind the instant in nanoseconds, then floor to microseconds. */
  lemma ResumeIsFloor(s: Settings, pos: int64)
    ensures ResumeAt(s, pos) == (pos * 1000 - s.rewindNS) / 1000
  {
  }

  /** `time.Since` saturates at the ends of the duration range. */
  function Saturated(d: int): int64 {
    if d > MAX then MAX else if d < MIN then MIN else d
  }

  /** How the next connection subscribes: from the live tip before the first position, from the
      rewound position, or from the tip because the server no longer holds that position. */
  function Subscribe(s: Settings, latest: int64, nowNS: int): Subscription {
    if latest <= 0 then Tip
    else if s.windowNS > 0 && Saturated(nowNS - (latest * 1000 - s.rewindNS)) > s.windowNS then Lapsed
    else From(ResumeAt(s, latest))
  }

  /** A lapse is reported exactly when the rewound position is older than the window. Only a window of the largest
      duration, 292 years, is never found to have lapsed. */
  lemma LapsedExactly(s: Settings, latest: int64, nowNS: int)
    ensures Subscribe(s, latest, nowNS).Lapsed? <==>
              latest > 0 && 0 < s.windowNS < MAX && latest * 1000 - s.rewindNS < nowNS - s.windowNS
  {
  }

  /** The next connection asks for the live tip exactly when there is no position or it has lapsed, and otherwise for the
      last microsecond that is not after the rewound position. */
  lemma SubscribesExactly(s: Settings, latest: int64, nowNS: int)
    ensures Subscribe(s, latest, nowNS).Tip? <==> latest <= 0
    ensures var sub := Subscribe(s, latest, nowNS);
            sub.From? ==> sub.cursor * 1000 <= latest * 1000 - s.rewindNS < (sub.cursor + 1) * 1000
  {
  }

  // ----- the server's log -----

  /** Frames in the order the server sends them. */
  type ServerLog = seq<Option<Envelope>>

  predicate Good(log: ServerLog, i: nat) {
    i < |log| && Decode(log[i]).Some?
  }

  function EventAt(log: ServerLog, i: nat): Event
    requires Good(log, i)
  {
    Decode(log[i]).value
  }

  /** A well-formed frame with a positive time: the ones that move the cursor. */
  predicate Wanted(log: ServerLog, i: nat) {
    Good(log, i) && EventAt(log, i).timeUS > 0
  }

  /** No wanted frame is more than `d` microseconds behind an earlier one. */
  ghost predicate DisorderAtMost(log: ServerLog, d: nat) {
    forall i, j :: 0 <= i < j < |log| && Wanted(log, i) && Wanted(log, j) ==>
      EventAt(log, i).timeUS <= EventAt(log, j).timeUS + d
  }

  /** Would a subscription made when the log had length `tip` be sent frame `i`? */
  predicate Sent(log: ServerLog, sub: Subscription, tip: nat, i: nat) {
    Good(log, i) && if sub.From? then EventAt(log, i).timeUS >= sub.cursor else i >= tip
  }

  /** The frames dispatched on a connection that was cut when it had got as far as `upto`. Malformed
      frames are left out: they are counted, and neither dispatched nor allowed to move the cursor. */
  function Delivered(log: ServerLog, sub: Subscription, tip: nat, upto: nat): seq<nat> {
    if upto == 0 then []
    else Delivered(log, sub, tip, upto - 1) + if Sent(log, sub, tip, upto - 1) then [upto - 1] else []
  }

  lemma {:induction false} DeliveredMembers(log: ServerLog, sub: Subscription, tip: nat, upto: nat)
    ensures forall i: nat :: i in Delivered(log, sub, tip, upto) <==> i < upto && Sent(log, sub, tip, i)
  {
    if upto > 0 {
      DeliveredMembers(log, sub, tip, upto - 1);
    }
  }

  // ----- the reader's state over a whole run -----

  /** A stretch of the log within which nothing wanted was missed. */
  datatype Stretch = Stretch(from: nat, to: nat)

  /** The cursor and the frame it came from, every dispatch in order, the counted lapses, how much of
      the log any connection has reached, the stretches covered so far, and how many processes started
      without a position. Only the cursor is lost with a process; the rest is what the route has seen. */
  datatype Reader = Reader(latest: int64, at: nat, dispatched: seq<nat>, gaps: nat, reached: nat,
                           stretches: seq<Stretch>, afresh: nat)

  const FRESH := Reader(0, 0, [], 0, 0, [], 0)

  /** Dispatch and advance for each delivered frame. */
  function Consume(log: ServerLog, r: Reader, ids: seq<nat>): Reader
    requires forall i: nat :: i in ids ==> Good(log, i)
  {
    if ids == [] then r
    else
      var i := ids[|ids| - 1];
      assert i in ids;
      var r' := Consume(log, r, ids[..|ids| - 1]);
      var t := EventAt(log, i).timeUS;
      var r'' := r'.(dispatched := r'.dispatched + [i]);
      if t > 0 && t > r'.latest then r''.(latest := t, at := i) else r''
  }

  /** The first wanted frame among `ids`. */
  function FirstWanted(log: ServerLog, ids: seq<nat>): Option<nat> {
    if ids == [] then None
    else
      var f := FirstWanted(log, ids[..|ids| - 1]);
      if f.Some? then f else if Wanted(log, ids[|ids| - 1]) then Some(ids[|ids| - 1]) else None
  }

  /** A resumed connection prolongs the last stretch. One from the tip begins a new stretch at the
      first wanted frame it delivers, if it delivers any. */
  function Covered(log: ServerLog, r: Reader, sub: Subscription, ids: seq<nat>, upto: nat): seq<Stretch> {
    if sub.From? then
      if r.stretches == [] then []
      else
        var last := r.stretches[|r.stretches| - 1];
        r.stretches[|r.stretches| - 1 := last.(to := if last.to < upto then upto else last.to)]
    else
      match FirstWanted(log, ids)
      case None => r.stretches
      case Some(i) => r.stretches + [Stretch(i, upto)]
  }

  datatype Happening =
    | Connect(nowNS: int, tip: nat, upto: nat)
    | Restart(frame: nat)
    | StartAfresh

  /** The server cannot have sent more than it held when asked. A process that loads its file resumes from a
      committed position, which is the time of some frame dispatched before. One that does not, as `run`
      starts it, has no position. */
  predicate Possible(log: ServerLog, r: Reader, h: Happening) {
    match h
    case Connect(nowNS, tip, upto) => r.reached <= tip <= |log| && upto <= |log|
    case Restart(frame) => frame in r.dispatched && Wanted(log, frame)
    case StartAfresh => true
  }

  function Next(s: Settings, log: ServerLog, r: Reader, h: Happening): Reader
    requires Possible(log, r, h)
  {
    match h
    case Connect(nowNS, tip, upto) =>
      var sub := Subscribe(s, r.latest, nowNS);
      var ids := Delivered(log, sub, tip, upto);
      DeliveredMembers(log, sub, tip, upto);
      Consume(log, r, ids).(
        gaps := r.gaps + if sub.Lapsed? then 1 else 0,
        reached := if r.reached < upto then upto else r.reached,
        stretches := Covered(log, r, sub, ids, upto))
    case Restart(frame) => r.(latest := EventAt(log, frame).timeUS, at := frame)
    case StartAfresh => r.(latest := 0, at := 0, afresh := r.afresh + 1)
  }

  ghost predicate Reaches(s: Settings, log: ServerLog, r: Reader, hs: seq<Happening>, r': Reader)
    decreases |hs|
  {
    if hs == [] then r == r'
    else Possible(log, r, hs[0]) && Reaches(s, log, Next(s, log, r, hs[0]), hs[1..], r')
  }

  // ----- what every run keeps -----

  function LastTo(r: Reader): nat {
    if r.stretches == [] then 0 else r.stretches[|r.stretches| - 1].to
  }

  ghost predicate CursorOk(log: ServerLog, r: Reader) {
    && 0 <= r.latest && (r.latest == 0 && r.afresh == 0 ==> r.stretches == [])
    && (r.latest > 0 ==>
          r.stretches != [] && Wanted(log, r.at) && EventAt(log, r.at).timeUS == r.latest && r.at < LastTo(r))
  }

  ghost predicate StretchesOk(log: ServerLog, r: Reader) {
    && LastTo(r) <= r.reached
    && (forall k :: 0 <= k < |r.stretches| - 1 ==> r.stretches[k].to <= r.stretches[k + 1].from)
    && (forall k, i: nat :: 0 <= k < |r.stretches| && r.stretches[k].from <= i < r.stretches[k].to && Wanted(log, i) ==>
          i in r.dispatched)
  }

  ghost predicate Inv(log: ServerLog, r: Reader) {
    && CursorOk(log, r) && StretchesOk(log, r)
    && |r.stretches| <= r.gaps + r.afresh + (if r.latest > 0 then 1 else 0)
    && (forall i: nat :: i in r.dispatched && Wanted(log, i) ==> i < LastTo(r))
    && FirstWanted(log, r.dispatched) == if r.stretches == [] then None else Some(r.stretches[0].from)
  }

  lemma {:induction false} ConsumeFacts(log: ServerLog, r: Reader, ids: seq<nat>)
    requires forall i: nat :: i in ids ==> Good(log, i)
    ensures var r' := Consume(log, r, ids);
            && r' == r.(latest := r'.latest, at := r'.at, dispatched := r.dispatched + ids)
            && r.latest <= r'.latest
            && ((r'.latest == r.latest && r'.at == r.at)
                || (r'.at in ids && Wanted(log, r'.at) && EventAt(log, r'.at).timeUS == r'.latest))
            && (forall i: nat :: i in ids && Wanted(log, i) ==> EventAt(log, i).timeUS <= r'.latest)
  {
    if ids != [] {
      var l, i := ids[..|ids| - 1], ids[|ids| - 1];
      assert ids == l + [i];
      assert forall j: nat :: j in l ==> j in ids;
      ConsumeFacts(log, r, l);
    }
  }

  lemma {:induction false} FirstWantedAppend(log: ServerLog, a: seq<nat>, b: seq<nat>)
    ensures FirstWanted(log, a + b) == if FirstWanted(log, a).Some? then FirstWanted(log, a) else FirstWanted(log, b)
  {
    if b == [] {
      assert a + b == a;
    } else {
      FirstWantedAppend(log, a, b[..|b| - 1]);
      assert (a + b)[..|a + b| - 1] == a + b[..|b| - 1];
    }
  }

  lemma {:induction false} FirstWantedIn(log: ServerLog, ids: seq<nat>)
    ensures var f := FirstWanted(log, ids);
            f.Some? ==> f.value in ids && Wanted(log, f.value)
  {
    if ids != [] {
      FirstWantedIn(log, ids[..|ids| - 1]);
    }
  }

  /** Frames come in log order, so nothing wanted precedes the first one delivered. */
  lemma {:induction false} FirstIsEarliest(log: ServerLog, sub: Subscription, tip: nat, upto: nat)
    ensures match FirstWanted(log, Delivered(log, sub, tip, upto)) {
              case None => forall i: nat :: i < upto && Sent(log, sub, tip, i) ==> !Wanted(log, i)
              case Some(f) => f < upto && Sent(log, sub, tip, f) && Wanted(log, f)
                              && forall i: nat :: i < f && Sent(log, sub, tip, i) ==> !Wanted(log, i)
            }
  {
    hide Decode;
    if upto > 0 {
      FirstIsEarliest(log, sub, tip, upto - 1);
      var l := Delivered(log, sub, tip, upto - 1);
      if Sent(log, sub, tip, upto - 1) {
        FirstWantedAppend(log, l, [upto - 1]);
        assert Delivered(log, sub, tip, upto) == l + [upto - 1];
        assert FirstWanted(log, [upto - 1]) == if Wanted(log, upto - 1) then Some(upto - 1) else None;
      } else {
        assert Delivered(log, sub, tip, upto) == l;
      }
    }
  }

  /** Nothing wanted beyond the covered part is older than the rewound cursor. */
  lemma RewindCoversDisorder(s: Settings, log: ServerLog, r: Reader, d: nat, i: nat)
    requires Inv(log, r) && r.latest > 0 && DisorderAtMost(log, d) && d * 1000 <= s.rewindNS
    requires LastTo(r) <= i < |log| && Wanted(log, i)
    ensures EventAt(log, i).timeUS >= ResumeAt(s, r.latest)
  {
  }

  /** What one connection does to the reader. */
  ghost predicate Connected(s: Settings, log: ServerLog, r: Reader, nowNS: int, tip: nat, upto: nat, r': Reader) {
    var sub := Subscribe(s, r.latest, nowNS);
    var ids := Delivered(log, sub, tip, upto);
    && r'.dispatched == r.dispatched + ids
    && (forall i: nat :: i in ids <==> i < upto && Sent(log, sub, tip, i))
    && r.latest <= r'.latest
    && ((r'.latest == r.latest && r'.at == r.at)
        || (r'.at in ids && Wanted(log, r'.at) && EventAt(log, r'.at).timeUS == r'.latest))
    && (forall i: nat :: i in ids && Wanted(log, i) ==> EventAt(log, i).timeUS <= r'.latest)
    && r'.gaps == r.gaps + (if sub.Lapsed? then 1 else 0)
    && r'.reached == (if r.reached < upto then upto else r.reached) && r'.afresh == r.afresh
    && r'.stretches == Covered(log, r, sub, ids, upto)
    && FirstWanted(log, r'.dispatched)
       == if FirstWanted(log, r.dispatched).Some? then FirstWanted(log, r.dispatched) else FirstWanted(log, ids)
  }

  lemma ConnectIs(s: Settings, log: ServerLog, r: Reader, nowNS: int, tip: nat, upto: nat)
    requires Possible(log, r, Connect(nowNS, tip, upto))
    ensures Connected(s, log, r, nowNS, tip, upto, Next(s, log, r, Connect(nowNS, tip, upto)))
  {
    hide Decode, Wanted, Subscribe, Covered;
    var sub := Subscribe(s, r.latest, nowNS);
    var ids := Delivered(log, sub, tip, upto);
    DeliveredMembers(log, sub, tip, upto);
    ConsumeFacts(log, r, ids);
    FirstWantedAppend(log, r.dispatched, ids);
  }

  /** A resumed connection misses nothing wanted, old or new. */
  lemma ResumedInv(s: Settings, log: ServerLog, r: Reader, d: nat, nowNS: int, tip: nat, upto: nat, r': Reader)
    requires Inv(log, r) && Possible(log, r, Connect(nowNS, tip, upto))
    requires DisorderAtMost(log, d) && d * 1000 <= s.rewindNS
    requires Subscribe(s, r.latest, nowNS).From?
    requires Connected(s, log, r, nowNS, tip, upto, r')
    ensures Inv(log, r')
  {
  }

  /** A connection from the tip leaves what was covered alone and starts a new stretch at the first
      wanted frame; when there was a stretch before, this is a lapse and was counted. */
  lemma TipInv(s: Settings, log: ServerLog, r: Reader, nowNS: int, tip: nat, upto: nat, r': Reader)
    requires Inv(log, r) && Possible(log, r, Connect(nowNS, tip, upto))
    requires !Subscribe(s, r.latest, nowNS).From?
    requires Connected(s, log, r, nowNS, tip, upto, r')
    ensures Inv(log, r')
  {
    hide Decode, Delivered, FirstWanted;
    var sub := Subscribe(s, r.latest, nowNS);
    FirstIsEarliest(log, sub, tip, upto);
    var first := FirstWanted(log, Delivered(log, sub, tip, upto));
    if first.None? {
      assert r'.stretches == r.stretches;
    } else {
      TipStretches(s, log, r, nowNS, tip, upto, r', first.value);
    }
  }

  lemma TipStretches(s: Settings, log: ServerLog, r: Reader, nowNS: int, tip: nat, upto: nat, r': Reader, first: nat)
    requires Inv(log, r) && Possible(log, r, Connect(nowNS, tip, upto))
    requires !Subscribe(s, r.latest, nowNS).From?
    requires Connected(s, log, r, nowNS, tip, upto, r')
    requires tip <= first < upto && r'.stretches == r.stretches + [Stretch(first, upto)]
    ensures StretchesOk(log, r') && LastTo(r') == upto
  {
  }

  lemma NextInv(s: Settings, log: ServerLog, r: Reader, d: nat, h: Happening)
    requires Inv(log, r) && Possible(log, r, h)
    requires DisorderAtMost(log, d) && d * 1000 <= s.rewindNS
    ensures Inv(log, Next(s, log, r, h))
  {
    match h
    case Connect(nowNS, tip, upto) =>
      hide Connected, Inv, DisorderAtMost, Delivered;
      var r' := Next(s, log, r, h);
      ConnectIs(s, log, r, nowNS, tip, upto);
      if Subscribe(s, r.latest, nowNS).From? {
        ResumedInv(s, log, r, d, nowNS, tip, upto, r');
      } else {
        TipInv(s, log, r, nowNS, tip, upto, r');
      }
    case Restart(frame) =>
      assert r.stretches != [];
    case StartAfresh =>
  }

  lemma {:induction false} ReachesInv(s: Settings, log: ServerLog, r: Reader, d: nat, hs: seq<Happening>, r': Reader)
    requires Inv(log, r) && Reaches(s, log, r, hs, r')
    requires DisorderAtMost(log, d) && d * 1000 <= s.rewindNS
    ensures Inv(log, r')
    decreases |hs|
  {
    hide Inv, Next, DisorderAtMost;
    if hs != [] {
      NextInv(s, log, r, d, hs[0]);
      ReachesInv(s, log, Next(s, log, r, hs[0]), d, hs[1..], r');
    }
  }

  /** Frame `i` was skipped between two consecutive stretches. */
  ghost predicate InHole(r: Reader, i: nat) {
    exists k :: 0 <= k < |r.stretches| - 1 && r.stretches[k].to <= i < r.stretches[k + 1].from
  }

  lemma {:induction false} StretchOrHole(ss: seq<Stretch>, i: nat)
    requires ss != [] && ss[0].from <= i < ss[|ss| - 1].to
    ensures || (exists k :: 0 <= k < |ss| && ss[k].from <= i < ss[k].to)
            || (exists k :: 0 <= k < |ss| - 1 && ss[k].to <= i < ss[k + 1].from)
  {
    if |ss| > 1 && i < ss[|ss| - 1].from && i < ss[|ss| - 2].to {
      var l := ss[..|ss| - 1];
      StretchOrHole(l, i);
      if k :| 0 <= k < |l| && l[k].from <= i < l[k].to {
        assert ss[k].from <= i < ss[k].to;
      } else {
        var k :| 0 <= k < |l| - 1 && l[k].to <= i < l[k + 1].from;
        assert ss[k].to <= i < ss[k + 1].from;
      }
    } else if |ss| > 1 && i < ss[|ss| - 1].from {
      var k := |ss| - 2;
      assert ss[k].to <= i < ss[k + 1].from;
    }
  }

  /** No silent gap but after an unloaded start. If arrival disorder is at most the rewind, then over any
      connections, lapses and restarts, every wanted frame from the first one dispatched up to beyond the cursor is
      dispatched, unless it lies in a hole, and the holes are at most the counted lapses and the processes that
      started without a position. */
  lemma NoSilentGap(s: Settings, log: ServerLog, d: nat, hs: seq<Happening>, r: Reader, i: nat)
    requires DisorderAtMost(log, d) && d * 1000 <= s.rewindNS
    requires Reaches(s, log, FRESH, hs, r) && Wanted(log, i)
    requires FirstWanted(log, r.dispatched).Some? && FirstWanted(log, r.dispatched).value <= i < LastTo(r)
    ensures r.latest > 0 ==> Wanted(log, r.at) && r.at < LastTo(r) && EventAt(log, r.at).timeUS == r.latest
    ensures i in r.dispatched || InHole(r, i)
    ensures |r.stretches| - 1 <= r.gaps + r.afresh
    ensures r.gaps == 0 && r.afresh == 0 ==> i in r.dispatched
  {
    hide Reaches, Decode;
    ReachesInv(s, log, FRESH, d, hs, r);
    StretchOrHole(r.stretches, i);
  }

  /** No connection of the run rewinds to before the stretch it prolongs. */
  ghost predicate NeverReachesBack(s: Settings, log: ServerLog, r: Reader, hs: seq<Happening>)
    decreases |hs|
  {
    hs == [] ||
    (&& Possible(log, r, hs[0])
     && (hs[0].Connect? && Subscribe(s, r.latest, hs[0].nowNS).From? && r.stretches != [] ==>
           StaysAfter(s, log, r, r.stretches[|r.stretches| - 1].from))
     && NeverReachesBack(s, log, Next(s, log, r, hs[0]), hs[1..]))
  }

  ghost predicate StaysAfter(s: Settings, log: ServerLog, r: Reader, from: nat) {
    forall i: nat :: i < from && Wanted(log, i) ==> EventAt(log, i).timeUS < ResumeAt(s, r.latest)
  }

  /** Every wanted frame dispatched lies in a stretch, and no stretch is empty. */
  ghost predicate Within(log: ServerLog, r: Reader) {
    && (forall k :: 0 <= k < |r.stretches| ==> r.stretches[k].from < r.stretches[k].to)
    && (forall i: nat :: i in r.dispatched && Wanted(log, i) ==> InStretch(r, i))
  }

  ghost predicate InStretch(r: Reader, i: nat) {
    exists k :: 0 <= k < |r.stretches| && r.stretches[k].from <= i < r.stretches[k].to
  }

  lemma ConnectStaysWithin(s: Settings, log: ServerLog, r: Reader, nowNS: int, tip: nat, upto: nat, r': Reader)
    requires Inv(log, r) && Within(log, r) && Possible(log, r, Connect(nowNS, tip, upto))
    requires Connected(s, log, r, nowNS, tip, upto, r')
    requires Subscribe(s, r.latest, nowNS).From? && r.stretches != [] ==>
               StaysAfter(s, log, r, r.stretches[|r.stretches| - 1].from)
    ensures Within(log, r')
  {
    hide Decode, Delivered, FirstWanted;
    var sub := Subscribe(s, r.latest, nowNS);
    FirstIsEarliest(log, sub, tip, upto);
    forall i: nat | i in r'.dispatched && Wanted(log, i) ensures InStretch(r', i) {
      if i in r.dispatched {
        var k :| 0 <= k < |r.stretches| && r.stretches[k].from <= i < r.stretches[k].to;
        assert r'.stretches[k].from <= i < r'.stretches[k].to;
      } else {
        NewIsWithin(s, log, r, nowNS, tip, upto, r', i);
      }
    }
  }

  lemma NewIsWithin(s: Settings, log: ServerLog, r: Reader, nowNS: int, tip: nat, upto: nat, r': Reader, i: nat)
    requires CursorOk(log, r) && Connected(s, log, r, nowNS, tip, upto, r')
    requires Subscribe(s, r.latest, nowNS).From? && r.stretches != [] ==>
               StaysAfter(s, log, r, r.stretches[|r.stretches| - 1].from)
    requires i in Delivered(log, Subscribe(s, r.latest, nowNS), tip, upto) && Wanted(log, i)
    ensures InStretch(r', i)
  {
    hide Decode, Delivered, FirstWanted;
    FirstIsEarliest(log, Subscribe(s, r.latest, nowNS), tip, upto);
    var k := |r'.stretches| - 1;
    assert r'.stretches[k].from <= i < r'.stretches[k].to;
  }

  lemma {:induction false} ReachesWithin(s: Settings, log: ServerLog, r: Reader, d: nat, hs: seq<Happening>, r': Reader)
    requires Inv(log, r) && Within(log, r) && Reaches(s, log, r, hs, r') && NeverReachesBack(s, log, r, hs)
    requires DisorderAtMost(log, d) && d * 1000 <= s.rewindNS
    ensures Within(log, r')
    decreases |hs|
  {
    hide Inv, Within, Next, DisorderAtMost, StaysAfter, Connected;
    if hs != [] {
      var r1 := Next(s, log, r, hs[0]);
      NextInv(s, log, r, d, hs[0]);
      if hs[0].Connect? {
        ConnectIs(s, log, r, hs[0].nowNS, hs[0].tip, hs[0].upto);
        ConnectStaysWithin(s, log, r, hs[0].nowNS, hs[0].tip, hs[0].upto, r1);
      } else {
        StartsWithin(s, log, r, hs[0]);
      }
      ReachesWithin(s, log, r1, d, hs[1..], r');
    }
  }

  lemma StartsWithin(s: Settings, log: ServerLog, r: Reader, h: Happening)
    requires Within(log, r) && Possible(log, r, h) && !h.Connect?
    ensures Within(log, Next(s, log, r, h))
  {
  }

  lemma {:induction false} HolesAreApart(log: ServerLog, r: Reader, k: nat, j: nat)
    requires Within(log, r) && StretchesOk(log, r) && k <= j < |r.stretches|
    ensures r.stretches[k].from <= r.stretches[j].from && r.stretches[k].to <= r.stretches[j].to
  {
    if k < j {
      HolesAreApart(log, r, k, j - 1);
    }
  }

  lemma NotInHole(log: ServerLog, r: Reader, i: nat)
    requires StretchesOk(log, r) && Within(log, r) && i in r.dispatched && Wanted(log, i)
    ensures !InHole(r, i)
  {
    hide Decode, Wanted, StretchesOk;
    var k :| 0 <= k < |r.stretches| && r.stretches[k].from <= i < r.stretches[k].to;
    if j :| 0 <= j < |r.stretches| - 1 && r.stretches[j].to <= i < r.stretches[j + 1].from {
      if k <= j {
        HolesAreApart(log, r, k, j);
      } else {
        HolesAreApart(log, r, j + 1, k);
      }
    }
  }

  /** Exactly what a whole run loses, over any connections, lapses and starts with or without a position: when no
      rewind reaches back before the stretch it prolongs, a wanted frame after the first dispatched one is missing
      if and only if it lies in a hole. So nothing is missing if and only if the server sent nothing wanted during
      any hole. */
  lemma LostExactly(s: Settings, log: ServerLog, d: nat, hs: seq<Happening>, r: Reader, i: nat)
    requires DisorderAtMost(log, d) && d * 1000 <= s.rewindNS
    requires Reaches(s, log, FRESH, hs, r) && NeverReachesBack(s, log, FRESH, hs) && Wanted(log, i)
    requires FirstWanted(log, r.dispatched).Some? && FirstWanted(log, r.dispatched).value <= i < LastTo(r)
    ensures i !in r.dispatched <==> InHole(r, i)
  {
    hide Reaches, NeverReachesBack, Decode;
    ReachesInv(s, log, FRESH, d, hs, r);
    ReachesWithin(s, log, FRESH, d, hs, r);
    StretchOrHole(r.stretches, i);
    if i in r.dispatched {
      NotInHole(log, r, i);
    }
  }

  // ----- what goes wrong without loading the committed position -----

  /** A new process as `run` starts it: nothing is loaded, so the cursor is unset. */
  function NewProcess(r: Reader): Reader {
    r.(latest := 0, at := 0, stretches := [])
  }

  /** Exactly what such a restart loses. After a run without lapses, let a new process connect from the tip and get
      as far as `upto`. Nothing wanted is missing between the first frame ever dispatched and `upto` if and only
      if the server sent nothing wanted between the old process's last connection and the new one. Either
      way no gap is counted. */
  lemma RestartLosesExactly(s: Settings, log: ServerLog, r: Reader, nowNS: int, tip: nat, upto: nat)
    requires Inv(log, r) && r.gaps == 0 && r.afresh == 0 && r.stretches != []
    requires Possible(log, NewProcess(r), Connect(nowNS, tip, upto))
    ensures var r' := Next(s, log, NewProcess(r), Connect(nowNS, tip, upto));
            && r'.gaps == 0 && FirstWanted(log, r'.dispatched) == Some(r.stretches[0].from)
            && ((forall i: nat :: r.stretches[0].from <= i < upto && Wanted(log, i) ==> i in r'.dispatched)
                <==> !exists i: nat :: LastTo(r) <= i < tip && i < upto && Wanted(log, i))
  {
    hide Decode, Next, FirstWanted, Delivered, Consume;
    var r' := Next(s, log, NewProcess(r), Connect(nowNS, tip, upto));
    ConnectIs(s, log, NewProcess(r), nowNS, tip, upto);
    FirstWantedIn(log, r.dispatched);
    assert |r.stretches| == 1 && r.stretches[0].from < LastTo(r) <= tip;
    forall i: nat | LastTo(r) <= i < tip && i < upto && Wanted(log, i)
      ensures i !in r'.dispatched && r.stretches[0].from <= i
    {
    }
  }

  const THREE_FRAMES: ServerLog := [Some(Envelope("a", 1, "identity", None)),
                                    Some(Envelope("b", 2, "identity", None)),
                                    Some(Envelope("c", 3, "identity", None))]

  lemma ThreeFrames()
    ensures |THREE_FRAMES| == 3 && DisorderAtMost(THREE_FRAMES, 0)
    ensures forall i: nat :: i < 3 ==>
              Good(THREE_FRAMES, i) && Wanted(THREE_FRAMES, i) && EventAt(THREE_FRAMES, i).timeUS == i + 1
    ensures DedupKey(EventAt(THREE_FRAMES, 0)) != DedupKey(EventAt(THREE_FRAMES, 1))
  {
    assert DedupKey(EventAt(THREE_FRAMES, 0))[0] == 'a' && DedupKey(EventAt(THREE_FRAMES, 1))[0] == 'b';
  }

  /** A connection from the tip of the three frames that reads just one of them. */
  lemma OneFromTip(s: Settings, r: Reader, i: nat, nowNS: int)
    requires i < 3 && r.latest == 0 && r.reached <= i
    ensures Possible(THREE_FRAMES, r, Connect(nowNS, i, i + 1))
    ensures var r' := Next(s, THREE_FRAMES, r, Connect(nowNS, i, i + 1));
            && r'.dispatched == r.dispatched + [i] && r'.gaps == r.gaps && r'.reached == i + 1
            && r'.latest == i + 1 && r'.stretches == r.stretches + [Stretch(i, i + 1)]
  {
    hide Decode, Wanted, EventAt;
    ThreeFrames();
    NothingBefore(THREE_FRAMES, i, i);
    var ids := Delivered(THREE_FRAMES, Tip, i, i + 1);
    assert ids == [i];
    ConsumeFacts(THREE_FRAMES, r, ids);
    assert i in ids && FirstWanted(THREE_FRAMES, []) == None;
    assert FirstWanted(THREE_FRAMES, ids) == Some(i);
  }

  lemma {:induction false} NothingBefore(log: ServerLog, tip: nat, upto: nat)
    requires upto <= tip
    ensures Delivered(log, Tip, tip, upto) == []
  {
    if upto > 0 {
      NothingBefore(log, tip, upto - 1);
    }
  }

  /** A process that does not load the file resumes from the tip: what the server sent meanwhile is
      lost although the disorder is zero, and no gap is counted. */
  lemma RestartWithoutLoadIsASilentGap(s: Settings, now: int, later: int)
    returns (r1: Reader, r2: Reader)
    ensures Possible(THREE_FRAMES, FRESH, Connect(now, 0, 1)) && r1 == Next(s, THREE_FRAMES, FRESH, Connect(now, 0, 1))
    ensures Possible(THREE_FRAMES, NewProcess(r1), Connect(later, 2, 3))
    ensures r2 == Next(s, THREE_FRAMES, NewProcess(r1), Connect(later, 2, 3))
    ensures DisorderAtMost(THREE_FRAMES, 0) && Wanted(THREE_FRAMES, 1)
    ensures r2.dispatched == [0, 2] && r2.gaps == 0
  {
    hide Decode, Wanted, EventAt, Next, DisorderAtMost;
    ThreeFrames();
    OneFromTip(s, FRESH, 0, now);
    r1 := Next(s, THREE_FRAMES, FRESH, Connect(now, 0, 1));
    OneFromTip(s, NewProcess(r1), 2, later);
    r2 := Next(s, THREE_FRAMES, NewProcess(r1), Connect(later, 2, 3));
  }
}
