/**
 One route as interleaved atomic steps: offers from the reader, a pool of workers with
 retries, cancellation, closing and draining (internal/route/route.go).
 */
module Routes {
  import opened Wrappers
  import opened Retry

  datatype Policy = Drop | Block

  datatype Config = Config(buffer: nat, workers: nat, policy: Policy, maxAttempts: nat, blockTimeoutNS: nat) {
    predicate Valid() {
      buffer > 0 && workers > 0 && maxAttempts > 0
    }
  }

  /** What the route runs with when fields are unset. */
  function WithDefaults(buffer: int, workers: int, policy: Policy, maxAttempts: int, blockTimeoutNS: int): (c: Config)
    ensures c.Valid() && c.policy == policy
    ensures (buffer > 0 ==> c.buffer == buffer) && (workers > 0 ==> c.workers == workers)
    ensures maxAttempts > 0 ==> c.maxAttempts == maxAttempts
    ensures c.blockTimeoutNS == if blockTimeoutNS <= 0 then 2_000_000_000 else blockTimeoutNS
  {
    Config(if buffer <= 0 then 1024 else buffer, if workers <= 0 then 1 else workers, policy,
           if maxAttempts <= 0 then 3 else maxAttempts, if blockTimeoutNS <= 0 then 2_000_000_000 else blockTimeoutNS)
  }

  /** An event is known by its number among the offers. */
  type Id = nat

  datatype Worker =
    | Idle
    | Calling(ev: Id, attempt: nat)
    | Sleeping(ev: Id, attempt: nat)
    | Exited

  /** What becomes of an event: a worker ends it, or it is turned away. The program counts neither `Refused`, a
      block-policy offer given up at shutdown, nor `Ended(Cancelled)`, an event cut in a backoff by shutdown. */
  datatype Class = Ended(fate: Fate) | Dropped | Refused

  datatype Tally = Tally(ok: multiset<Id>, permanent: multiset<Id>, exhausted: multiset<Id>,
                         cancelled: multiset<Id>, dropped: multiset<Id>, refused: multiset<Id>)

  function Record(t: Tally, into: Class, ev: Id): Tally {
    match into
    case Ended(Ok) => t.(ok := t.ok + multiset{ev})
    case Ended(Permanent) => t.(permanent := t.permanent + multiset{ev})
    case Ended(Exhausted) => t.(exhausted := t.exhausted + multiset{ev})
    case Ended(Cancelled) => t.(cancelled := t.cancelled + multiset{ev})
    case Dropped => t.(dropped := t.dropped + multiset{ev})
    case Refused => t.(refused := t.refused + multiset{ev})
  }

  /** The channel, the pool, and where every finished event ended. `accepted` and `taken` are the
      histories of what entered and left the channel. */
  datatype Route = Route(queue: seq<Id>, closed: bool, stopping: bool, workers: seq<Worker>, offered: nat,
                         accepted: seq<Id>, taken: seq<Id>, tally: Tally)

  const NOTHING := Tally(multiset{}, multiset{}, multiset{}, multiset{}, multiset{}, multiset{})

  function Start(c: Config): Route {
    Route([], false, false, seq(c.workers, i => Idle), 0, [], [], NOTHING)
  }

  datatype Label =
    | Accept
    | Shed
    | Refuse
    | Take(w: nat)
    | Return(w: nat, outcome: Outcome)
    | WakeUp(w: nat)
    | CutShort(w: nat)
    | Stop
    | Close
    | Exit(w: nat)

  predicate IsOffer(l: Label) {
    l.Accept? || l.Shed? || l.Refuse?
  }

  /** A send on the closed channel panics: such an offer is not a step of the route. */
  predicate Enabled(c: Config, r: Route, l: Label) {
    match l
    case Accept => !r.closed && |r.queue| < c.buffer
    case Shed => !r.closed && (c.policy.Drop? ==> |r.queue| >= c.buffer)
    case Refuse => !r.closed && c.policy.Block? && r.stopping
    case Take(w) => w < |r.workers| && r.workers[w].Idle? && r.queue != []
    case Return(w, _) => w < |r.workers| && r.workers[w].Calling?
    case WakeUp(w) => w < |r.workers| && r.workers[w].Sleeping?
    case CutShort(w) => w < |r.workers| && r.workers[w].Sleeping? && r.stopping
    case Stop => true
    case Close => !r.closed
    case Exit(w) => w < |r.workers| && r.workers[w].Idle? && r.closed && r.queue == []
  }

  function Next(c: Config, r: Route, l: Label): Route
    requires Enabled(c, r, l)
  {
    match l
    case Accept => r.(queue := r.queue + [r.offered], accepted := r.accepted + [r.offered], offered := r.offered + 1)
    case Shed => r.(tally := Record(r.tally, Dropped, r.offered), offered := r.offered + 1)
    case Refuse => r.(tally := Record(r.tally, Refused, r.offered), offered := r.offered + 1)
    case Take(w) =>
      r.(queue := r.queue[1..], taken := r.taken + [r.queue[0]], workers := r.workers[w := Calling(r.queue[0], 1)])
    case Return(w, outcome) => Returned(c, r, w, outcome)
    case WakeUp(w) => r.(workers := r.workers[w := Calling(r.workers[w].ev, r.workers[w].attempt + 1)])
    case CutShort(w) => Finished(r, w, Cancelled)
    case Stop => r.(stopping := true)
    case Close => r.(closed := true)
    case Exit(w) => r.(workers := r.workers[w := Exited])
  }

  /** Worker `w` is done with its event. */
  function Finished(r: Route, w: nat, f: Fate): Route
    requires w < |r.workers| && (r.workers[w].Calling? || r.workers[w].Sleeping?)
  {
    r.(tally := Record(r.tally, Ended(f), r.workers[w].ev), workers := r.workers[w := Idle])
  }

  /** A handler call ended: the event is finished, or its worker goes to sleep. */
  function Returned(c: Config, r: Route, w: nat, outcome: Outcome): Route
    requires w < |r.workers| && r.workers[w].Calling?
  {
    var err := Recovered(outcome);
    if err == Success then Finished(r, w, Ok)
    else if err == PermanentError then Finished(r, w, Permanent)
    else if r.workers[w].attempt >= c.maxAttempts then Finished(r, w, Exhausted)
    else r.(workers := r.workers[w := Sleeping(r.workers[w].ev, r.workers[w].attempt)])
  }

  // ----- runs -----

  /** The route after the labels, or nothing when some label is not possible. */
  function Exec(c: Config, r: Route, ls: seq<Label>): Option<Route> {
    if ls == [] then Some(r)
    else
      match Exec(c, r, ls[..|ls| - 1])
      case None => None
      case Some(m) => if Enabled(c, m, ls[|ls| - 1]) then Some(Next(c, m, ls[|ls| - 1])) else None
  }

  lemma ExecSnoc(c: Config, r: Route, ls: seq<Label>, l: Label)
    ensures Exec(c, r, ls + [l])
         == match Exec(c, r, ls)
            case None => None
            case Some(m) => if Enabled(c, m, l) then Some(Next(c, m, l)) else None
  {
    assert (ls + [l])[..|ls|] == ls;
  }

  lemma NoSteps(c: Config, r: Route)
    ensures Exec(c, r, []) == Some(r)
  {
  }

  // ----- conservation -----

  function Held(w: Worker): multiset<Id> {
    if w.Calling? || w.Sleeping? then multiset{w.ev} else multiset{}
  }

  /** The events in the hands of workers. */
  function InFlight(ws: seq<Worker>): multiset<Id> {
    if ws == [] then multiset{} else InFlight(ws[..|ws| - 1]) + Held(ws[|ws| - 1])
  }

  function Tallied(t: Tally, k: Id): nat {
    t.ok[k] + t.permanent[k] + t.exhausted[k] + t.cancelled[k] + t.dropped[k] + t.refused[k]
  }

  /** In how many places event `k` is. */
  function Places(r: Route, k: Id): nat {
    multiset(r.queue)[k] + InFlight(r.workers)[k] + Tallied(r.tally, k)
  }

  /** How often event `k` entered the channel or was turned away. */
  function Answers(r: Route, k: Id): nat {
    multiset(r.accepted)[k] + r.tally.dropped[k] + r.tally.refused[k]
  }

  lemma RecordCounts(t: Tally, f: Class, ev: Id, k: Id)
    ensures Tallied(Record(t, f, ev), k) == Tallied(t, k) + if k == ev then 1 else 0
    ensures Record(t, f, ev).dropped[k] == t.dropped[k] + if f.Dropped? && k == ev then 1 else 0
    ensures Record(t, f, ev).refused[k] == t.refused[k] + if f.Refused? && k == ev then 1 else 0
  {
  }

  lemma {:induction false} InFlightUpdate(ws: seq<Worker>, i: nat, w: Worker, k: Id)
    requires i < |ws|
    ensures InFlight(ws[i := w])[k] + Held(ws[i])[k] == InFlight(ws)[k] + Held(w)[k]
  {
    hide Held;
    var l, ws' := ws[..|ws| - 1], ws[i := w];
    if i < |l| {
      InFlightUpdate(l, i, w, k);
      assert ws'[..|ws'| - 1] == l[i := w];
    } else {
      assert ws'[..|ws'| - 1] == l;
    }
  }

  lemma {:induction false} InFlightSize(ws: seq<Worker>)
    ensures |InFlight(ws)| <= |ws|
  {
    if ws != [] {
      InFlightSize(ws[..|ws| - 1]);
    }
  }

  ghost predicate Rising(xs: seq<Id>) {
    forall i, j :: 0 <= i < j < |xs| ==> xs[i] < xs[j]
  }

  ghost predicate WorkerOk(c: Config, r: Route, w: Worker) {
    match w
    case Idle => true
    case Calling(_, attempt) => 1 <= attempt <= c.maxAttempts
    case Sleeping(_, attempt) => 1 <= attempt < c.maxAttempts
    case Exited => r.closed && r.queue == []
  }

  /** The channel is first in first out, and numbers go up in it. */
  ghost predicate InOrder(r: Route) {
    && r.accepted == r.taken + r.queue && Rising(r.accepted)
    && forall i :: 0 <= i < |r.accepted| ==> r.accepted[i] < r.offered
  }

  ghost predicate PoolOk(c: Config, r: Route) {
    && c.Valid() && |r.queue| <= c.buffer && |r.workers| == c.workers
    && forall i :: 0 <= i < |r.workers| ==> WorkerOk(c, r, r.workers[i])
  }

  /** Each event offered so far, and no other, is in exactly one place. */
  ghost predicate Conserved(r: Route) {
    forall k: Id :: Places(r, k) == Answers(r, k) == if k < r.offered then 1 else 0
  }

  /** What every step keeps. */
  ghost predicate Inv(c: Config, r: Route) {
    && Conserved(r) && InOrder(r) && PoolOk(c, r)
    && (c.policy.Drop? ==> r.tally.refused == multiset{})
  }

  // ----- steps keep it -----

  function Delta(l: Label, r: Route, k: Id): nat {
    if IsOffer(l) && k == r.offered then 1 else 0
  }

  lemma OfferPlaces(c: Config, r: Route, l: Label, k: Id)
    requires Enabled(c, r, l) && IsOffer(l)
    ensures Places(Next(c, r, l), k) == Places(r, k) + Delta(l, r, k)
    ensures Answers(Next(c, r, l), k) == Answers(r, k) + Delta(l, r, k)
  {
    hide InFlight, Record, Tallied;
    RecordCounts(r.tally, Dropped, r.offered, k);
    RecordCounts(r.tally, Refused, r.offered, k);
  }

  lemma TakePlaces(c: Config, r: Route, w: nat, k: Id)
    requires Enabled(c, r, Take(w))
    ensures Places(Next(c, r, Take(w)), k) == Places(r, k)
  {
    hide InFlight, Tallied;
    InFlightUpdate(r.workers, w, Calling(r.queue[0], 1), k);
    assert r.queue == [r.queue[0]] + r.queue[1..];
    assert multiset(r.queue)[k] == multiset([r.queue[0]])[k] + multiset(r.queue[1..])[k];
  }

  lemma FinishedPlaces(r: Route, w: nat, f: Fate, k: Id)
    requires w < |r.workers| && (r.workers[w].Calling? || r.workers[w].Sleeping?)
    ensures Places(Finished(r, w, f), k) == Places(r, k)
    ensures Answers(Finished(r, w, f), k) == Answers(r, k)
  {
    hide InFlight, Record, Tallied;
    InFlightUpdate(r.workers, w, Idle, k);
    RecordCounts(r.tally, Ended(f), r.workers[w].ev, k);
  }

  /** A worker keeps its event, or keeps having none. */
  lemma SameHands(r: Route, w: nat, next: Worker, k: Id)
    requires w < |r.workers| && Held(next) == Held(r.workers[w])
    ensures Places(r.(workers := r.workers[w := next]), k) == Places(r, k)
    ensures Answers(r.(workers := r.workers[w := next]), k) == Answers(r, k)
  {
    hide InFlight, Tallied;
    InFlightUpdate(r.workers, w, next, k);
  }

  /** An offer puts its event in one place; every other step only moves events. */
  lemma StepPlaces(c: Config, r: Route, l: Label, k: Id)
    requires Enabled(c, r, l)
    ensures Places(Next(c, r, l), k) == Places(r, k) + Delta(l, r, k)
    ensures Answers(Next(c, r, l), k) == Answers(r, k) + Delta(l, r, k)
  {
    if IsOffer(l) {
      OfferPlaces(c, r, l, k);
    } else {
      MovePlaces(c, r, l, k);
    }
  }

  lemma MovePlaces(c: Config, r: Route, l: Label, k: Id)
    requires Enabled(c, r, l) && !IsOffer(l)
    ensures Places(Next(c, r, l), k) == Places(r, k)
    ensures Answers(Next(c, r, l), k) == Answers(r, k)
  {
    hide Places, Answers, Finished, Returned, Held;
    match l
    case Take(w) =>
      TakePlaces(c, r, w, k);
      SameAnswers(r, Next(c, r, l), k);
    case Return(w, outcome) => ReturnPlaces(c, r, w, outcome, k);
    case WakeUp(w) =>
      KeepsHolding(r.workers[w], r.workers[w].attempt + 1);
      SameHands(r, w, Calling(r.workers[w].ev, r.workers[w].attempt + 1), k);
    case CutShort(w) => FinishedPlaces(r, w, Cancelled, k);
    case Exit(w) =>
      HoldsNothing();
      SameHands(r, w, Exited, k);
    case Stop => SameFlags(r, Next(c, r, l), k);
    case Close => SameFlags(r, Next(c, r, l), k);
  }

  lemma ReturnPlaces(c: Config, r: Route, w: nat, outcome: Outcome, k: Id)
    requires Enabled(c, r, Return(w, outcome))
    ensures Places(Returned(c, r, w, outcome), k) == Places(r, k)
    ensures Answers(Returned(c, r, w, outcome), k) == Answers(r, k)
  {
    hide Places, Answers, Finished, Held;
    FinishedPlaces(r, w, Ok, k);
    FinishedPlaces(r, w, Permanent, k);
    FinishedPlaces(r, w, Exhausted, k);
    KeepsHolding(r.workers[w], r.workers[w].attempt);
    SameHands(r, w, Sleeping(r.workers[w].ev, r.workers[w].attempt), k);
  }

  lemma KeepsHolding(w: Worker, attempt: nat)
    requires w.Calling? || w.Sleeping?
    ensures Held(Calling(w.ev, attempt)) == Held(Sleeping(w.ev, attempt)) == Held(w)
  {
  }

  lemma HoldsNothing()
    ensures Held(Idle) == Held(Exited) == multiset{}
  {
  }

  lemma SameAnswers(r: Route, r': Route, k: Id)
    requires r'.accepted == r.accepted && r'.tally == r.tally
    ensures Answers(r', k) == Answers(r, k)
  {
  }

  lemma SameFlags(r: Route, r': Route, k: Id)
    requires r' == r.(stopping := r'.stopping, closed := r'.closed)
    ensures Places(r', k) == Places(r, k) && Answers(r', k) == Answers(r, k)
  {
  }

  lemma StepInOrder(c: Config, r: Route, l: Label)
    requires InOrder(r) && Enabled(c, r, l)
    ensures InOrder(Next(c, r, l))
    ensures r.accepted <= Next(c, r, l).accepted && r.taken <= Next(c, r, l).taken
  {
    hide Record;
  }

  lemma StepPool(c: Config, r: Route, l: Label)
    requires PoolOk(c, r) && Enabled(c, r, l)
    ensures PoolOk(c, Next(c, r, l))
    ensures c.policy.Drop? ==> Next(c, r, l).tally.refused == r.tally.refused
  {
    var r' := Next(c, r, l);
    forall i | 0 <= i < |r'.workers| ensures WorkerOk(c, r', r'.workers[i]) {
      assert WorkerOk(c, r, r.workers[i]);
    }
  }

  lemma StepInv(c: Config, r: Route, l: Label)
    requires Inv(c, r) && Enabled(c, r, l)
    ensures Inv(c, Next(c, r, l))
  {
    hide Places, Answers, InOrder, PoolOk;
    StepInOrder(c, r, l);
    StepPool(c, r, l);
    forall k: Id
      ensures Places(Next(c, r, l), k) == Answers(Next(c, r, l), k) == if k < Next(c, r, l).offered then 1 else 0
    {
      StepPlaces(c, r, l, k);
      assert Next(c, r, l).offered == r.offered + if IsOffer(l) then 1 else 0;
    }
  }

  lemma {:induction false} IdleHands(n: nat)
    ensures InFlight(seq(n, i => Idle)) == multiset{}
  {
    if n > 0 {
      IdleHands(n - 1);
      assert seq(n, i => Idle)[..n - 1] == seq(n - 1, i => Idle);
    }
  }

  lemma StartInv(c: Config)
    requires c.Valid()
    ensures Inv(c, Start(c))
  {
    IdleHands(c.workers);
  }

  lemma {:induction false} ExecInv(c: Config, r: Route, ls: seq<Label>)
    requires Inv(c, r) && Exec(c, r, ls).Some?
    ensures Inv(c, Exec(c, r, ls).value)
    ensures r.accepted <= Exec(c, r, ls).value.accepted && r.taken <= Exec(c, r, ls).value.taken
  {
    if ls != [] {
      hide Inv, Next, Enabled;
      var m := Exec(c, r, ls[..|ls| - 1]);
      ExecInv(c, r, ls[..|ls| - 1]);
      StepInv(c, m.value, ls[|ls| - 1]);
      StepGrows(c, m.value, ls[|ls| - 1]);
    }
  }

  lemma StepGrows(c: Config, r: Route, l: Label)
    requires Inv(c, r) && Enabled(c, r, l)
    ensures r.accepted <= Next(c, r, l).accepted && r.taken <= Next(c, r, l).taken
  {
  }

  // ----- what it means -----

  /** Everything an offer can have become, as one collection. */
  function Everywhere(r: Route): multiset<Id> {
    multiset(r.queue) + InFlight(r.workers) + r.tally.ok + r.tally.permanent + r.tally.exhausted + r.tally.cancelled
    + r.tally.dropped + r.tally.refused
  }

  function Ids(n: nat): multiset<Id> {
    if n == 0 then multiset{} else Ids(n - 1) + multiset{n - 1}
  }

  lemma {:induction false} IdsOnce(n: nat)
    ensures |Ids(n)| == n && forall k: Id :: Ids(n)[k] == if k < n then 1 else 0
  {
    if n > 0 {
      IdsOnce(n - 1);
    }
  }

  /** Conservation in every reachable state: the offers are exactly the queued, in-flight, succeeded,
      permanently failed, exhausted, cancelled, dropped and refused events, each in one class only, so
      the counts add up; and the bounds on queue and pool hold. */
  lemma RouteConserves(c: Config, ls: seq<Label>)
    requires c.Valid() && Exec(c, Start(c), ls).Some?
    ensures var r := Exec(c, Start(c), ls).value;
            && Everywhere(r) == Ids(r.offered)
            && r.offered == |r.queue| + |InFlight(r.workers)| + |r.tally.ok| + |r.tally.permanent| + |r.tally.exhausted|
                            + |r.tally.cancelled| + |r.tally.dropped| + |r.tally.refused|
            && |r.queue| <= c.buffer && |InFlight(r.workers)| <= c.workers
            && (c.policy.Drop? ==> |r.tally.refused| == 0)
  {
    hide Exec, Start, Answers, InOrder;
    StartInv(c);
    ExecInv(c, Start(c), ls);
    var r := Exec(c, Start(c), ls).value;
    EverywhereOnce(c, r);
    IdsOnce(r.offered);
    InFlightSize(r.workers);
  }

  lemma EverywhereOnce(c: Config, r: Route)
    requires Inv(c, r)
    ensures Everywhere(r) == Ids(r.offered)
  {
    hide InFlight, Answers, InOrder, PoolOk;
    IdsOnce(r.offered);
    forall k: Id ensures Everywhere(r)[k] == Ids(r.offered)[k] {
      assert Places(r, k) == if k < r.offered then 1 else 0;
    }
  }

  /** The channel is first in first out over whole runs: what workers have taken is, in order, a prefix
      of what was accepted, the queue is the rest, and the order is that of the offers. */
  lemma RouteIsFifo(c: Config, ls: seq<Label>)
    requires c.Valid() && Exec(c, Start(c), ls).Some?
    ensures var r := Exec(c, Start(c), ls).value;
            r.accepted == r.taken + r.queue && Rising(r.accepted)
  {
    hide Exec, Start, Conserved, PoolOk;
    StartInv(c);
    ExecInv(c, Start(c), ls);
  }

  /** A channel is closed at most once, and nothing is offered to it afterwards. */
  lemma {:induction false} ClosedForGood(c: Config, r: Route, ls: seq<Label>)
    requires r.closed && Exec(c, r, ls).Some?
    ensures Exec(c, r, ls).value.closed && Exec(c, r, ls).value.offered == r.offered
    ensures forall i :: 0 <= i < |ls| ==> !IsOffer(ls[i]) && !ls[i].Close?
  {
    if ls != [] {
      hide Record;
      ClosedForGood(c, r, ls[..|ls| - 1]);
    }
  }

  /** `Drain` reports completion when every worker has returned. */
  predicate Drained(r: Route) {
    forall i :: 0 <= i < |r.workers| ==> r.workers[i].Exited?
  }

  lemma {:induction false} NobodyHolds(ws: seq<Worker>)
    requires forall i :: 0 <= i < |ws| ==> ws[i].Exited?
    ensures InFlight(ws) == multiset{}
  {
    if ws != [] {
      NobodyHolds(ws[..|ws| - 1]);
    }
  }

  /** A completed drain leaves nothing behind: the queue is empty, nothing is in flight, and every
      accepted event succeeded, failed permanently, ran out of retries or was cut at shutdown. */
  lemma DrainLeavesNothing(c: Config, ls: seq<Label>)
    requires c.Valid() && Exec(c, Start(c), ls).Some? && Drained(Exec(c, Start(c), ls).value)
    ensures var r := Exec(c, Start(c), ls).value;
            && r.closed && r.queue == [] && InFlight(r.workers) == multiset{}
            && multiset(r.accepted) == r.tally.ok + r.tally.permanent + r.tally.exhausted + r.tally.cancelled
  {
    hide Exec, Start, Inv, Drained;
    StartInv(c);
    ExecInv(c, Start(c), ls);
    DrainedIsComplete(c, Exec(c, Start(c), ls).value);
  }

  /** Nothing left in the queue or in flight, and every accepted event accounted for. */
  ghost predicate Complete(r: Route) {
    && r.closed && r.queue == [] && InFlight(r.workers) == multiset{}
    && multiset(r.accepted) == r.tally.ok + r.tally.permanent + r.tally.exhausted + r.tally.cancelled
  }

  lemma DrainedIsComplete(c: Config, r: Route)
    requires Inv(c, r) && Drained(r)
    ensures Complete(r)
  {
    hide InOrder;
    assert WorkerOk(c, r, r.workers[0]);
    NobodyHolds(r.workers);
    forall k: Id
      ensures multiset(r.accepted)[k] == (r.tally.ok + r.tally.permanent + r.tally.exhausted + r.tally.cancelled)[k]
    {
      assert Places(r, k) == Answers(r, k);
    }
  }

  lemma DrainedStays(c: Config, r: Route, l: Label)
    requires Inv(c, r) && Drained(r) && Enabled(c, r, l)
    ensures Drained(Next(c, r, l)) && Next(c, r, l).accepted == r.accepted
  {
    assert WorkerOk(c, r, r.workers[0]);
  }

  // ----- the channel as the program updates it -----

  /** Which ready case a blocking `select` took. */
  datatype Choice = Room | Timer | Stopping

  /** The label of one offer, given what the select chose. */
  function OfferLabel(c: Config, r: Route, choice: Choice): Label {
    if c.policy.Block? then
      match choice
      case Room => Accept
      case Timer => Shed
      case Stopping => Refuse
    else if |r.queue| < c.buffer then Accept
    else Shed
  }

  class Channel {
    const config: Config
    var queue: seq<Id>
    var closed: bool
    var routed: nat
    var dropped: nat
    var offers: nat
    ghost var route: Route

    /** The fields and counters agree with a route in a sound state. */
    ghost predicate Valid()
      reads this
    {
      && Inv(config, route) && queue == route.queue && closed == route.closed && offers == route.offered
      && routed == |route.accepted| && dropped == |route.tally.dropped|
    }

    constructor (config: Config)
      requires config.Valid()
      ensures Valid() && this.config == config && route == Start(config)
    {
      this.config := config;
      queue, closed, routed, dropped, offers := [], false, 0, 0, 0;
      route := Start(config);
      new;
      StartInv(config);
    }

    /** Hand an event to the route; the answer says whether it was accepted. Sending needs an open channel,
        and a blocking select can only take a case that is ready. */
    method Offer(choice: Choice) returns (accepted: bool)
      requires Valid() && !closed
      requires config.policy.Block? ==> Enabled(config, route, OfferLabel(config, route, choice))
      modifies this
      ensures Valid()
      ensures Enabled(config, old(route), OfferLabel(config, old(route), choice))
      ensures route == Next(config, old(route), OfferLabel(config, old(route), choice))
      ensures accepted <==> OfferLabel(config, old(route), choice) == Accept
      ensures accepted <==> if config.policy.Drop? then |old(queue)| < config.buffer else choice.Room?
      ensures queue == if accepted then old(queue) + [old(offers)] else old(queue)
      ensures routed == old(routed) + (if accepted then 1 else 0)
      ensures dropped == old(dropped) + if accepted || (config.policy.Block? && choice.Stopping?) then 0 else 1
    {
      hide Inv;
      ghost var l := OfferLabel(config, route, choice);
      StepInv(config, route, l);
      var send := if config.policy.Block? then choice.Room? else |queue| < config.buffer;
      if send {
        queue := queue + [offers];
        routed := routed + 1;
      } else if config.policy.Drop? || choice.Timer? {
        dropped := dropped + 1;
      }
      offers := offers + 1;
      route := Next(config, route, l);
      return send;
    }

    /** A worker receives the oldest event. */
    method Receive(w: nat) returns (ev: Id)
      requires Valid() && Enabled(config, route, Take(w))
      modifies this`queue, this`route
      ensures Valid() && old(queue) == [ev] + queue
      ensures route == Next(config, old(route), Take(w)) && route.workers[w] == Calling(ev, 1)
    {
      hide Inv;
      StepInv(config, route, Take(w));
      ev := queue[0];
      queue := queue[1..];
      route := Next(config, route, Take(w));
    }
  }
}
