/**
 All routes of one process and the one reader that offers them events (internal/route/route.go,
 cmd/router/main.go). The reader is what the routes share: while it waits in an offer, no route gets
 an event. Time passes in steps of the clock; a select with a ready case goes on at once, and a timer
 fires when it is due.
 */
module Isolation {
  import opened Wrappers
  import opened Routes
  import Fates

  type Configs = map<string, Config>
  type Table = map<string, Route>

  /** The reader is between offers, or inside the offer it began at `since`. */
  datatype Reader = Free | Offering(name: string, since: nat)

  datatype Process = Process(routes: Table, reader: Reader, now: nat)

  /** An offer begins and ends; in between anything may happen. `Work` is a step of the route's own goroutines, and the
      shutdown signal reaches every route. */
  datatype Step =
    | BeginOffer(name: string)
    | EndOffer(name: string, answer: Label)
    | Work(name: string, step: Label)
    | Signal
    | Tick(ns: nat)

  function StartAll(cs: Configs): Table {
    map name | name in cs :: Start(cs[name])
  }

  function StartProcess(cs: Configs): Process {
    Process(StartAll(cs), Free, 0)
  }

  /** How long an offer to a route may take. */
  function HoldLimit(c: Config): nat {
    if c.policy.Block? then c.blockTimeoutNS else 0
  }

  /** The reader sits in a blocking offer with no case ready: the queue is full, no shutdown, the timer not yet due. */
  predicate Waiting(cs: Configs, p: Process) {
    && p.reader.Offering? && p.reader.name in cs && p.reader.name in p.routes
    && var c, r := cs[p.reader.name], p.routes[p.reader.name];
       c.policy.Block? && |r.queue| >= c.buffer && !r.stopping && p.now < p.reader.since + c.blockTimeoutNS
  }

  predicate Enabled(cs: Configs, p: Process, x: Step)
    requires cs.Keys == p.routes.Keys
  {
    match x
    case BeginOffer(name) => p.reader.Free? && name in cs
    case EndOffer(name, l) =>
      && p.reader.Offering? && p.reader.name == name && name in cs && IsOffer(l)
      && Routes.Enabled(cs[name], p.routes[name], l)
      && (l.Shed? && cs[name].policy.Block? ==> p.now >= p.reader.since + cs[name].blockTimeoutNS)
    case Work(name, l) => name in cs && !IsOffer(l) && !l.Stop? && Routes.Enabled(cs[name], p.routes[name], l)
    case Signal => true
    case Tick(ns) =>
      p.reader.Free? || (Waiting(cs, p) && p.now + ns <= p.reader.since + cs[p.reader.name].blockTimeoutNS)
  }

  function Next(cs: Configs, p: Process, x: Step): (p': Process)
    requires cs.Keys == p.routes.Keys && Enabled(cs, p, x)
    ensures p'.routes.Keys == cs.Keys
  {
    match x
    case BeginOffer(name) => p.(reader := Offering(name, p.now))
    case EndOffer(name, l) => p.(routes := p.routes[name := Routes.Next(cs[name], p.routes[name], l)], reader := Free)
    case Work(name, l) => p.(routes := p.routes[name := Routes.Next(cs[name], p.routes[name], l)])
    case Signal => p.(routes := map name | name in p.routes :: Routes.Next(cs[name], p.routes[name], Stop))
    case Tick(ns) => p.(now := p.now + ns)
  }

  /** The process after the steps, or nothing when some step is not possible. */
  function ExecAll(cs: Configs, p: Process, xs: seq<Step>): (r: Option<Process>)
    requires cs.Keys == p.routes.Keys
    ensures r.Some? ==> r.value.routes.Keys == cs.Keys
  {
    if xs == [] then Some(p)
    else
      match ExecAll(cs, p, xs[..|xs| - 1])
      case None => None
      case Some(m) => if Enabled(cs, m, xs[|xs| - 1]) then Some(Next(cs, m, xs[|xs| - 1])) else None
  }

  // ----- the reader is held no longer than the policy allows -----

  ghost predicate Inv(cs: Configs, p: Process) {
    && cs.Keys == p.routes.Keys
    && (p.reader.Offering? ==>
          p.reader.name in cs && p.reader.since <= p.now <= p.reader.since + HoldLimit(cs[p.reader.name]))
  }

  lemma {:induction false} ExecInv(cs: Configs, p: Process, xs: seq<Step>)
    requires Inv(cs, p) && ExecAll(cs, p, xs).Some?
    ensures Inv(cs, ExecAll(cs, p, xs).value)
  {
    if xs != [] {
      hide Routes.Enabled, Routes.Next;
      ExecInv(cs, p, xs[..|xs| - 1]);
    }
  }

  /** What a route with the drop policy answers. */
  function DropAnswer(c: Config, r: Route): Label {
    if |r.queue| < c.buffer then Accept else Shed
  }

  /** Whatever the other routes and all workers have done, an offer to an open route with the drop policy has taken no
      time, cannot let time pass, and can only end, in one way that the route's own queue decides; that frees
      the reader and touches no other route. */
  lemma {:induction false} DropOfferIsOneStep(cs: Configs, xs: seq<Step>)
    requires ExecAll(cs, StartProcess(cs), xs).Some?
    requires var p := ExecAll(cs, StartProcess(cs), xs).value;
             p.reader.Offering? && p.reader.name in cs && cs[p.reader.name].policy.Drop? && !p.routes[p.reader.name].closed
    ensures var p := ExecAll(cs, StartProcess(cs), xs).value;
            var name := p.reader.name;
            var end := EndOffer(name, DropAnswer(cs[name], p.routes[name]));
            && p.now == p.reader.since && (forall ns :: !Enabled(cs, p, Tick(ns)))
            && (forall l :: Enabled(cs, p, EndOffer(name, l)) <==> EndOffer(name, l) == end)
            && var p' := Next(cs, p, end);
               p'.reader.Free? && p'.now == p.now && forall n :: n in cs && n != name ==> p'.routes[n] == p.routes[n]
  {
    hide Routes.Next;
    ExecInv(cs, StartProcess(cs), xs);
  }

  /** Any offer to an open route is over within its limit: time passes only while no answer is possible, and never past
      the deadline, where the timer gives one. */
  lemma OfferEndsInTime(cs: Configs, xs: seq<Step>)
    requires ExecAll(cs, StartProcess(cs), xs).Some?
    requires var p := ExecAll(cs, StartProcess(cs), xs).value;
             p.reader.Offering? && p.reader.name in cs && !p.routes[p.reader.name].closed
    ensures var p := ExecAll(cs, StartProcess(cs), xs).value;
            var name, deadline := p.reader.name, p.reader.since + HoldLimit(cs[p.reader.name]);
            && p.now <= deadline && (forall ns :: Enabled(cs, p, Tick(ns)) ==> p.now + ns <= deadline)
            && (Waiting(cs, p) <==> forall l :: !Enabled(cs, p, EndOffer(name, l)))
            && (Waiting(cs, p) <==> exists ns :: Enabled(cs, p, Tick(ns)))
            && (p.now == deadline ==> Enabled(cs, p, EndOffer(name, Shed)) || Enabled(cs, p, EndOffer(name, Accept)))
  {
    ExecInv(cs, StartProcess(cs), xs);
    var p := ExecAll(cs, StartProcess(cs), xs).value;
    var name := p.reader.name;
    if Waiting(cs, p) {
      assert Enabled(cs, p, Tick(0));
    } else {
      assert || Enabled(cs, p, EndOffer(name, Accept)) || Enabled(cs, p, EndOffer(name, Shed))
             || Enabled(cs, p, EndOffer(name, Refuse));
    }
  }

  /** Which answers an offer in progress may have: each case of the select that is ready, whether or not another is, and
      without a timer the shed offer only when there is no room. */
  lemma AnswersExactly(cs: Configs, p: Process, l: Label)
    requires cs.Keys == p.routes.Keys && p.reader.Offering? && p.reader.name in cs && !p.routes[p.reader.name].closed
    ensures var name := p.reader.name;
            var c, r := cs[name], p.routes[name];
            var room, due := |r.queue| < c.buffer, p.now >= p.reader.since + c.blockTimeoutNS;
            Enabled(cs, p, EndOffer(name, l)) <==>
              || (l == Accept && room)
              || (l == Shed && if c.policy.Block? then due else !room)
              || (l == Refuse && c.policy.Block? && r.stopping)
  {
  }

  /** When the clock may advance: whenever no offer is in progress, and in an offer up to its deadline as long as the route
      blocks, is full and is not stopping. */
  lemma TimePassesExactly(cs: Configs, p: Process, ns: nat)
    requires Inv(cs, p)
    ensures Enabled(cs, p, Tick(ns)) <==>
              match p.reader
              case Free => true
              case Offering(name, since) =>
                && cs[name].policy.Block? && |p.routes[name].queue| >= cs[name].buffer && !p.routes[name].stopping
                && p.now < since + cs[name].blockTimeoutNS && p.now + ns <= since + cs[name].blockTimeoutNS
  {
  }

  /** The workers go on while the reader is held: one that takes an event from the full queue lets the offer in. */
  lemma WorkerLetsOfferIn(cs: Configs, p: Process, w: nat)
    requires Inv(cs, p) && p.reader.Offering?
    requires var r := p.routes[p.reader.name];
             !r.closed && 0 < |r.queue| <= cs[p.reader.name].buffer && w < |r.workers| && r.workers[w].Idle?
    ensures var name := p.reader.name;
            && Enabled(cs, p, Work(name, Take(w)))
            && Enabled(cs, Next(cs, p, Work(name, Take(w))), EndOffer(name, Accept))
  {
  }

  /** The time that passed while the reader was inside an offer. */
  function Stall(cs: Configs, p: Process, xs: seq<Step>): nat
    requires cs.Keys == p.routes.Keys && ExecAll(cs, p, xs).Some?
  {
    if xs == [] then 0
    else
      var l, x := xs[..|xs| - 1], xs[|xs| - 1];
      Stall(cs, p, l) + if x.Tick? && ExecAll(cs, p, l).value.reader.Offering? then x.ns else 0
  }

  /** The limits of all offers begun, added up, and how many were to routes with the block policy. */
  function Budget(cs: Configs, xs: seq<Step>): nat {
    if xs == [] then 0
    else
      var x := xs[|xs| - 1];
      Budget(cs, xs[..|xs| - 1]) + if x.BeginOffer? && x.name in cs then HoldLimit(cs[x.name]) else 0
  }

  function BlockOffers(cs: Configs, xs: seq<Step>): nat {
    if xs == [] then 0
    else
      var x := xs[|xs| - 1];
      BlockOffers(cs, xs[..|xs| - 1]) + if x.BeginOffer? && x.name in cs && cs[x.name].policy.Block? then 1 else 0
  }

  /** What the offer in progress may still take. */
  function Remaining(cs: Configs, p: Process): nat {
    if p.reader.Offering? && p.reader.name in cs && p.now <= p.reader.since + HoldLimit(cs[p.reader.name]) then
      p.reader.since + HoldLimit(cs[p.reader.name]) - p.now
    else 0
  }

  lemma {:induction false} StallWithinBudget(cs: Configs, p: Process, xs: seq<Step>)
    requires Inv(cs, p) && p.reader.Free? && ExecAll(cs, p, xs).Some?
    ensures Stall(cs, p, xs) + Remaining(cs, ExecAll(cs, p, xs).value) <= Budget(cs, xs)
  {
    if xs != [] {
      hide Routes.Enabled, Routes.Next;
      ExecInv(cs, p, xs[..|xs| - 1]);
      StallWithinBudget(cs, p, xs[..|xs| - 1]);
    }
  }

  lemma {:induction false} BudgetCounts(cs: Configs, xs: seq<Step>, limit: nat)
    requires forall name :: name in cs && cs[name].policy.Block? ==> cs[name].blockTimeoutNS <= limit
    ensures Budget(cs, xs) <= limit * BlockOffers(cs, xs)
  {
    if xs != [] {
      BudgetCounts(cs, xs[..|xs| - 1], limit);
      var k, k' := BlockOffers(cs, xs[..|xs| - 1]), BlockOffers(cs, xs);
      assert k' == k + 1 ==> limit * k' == limit * k + limit;
    }
  }

  lemma {:induction false} NoBlockOffers(cs: Configs, xs: seq<Step>)
    requires forall name :: name in cs ==> cs[name].policy.Drop?
    ensures Budget(cs, xs) == 0
  {
    if xs != [] {
      NoBlockOffers(cs, xs[..|xs| - 1]);
    }
  }

  /** Over any run the reader stalls no longer than the block-policy offers it began may take together: at most the
      longest BlockTimeout times their number. When every route drops, it never stalls. */
  lemma {:induction false} ReaderStallIsBounded(cs: Configs, xs: seq<Step>, limit: nat)
    requires ExecAll(cs, StartProcess(cs), xs).Some?
    requires forall name :: name in cs && cs[name].policy.Block? ==> cs[name].blockTimeoutNS <= limit
    ensures Stall(cs, StartProcess(cs), xs) <= Budget(cs, xs) <= limit * BlockOffers(cs, xs)
    ensures (forall name :: name in cs ==> cs[name].policy.Drop?) ==> Stall(cs, StartProcess(cs), xs) == 0
  {
    StallWithinBudget(cs, StartProcess(cs), xs);
    BudgetCounts(cs, xs, limit);
    if forall name :: name in cs ==> cs[name].policy.Drop? {
      NoBlockOffers(cs, xs);
    }
  }

  lemma ExecAllSnoc(cs: Configs, p: Process, xs: seq<Step>, x: Step)
    requires cs.Keys == p.routes.Keys && ExecAll(cs, p, xs).Some? && Enabled(cs, ExecAll(cs, p, xs).value, x)
    ensures ExecAll(cs, p, xs + [x]) == Some(Next(cs, ExecAll(cs, p, xs).value, x))
    ensures Stall(cs, p, xs + [x])
         == Stall(cs, p, xs) + if x.Tick? && ExecAll(cs, p, xs).value.reader.Offering? then x.ns else 0
  {
    assert (xs + [x])[..|xs|] == xs;
  }

  /** The bound is reached: an offer to a full route with the block policy can hold the reader for its whole timeout. */
  lemma {:induction false} FullBlockRouteStalls(cs: Configs, p: Process, name: string)
    requires cs.Keys == p.routes.Keys && p.reader.Free? && name in cs && cs[name].policy.Block?
    requires var r := p.routes[name];
             |r.queue| >= cs[name].buffer && !r.stopping && !r.closed && cs[name].blockTimeoutNS > 0
    ensures var xs := [BeginOffer(name), Tick(cs[name].blockTimeoutNS), EndOffer(name, Shed)];
            ExecAll(cs, p, xs).Some? && Stall(cs, p, xs) == cs[name].blockTimeoutNS
  {
    hide ExecAll, Stall, Routes.Next;
    var begin, tick, end := BeginOffer(name), Tick(cs[name].blockTimeoutNS), EndOffer(name, Shed);
    assert [] + [begin] == [begin] && [begin] + [tick] == [begin, tick] && [begin, tick] + [end] == [begin, tick, end];
    NothingDone(cs, p);
    ExecAllSnoc(cs, p, [], begin);
    ExecAllSnoc(cs, p, [begin], tick);
    ExecAllSnoc(cs, p, [begin, tick], end);
  }

  lemma NothingDone(cs: Configs, p: Process)
    requires cs.Keys == p.routes.Keys
    ensures ExecAll(cs, p, []) == Some(p) && Stall(cs, p, []) == 0
  {
  }

  /** What a stall costs the others: until the offer in progress ends, no route is offered anything. */
  lemma {:induction false} HeldReaderOffersNothing(cs: Configs, p: Process, xs: seq<Step>, name: string)
    requires cs.Keys == p.routes.Keys && p.reader.Offering? && name in cs
    requires ExecAll(cs, p, xs).Some? && forall i :: 0 <= i < |xs| ==> !xs[i].EndOffer?
    ensures var p' := ExecAll(cs, p, xs).value;
            p'.reader == p.reader && p'.routes[name].offered == p.routes[name].offered
  {
    if xs != [] {
      hide Routes.Enabled, Routes.Next;
      HeldReaderOffersNothing(cs, p, xs[..|xs| - 1], name);
      var m, x := ExecAll(cs, p, xs[..|xs| - 1]).value, xs[|xs| - 1];
      if x.Work? && x.name == name {
        WorkOffersNothing(cs[name], m.routes[name], x.step);
      } else if x.Signal? {
        StopAlways(cs[name], m.routes[name]);
        WorkOffersNothing(cs[name], m.routes[name], Stop);
      }
    }
  }

  lemma WorkOffersNothing(c: Config, r: Route, l: Label)
    requires Routes.Enabled(c, r, l) && !IsOffer(l)
    ensures Routes.Next(c, r, l).offered == r.offered
  {
    hide Record;
  }

  // ----- what one route does depends on its own steps only -----

  /** What of a step concerns the route `name`. */
  function Mine(x: Step, name: string): seq<Label> {
    match x
    case EndOffer(n, l) => if n == name then [l] else []
    case Work(n, l) => if n == name then [l] else []
    case Signal => [Stop]
    case _ => []
  }

  /** The steps of the process that concern the route `name`. */
  function Project(xs: seq<Step>, name: string): seq<Label> {
    if xs == [] then [] else Project(xs[..|xs| - 1], name) + Mine(xs[|xs| - 1], name)
  }

  lemma StopAlways(c: Config, r: Route)
    ensures Routes.Enabled(c, r, Stop)
  {
  }

  /** A route ends where its own steps alone would have taken it. */
  lemma {:induction false} RouteFollowsOwnSteps(cs: Configs, p: Process, xs: seq<Step>, name: string)
    requires cs.Keys == p.routes.Keys && name in cs && ExecAll(cs, p, xs).Some?
    ensures Exec(cs[name], p.routes[name], Project(xs, name)) == Some(ExecAll(cs, p, xs).value.routes[name])
  {
    hide Exec, Routes.Enabled, Routes.Next;
    if xs == [] {
      NoSteps(cs[name], p.routes[name]);
    } else {
      var l, x := xs[..|xs| - 1], xs[|xs| - 1];
      RouteFollowsOwnSteps(cs, p, l, name);
      var q := Project(l, name);
      assert q + [] == q;
      if Mine(x, name) != [] {
        assert Mine(x, name) == [Mine(x, name)[0]];
        ExecSnoc(cs[name], p.routes[name], q, Mine(x, name)[0]);
        StopAlways(cs[name], ExecAll(cs, p, l).value.routes[name]);
      }
    }
  }

  /** Under the drop policy not even the answers have to be given: the offers a route gets, and its own workers' steps,
      determine them. */
  datatype Own = Offered | Did(step: Label)

  function OwnOf(x: Step, name: string): seq<Own> {
    match x
    case EndOffer(n, _) => if n == name then [Offered] else []
    case Work(n, l) => if n == name then [Did(l)] else []
    case Signal => [Did(Stop)]
    case _ => []
  }

  function OwnSteps(xs: seq<Step>, name: string): seq<Own> {
    if xs == [] then [] else OwnSteps(xs[..|xs| - 1], name) + OwnOf(xs[|xs| - 1], name)
  }

  function LabelOf(c: Config, r: Route, o: Own): Label {
    match o
    case Offered => DropAnswer(c, r)
    case Did(l) => l
  }

  /** A route with the drop policy on its own. */
  function React(c: Config, r: Route, os: seq<Own>): Option<Route> {
    if os == [] then Some(r)
    else
      match React(c, r, os[..|os| - 1])
      case None => None
      case Some(m) =>
        var l := LabelOf(c, m, os[|os| - 1]);
        if Routes.Enabled(c, m, l) then Some(Routes.Next(c, m, l)) else None
  }

  lemma ReactSnoc(c: Config, r: Route, os: seq<Own>, o: Own)
    ensures React(c, r, os + [o])
         == match React(c, r, os)
            case None => None
            case Some(m) =>
              var l := LabelOf(c, m, o);
              if Routes.Enabled(c, m, l) then Some(Routes.Next(c, m, l)) else None
  {
  }

  lemma NoReaction(c: Config, r: Route)
    ensures React(c, r, []) == Some(r)
  {
  }

  /** Only one answer to an offer is possible under the drop policy. */
  lemma DropAnswers(c: Config, r: Route, l: Label)
    requires c.policy.Drop? && IsOffer(l) && Routes.Enabled(c, r, l)
    ensures l == DropAnswer(c, r)
  {
  }

  lemma {:induction false} DropRouteReacts(cs: Configs, p: Process, xs: seq<Step>, name: string)
    requires cs.Keys == p.routes.Keys && name in cs && cs[name].policy.Drop? && ExecAll(cs, p, xs).Some?
    ensures React(cs[name], p.routes[name], OwnSteps(xs, name)) == Some(ExecAll(cs, p, xs).value.routes[name])
  {
    hide React, Routes.Enabled, Routes.Next, DropAnswer;
    if xs == [] {
      NoReaction(cs[name], p.routes[name]);
    } else {
      var l, x := xs[..|xs| - 1], xs[|xs| - 1];
      DropRouteReacts(cs, p, l, name);
      var os, m := OwnSteps(l, name), ExecAll(cs, p, l).value;
      assert os + [] == os;
      if OwnOf(x, name) != [] {
        assert OwnOf(x, name) == [OwnOf(x, name)[0]];
        ReactSnoc(cs[name], p.routes[name], os, OwnOf(x, name)[0]);
        StopAlways(cs[name], m.routes[name]);
        if x.EndOffer? {
          DropAnswers(cs[name], m.routes[name], x.answer);
        }
      }
    }
  }

  /** Noninterference. Take two runs of the process, each with its reader and its clock, that may differ in all that the
      other routes do. If they agree on the offers to one route with the drop policy and on its workers' steps,
      that route has the same queue, counters and answers in both. Under the block policy the answers have to
      agree too, since there the clock decides. */
  lemma {:induction false} OthersDoNotInterfere(cs: Configs, p: Process, p': Process, xs: seq<Step>, xs': seq<Step>,
                                                name: string)
    requires cs.Keys == p.routes.Keys == p'.routes.Keys && name in cs && p.routes[name] == p'.routes[name]
    requires ExecAll(cs, p, xs).Some? && ExecAll(cs, p', xs').Some?
    requires if cs[name].policy.Drop? then OwnSteps(xs, name) == OwnSteps(xs', name)
             else Project(xs, name) == Project(xs', name)
    ensures ExecAll(cs, p, xs).value.routes[name] == ExecAll(cs, p', xs').value.routes[name]
  {
    if cs[name].policy.Drop? {
      DropRouteReacts(cs, p, xs, name);
      DropRouteReacts(cs, p', xs', name);
    } else {
      RouteFollowsOwnSteps(cs, p, xs, name);
      RouteFollowsOwnSteps(cs, p', xs', name);
    }
  }

  // ----- when all routes drop, the reader can always go on -----

  /** What the world asks of the process: events for its routes, in the order of the stream, and steps of the workers. */
  datatype Wish = Event(name: string) | Act(name: string, step: Label) | Shutdown

  /** The reader takes one event, begins to offer it and ends the offer, with nothing in between. */
  function Handled(cs: Configs, p: Process, name: string): Option<Process>
    requires cs.Keys == p.routes.Keys
  {
    if !Enabled(cs, p, BeginOffer(name)) then None
    else
      var p1, end := Next(cs, p, BeginOffer(name)), EndOffer(name, DropAnswer(cs[name], p.routes[name]));
      if Enabled(cs, p1, end) then Some(Next(cs, p1, end)) else None
  }

  function Grant(cs: Configs, p: Process, w: Wish): Option<Process>
    requires cs.Keys == p.routes.Keys
  {
    match w
    case Event(name) => Handled(cs, p, name)
    case Act(name, l) => if Enabled(cs, p, Work(name, l)) then Some(Next(cs, p, Work(name, l))) else None
    case Shutdown => Some(Next(cs, p, Signal))
  }

  function GrantAll(cs: Configs, p: Process, ws: seq<Wish>): (r: Option<Process>)
    requires cs.Keys == p.routes.Keys
    ensures r.Some? ==> r.value.routes.Keys == cs.Keys
  {
    if ws == [] then Some(p)
    else
      match GrantAll(cs, p, ws[..|ws| - 1])
      case None => None
      case Some(m) => Grant(cs, m, ws[|ws| - 1])
  }

  function WishFor(w: Wish, name: string): seq<Own> {
    match w
    case Event(n) => if n == name then [Offered] else []
    case Act(n, l) => if n == name then [Did(l)] else []
    case Shutdown => [Did(Stop)]
  }

  function WishesFor(ws: seq<Wish>, name: string): seq<Own> {
    if ws == [] then [] else WishesFor(ws[..|ws| - 1], name) + WishFor(ws[|ws| - 1], name)
  }

  ghost predicate Sensible(ws: seq<Wish>, names: set<string>) {
    forall i :: 0 <= i < |ws| ==>
      match ws[i]
      case Event(name) => name in names
      case Act(name, l) => name in names && !IsOffer(l) && !l.Stop?
      case Shutdown => true
  }

  /** One wish: granted exactly when the route concerned can react, and then that route has reacted, no other has moved
      and the reader is free again at the same time. */
  lemma GrantIsLocal(cs: Configs, p: Process, w: Wish)
    requires cs.Keys == p.routes.Keys && p.reader.Free? && forall name :: name in cs ==> cs[name].policy.Drop?
    requires Sensible([w], cs.Keys)
    ensures Grant(cs, p, w).Some? <==>
              forall name :: name in cs && WishFor(w, name) != [] ==>
                Routes.Enabled(cs[name], p.routes[name], LabelOf(cs[name], p.routes[name], WishFor(w, name)[0]))
    ensures Grant(cs, p, w).Some? ==>
              var p' := Grant(cs, p, w).value;
              && p'.reader.Free? && p'.now == p.now && p'.routes.Keys == cs.Keys
              && forall name :: name in cs ==>
                   p'.routes[name]
                   == if WishFor(w, name) == [] then p.routes[name]
                      else
                        var l := LabelOf(cs[name], p.routes[name], WishFor(w, name)[0]);
                        Routes.Next(cs[name], p.routes[name], l)
  {
    hide Routes.Enabled, Routes.Next;
    assert [w][0] == w;
    match w
    case Event(name) =>
      AnswerIsOffer(cs[name], p.routes[name]);
      assert WishFor(w, name) == [Offered];
    case Act(name, l) => assert WishFor(w, name) == [Did(l)];
    case Shutdown =>
      forall name | name in cs ensures Routes.Enabled(cs[name], p.routes[name], Stop) {
        StopAlways(cs[name], p.routes[name]);
      }
  }

  lemma AnswerIsOffer(c: Config, r: Route)
    ensures IsOffer(DropAnswer(c, r))
  {
  }

  /** Independence. When every route drops, the process can serve a stream of events and worker steps exactly when each
      route can serve its own part of it alone, and it takes no time to do so. No route, however slow, full or
      stuck, makes the reader miss another's turn. */
  lemma {:induction false} RoutesAreIndependent(cs: Configs, p: Process, ws: seq<Wish>)
    requires cs.Keys == p.routes.Keys && p.reader.Free? && Sensible(ws, cs.Keys)
    requires forall name :: name in cs ==> cs[name].policy.Drop?
    ensures GrantAll(cs, p, ws).Some? <==>
              forall name :: name in cs ==> React(cs[name], p.routes[name], WishesFor(ws, name)).Some?
    ensures GrantAll(cs, p, ws).Some? ==>
              var p' := GrantAll(cs, p, ws).value;
              && p'.reader.Free? && p'.now == p.now
              && forall name :: name in cs ==>
                   React(cs[name], p.routes[name], WishesFor(ws, name)) == Some(p'.routes[name])
  {
    hide React, Grant, Routes.Enabled, Routes.Next, DropAnswer;
    if ws == [] {
      forall name | name in cs ensures React(cs[name], p.routes[name], []) == Some(p.routes[name]) {
        NoReaction(cs[name], p.routes[name]);
      }
    } else {
      var l, w := ws[..|ws| - 1], ws[|ws| - 1];
      RoutesAreIndependent(cs, p, l);
      forall name | name in cs {
        LastReaction(cs[name], p.routes[name], WishesFor(l, name), WishFor(w, name));
      }
      if GrantAll(cs, p, l).Some? {
        GrantIsLocal(cs, GrantAll(cs, p, l).value, w);
      }
    }
  }

  lemma LastReaction(c: Config, r: Route, os: seq<Own>, last: seq<Own>)
    requires |last| <= 1
    ensures React(c, r, os + last)
         == if last == [] || React(c, r, os).None? then React(c, r, os)
            else
              var m := React(c, r, os).value;
              var l := LabelOf(c, m, last[0]);
              if Routes.Enabled(c, m, l) then Some(Routes.Next(c, m, l)) else None
  {
    hide React, Routes.Enabled, Routes.Next, DropAnswer;
    assert os + [] == os;
    if last != [] {
      assert last == [last[0]];
      ReactSnoc(c, r, os, last[0]);
    }
  }

  // ----- nothing is cut or refused before the signal -----

  lemma {:induction false} ExecAllPrefix(cs: Configs, p: Process, xs: seq<Step>, n: nat)
    requires cs.Keys == p.routes.Keys && ExecAll(cs, p, xs).Some? && n <= |xs|
    ensures ExecAll(cs, p, xs[..n]).Some?
  {
    hide Enabled, Next;
    if n < |xs| {
      ExecAllPrefix(cs, p, xs[..|xs| - 1], n);
      assert xs[..|xs| - 1][..n] == xs[..n];
    } else {
      assert xs[..n] == xs;
    }
  }

  lemma {:induction false} StopMeansSignal(xs: seq<Step>, name: string)
    requires forall i :: 0 <= i < |xs| ==> !(xs[i].EndOffer? && xs[i].answer.Stop?) && !(xs[i].Work? && xs[i].step.Stop?)
    ensures (exists i :: 0 <= i < |Project(xs, name)| && Project(xs, name)[i].Stop?)
            <==> exists i :: 0 <= i < |xs| && xs[i].Signal?
  {
    if xs != [] {
      var l, x := xs[..|xs| - 1], xs[|xs| - 1];
      StopMeansSignal(l, name);
      var q, q' := Project(l, name), Project(xs, name);
      assert forall i :: 0 <= i < |l| ==> xs[i] == l[i];
      assert forall i :: 0 <= i < |q| ==> q'[i] == q[i];
      assert |Mine(x, name)| <= 1 && q' == q + Mine(x, name);
      if x.Signal? {
        assert q'[|q|].Stop?;
      } else if i :| 0 <= i < |q'| && q'[i].Stop? {
        assert i < |q| && q[i].Stop?;
      }
    }
  }

  lemma {:induction false} OnlySignalsStop(cs: Configs, p: Process, xs: seq<Step>)
    requires cs.Keys == p.routes.Keys && ExecAll(cs, p, xs).Some?
    ensures forall i :: 0 <= i < |xs| ==> !(xs[i].EndOffer? && xs[i].answer.Stop?) && !(xs[i].Work? && xs[i].step.Stop?)
  {
    if xs != [] {
      hide Routes.Enabled, Next;
      OnlySignalsStop(cs, p, xs[..|xs| - 1]);
    }
  }

  /** A worker's backoff is cut, and an offer given up, only after the shutdown signal: a route is stopping exactly when
      the signal has come, and without it no route has a cancelled or a refused event. */
  lemma {:induction false} CutsFollowSignal(cs: Configs, xs: seq<Step>, name: string, j: nat)
    requires ExecAll(cs, StartProcess(cs), xs).Some? && name in cs && j <= |xs|
    ensures var r := ExecAll(cs, StartProcess(cs), xs).value.routes[name];
            && (r.stopping <==> exists i :: 0 <= i < |xs| && xs[i].Signal?)
            && (r.tally.cancelled != multiset{} || r.tally.refused != multiset{} ==> r.stopping)
    ensures j < |xs| && (xs[j] == EndOffer(name, Refuse) || (xs[j].Work? && xs[j].name == name && xs[j].step.CutShort?)) ==>
              exists i :: 0 <= i < j && xs[i].Signal?
  {
    hide ExecAll, Exec, Routes.Next, Project, Fates.Count;
    SignalStops(cs, xs, name);
    var c, ls := cs[name], Project(xs, name);
    RouteFollowsOwnSteps(cs, StartProcess(cs), xs, name);
    Fates.CancelledOnlyAtShutdown(c, ls);
    Fates.StoppingMeansStop(c, ls);
    if j < |xs| {
      ExecAllPrefix(cs, StartProcess(cs), xs, j + 1);
      assert xs[..j + 1][..j] == xs[..j];
      LastIsEnabled(cs, StartProcess(cs), xs[..j + 1]);
      SignalStops(cs, xs[..j], name);
    }
  }

  lemma LastIsEnabled(cs: Configs, p: Process, xs: seq<Step>)
    requires cs.Keys == p.routes.Keys && xs != [] && ExecAll(cs, p, xs).Some?
    ensures ExecAll(cs, p, xs[..|xs| - 1]).Some? && Enabled(cs, ExecAll(cs, p, xs[..|xs| - 1]).value, xs[|xs| - 1])
  {
  }

  lemma {:induction false} SignalStops(cs: Configs, xs: seq<Step>, name: string)
    requires ExecAll(cs, StartProcess(cs), xs).Some? && name in cs
    ensures ExecAll(cs, StartProcess(cs), xs).value.routes[name].stopping <==> exists i :: 0 <= i < |xs| && xs[i].Signal?
  {
    hide ExecAll, Exec, Project;
    OnlySignalsStop(cs, StartProcess(cs), xs);
    StopMeansSignal(xs, name);
    RouteFollowsOwnSteps(cs, StartProcess(cs), xs, name);
    Fates.StoppingMeansStop(cs[name], Project(xs, name));
  }
}
