/**
 The order of a shutdown: the reader returns, then the routes drain one by one against a
 deadline, then the cursor is committed (cmd/router/main.go, run).
 */
module Shutdown {
  import opened Wrappers
  import opened Routes
  import Draining
  import Fates
  import Isolation

  datatype ReaderState = Reading | Returned

  /** `toDrain` are the routes whose Drain has not been called, `completed` those whose Drain reported
      completion rather than giving up at its deadline. */
  datatype Process = Process(routes: Isolation.Table, reader: ReaderState, stopping: bool, toDrain: set<string>,
                             draining: Option<string>, completed: set<string>, committed: bool)

  function Begin(cs: Isolation.Configs): Process {
    Process(Isolation.StartAll(cs), Reading, false, cs.Keys, None, {}, false)
  }

  datatype Step =
    | Offer(name: string, step: Label)
    | Work(name: string, step: Label)
    | Signal
    | ReaderReturns
    | StartDrain(name: string)
    | DrainCompletes
    | DrainGivesUp
    | Commit

  /** The reader offers while it runs, and it runs until the signal. A send on a closed channel is not
      possible for a route; `ChannelPanic` names the states in which the program would attempt one. */
  predicate Enabled(cs: Isolation.Configs, p: Process, x: Step)
    requires cs.Keys == p.routes.Keys
  {
    match x
    case Offer(name, l) => p.reader.Reading? && name in cs && IsOffer(l) && Routes.Enabled(cs[name], p.routes[name], l)
    case Work(name, l) =>
      name in cs && !IsOffer(l) && !l.Close? && !l.Stop? && Routes.Enabled(cs[name], p.routes[name], l)
    case Signal => true
    case ReaderReturns => p.stopping && p.reader.Reading?
    case StartDrain(name) => p.reader.Returned? && p.draining.None? && name in p.toDrain && name in cs
    case DrainCompletes => p.draining.Some? && p.draining.value in cs && Drained(p.routes[p.draining.value])
    case DrainGivesUp => p.draining.Some?
    case Commit => p.reader.Returned? && p.draining.None? && p.toDrain == {} && !p.committed
  }

  function Next(cs: Isolation.Configs, p: Process, x: Step): Process
    requires cs.Keys == p.routes.Keys && Enabled(cs, p, x)
  {
    match x
    case Offer(name, l) => p.(routes := p.routes[name := Routes.Next(cs[name], p.routes[name], l)])
    case Work(name, l) => p.(routes := p.routes[name := Routes.Next(cs[name], p.routes[name], l)])
    case Signal =>
      p.(stopping := true, routes := map name | name in p.routes :: Routes.Next(cs[name], p.routes[name], Stop))
    case ReaderReturns => p.(reader := Returned)
    case StartDrain(name) =>
      p.(routes := p.routes[name := p.routes[name].(closed := true)], toDrain := p.toDrain - {name}, draining := Some(name))
    case DrainCompletes => p.(draining := None, completed := p.completed + {p.draining.value})
    case DrainGivesUp => p.(draining := None)
    case Commit => p.(committed := true)
  }

  ghost predicate Reaches(cs: Isolation.Configs, p: Process, xs: seq<Step>, p': Process)
    requires cs.Keys == p.routes.Keys
    decreases |xs|
  {
    if xs == [] then p == p'
    else
      Enabled(cs, p, xs[0])
      && Next(cs, p, xs[0]).routes.Keys == cs.Keys && Reaches(cs, Next(cs, p, xs[0]), xs[1..], p')
  }

  /** The reader would send on a channel that is already closed, or a channel would be closed twice. */
  ghost predicate ChannelPanic(p: Process) {
    || (p.reader.Reading? && exists name :: name in p.routes && p.routes[name].closed)
    || (exists name :: name in p.toDrain && name in p.routes && p.routes[name].closed)
  }

  ghost predicate Inv(cs: Isolation.Configs, p: Process) {
    && cs.Keys == p.routes.Keys && p.toDrain <= cs.Keys && p.completed <= cs.Keys
    && (forall name :: name in cs ==> cs[name].Valid() && Routes.Inv(cs[name], p.routes[name]))
    && (p.reader.Reading? ==> p.toDrain == cs.Keys && p.draining.None?)
    && (forall name :: name in cs ==> (name in p.toDrain <==> !p.routes[name].closed))
    && (forall name :: name in p.completed ==> Drained(p.routes[name]))
    && (p.committed ==> p.toDrain == {} && p.draining.None? && p.reader.Returned?)
  }

  /** Closing is the only step that changes whether a channel is closed, and no step wakes a drained route. */
  lemma RouteStep(c: Config, r: Route, l: Label)
    requires Routes.Inv(c, r) && Routes.Enabled(c, r, l)
    ensures Routes.Inv(c, Routes.Next(c, r, l))
    ensures Routes.Next(c, r, l).closed == (r.closed || l.Close?)
    ensures Drained(r) ==> Drained(Routes.Next(c, r, l))
  {
    hide Routes.Inv, Drained;
    StepInv(c, r, l);
    if Drained(r) {
      DrainedStays(c, r, l);
    }
  }

  lemma StepKeepsInv(cs: Isolation.Configs, p: Process, x: Step)
    requires Inv(cs, p) && Enabled(cs, p, x)
    ensures Inv(cs, Next(cs, p, x))
  {
    hide Routes.Inv, Drained, Routes.Next, Routes.Enabled;
    match x
    case Offer(name, l) => RouteStep(cs[name], p.routes[name], l);
    case Work(name, l) => RouteStep(cs[name], p.routes[name], l);
    case Signal =>
      forall name | name in cs
        ensures Routes.Enabled(cs[name], p.routes[name], Stop)
        ensures var r := Routes.Next(cs[name], p.routes[name], Stop);
                Routes.Inv(cs[name], r) && r.closed == p.routes[name].closed && (Drained(p.routes[name]) ==> Drained(r))
      {
        Isolation.StopAlways(cs[name], p.routes[name]);
        RouteStep(cs[name], p.routes[name], Stop);
      }
    case StartDrain(name) =>
      CloseOpen(cs[name], p.routes[name]);
    case _ =>
  }

  lemma CloseOpen(c: Config, r: Route)
    requires Routes.Inv(c, r) && !r.closed
    ensures Routes.Inv(c, r.(closed := true)) && (Drained(r) ==> Drained(r.(closed := true)))
  {
    assert Routes.Enabled(c, r, Close) && Routes.Next(c, r, Close) == r.(closed := true);
    RouteStep(c, r, Close);
  }

  lemma BeginInv(cs: Isolation.Configs)
    requires forall name :: name in cs ==> cs[name].Valid()
    ensures Inv(cs, Begin(cs))
  {
    hide Routes.Inv, Drained, Start;
    forall name | name in cs ensures Routes.Inv(cs[name], Start(cs[name])) && !Start(cs[name]).closed {
      StartInv(cs[name]);
      StartsOpen(cs[name]);
    }
  }

  lemma StartsOpen(c: Config)
    ensures !Start(c).closed
  {
  }

  lemma {:induction false} ReachesInv(cs: Isolation.Configs, p: Process, xs: seq<Step>, p': Process)
    requires Inv(cs, p) && Reaches(cs, p, xs, p')
    ensures Inv(cs, p')
    decreases |xs|
  {
    if xs != [] {
      hide Inv, Next, Enabled;
      InvKeys(cs, p);
      StepKeepsInv(cs, p, xs[0]);
      ReachesInv(cs, Next(cs, p, xs[0]), xs[1..], p');
    }
  }

  lemma InvKeys(cs: Isolation.Configs, p: Process)
    requires Inv(cs, p)
    ensures cs.Keys == p.routes.Keys
  {
  }

  /** No run, however steps interleave, sends on a closed channel or closes one twice. Every route whose
      drain reported completion has an empty queue, nothing in flight, and every accepted event accounted
      for; and when the cursor is committed every channel is closed, so nothing can still be offered. */
  lemma ShutdownIsOrderly(cs: Isolation.Configs, xs: seq<Step>, p: Process)
    requires forall name :: name in cs ==> cs[name].Valid()
    requires Reaches(cs, Begin(cs), xs, p)
    ensures !ChannelPanic(p)
    ensures forall name :: name in p.completed ==> name in p.routes && Complete(p.routes[name])
    ensures p.committed ==> p.reader.Returned? && forall name :: name in p.routes ==> p.routes[name].closed
  {
    hide Routes.Inv, Drained, Complete, Reaches;
    BeginInv(cs);
    ReachesInv(cs, Begin(cs), xs, p);
    forall name | name in p.completed ensures name in p.routes && Complete(p.routes[name]) {
      DrainedIsComplete(cs[name], p.routes[name]);
    }
  }

  // ----- the shutdown waits for the signal, and can always be finished -----

  /** The process is stopping, and every route with it, or none. */
  ghost predicate Together(cs: Isolation.Configs, p: Process) {
    cs.Keys == p.routes.Keys && forall name :: name in cs ==> (p.routes[name].stopping <==> p.stopping)
  }

  lemma StaysTogether(cs: Isolation.Configs, p: Process, x: Step)
    requires Together(cs, p) && Enabled(cs, p, x)
    ensures Together(cs, Next(cs, p, x)) && Next(cs, p, x).stopping == (p.stopping || x.Signal?)
  {
    hide Routes.Enabled, Routes.Next;
    match x
    case Offer(name, l) => Fates.StepStops(cs[name], p.routes[name], l);
    case Work(name, l) => Fates.StepStops(cs[name], p.routes[name], l);
    case Signal =>
      forall name | name in cs ensures Routes.Enabled(cs[name], p.routes[name], Stop)
                                       && Routes.Next(cs[name], p.routes[name], Stop).stopping {
        Isolation.StopAlways(cs[name], p.routes[name]);
        Fates.StepStops(cs[name], p.routes[name], Stop);
      }
    case _ =>
  }

  lemma {:induction false} StopsTogether(cs: Isolation.Configs, p: Process, xs: seq<Step>, p': Process)
    requires Together(cs, p) && Reaches(cs, p, xs, p')
    ensures Together(cs, p')
    ensures p'.stopping <==> p.stopping || exists i :: 0 <= i < |xs| && xs[i].Signal?
    decreases |xs|
  {
    hide Enabled, Next;
    if xs != [] {
      StaysTogether(cs, p, xs[0]);
      StopsTogether(cs, Next(cs, p, xs[0]), xs[1..], p');
      assert forall i :: 0 <= i < |xs| - 1 ==> xs[1..][i] == xs[i + 1];
      assert xs[0].Signal? || forall i :: 0 <= i < |xs| && xs[i].Signal? ==> xs[1..][i - 1].Signal?;
    }
  }

  /** The signal reaches everyone: the process and each of its routes are stopping exactly when it has come. */
  lemma {:induction false} SignalReachesAll(cs: Isolation.Configs, xs: seq<Step>, p: Process, name: string)
    requires Reaches(cs, Begin(cs), xs, p) && name in cs
    ensures name in p.routes && (p.routes[name].stopping <==> exists i :: 0 <= i < |xs| && xs[i].Signal?)
    ensures p.stopping <==> exists i :: 0 <= i < |xs| && xs[i].Signal?
  {
    StopsTogether(cs, Begin(cs), xs, p);
  }

  /** Before the signal: the reader runs, no route is stopping, and no event was cut or refused. */
  ghost predicate Running(cs: Isolation.Configs, p: Process) {
    && cs.Keys == p.routes.Keys && p.reader.Reading? && !p.stopping && p.draining.None? && !p.committed
    && forall name :: name in cs ==>
         var r := p.routes[name];
         !r.stopping && !r.closed && r.tally.cancelled == multiset{} && r.tally.refused == multiset{}
  }

  /** What can happen then. */
  predicate IsRunning(x: Step) {
    match x
    case Offer(_, l) => !l.Refuse?
    case Work(_, l) => !l.CutShort? && !l.Exit?
    case Signal => true
    case _ => false
  }

  lemma RunningRoute(c: Config, r: Route, l: Label)
    requires Routes.Enabled(c, r, l) && !r.stopping && !r.closed && !l.Stop? && !l.Close?
    requires r.tally.cancelled == multiset{} && r.tally.refused == multiset{}
    ensures !l.Refuse? && !l.CutShort? && !l.Exit?
    ensures var r' := Routes.Next(c, r, l);
            !r'.stopping && !r'.closed && r'.tally.cancelled == multiset{} && r'.tally.refused == multiset{}
  {
  }

  lemma RunningStep(cs: Isolation.Configs, p: Process, x: Step)
    requires Running(cs, p) && Enabled(cs, p, x)
    ensures IsRunning(x) && (!x.Signal? ==> Running(cs, Next(cs, p, x)))
  {
    hide Routes.Enabled, Routes.Next;
    match x
    case Offer(name, l) => RunningRoute(cs[name], p.routes[name], l);
    case Work(name, l) => RunningRoute(cs[name], p.routes[name], l);
    case _ =>
  }

  lemma {:induction false} RunningUntilSignal(cs: Isolation.Configs, p: Process, xs: seq<Step>, p': Process, j: nat)
    requires Running(cs, p) && Reaches(cs, p, xs, p') && j <= |xs|
    requires forall i :: 0 <= i < j ==> !xs[i].Signal?
    ensures j < |xs| ==> IsRunning(xs[j])
    ensures j == |xs| ==> Running(cs, p')
    decreases |xs|
  {
    hide Running, Next, Enabled;
    if xs != [] {
      RunningKeys(cs, p);
      RunningStep(cs, p, xs[0]);
      if j > 0 {
        RunningUntilSignal(cs, Next(cs, p, xs[0]), xs[1..], p', j - 1);
      }
    }
  }

  lemma RunningKeys(cs: Isolation.Configs, p: Process)
    requires Running(cs, p)
    ensures cs.Keys == p.routes.Keys
  {
  }

  lemma BeginsRunning(cs: Isolation.Configs)
    ensures Running(cs, Begin(cs))
  {
  }

  /** Until the signal comes the routes are only offered events and handle them: no event is refused or cut, no worker
      leaves, the reader does not return, nothing is drained and nothing committed. */
  lemma {:induction false} NothingEndsBeforeSignal(cs: Isolation.Configs, xs: seq<Step>, p: Process, j: nat)
    requires Reaches(cs, Begin(cs), xs, p) && j < |xs| && !IsRunning(xs[j])
    ensures exists i :: 0 <= i < j && xs[i].Signal?
  {
    BeginsRunning(cs);
    if forall i :: 0 <= i < j ==> !xs[i].Signal? {
      RunningUntilSignal(cs, Begin(cs), xs, p, j);
    }
  }

  /** So events are cancelled or refused, and channels closed, only in runs with a signal. */
  lemma {:induction false} LossesFollowSignal(cs: Isolation.Configs, xs: seq<Step>, p: Process, name: string)
    requires Reaches(cs, Begin(cs), xs, p) && name in cs && name in p.routes
    requires var r := p.routes[name];
             r.tally.cancelled != multiset{} || r.tally.refused != multiset{} || r.closed || p.committed
    ensures exists i :: 0 <= i < |xs| && xs[i].Signal?
  {
    BeginsRunning(cs);
    if forall i :: 0 <= i < |xs| ==> !xs[i].Signal? {
      RunningUntilSignal(cs, Begin(cs), xs, p, |xs|);
    }
  }

  /** The reader goes on offering until it returns, signal or not: while it runs every route is open, so that every offer
      has an answer; afterwards no offer is made. */
  lemma {:induction false} OffersUntilReturn(cs: Isolation.Configs, xs: seq<Step>, p: Process, name: string)
    requires forall n :: n in cs ==> cs[n].Valid()
    requires Reaches(cs, Begin(cs), xs, p) && name in cs
    ensures name in p.routes && cs.Keys == p.routes.Keys
    ensures (exists l :: Enabled(cs, p, Offer(name, l))) <==> p.reader.Reading?
  {
    hide Routes.Inv, Drained;
    BeginInv(cs);
    ReachesInv(cs, Begin(cs), xs, p);
    if p.reader.Reading? {
      var r, l := p.routes[name], if |p.routes[name].queue| < cs[name].buffer then Accept else Shed;
      assert Enabled(cs, p, Offer(name, l));
    }
  }

  predicate Drains(x: Step, name: string) {
    x.StartDrain? && x.name == name
  }

  function Times(xs: seq<Step>, kind: Step -> bool): nat {
    if xs == [] then 0 else (if kind(xs[0]) then 1 else 0) + Times(xs[1..], kind)
  }

  lemma OnceStep(cs: Isolation.Configs, p: Process, x: Step, name: string)
    requires Inv(cs, p) && Enabled(cs, p, x) && name in cs
    ensures var m := Next(cs, p, x);
            && (name in p.toDrain <==> name in m.toDrain || Drains(x, name)) && !(name in m.toDrain && Drains(x, name))
            && (p.reader.Reading? <==> m.reader.Reading? || IsReturn(x)) && !(m.reader.Reading? && IsReturn(x))
            && (m.committed <==> p.committed || IsCommit(x)) && !(p.committed && IsCommit(x))
  {
    hide Routes.Inv, Routes.Next, Routes.Enabled, Drained;
  }

  lemma {:induction false} OnceFrom(cs: Isolation.Configs, p: Process, xs: seq<Step>, p': Process, name: string)
    requires Inv(cs, p) && Reaches(cs, p, xs, p') && name in cs
    ensures Times(xs, x => Drains(x, name)) == (if name in p.toDrain then 1 else 0) - (if name in p'.toDrain then 1 else 0)
    ensures Times(xs, IsReturn) == (if p.reader.Reading? then 1 else 0) - (if p'.reader.Reading? then 1 else 0)
    ensures Times(xs, IsCommit) == (if p'.committed then 1 else 0) - (if p.committed then 1 else 0)
    decreases |xs|
  {
    hide Inv, Next, Enabled, Drains, IsReturn, IsCommit;
    if xs != [] {
      InvKeys(cs, p);
      StepKeepsInv(cs, p, xs[0]);
      OnceStep(cs, p, xs[0], name);
      OnceFrom(cs, Next(cs, p, xs[0]), xs[1..], p', name);
    }
  }

  predicate IsReturn(x: Step) {
    x.ReaderReturns?
  }

  predicate IsCommit(x: Step) {
    x.Commit?
  }

  predicate StartsDrain(x: Step) {
    x.StartDrain?
  }

  predicate EndsDrain(x: Step) {
    x.DrainCompletes? || x.DrainGivesUp?
  }

  /** One route is drained at a time: every drain but the one going on has ended before the next begins. */
  lemma {:induction false} OneDrainAtATime(cs: Isolation.Configs, p: Process, xs: seq<Step>, p': Process)
    requires cs.Keys == p.routes.Keys && Reaches(cs, p, xs, p')
    ensures Times(xs, StartsDrain) + (if p.draining.Some? then 1 else 0)
         == Times(xs, EndsDrain) + (if p'.draining.Some? then 1 else 0)
    decreases |xs|
  {
    hide Routes.Next, Routes.Enabled, Drained;
    if xs != [] {
      OneDrainAtATime(cs, Next(cs, p, xs[0]), xs[1..], p');
    }
  }

  /** Workers go on during a drain: from every state in which a route is being drained, steps of its workers alone can
      complete the drain, however full its queue is. */
  lemma {:induction false} DrainCanComplete(cs: Isolation.Configs, p: Process) returns (xs: seq<Step>, p': Process)
    requires Inv(cs, p) && p.draining.Some? && p.draining.value in cs && p.routes[p.draining.value].closed
    ensures Reaches(cs, p, xs, p') && Inv(cs, p') && Enabled(cs, p', DrainCompletes)
    ensures forall i :: 0 <= i < |xs| ==> xs[i].Work? && xs[i].name == p.draining.value
    decreases Draining.WorkLeft(cs[p.draining.value], p.routes[p.draining.value])
  {
    hide Routes.Inv, Drained, Reaches, Routes.Next, Routes.Enabled, Draining.WorkLeft, Draining.IsWork;
    var name := p.draining.value;
    var c, r := cs[name], p.routes[name];
    if Drained(r) {
      xs, p' := [], p;
      ReachesNothing(cs, p);
    } else {
      var l := Draining.SomeoneCanWork(c, r);
      WorkIsWork(c, r, l);
      StepKeepsInv(cs, p, Work(name, l));
      xs, p' := DrainCanComplete(cs, Next(cs, p, Work(name, l)));
      Prepend(cs, p, Work(name, l), xs, p');
      xs := [Work(name, l)] + xs;
    }
  }

  lemma WorkIsWork(c: Config, r: Route, l: Label)
    requires Routes.Inv(c, r) && r.closed && Routes.Enabled(c, r, l) && Draining.IsWork(l)
    ensures !IsOffer(l) && !l.Close? && !l.Stop? && Routes.Next(c, r, l).closed
    ensures 0 <= Draining.WorkLeft(c, Routes.Next(c, r, l)) < Draining.WorkLeft(c, r)
  {
    hide Draining.WorkLeft, Conserved, InOrder;
    Draining.WorkGoesDown(c, r, l);
    StepInv(c, r, l);
    Draining.WorkLeftBounds(c, Routes.Next(c, r, l));
  }

  /** The reader returns once, every route is drained once, and the cursor is committed once, in this order: by the time
      a drain has been started the reader has returned, and by the time of the commit every route has been drained. */
  lemma {:induction false} EachOnceInOrder(cs: Isolation.Configs, xs: seq<Step>, p: Process, name: string)
    requires forall n :: n in cs ==> cs[n].Valid()
    requires Reaches(cs, Begin(cs), xs, p) && name in cs
    ensures Times(xs, IsCommit) <= Times(xs, x => Drains(x, name)) <= Times(xs, IsReturn) <= 1
  {
    hide Routes.Inv, Drained, Reaches, Times;
    BeginInv(cs);
    OnceFrom(cs, Begin(cs), xs, p, name);
    ReachesInv(cs, Begin(cs), xs, p);
  }

  lemma Prepend(cs: Isolation.Configs, p: Process, x: Step, xs: seq<Step>, p': Process)
    requires Inv(cs, p) && Enabled(cs, p, x) && Inv(cs, Next(cs, p, x)) && Reaches(cs, Next(cs, p, x), xs, p')
    ensures Reaches(cs, p, [x] + xs, p')
  {
    hide Routes.Inv;
    assert ([x] + xs)[0] == x && ([x] + xs)[1..] == xs;
  }

  /** The commit, two steps for each route not yet drained, the drain in progress, and the reader's return. */
  function ToGo(p: Process): nat {
    1 + 2 * |p.toDrain| + (if p.draining.Some? then 1 else 0)
    + if p.reader.Returned? then 0 else if p.stopping then 1 else 2
  }

  /** Whatever has happened, and however badly the routes behave, the process can still get to its final commit, once: it
      needs the signal, the reader's return, and for each route a drain or its deadline. */
  lemma {:induction false} CommitStaysReachable(cs: Isolation.Configs, p: Process) returns (xs: seq<Step>, p': Process)
    requires Inv(cs, p) && !p.committed
    ensures Reaches(cs, p, xs, p') && p'.committed
    ensures |xs| == ToGo(p)
    ensures forall i :: 0 <= i < |xs| ==>
              xs[i].Signal? || xs[i].ReaderReturns? || xs[i].StartDrain? || xs[i].DrainGivesUp? || xs[i].Commit?
    decreases ToGo(p)
  {
    hide Routes.Inv, Reaches, Routes.Next;
    var x :=
      if p.reader.Reading? then (if p.stopping then ReaderReturns else Signal)
      else if p.draining.Some? then DrainGivesUp
      else if p.toDrain == {} then Commit
      else var name :| name in p.toDrain; StartDrain(name);
    StepKeepsInv(cs, p, x);
    var m := Next(cs, p, x);
    if m.committed {
      xs, p' := [], m;
      ReachesNothing(cs, m);
    } else {
      xs, p' := CommitStaysReachable(cs, m);
    }
    Prepend(cs, p, x, xs, p');
    xs := [x] + xs;
  }

  lemma ReachesNothing(cs: Isolation.Configs, p: Process)
    requires Inv(cs, p)
    ensures Reaches(cs, p, [], p)
  {
  }
}
