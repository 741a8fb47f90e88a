/** Once closed, a route runs dry, whatever its workers' handlers return and in whatever order they take steps
    (internal/route/route.go, worker and Drain). */
module Draining {
  import opened Wrappers
  import opened Retry
  import opened Routes

  /** A step of a worker. */
  predicate IsWork(l: Label) {
    l.Take? || l.Return? || l.WakeUp? || l.CutShort? || l.Exit?
  }

  /** The steps a worker may still take before it has returned, not counting further events. */
  function Left(c: Config, w: Worker): int {
    match w
    case Idle => 1
    case Calling(_, attempt) => 2 * (c.maxAttempts - attempt) + 2
    case Sleeping(_, attempt) => 2 * (c.maxAttempts - attempt) + 1
    case Exited => 0
  }

  function AllLeft(c: Config, ws: seq<Worker>): int {
    if ws == [] then 0 else AllLeft(c, ws[..|ws| - 1]) + Left(c, ws[|ws| - 1])
  }

  /** A queued event brings its taking and at most 2 * maxAttempts - 1 steps more. */
  function WorkLeft(c: Config, r: Route): int {
    2 * c.maxAttempts * |r.queue| + AllLeft(c, r.workers)
  }

  function WorkSteps(ls: seq<Label>): nat {
    if ls == [] then 0 else WorkSteps(ls[..|ls| - 1]) + if IsWork(ls[|ls| - 1]) then 1 else 0
  }

  lemma {:induction false} AllLeftUpdate(c: Config, ws: seq<Worker>, i: nat, w: Worker)
    requires i < |ws|
    ensures AllLeft(c, ws[i := w]) == AllLeft(c, ws) - Left(c, ws[i]) + Left(c, w)
  {
    hide Left;
    var l, ws' := ws[..|ws| - 1], ws[i := w];
    if i < |l| {
      AllLeftUpdate(c, l, i, w);
      assert ws'[..|ws'| - 1] == l[i := w];
    } else {
      assert ws'[..|ws'| - 1] == l;
    }
  }

  lemma {:induction false} AllLeftBounds(c: Config, ws: seq<Worker>)
    requires forall i :: 0 <= i < |ws| && (ws[i].Calling? || ws[i].Sleeping?) ==> 1 <= ws[i].attempt <= c.maxAttempts
    ensures 0 <= AllLeft(c, ws) <= (2 * c.maxAttempts + 1) * |ws|
  {
    if ws != [] {
      AllLeftBounds(c, ws[..|ws| - 1]);
      assert (2 * c.maxAttempts + 1) * |ws| == (2 * c.maxAttempts + 1) * (|ws| - 1) + 2 * c.maxAttempts + 1;
    }
  }

  /** The steps left are bounded by the configuration alone. */
  lemma WorkLeftBounds(c: Config, r: Route)
    requires PoolOk(c, r)
    ensures 0 <= WorkLeft(c, r) <= 2 * c.maxAttempts * c.buffer + (2 * c.maxAttempts + 1) * c.workers
  {
    forall i | 0 <= i < |r.workers| && (r.workers[i].Calling? || r.workers[i].Sleeping?)
      ensures 1 <= r.workers[i].attempt <= c.maxAttempts
    {
      assert WorkerOk(c, r, r.workers[i]);
    }
    AllLeftBounds(c, r.workers);
    Grows(2 * c.maxAttempts, |r.queue|, c.buffer);
  }

  lemma Grows(m: nat, a: nat, b: nat)
    requires a <= b
    ensures 0 <= m * a <= m * b
  {
    assert m * b == m * a + m * (b - a);
  }

  lemma WorkGoesDown(c: Config, r: Route, l: Label)
    requires PoolOk(c, r) && r.closed && Enabled(c, r, l)
    ensures WorkLeft(c, Next(c, r, l)) + (if IsWork(l) then 1 else 0) <= WorkLeft(c, r) && Next(c, r, l).closed
  {
    hide AllLeft, Record;
    var r', m := Next(c, r, l), 2 * c.maxAttempts;
    if IsWork(l) {
      AllLeftUpdate(c, r.workers, l.w, r'.workers[l.w]);
      assert r'.workers == r.workers[l.w := r'.workers[l.w]] && WorkerOk(c, r, r.workers[l.w]);
      assert l.Take? ==> m * |r.queue| == m * |r'.queue| + m;
    }
  }

  lemma {:induction false} WorkEnds(c: Config, r: Route, ls: seq<Label>)
    requires Inv(c, r) && r.closed && Exec(c, r, ls).Some?
    ensures var r' := Exec(c, r, ls).value;
            Inv(c, r') && r'.closed && WorkSteps(ls) + WorkLeft(c, r') <= WorkLeft(c, r)
  {
    if ls != [] {
      hide Enabled, Next, Conserved, PoolOk, InOrder, WorkLeft, IsWork;
      var m := Exec(c, r, ls[..|ls| - 1]).value;
      WorkEnds(c, r, ls[..|ls| - 1]);
      WorkGoesDown(c, m, ls[|ls| - 1]);
      StepInv(c, m, ls[|ls| - 1]);
    }
  }

  /** A worker that has not returned can always go on, without any shutdown. */
  lemma SomeoneCanWork(c: Config, r: Route) returns (l: Label)
    requires r.closed && !Drained(r)
    ensures IsWork(l) && !l.CutShort? && Enabled(c, r, l)
  {
    var w: nat :| w < |r.workers| && !r.workers[w].Exited?;
    l := match r.workers[w]
         case Calling(_, _) => Return(w, Success)
         case Sleeping(_, _) => WakeUp(w)
         case _ => if r.queue == [] then Exit(w) else Take(w);
  }

  /** A closed route drains. Whatever happened before it was closed, and whatever its workers do afterwards, they take at
      most so many steps as the configuration allows; and as long as they have not all returned, one of them can go
      on, with or without a shutdown. So a route whose workers keep going completes its drain, and only then. */
  lemma ClosedRouteDrains(c: Config, before: seq<Label>, after: seq<Label>)
    requires c.Valid() && Exec(c, Start(c), before).Some?
    requires var r := Exec(c, Start(c), before).value; r.closed && Exec(c, r, after).Some?
    ensures var r' := Exec(c, Exec(c, Start(c), before).value, after).value;
            && WorkSteps(after) <= 2 * c.maxAttempts * c.buffer + (2 * c.maxAttempts + 1) * c.workers
            && (Drained(r') <==> forall l :: Enabled(c, r', l) ==> !IsWork(l))
            && (Drained(r') <==> forall l :: Enabled(c, r', l) && IsWork(l) ==> l.CutShort?)
  {
    hide Exec, Start, Conserved, InOrder, WorkLeft, PoolOk;
    var r := Exec(c, Start(c), before).value;
    StartInv(c);
    ExecInv(c, Start(c), before);
    WorkEnds(c, r, after);
    WorkLeftBounds(c, r);
    var r' := Exec(c, r, after).value;
    WorkLeftBounds(c, r');
    if !Drained(r') {
      var l := SomeoneCanWork(c, r');
    }
  }
}
