/**
 Any number of goroutines inside Cursor.Advance at once: each load and each
 compare-and-swap is one atomic step, in any interleaving.
 */
module AdvanceRace {
  import opened Int64
  import opened Cursors

  datatype Thread =
    | Ready(arg: int64)
    | Loaded(arg: int64, cur: int64)
    | Finished(arg: int64)

  /** `wins` counts successful swaps, `failed` the failed swaps of each thread, `seen` the wins
      there were at its last load, `steps` how often it was scheduled. */
  datatype State = State(latest: int64, threads: seq<Thread>, wins: nat,
                         failed: seq<nat>, seen: seq<nat>, steps: seq<nat>)

  function Start(latest: int64, args: seq<int64>): State {
    var n := |args|;
    State(latest, seq(n, i requires 0 <= i < n => Ready(args[i])), 0,
          seq(n, i => 0), seq(n, i => 0), seq(n, i => 0))
  }

  predicate Enabled(s: State, i: nat) {
    i < |s.threads| == |s.failed| == |s.seen| == |s.steps| && !s.threads[i].Finished?
  }

  /** Thread `i` takes its next atomic step. */
  function Step(s: State, i: nat): State
    requires Enabled(s, i)
  {
    var s' := s.(steps := s.steps[i := s.steps[i] + 1]);
    match s.threads[i]
    case Ready(arg) =>
      if arg <= 0 || arg <= s.latest then s'.(threads := s.threads[i := Finished(arg)])
      else s'.(threads := s.threads[i := Thread.Loaded(arg, s.latest)], seen := s.seen[i := s.wins])
    case Loaded(arg, cur) =>
      if s.latest == cur then
        s'.(latest := arg, threads := s.threads[i := Finished(arg)], wins := s.wins + 1)
      else s'.(threads := s.threads[i := Ready(arg)], failed := s.failed[i := s.failed[i] + 1])
  }

  ghost predicate Reaches(s: State, schedule: seq<nat>, s': State)
    decreases |schedule|
  {
    if schedule == [] then s == s'
    else Enabled(s, schedule[0]) && Reaches(Step(s, schedule[0]), schedule[1..], s')
  }

  function FinishedCount(ts: seq<Thread>): nat {
    if ts == [] then 0 else FinishedCount(ts[..|ts| - 1]) + if ts[|ts| - 1].Finished? then 1 else 0
  }

  ghost predicate ThreadOk(s: State, i: nat)
    requires i < |s.threads| == |s.failed| == |s.seen| == |s.steps|
  {
    && s.failed[i] <= s.wins
    && match s.threads[i] {
         case Ready(arg) => s.steps[i] == 2 * s.failed[i]
         case Loaded(arg, cur) =>
           && 0 < arg && cur < arg && cur <= s.latest && s.steps[i] == 2 * s.failed[i] + 1
           && s.failed[i] <= s.seen[i] <= s.wins && (cur != s.latest ==> s.seen[i] < s.wins)
         case Finished(arg) => (0 < arg ==> arg <= s.latest) && s.steps[i] <= 2 * s.failed[i] + 2
       }
  }

  /** What every interleaving keeps. */
  ghost predicate Inv(s: State, init: int64, args: seq<int64>) {
    && |args| == |s.threads| == |s.failed| == |s.seen| == |s.steps|
    && (forall i :: 0 <= i < |args| ==> s.threads[i].arg == args[i] && ThreadOk(s, i))
    && init <= s.latest
    && (s.latest == init || exists i :: 0 <= i < |args| && s.threads[i].Finished? && args[i] == s.latest > 0)
    && s.wins <= FinishedCount(s.threads)
    && (forall i :: 0 <= i < |args| ==> s.failed[i] < |args|)
  }

  lemma {:induction false} CountFinish(ts: seq<Thread>, i: nat, t: Thread)
    requires i < |ts| && !ts[i].Finished?
    ensures FinishedCount(ts[i := t]) == FinishedCount(ts) + if t.Finished? then 1 else 0
    ensures FinishedCount(ts) < |ts|
  {
    var l := ts[..|ts| - 1];
    if i < |l| {
      CountFinish(l, i, t);
      assert ts[i := t][..|ts| - 1] == l[i := t];
    } else {
      assert ts[i := t][..|ts| - 1] == l;
      CountBound(l);
    }
  }

  lemma {:induction false} CountBound(ts: seq<Thread>)
    ensures FinishedCount(ts) <= |ts|
  {
    if ts != [] {
      CountBound(ts[..|ts| - 1]);
    }
  }

  lemma StartInv(init: int64, args: seq<int64>)
    ensures Inv(Start(init, args), init, args)
  {
  }

  /** Other threads keep their bookkeeping when the position and the wins only grow together. */
  lemma StepOthers(s: State, i: nat, j: nat)
    requires Enabled(s, i) && j < |s.threads| && j != i && ThreadOk(s, i) && ThreadOk(s, j)
    ensures ThreadOk(Step(s, i), j)
  {
  }

  lemma StepSelf(s: State, i: nat)
    requires Enabled(s, i) && ThreadOk(s, i)
    ensures ThreadOk(Step(s, i), i)
  {
  }

  lemma StepInv(s: State, i: nat, init: int64, args: seq<int64>)
    requires Inv(s, init, args) && Enabled(s, i)
    ensures Inv(Step(s, i), init, args)
  {
    var s' := Step(s, i);
    CountFinish(s.threads, i, s'.threads[i]);
    forall j | 0 <= j < |args| ensures ThreadOk(s', j) {
      if j == i { StepSelf(s, i); } else { StepOthers(s, i, j); }
    }
    if s'.latest == s.latest && s.latest != init {
      var w :| 0 <= w < |args| && s.threads[w].Finished? && args[w] == s.latest > 0;
      assert s'.threads[w].Finished?;
    } else if s'.latest != s.latest {
      assert s'.threads[i].Finished? && args[i] == s'.latest;
    }
  }

  lemma {:induction false} ReachesInv(s: State, schedule: seq<nat>, s': State, init: int64, args: seq<int64>)
    requires Inv(s, init, args) && Reaches(s, schedule, s')
    ensures Inv(s', init, args) && s.latest <= s'.latest
    decreases |schedule|
  {
    if schedule != [] {
      StepInv(s, schedule[0], init, args);
      ReachesInv(Step(s, schedule[0]), schedule[1..], s', init, args);
    }
  }

  /** In every interleaving the position never goes back, every finished call is covered by it, and
      it is always the initial position or the argument of a finished call. Once all calls are done
      it is the maximum of the initial position and the positive arguments. */
  lemma AdvancesLinearizeToMaximum(init: int64, args: seq<int64>, schedule: seq<nat>, s: State)
    requires Reaches(Start(init, args), schedule, s)
    ensures |s.threads| == |args| && init <= s.latest
    ensures s.latest == init || exists i :: 0 <= i < |args| && s.threads[i].Finished? && args[i] == s.latest > 0
    ensures forall i :: 0 <= i < |args| && s.threads[i].Finished? && args[i] > 0 ==> args[i] <= s.latest
    ensures (forall t :: t in s.threads ==> t.Finished?) ==> s.latest == MaxAll(init, Positive(args))
  {
    hide Reaches, ThreadOk, Positive;
    StartInv(init, args);
    ReachesInv(Start(init, args), schedule, s, init, args);
    FinishedAreCovered(s, init, args);
    if forall t :: t in s.threads ==> t.Finished? {
      forall i | 0 <= i < |args| ensures s.threads[i].Finished? {
        assert s.threads[i] in s.threads;
      }
      CoveredIsMaximum(s.latest, init, args);
    }
  }

  lemma FinishedAreCovered(s: State, init: int64, args: seq<int64>)
    requires Inv(s, init, args)
    ensures forall i :: 0 <= i < |args| && s.threads[i].Finished? && args[i] > 0 ==> args[i] <= s.latest
  {
    forall i | 0 <= i < |args| && s.threads[i].Finished? ensures args[i] > 0 ==> args[i] <= s.latest {
      assert ThreadOk(s, i);
    }
  }

  lemma CoveredIsMaximum(latest: int64, init: int64, args: seq<int64>)
    requires init <= latest && forall i :: 0 <= i < |args| && args[i] > 0 ==> args[i] <= latest
    requires latest == init || exists i :: 0 <= i < |args| && args[i] == latest > 0
    ensures latest == MaxAll(init, Positive(args))
  {
    PositiveMembers(args);
    var m := MaxAll(init, Positive(args));
    if m != init {
      assert m in args;
    }
    if latest != init {
      assert latest in args;
    }
  }

  function Positive(xs: seq<int64>): seq<int64> {
    if xs == [] then [] else (if xs[0] > 0 then [xs[0]] else []) + Positive(xs[1..])
  }

  lemma {:induction false} PositiveMembers(xs: seq<int64>)
    ensures forall x :: x in Positive(xs) <==> x in xs && x > 0
  {
    if xs != [] {
      PositiveMembers(xs[1..]);
      assert xs == [xs[0]] + xs[1..];
    }
  }

  /** The retry loop terminates under any schedule: among n concurrent calls each retries fewer
      than n times and is scheduled at most 2n times in all. */
  lemma RetriesAreBounded(init: int64, args: seq<int64>, schedule: seq<nat>, s: State, i: nat)
    requires Reaches(Start(init, args), schedule, s) && i < |args|
    ensures |s.failed| == |s.steps| == |args|
    ensures s.failed[i] < |args| && s.steps[i] <= 2 * |args|
  {
    StartInv(init, args);
    ReachesInv(Start(init, args), schedule, s, init, args);
    assert ThreadOk(s, i);
  }
}
