/**
 Why an event ended as it did: in every run of a route, the class an event is counted in
 is the one its handler calls earned (internal/route/route.go, process).
 */
module Fates {
  import opened Wrappers
  import opened Retry
  import opened Routes

  /** How the handler calls for event `k` ended, in order. */
  function Calls(c: Config, r: Route, ls: seq<Label>, k: Id): seq<Outcome>
    requires Exec(c, r, ls).Some?
  {
    if ls == [] then []
    else
      var m, l := Exec(c, r, ls[..|ls| - 1]).value, ls[|ls| - 1];
      Calls(c, r, ls[..|ls| - 1], k) + NewCall(m, l, k)
  }

  function NewCall(r: Route, l: Label, k: Id): seq<Outcome> {
    if l.Return? && l.w < |r.workers| && r.workers[l.w].Calling? && r.workers[l.w].ev == k then [l.outcome] else []
  }

  ghost predicate AllTransient(h: seq<Outcome>) {
    forall i :: 0 <= i < |h| ==> h[i] == TransientError
  }

  /** A worker that has the event has seen only transient errors, one per attempt that ended. */
  ghost predicate HandOk(c: Config, w: Worker, k: Id, h: seq<Outcome>) {
    match w
    case Calling(ev, attempt) => ev == k ==> AllTransient(h) && |h| == attempt - 1 < c.maxAttempts
    case Sleeping(ev, attempt) => ev == k ==> AllTransient(h) && |h| == attempt < c.maxAttempts
    case _ => true
  }

  ghost predicate ClassOk(c: Config, t: Tally, k: Id, h: seq<Outcome>) {
    && (t.ok[k] > 0 ==> EndsIn(h, Success))
    && (t.permanent[k] > 0 ==> EndsIn(h, PermanentError))
    && (t.exhausted[k] > 0 ==> AllTransient(h) && |h| == c.maxAttempts)
    && (t.cancelled[k] > 0 ==> AllTransient(h) && 1 <= |h| < c.maxAttempts)
    && (t.dropped[k] + t.refused[k] > 0 ==> h == [])
  }

  /** The last call ended so, and every call before it with a transient error. */
  ghost predicate EndsIn(h: seq<Outcome>, o: Outcome) {
    h != [] && Recovered(h[|h| - 1]) == o && AllTransient(h[..|h| - 1])
  }

  ghost predicate Earned(c: Config, r: Route, k: Id, h: seq<Outcome>) {
    && |h| <= c.maxAttempts
    && (k in r.queue || k >= r.offered ==> h == [])
    && (forall i :: 0 <= i < |r.workers| ==> HandOk(c, r.workers[i], k, h))
    && ClassOk(c, r.tally, k, h)
  }

  // ----- an event is in one place -----

  predicate Holds(w: Worker, k: Id) {
    (w.Calling? || w.Sleeping?) && w.ev == k
  }

  lemma HolderCounts(ws: seq<Worker>, i: nat, k: Id)
    requires i < |ws| && Holds(ws[i], k)
    ensures InFlight(ws)[k] == InFlight(ws[i := Idle])[k] + 1
  {
    InFlightUpdate(ws, i, Idle, k);
  }

  /** While worker `i` has the event, it is nowhere else. */
  lemma OnlyHolder(c: Config, r: Route, i: nat, k: Id)
    requires Inv(c, r) && i < |r.workers| && Holds(r.workers[i], k)
    ensures k < r.offered && k !in r.queue && Tallied(r.tally, k) == 0
    ensures forall j :: 0 <= j < |r.workers| && j != i ==> !Holds(r.workers[j], k)
  {
    hide InFlight, Tallied, InOrder, PoolOk;
    HolderCounts(r.workers, i, k);
    assert Places(r, k) == if k < r.offered then 1 else 0;
    forall j | 0 <= j < |r.workers| && j != i ensures !Holds(r.workers[j], k) {
      if Holds(r.workers[j], k) {
        HolderCounts(r.workers[i := Idle], j, k);
      }
    }
  }

  // ----- steps -----

  lemma MovedHand(c: Config, r: Route, k: Id, h: seq<Outcome>, w: nat, next: Worker)
    requires Earned(c, r, k, h) && w < |r.workers| && HandOk(c, next, k, h)
    ensures Earned(c, r.(workers := r.workers[w := next]), k, h)
  {
    hide HandOk, ClassOk;
  }

  lemma EndedCall(c: Config, r: Route, k: Id, h: seq<Outcome>, w: nat, o: Outcome)
    requires Inv(c, r) && Earned(c, r, k, h) && Enabled(c, r, Return(w, o)) && r.workers[w].ev == k
    ensures Earned(c, Returned(c, r, w, o), k, h + [o])
  {
    hide InFlight, Conserved, InOrder, PoolOk;
    OnlyHolder(c, r, w, k);
    assert HandOk(c, r.workers[w], k, h);
    var r' := Returned(c, r, w, o);
    assert (h + [o])[..|h + [o]| - 1] == h;
    forall i | 0 <= i < |r'.workers| ensures HandOk(c, r'.workers[i], k, h + [o]) {
      assert i != w ==> r'.workers[i] == r.workers[i] && !Holds(r.workers[i], k);
    }
  }

  lemma OtherFinished(c: Config, r: Route, k: Id, h: seq<Outcome>, w: nat, f: Fate)
    requires Earned(c, r, k, h) && w < |r.workers| && (r.workers[w].Calling? || r.workers[w].Sleeping?)
    requires r.workers[w].ev == k ==> f == Cancelled && AllTransient(h) && 1 <= |h| < c.maxAttempts
    ensures Earned(c, Finished(r, w, f), k, h)
  {
    var r' := Finished(r, w, f);
    forall i | 0 <= i < |r'.workers| ensures HandOk(c, r'.workers[i], k, h) {
      assert HandOk(c, r.workers[i], k, h);
    }
  }

  lemma OfferKeepsEarned(c: Config, r: Route, k: Id, h: seq<Outcome>, l: Label)
    requires Earned(c, r, k, h) && Enabled(c, r, l) && IsOffer(l)
    ensures Earned(c, Next(c, r, l), k, h)
  {
    hide HandOk;
  }

  lemma StepKeepsEarned(c: Config, r: Route, k: Id, h: seq<Outcome>, l: Label)
    requires Inv(c, r) && Earned(c, r, k, h) && Enabled(c, r, l)
    ensures Earned(c, Next(c, r, l), k, h + NewCall(r, l, k))
  {
    hide Earned, ClassOk, Conserved, InOrder, PoolOk, Finished;
    assert h + [] == h;
    if IsOffer(l) {
      OfferKeepsEarned(c, r, k, h, l);
    } else if l.Return? && r.workers[l.w].ev == k {
      EndedCall(c, r, k, h, l.w, l.outcome);
    } else {
      QuietStep(c, r, k, h, l);
    }
  }

  /** A step that ends no handler call of the event. */
  lemma QuietStep(c: Config, r: Route, k: Id, h: seq<Outcome>, l: Label)
    requires Inv(c, r) && Earned(c, r, k, h) && Enabled(c, r, l) && !IsOffer(l)
    requires l.Return? ==> r.workers[l.w].ev != k
    ensures Earned(c, Next(c, r, l), k, h)
  {
    hide ClassOk, Conserved, InOrder, Finished;
    match l
    case Take(w) =>
      var r1 := r.(queue := r.queue[1..], taken := r.taken + [r.queue[0]]);
      assert r.queue[0] in r.queue;
      MovedHand(c, r1, k, h, w, Calling(r.queue[0], 1));
    case Return(w, outcome) =>
      OtherFinished(c, r, k, h, w, Ok);
      OtherFinished(c, r, k, h, w, Permanent);
      OtherFinished(c, r, k, h, w, Exhausted);
      MovedHand(c, r, k, h, w, Sleeping(r.workers[w].ev, r.workers[w].attempt));
    case WakeUp(w) =>
      assert HandOk(c, r.workers[w], k, h);
      MovedHand(c, r, k, h, w, Calling(r.workers[w].ev, r.workers[w].attempt + 1));
    case CutShort(w) =>
      assert HandOk(c, r.workers[w], k, h) && WorkerOk(c, r, r.workers[w]);
      OtherFinished(c, r, k, h, w, Cancelled);
    case Exit(w) => MovedHand(c, r, k, h, w, Exited);
    case Stop =>
    case Close =>
  }

  lemma {:induction false} RunEarns(c: Config, ls: seq<Label>, k: Id)
    requires c.Valid() && Exec(c, Start(c), ls).Some?
    ensures Inv(c, Exec(c, Start(c), ls).value)
    ensures Earned(c, Exec(c, Start(c), ls).value, k, Calls(c, Start(c), ls, k))
  {
    StartInv(c);
    if ls != [] {
      hide Inv, Earned, Next, Enabled, NewCall;
      var m := Exec(c, Start(c), ls[..|ls| - 1]).value;
      RunEarns(c, ls[..|ls| - 1], k);
      StepKeepsEarned(c, m, k, Calls(c, Start(c), ls[..|ls| - 1], k), ls[|ls| - 1]);
      StepInv(c, m, ls[|ls| - 1]);
    }
  }

  /** In every run each event gets at most MaxAttempts handler calls, and none after a success, a permanent
      error or a panic. It is counted ok exactly when its last call succeeded, permanent exactly when that
      call failed for good, and exhausted exactly when MaxAttempts calls failed for the moment. An event
      cut at shutdown had some such failures but not all; one turned away was never handled. */
  lemma FateIsEarned(c: Config, ls: seq<Label>, k: Id)
    requires c.Valid() && Exec(c, Start(c), ls).Some?
    ensures var t, h := Exec(c, Start(c), ls).value.tally, Calls(c, Start(c), ls, k);
            && |h| <= c.maxAttempts
            && (forall i :: 0 <= i < |h| - 1 ==> h[i] == TransientError)
            && (k in t.ok <==> Leads(h, c.maxAttempts, Ok))
            && (k in t.permanent <==> Leads(h, c.maxAttempts, Permanent))
            && (k in t.exhausted <==> Leads(h, c.maxAttempts, Exhausted))
            && (k in t.cancelled ==> Leads(h, c.maxAttempts, Cancelled))
            && (k in t.dropped || k in t.refused ==> h == [])
  {
    hide Calls, Exec, InOrder, PoolOk;
    var r, h := Exec(c, Start(c), ls).value, Calls(c, Start(c), ls, k);
    RunEarns(c, ls, k);
    if h != [] {
      Somewhere(c, r, k, h);
    }
  }

  /** An event that was handled is in the hands of a worker or in one class. */
  lemma Somewhere(c: Config, r: Route, k: Id, h: seq<Outcome>)
    requires Inv(c, r) && Earned(c, r, k, h) && h != []
    ensures || Tallied(r.tally, k) == 1
            || (Tallied(r.tally, k) == 0 && AllTransient(h) && |h| < c.maxAttempts)
  {
    hide InOrder, PoolOk, ClassOk, Tallied;
    assert Places(r, k) == 1;
    if Tallied(r.tally, k) == 0 {
      assert InFlight(r.workers)[k] == 1;
      var i := Holder(r.workers, k);
      assert HandOk(c, r.workers[i], k, h);
    }
  }

  lemma {:induction false} Holder(ws: seq<Worker>, k: Id) returns (i: nat)
    requires InFlight(ws)[k] > 0
    ensures i < |ws| && Holds(ws[i], k)
  {
    if Holds(ws[|ws| - 1], k) {
      i := |ws| - 1;
    } else {
      i := Holder(ws[..|ws| - 1], k);
    }
  }

  // ----- nothing is cut or refused before the shutdown -----

  lemma {:induction false} StoppingMeansStop(c: Config, ls: seq<Label>)
    requires Exec(c, Start(c), ls).Some?
    ensures Exec(c, Start(c), ls).value.stopping <==> exists i :: 0 <= i < |ls| && ls[i].Stop?
  {
    hide Enabled, Next;
    if ls != [] {
      var l := ls[..|ls| - 1];
      StoppingMeansStop(c, l);
      StepStops(c, Exec(c, Start(c), l).value, ls[|l|]);
      assert forall i :: 0 <= i < |l| ==> ls[i] == l[i];
    }
  }

  lemma StepStops(c: Config, r: Route, l: Label)
    requires Enabled(c, r, l)
    ensures Next(c, r, l).stopping == (r.stopping || l.Stop?)
  {
    hide Record;
  }

  lemma {:induction false} ExecPrefix(c: Config, r: Route, ls: seq<Label>, n: nat)
    requires Exec(c, r, ls).Some? && n <= |ls|
    ensures Exec(c, r, ls[..n]).Some?
  {
    hide Enabled, Next;
    if n < |ls| {
      ExecPrefix(c, r, ls[..|ls| - 1], n);
      assert ls[..|ls| - 1][..n] == ls[..n];
    } else {
      assert ls[..n] == ls;
    }
  }

  /** A backoff is cut, and an offer given up, only after the shutdown has begun. */
  lemma CutsFollowStop(c: Config, ls: seq<Label>, j: nat)
    requires Exec(c, Start(c), ls).Some? && j < |ls| && (ls[j].CutShort? || ls[j].Refuse?)
    ensures exists i :: 0 <= i < j && ls[i].Stop?
  {
    ExecPrefix(c, Start(c), ls, j + 1);
    assert ls[..j + 1][..j] == ls[..j];
    StoppingMeansStop(c, ls[..j]);
    var i :| 0 <= i < j && ls[..j][i].Stop?;
    assert ls[i].Stop?;
  }

  lemma {:induction false} CutsAreLabels(c: Config, ls: seq<Label>)
    requires Exec(c, Start(c), ls).Some?
    ensures var t := Exec(c, Start(c), ls).value.tally;
            && |t.cancelled| == Count(ls, IsCut) && |t.refused| == Count(ls, IsRefusal)
  {
    hide Enabled, Next;
    if ls != [] {
      CutsAreLabels(c, ls[..|ls| - 1]);
      StepCuts(c, Exec(c, Start(c), ls[..|ls| - 1]).value, ls[|ls| - 1]);
    }
  }

  lemma StepCuts(c: Config, r: Route, l: Label)
    requires Enabled(c, r, l)
    ensures |Next(c, r, l).tally.cancelled| == |r.tally.cancelled| + if IsCut(l) then 1 else 0
    ensures |Next(c, r, l).tally.refused| == |r.tally.refused| + if IsRefusal(l) then 1 else 0
  {
  }

  predicate IsCut(l: Label) {
    l.CutShort?
  }

  predicate IsRefusal(l: Label) {
    l.Refuse?
  }

  function Count(ls: seq<Label>, p: Label -> bool): nat {
    if ls == [] then 0 else Count(ls[..|ls| - 1], p) + if p(ls[|ls| - 1]) then 1 else 0
  }

  lemma {:induction false} CountedOccurs(ls: seq<Label>, p: Label -> bool) returns (j: nat)
    requires Count(ls, p) > 0
    ensures j < |ls| && p(ls[j])
  {
    if p(ls[|ls| - 1]) {
      j := |ls| - 1;
    } else {
      j := CountedOccurs(ls[..|ls| - 1], p);
    }
  }

  /** Cancelled and refused events are exactly the cuts and the refusals of the run, one each; when there is any, the
      shutdown came before the first of them. Without a shutdown every event that has ended is in a counter. */
  lemma CancelledOnlyAtShutdown(c: Config, ls: seq<Label>)
    requires Exec(c, Start(c), ls).Some?
    ensures var t := Exec(c, Start(c), ls).value.tally;
            && |t.cancelled| == Count(ls, IsCut) && |t.refused| == Count(ls, IsRefusal)
            && (t.cancelled != multiset{} || t.refused != multiset{} ==>
                  exists i, j :: 0 <= i < j < |ls| && ls[i].Stop? && (ls[j].CutShort? || ls[j].Refuse?))
    ensures forall j :: 0 <= j < |ls| && (ls[j].CutShort? || ls[j].Refuse?) ==> exists i :: 0 <= i < j && ls[i].Stop?
  {
    hide Exec, Start, Enabled, Next, Count;
    CutsAreLabels(c, ls);
    forall j | 0 <= j < |ls| && (ls[j].CutShort? || ls[j].Refuse?) ensures exists i :: 0 <= i < j && ls[i].Stop? {
      CutsFollowStop(c, ls, j);
    }
    var t := Exec(c, Start(c), ls).value.tally;
    if t.cancelled != multiset{} {
      var j := CountedOccurs(ls, IsCut);
    } else if t.refused != multiset{} {
      var j := CountedOccurs(ls, IsRefusal);
    }
  }

  /** At the shutdown an event can be lost without a counter: with the block policy by giving up its offer, with at least
      two attempts by cutting its backoff. Otherwise neither happens in any run. */
  lemma LossesExactly(c: Config)
    requires c.Valid()
    ensures (exists ls :: Exec(c, Start(c), ls).Some? && Exec(c, Start(c), ls).value.tally.refused != multiset{})
            <==> c.policy.Block?
    ensures (exists ls :: Exec(c, Start(c), ls).Some? && Exec(c, Start(c), ls).value.tally.cancelled != multiset{})
            <==> c.maxAttempts >= 2
  {
    if c.policy.Block? {
      var ls := RefusedRun(c);
    }
    if c.maxAttempts >= 2 {
      var ls := CutRun(c);
    }
    forall ls | Exec(c, Start(c), ls).Some?
      ensures c.policy.Drop? ==> Exec(c, Start(c), ls).value.tally.refused == multiset{}
      ensures c.maxAttempts < 2 ==> Exec(c, Start(c), ls).value.tally.cancelled == multiset{}
    {
      NoLosses(c, ls);
    }
  }

  lemma {:induction false} NoLosses(c: Config, ls: seq<Label>)
    requires c.Valid() && Exec(c, Start(c), ls).Some?
    ensures c.policy.Drop? ==> Exec(c, Start(c), ls).value.tally.refused == multiset{}
    ensures c.maxAttempts < 2 ==> Exec(c, Start(c), ls).value.tally.cancelled == multiset{}
  {
    hide Exec, Start, Calls, Conserved, InOrder, PoolOk;
    StartInv(c);
    ExecInv(c, Start(c), ls);
    forall k | k in Exec(c, Start(c), ls).value.tally.cancelled ensures c.maxAttempts >= 2 {
      FateIsEarned(c, ls, k);
    }
  }

  lemma RefusedRun(c: Config) returns (ls: seq<Label>)
    requires c.Valid() && c.policy.Block?
    ensures Exec(c, Start(c), ls).Some? && Exec(c, Start(c), ls).value.tally.refused != multiset{}
  {
    hide Exec;
    NoSteps(c, Start(c));
    ExecSnoc(c, Start(c), [], Stop);
    ExecSnoc(c, Start(c), [] + [Stop], Refuse);
    ls := [] + [Stop] + [Refuse];
  }

  lemma CutRun(c: Config) returns (ls: seq<Label>)
    requires c.Valid() && c.maxAttempts >= 2
    ensures Exec(c, Start(c), ls).Some? && Exec(c, Start(c), ls).value.tally.cancelled != multiset{}
  {
    hide Exec;
    ls := [];
    NoSteps(c, Start(c));
    ExecSnoc(c, Start(c), ls, Accept);
    ls := ls + [Accept];
    ExecSnoc(c, Start(c), ls, Stop);
    ls := ls + [Stop];
    ExecSnoc(c, Start(c), ls, Take(0));
    ls := ls + [Take(0)];
    ExecSnoc(c, Start(c), ls, Return(0, TransientError));
    ls := ls + [Return(0, TransientError)];
    ExecSnoc(c, Start(c), ls, CutShort(0));
    ls := ls + [CutShort(0)];
  }

  // ----- a worker's steps are what process does -----

  /** The steps in which worker `w` calls the handler with these outcomes, asleep in between. */
  function Attempts(w: nat, h: seq<Outcome>): seq<Label> {
    if h == [] then []
    else Attempts(w, h[..|h| - 1]) + (if |h| > 1 then [WakeUp(w)] else []) + [Return(w, h[|h| - 1])]
  }

  function ProcessSteps(w: nat, h: seq<Outcome>, fate: Fate): seq<Label> {
    Attempts(w, h) + if fate == Cancelled then [CutShort(w)] else []
  }

  /** Before call number `|h| + 1`. */
  lemma {:induction false} Retried(c: Config, r: Route, w: nat, h: seq<Outcome>)
    requires w < |r.workers| && r.workers[w].Calling? && r.workers[w].attempt == 1
    requires AllTransient(h) && 1 <= |h| < c.maxAttempts
    ensures Exec(c, r, Attempts(w, h)) == Some(r.(workers := r.workers[w := Sleeping(r.workers[w].ev, |h|)]))
  {
    hide Exec;
    var l, k := h[..|h| - 1], r.workers[w].ev;
    if l == [] {
      NoSteps(c, r);
      ExecSnoc(c, r, [], Return(w, h[0]));
      assert Attempts(w, h) == [] + [Return(w, h[0])];
    } else {
      Retried(c, r, w, l);
      ExecSnoc(c, r, Attempts(w, l), WakeUp(w));
      var s := r.(workers := r.workers[w := Calling(k, |h|)]);
      assert s == Next(c, Exec(c, r, Attempts(w, l)).value, WakeUp(w));
      ExecSnoc(c, r, Attempts(w, l) + [WakeUp(w)], Return(w, h[|l|]));
      assert s.workers[w := Sleeping(k, |h|)] == r.workers[w := Sleeping(k, |h|)];
    }
  }

  /** The worker steps of a route are the program's process: whatever outcomes lead process to a fate, a worker that
      has just taken an event can be driven by them, and then has recorded that fate and nothing else. */
  lemma ProcessIsRun(c: Config, r: Route, w: nat, h: seq<Outcome>, fate: Fate)
    requires w < |r.workers| && r.workers[w].Calling? && r.workers[w].attempt == 1
    requires Leads(h, c.maxAttempts, fate) && (fate == Cancelled ==> r.stopping)
    ensures Exec(c, r, ProcessSteps(w, h, fate)) == Some(Finished(r, w, fate))
  {
    hide Exec;
    var l, last := h[..|h| - 1], h[|h| - 1];
    if fate == Cancelled {
      Retried(c, r, w, h);
      ExecSnoc(c, r, Attempts(w, h), CutShort(w));
      assert r.workers[w := Sleeping(r.workers[w].ev, |h|)][w := Idle] == r.workers[w := Idle];
    } else {
      if l == [] {
        NoSteps(c, r);
        assert Attempts(w, h) == [] + [Return(w, last)];
        ExecSnoc(c, r, [], Return(w, last));
      } else {
        Retried(c, r, w, l);
        ExecSnoc(c, r, Attempts(w, l), WakeUp(w));
        var s := r.(workers := r.workers[w := Calling(r.workers[w].ev, |h|)]);
        assert s == Next(c, Exec(c, r, Attempts(w, l)).value, WakeUp(w));
        ExecSnoc(c, r, Attempts(w, l) + [WakeUp(w)], Return(w, last));
        assert s.workers[w := Idle] == r.workers[w := Idle];
      }
      assert ProcessSteps(w, h, fate) == Attempts(w, h);
    }
  }
}
