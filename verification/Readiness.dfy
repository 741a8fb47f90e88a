/**
 The read loop and the maintenance goroutine as interleaved atomic steps: when is the
 service reported ready (internal/jetstream/ingest.go, obs.Health)?
 */
module Readiness {
  import opened Wrappers
  import opened Lifecycle

  /** Where the read loop is. `Broken` is after a failed dial or a closed connection, `Noticed` after
      the state became Disconnected, `Waiting` after readiness was withdrawn. */
  datatype Pc = Top | Dialing | Dialled | Stated | Marked | Reading | Closing | Broken | Noticed | Waiting

  /** `checked` is where the maintenance goroutine is: inside a refreshLag call that has seen `connected` and
      not yet set readiness. */
  datatype State = State(pc: Pc, state: ConnState, connected: bool, ready: bool, checked: bool)

  const START := State(Top, Disconnected, false, false, false)

  /** A refresh reports either in one step (`Refresh`) or in two; one that comes before the first position does nothing
      and is no step. */
  datatype Step =
    | Begin(first: bool)
    | DialFails
    | DialSucceeds
    | EnterState(positioned: bool)
    | StoreConnected
    | SayReady
    | CatchUp
    | ReadFails
    | StoreUnconnected
    | EnterDisconnected
    | SayNotReady
    | Wake
    | Refresh(lagging: bool)
    | RefreshCheck
    | RefreshSet(lagging: bool)

  predicate Enabled(s: State, x: Step) {
    match x
    case Begin(_) => s.pc.Top?
    case DialFails => s.pc.Dialing?
    case DialSucceeds => s.pc.Dialing?
    case EnterState(_) => s.pc.Dialled?
    case StoreConnected => s.pc.Stated?
    case SayReady => s.pc.Marked?
    case CatchUp => s.pc.Reading? && s.state.Replaying?
    case ReadFails => s.pc.Reading?
    case StoreUnconnected => s.pc.Closing?
    case EnterDisconnected => s.pc.Broken?
    case SayNotReady => s.pc.Noticed?
    case Wake => s.pc.Waiting?
    case Refresh(_) => !s.checked
    case RefreshCheck => !s.checked
    case RefreshSet(_) => s.checked
  }

  function Next(s: State, x: Step): State
    requires Enabled(s, x)
  {
    match x
    case Begin(first) => s.(pc := Dialing, state := if first then Connecting else Reconnecting)
    case DialFails => s.(pc := Broken)
    case DialSucceeds => s.(pc := Dialled)
    case EnterState(positioned) => s.(pc := Stated, state := if positioned then Replaying else Live)
    case StoreConnected => s.(pc := Marked, connected := true)
    case SayReady => s.(pc := Reading, ready := true)
    case CatchUp => s.(state := Live)
    case ReadFails => s.(pc := Closing)
    case StoreUnconnected => s.(pc := Broken, connected := false)
    case EnterDisconnected => s.(pc := Noticed, state := Disconnected)
    case SayNotReady => s.(pc := Waiting, ready := false)
    case Wake => s.(pc := Top)
    case Refresh(lagging) => if s.connected then s.(ready := !lagging) else s
    case RefreshCheck => if s.connected then s.(checked := true) else s
    case RefreshSet(lagging) => s.(ready := !lagging, checked := false)
  }

  /** The state after the steps, or nothing when some step is not possible. */
  function After(xs: seq<Step>): Option<State> {
    if xs == [] then Some(START)
    else
      match After(xs[..|xs| - 1])
      case None => None
      case Some(s) => if Enabled(s, xs[|xs| - 1]) then Some(Next(s, xs[|xs| - 1])) else None
  }

  /** From the disconnect notice to the next successful dial, and at the start. */
  predicate Down(s: State) {
    s.pc.Waiting? || s.pc.Top? || s.pc.Dialing?
  }

  // ----- the trace since the last disconnect notice -----

  /** The steps before the last notice, or nothing when there was none yet. */
  function BeforeNotice(xs: seq<Step>): Option<seq<Step>> {
    if xs == [] then None
    else if xs[|xs| - 1].SayNotReady? then Some(xs[..|xs| - 1])
    else BeforeNotice(xs[..|xs| - 1])
  }

  /** The readiness that refreshes in progress have set since then, in order. */
  function LateWrites(xs: seq<Step>): seq<bool> {
    if xs == [] || xs[|xs| - 1].SayNotReady? then []
    else LateWrites(xs[..|xs| - 1]) + if xs[|xs| - 1].RefreshSet? then [!xs[|xs| - 1].lagging] else []
  }

  /** A refresh had seen the connection and not yet set readiness when the last notice came. */
  predicate CaughtByNotice(xs: seq<Step>) {
    var before := BeforeNotice(xs);
    before.Some? && After(before.value).Some? && After(before.value).value.checked
  }

  /** Not connected, and the notice of it given. */
  predicate Quiet(s: State) {
    Down(s) || s.pc.Dialled? || s.pc.Stated?
  }

  /** What holds of a state, the late writes and the caught refresh. */
  ghost predicate Inv(s: State, late: seq<bool>, caught: bool) {
    && (s.connected <==> s.pc.Marked? || s.pc.Reading? || s.pc.Closing?)
    && (s.connected || s.pc.Stated? ==> s.state.Replaying? || s.state.Live?)
    && (Quiet(s) ==>
          |late| + (if s.checked then 1 else 0) == (if caught then 1 else 0) && s.ready == (late == [true]))
  }

  lemma StepInv(s: State, late: seq<bool>, caught: bool, x: Step)
    requires Inv(s, late, caught) && Enabled(s, x)
    ensures Inv(Next(s, x), if x.SayNotReady? then [] else if x.RefreshSet? then late + [!x.lagging] else late,
                if x.SayNotReady? then s.checked else caught)
  {
    assert x.RefreshSet? && |late| == 0 ==> late + [!x.lagging] == [!x.lagging];
  }

  /** What one more step makes of the trace since the last notice. */
  lemma TraceSnoc(xs: seq<Step>)
    requires xs != []
    ensures var l, x := xs[..|xs| - 1], xs[|xs| - 1];
            LateWrites(xs) == if x.SayNotReady? then []
                              else if x.RefreshSet? then LateWrites(l) + [!x.lagging]
                              else LateWrites(l)
    ensures var l, x := xs[..|xs| - 1], xs[|xs| - 1];
            After(l).Some? ==> CaughtByNotice(xs) == if x.SayNotReady? then After(l).value.checked else CaughtByNotice(l)
  {
    hide After;
    assert LateWrites(xs[..|xs| - 1]) + [] == LateWrites(xs[..|xs| - 1]);
  }

  lemma {:induction false} AfterInv(xs: seq<Step>)
    requires After(xs).Some?
    ensures Inv(After(xs).value, LateWrites(xs), CaughtByNotice(xs))
  {
    hide LateWrites, CaughtByNotice, BeforeNotice, Enabled, Next;
    if xs == [] {
      NothingWritten();
    } else {
      hide Inv;
      var l := xs[..|xs| - 1];
      AfterInv(l);
      TraceSnoc(xs);
      StepInv(After(l).value, LateWrites(l), CaughtByNotice(l), xs[|xs| - 1]);
    }
  }

  lemma NothingWritten()
    ensures LateWrites([]) == [] && !CaughtByNotice([])
  {
  }

  /** In every interleaving: connected means Replaying or Live. And while down, at most one write of readiness has come
      since the disconnect notice, none unless the notice caught a refresh between its check and its write, and
      the service is reported ready exactly when that refresh has since said so. */
  lemma ReadyWhileDownExactly(xs: seq<Step>)
    requires After(xs).Some?
    ensures var s := After(xs).value;
            && (s.connected ==> s.state.Replaying? || s.state.Live?)
            && (Down(s) ==> |LateWrites(xs)| <= 1 && (LateWrites(xs) != [] ==> CaughtByNotice(xs)))
            && (Down(s) ==> (s.ready <==> CaughtByNotice(xs) && LateWrites(xs) == [true]))
  {
    AfterInv(xs);
  }

  // ----- what the trace says, step by step -----

  /** Has the read loop stored `connected` and not yet stored its end? */
  predicate Up(xs: seq<Step>) {
    if xs == [] then false
    else
      match xs[|xs| - 1]
      case StoreConnected => true
      case StoreUnconnected => false
      case _ => Up(xs[..|xs| - 1])
  }

  /** Is a refresh between having found the connection up and reporting? */
  predicate Refreshing(xs: seq<Step>) {
    if xs == [] then false
    else
      match xs[|xs| - 1]
      case RefreshCheck => Up(xs[..|xs| - 1])
      case RefreshSet(_) => false
      case _ => Refreshing(xs[..|xs| - 1])
  }

  /** The readiness reported last: "connected" by the read loop, "disconnected" by Run, or what a refresh found, if it
      found the connection up. */
  predicate LastReport(xs: seq<Step>) {
    if xs == [] then false
    else
      match xs[|xs| - 1]
      case SayReady => true
      case SayNotReady => false
      case RefreshSet(lagging) => !lagging
      case Refresh(lagging) => if Up(xs[..|xs| - 1]) then !lagging else LastReport(xs[..|xs| - 1])
      case _ => LastReport(xs[..|xs| - 1])
  }

  /** The connection state announced last. */
  function LastState(xs: seq<Step>): ConnState {
    if xs == [] then Disconnected
    else
      match xs[|xs| - 1]
      case Begin(first) => if first then Connecting else Reconnecting
      case EnterState(positioned) => if positioned then Replaying else Live
      case CatchUp => Live
      case EnterDisconnected => Disconnected
      case _ => LastState(xs[..|xs| - 1])
  }

  /** In every interleaving, at every moment: the service is reported ready exactly when the last report said so, and
      refreshes report only after they have found the connection up. */
  lemma {:induction false} ReadyIsLastReport(xs: seq<Step>)
    requires After(xs).Some?
    ensures var s := After(xs).value;
            && s.ready == LastReport(xs) && s.connected == Up(xs) && s.checked == Refreshing(xs) && s.state == LastState(xs)
  {
    if xs != [] {
      ReadyIsLastReport(xs[..|xs| - 1]);
    }
  }

  /** The lag that the last refresh since the read loop said "connected" has found, if there was one. */
  function FoundLagging(xs: seq<Step>): Option<bool> {
    if xs == [] then None
    else
      match xs[|xs| - 1]
      case SayReady => None
      case Refresh(lagging) => Some(lagging)
      case RefreshSet(lagging) => Some(lagging)
      case _ => FoundLagging(xs[..|xs| - 1])
  }

  /** While the connection is being read, the service is ready until a refresh finds it lagging, and again as soon as one
      finds that it is not; no other step makes a difference, and nor does the race with the last disconnect. */
  lemma {:induction false} ReadyWhileReadingExactly(xs: seq<Step>)
    requires After(xs).Some? && After(xs).value.pc.Reading?
    ensures After(xs).value.connected
    ensures After(xs).value.ready <==> FoundLagging(xs) != Some(true)
  {
    var l, x := xs[..|xs| - 1], xs[|xs| - 1];
    ReadyIsLastReport(xs);
    AfterInv(l);
    if !x.SayReady? {
      ReadyWhileReadingExactly(l);
    }
  }

  predicate IsRefresh(x: Step) {
    x.Refresh? || x.RefreshCheck? || x.RefreshSet?
  }

  /** Neither side waits for the other: in every reachable state the read loop can take a step, and the maintenance
      goroutine can finish a refresh, which during a connection makes readiness what it finds. */
  lemma {:induction false} NobodyWaits(xs: seq<Step>, lagging: bool)
    requires After(xs).Some?
    ensures exists x :: Enabled(After(xs).value, x) && !IsRefresh(x)
    ensures var s := After(xs).value;
            var refresh := if s.checked then RefreshSet(lagging) else Refresh(lagging);
            Enabled(s, refresh) && (s.connected ==> Next(s, refresh).ready == !lagging)
  {
    hide After;
    var s := After(xs).value;
    var x := match s.pc
             case Top => Begin(true)
             case Dialing => DialFails
             case Dialled => EnterState(true)
             case Stated => StoreConnected
             case Marked => SayReady
             case Reading => ReadFails
             case Closing => StoreUnconnected
             case Broken => EnterDisconnected
             case Noticed => SayNotReady
             case Waiting => Wake;
    assert Enabled(s, x) && !IsRefresh(x);
  }

  /** How often a step of this kind was taken. */
  function Taken(xs: seq<Step>, kind: Step -> bool): nat {
    if xs == [] then 0 else Taken(xs[..|xs| - 1], kind) + if kind(xs[|xs| - 1]) then 1 else 0
  }

  predicate IsBegin(x: Step) {
    x.Begin?
  }

  predicate IsDial(x: Step) {
    x.DialSucceeds?
  }

  predicate IsSayReady(x: Step) {
    x.SayReady?
  }

  predicate IsSayNotReady(x: Step) {
    x.SayNotReady?
  }

  predicate IsEnd(x: Step) {
    x.StoreUnconnected?
  }

  /** Every attempt but one still going on has been followed by exactly one "disconnected", and every connection by one
      "connected" and one end. */
  lemma {:induction false} AttemptsAreReported(xs: seq<Step>)
    requires After(xs).Some?
    ensures var pc := After(xs).value.pc;
            && Taken(xs, IsBegin) == Taken(xs, IsSayNotReady) + (if pc.Top? || pc.Waiting? then 0 else 1)
            && Taken(xs, IsDial) == Taken(xs, IsSayReady) + (if pc.Dialled? || pc.Stated? || pc.Marked? then 1 else 0)
            && Taken(xs, IsSayReady) == Taken(xs, IsEnd) + (if pc.Reading? || pc.Closing? then 1 else 0)
  {
    if xs != [] {
      AttemptsAreReported(xs[..|xs| - 1]);
    }
  }

  ghost predicate AtomicRefreshes(xs: seq<Step>) {
    forall i :: 0 <= i < |xs| ==> !xs[i].RefreshCheck?
  }

  lemma {:induction false} NeverCaught(xs: seq<Step>)
    requires After(xs).Some? && AtomicRefreshes(xs)
    ensures !After(xs).value.checked && !CaughtByNotice(xs)
  {
    if xs != [] {
      NeverCaught(xs[..|xs| - 1]);
    }
  }

  /** If each refresh checks and sets in one step, the service is never ready while down. */
  lemma NeverReadyWhileDown(xs: seq<Step>)
    requires After(xs).Some? && AtomicRefreshes(xs)
    ensures Down(After(xs).value) ==> !After(xs).value.ready
  {
    NeverCaught(xs);
    ReadyWhileDownExactly(xs);
  }

  lemma Then(xs: seq<Step>, s: State, x: Step)
    requires After(xs) == Some(s) && Enabled(s, x)
    ensures After(xs + [x]) == Some(Next(s, x))
  {
    assert (xs + [x])[..|xs|] == xs;
  }

  /** But check and set are two steps, so the service can be reported ready while waiting to redial. */
  lemma RefreshRacesWithDisconnect() returns (xs: seq<Step>)
    ensures After(xs).Some? && After(xs).value.pc.Waiting? && !After(xs).value.connected && After(xs).value.ready
  {
    hide After;
    xs := [];
    FromStart();
    var steps := [Begin(true), DialSucceeds, EnterState(false), StoreConnected, SayReady, RefreshCheck, ReadFails,
                  StoreUnconnected, EnterDisconnected, SayNotReady, RefreshSet(false)];
    var s := START;
    for i := 0 to |steps|
      invariant After(xs) == Some(s)
      invariant s.pc == [Top, Dialing, Dialled, Stated, Marked, Reading, Reading, Closing, Broken, Noticed, Waiting,
                         Waiting][i]
      invariant s.checked == (6 <= i <= 10) && s.connected == (4 <= i <= 7)
      invariant i == 11 ==> s.ready
    {
      Then(xs, s, steps[i]);
      s := Next(s, steps[i]);
      xs := xs + [steps[i]];
    }
  }

  lemma FromStart()
    ensures After([]) == Some(START)
  {
  }
}
