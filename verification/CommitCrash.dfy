/**
 Cursor.Commit step by step on a file system, with concurrent advances, errors at any
 step, and a crash at any moment followed by a restart that loads the file.
 */
module CommitCrash {
  import opened Int64
  import opened Wrappers
  import opened Cursors

  /** Where a committer is between choosing a position and recording it as committed. */
  datatype Pc =
    | Idle
    | Chosen(v: int64)
    | Writing(v: int64, inode: nat)
    | Written(v: int64)
    | Renamed(v: int64)

  /** Paths refer to inodes, so an open file keeps its inode when the path is renamed.
      `past` records every value the position ever had. */
  datatype State = State(latest: int64, commited: int64, past: set<int64>,
                         inodes: seq<File>, file: Option<nat>, tmp: Option<nat>, pcs: seq<Pc>)

  datatype Label =
    | Advance(x: int64)
    | Begin(p: nat)
    | OpenTmp(p: nat)
    | FinishWrite(p: nat)
    | Rename(p: nat)
    | Finish(p: nat)
    | Fail(p: nat)
    | Crash

  function Start(committers: nat): State {
    State(0, 0, {}, [], None, None, seq(committers, i => Idle))
  }

  function FileOf(s: State): File {
    if s.file.Some? && s.file.value < |s.inodes| then s.inodes[s.file.value] else Absent
  }

  predicate Enabled(s: State, l: Label) {
    match l
    case Advance(x) => 0 < x && s.latest < x
    case Begin(p) => p < |s.pcs| && s.pcs[p].Idle?
    case OpenTmp(p) => p < |s.pcs| && s.pcs[p].Chosen? && (s.tmp.Some? ==> s.tmp.value < |s.inodes|)
    case FinishWrite(p) => p < |s.pcs| && s.pcs[p].Writing? && s.pcs[p].inode < |s.inodes|
    case Rename(p) => p < |s.pcs| && s.pcs[p].Written?
    case Finish(p) => p < |s.pcs| && s.pcs[p].Renamed?
    case Fail(p) => p < |s.pcs| && (s.pcs[p].Chosen? || s.pcs[p].Writing? || s.pcs[p].Written?)
    case Crash => true
  }

  function Step(s: State, l: Label): State
    requires Enabled(s, l)
  {
    match l
    case Advance(x) => s.(latest := x, past := s.past + {x})
    case Begin(p) =>
      if s.latest == 0 || s.latest == s.commited then s else s.(pcs := s.pcs[p := Chosen(s.latest)])
    case OpenTmp(p) =>
      var v := s.pcs[p].v;
      if s.tmp.Some? then
        s.(inodes := s.inodes[s.tmp.value := Torn], pcs := s.pcs[p := Writing(v, s.tmp.value)])
      else
        s.(inodes := s.inodes + [Torn], tmp := Some(|s.inodes|), pcs := s.pcs[p := Writing(v, |s.inodes|)])
    case FinishWrite(p) =>
      var Writing(v, inode) := s.pcs[p];
      s.(inodes := s.inodes[inode := Position(v)], pcs := s.pcs[p := Written(v)])
    case Rename(p) =>
      if s.tmp.None? then s.(pcs := s.pcs[p := Idle])
      else s.(file := s.tmp, tmp := None, pcs := s.pcs[p := Renamed(s.pcs[p].v)])
    case Finish(p) => s.(commited := s.pcs[p].v, pcs := s.pcs[p := Idle])
    case Fail(p) => s.(pcs := s.pcs[p := Idle])
    case Crash =>
      var pos := Cursors.Loaded(FileOf(s));
      s.(latest := pos, commited := pos, pcs := seq(|s.pcs|, i => Idle))
  }

  ghost predicate Reaches(s: State, ls: seq<Label>, s': State)
    decreases |ls|
  {
    if ls == [] then s == s'
    else Enabled(s, ls[0]) && Reaches(Step(s, ls[0]), ls[1..], s')
  }

  /** The committer works on a position the cursor really had, and its temporary file is private. */
  ghost predicate CommitterOk(s: State, pc: Pc) {
    match pc
    case Idle => true
    case Chosen(v) => Real(s, v)
    case Writing(v, inode) => Real(s, v) && s.tmp == Some(inode)
    case Written(v) => Real(s, v) && s.tmp.Some? && s.tmp.value < |s.inodes| && s.inodes[s.tmp.value] == Position(v)
    case Renamed(v) => Real(s, v)
  }

  ghost predicate Real(s: State, v: int64) {
    v in s.past && 0 < v <= s.latest && Cursors.Loaded(FileOf(s)) <= v
  }

  /** A commit begins only while no other committer is at work. */
  predicate Alone(s: State, l: Label) {
    l.Begin? ==> forall q :: 0 <= q < |s.pcs| && q != l.p ==> s.pcs[q].Idle?
  }

  /** A run in which commits do not overlap. */
  ghost predicate ReachesSerially(s: State, ls: seq<Label>, s': State)
    decreases |ls|
  {
    if ls == [] then s == s'
    else Enabled(s, ls[0]) && Alone(s, ls[0]) && ReachesSerially(Step(s, ls[0]), ls[1..], s')
  }

  ghost predicate Inv(s: State) {
    && (forall p :: 0 <= p < |s.pcs| ==> CommitterOk(s, s.pcs[p]))
    && (forall p, q :: 0 <= p < q < |s.pcs| ==> s.pcs[p].Idle? || s.pcs[q].Idle?)
    && (s.file.Some? ==> s.file.value < |s.inodes| && s.file != s.tmp)
    && (s.tmp.Some? ==> s.tmp.value < |s.inodes|)
    && (forall x :: x in s.past ==> 0 < x)
    && (s.latest == 0 || s.latest in s.past)
    && match FileOf(s) {
         case Absent => true
         case Torn => false
         case Position(p) => p in s.past && p <= s.latest
       }
  }

  lemma AdvanceInv(s: State, x: int64)
    requires Inv(s) && Enabled(s, Advance(x))
    ensures Inv(Step(s, Advance(x))) && FileOf(Step(s, Advance(x))) == FileOf(s)
  {
  }

  lemma CrashInv(s: State)
    requires Inv(s)
    ensures Inv(Step(s, Crash)) && FileOf(Step(s, Crash)) == FileOf(s)
  {
  }

  lemma OpenInv(s: State, p: nat)
    requires Inv(s) && Enabled(s, OpenTmp(p))
    ensures Inv(Step(s, OpenTmp(p))) && FileOf(Step(s, OpenTmp(p))) == FileOf(s)
  {
  }

  lemma WriteInv(s: State, p: nat)
    requires Inv(s) && Enabled(s, FinishWrite(p))
    ensures Inv(Step(s, FinishWrite(p))) && FileOf(Step(s, FinishWrite(p))) == FileOf(s)
  {
  }

  lemma StepInv(s: State, l: Label)
    requires Inv(s) && Enabled(s, l) && Alone(s, l)
    ensures Inv(Step(s, l))
    ensures Cursors.Loaded(FileOf(s)) <= Cursors.Loaded(FileOf(Step(s, l)))
  {
    match l
    case Advance(x) => AdvanceInv(s, x);
    case Crash => CrashInv(s);
    case OpenTmp(p) => OpenInv(s, p);
    case FinishWrite(p) => WriteInv(s, p);
    case _ =>
  }

  lemma {:induction false} SerialInv(s: State, ls: seq<Label>, s': State)
    requires Inv(s) && ReachesSerially(s, ls, s')
    ensures Inv(s')
    ensures Cursors.Loaded(FileOf(s)) <= Cursors.Loaded(FileOf(s'))
    decreases |ls|
  {
    hide Inv, FileOf, Step, Enabled;
    if ls != [] {
      StepInv(s, ls[0]);
      SerialInv(Step(s, ls[0]), ls[1..], s');
    }
  }

  lemma StartInv(committers: nat)
    ensures Inv(Start(committers))
  {
  }

  /** However many committers there are, while their commits do not overlap: at every moment of every run with
      errors, advances and crashes, the file is absent or holds a complete position that the cursor really had,
      never beyond the current one. */
  lemma FileIsAlwaysSound(committers: nat, ls: seq<Label>, s: State)
    requires ReachesSerially(Start(committers), ls, s)
    ensures match FileOf(s) {
              case Absent => true
              case Torn => false
              case Position(p) => p in s.past && 0 < p <= s.latest
            }
    ensures Enabled(s, Crash) && Step(s, Crash).latest == Cursors.Loaded(FileOf(s)) <= s.latest
  {
    StartInv(committers);
    SerialInv(Start(committers), ls, s);
  }

  /** And the position in the file never goes back, not even across crashes. */
  lemma FileNeverGoesBack(committers: nat, ls: seq<Label>, s: State, ls': seq<Label>, s': State)
    requires ReachesSerially(Start(committers), ls, s) && ReachesSerially(s, ls', s')
    ensures Cursors.Loaded(FileOf(s)) <= Cursors.Loaded(FileOf(s'))
  {
    StartInv(committers);
    SerialInv(Start(committers), ls, s);
    SerialInv(s, ls', s');
  }

  /** A single committer cannot overlap with itself. */
  lemma {:induction false} OneIsSerial(s: State, ls: seq<Label>, s': State)
    requires |s.pcs| <= 1 && Reaches(s, ls, s')
    ensures ReachesSerially(s, ls, s')
    decreases |ls|
  {
    if ls != [] {
      OneIsSerial(Step(s, ls[0]), ls[1..], s');
    }
  }

  /** What is recorded as committed is what the file holds, but for the moment between a rename and its record; and only
      positions beyond it are being written. */
  ghost predicate RecordOk(s: State) {
    && (Cursors.Loaded(FileOf(s)) == s.commited || exists p :: 0 <= p < |s.pcs| && s.pcs[p].Renamed?)
    && s.commited <= s.latest
    && (forall p :: 0 <= p < |s.pcs| && !s.pcs[p].Idle? ==> s.commited < s.pcs[p].v)
    && (forall p :: 0 <= p < |s.pcs| && s.pcs[p].Renamed? ==> Cursors.Loaded(FileOf(s)) == s.pcs[p].v)
  }

  lemma StepRecord(s: State, l: Label)
    requires Inv(s) && RecordOk(s) && Enabled(s, l) && Alone(s, l)
    ensures RecordOk(Step(s, l))
  {
    match l
    case Advance(x) => AdvanceInv(s, x);
    case Crash => CrashInv(s);
    case OpenTmp(p) => OpenInv(s, p);
    case FinishWrite(p) => WriteInv(s, p);
    case Rename(p) =>
      assert s.tmp.Some? ==> Step(s, l).pcs[p].Renamed?;
      assert forall q :: 0 <= q < |s.pcs| && q != p ==> s.pcs[q].Idle?;
    case Fail(p) => assert forall q :: 0 <= q < |s.pcs| && q != p ==> s.pcs[q].Idle?;
    case _ =>
  }

  lemma {:induction false} SerialRecord(s: State, ls: seq<Label>, s': State)
    requires Inv(s) && RecordOk(s) && ReachesSerially(s, ls, s')
    ensures RecordOk(s')
    decreases |ls|
  {
    hide Inv, RecordOk, FileOf, Step, Enabled;
    if ls != [] {
      StepInv(s, ls[0]);
      StepRecord(s, ls[0]);
      SerialRecord(Step(s, ls[0]), ls[1..], s');
    }
  }

  /** In such runs, whenever no committer is at work the committed position is exactly what a restart would load, so a
      commit that is skipped because nothing is new has nothing to write; and a committer at work is always writing a
      position beyond the committed one. */
  lemma CommittedIsOnFile(committers: nat, ls: seq<Label>, s: State)
    requires ReachesSerially(Start(committers), ls, s)
    ensures (forall p :: 0 <= p < |s.pcs| ==> s.pcs[p].Idle?) ==> s.commited == Cursors.Loaded(FileOf(s)) <= s.latest
    ensures forall p :: 0 <= p < |s.pcs| && !s.pcs[p].Idle? ==> s.commited < s.pcs[p].v <= s.latest
  {
    StartInv(committers);
    SerialInv(Start(committers), ls, s);
    SerialRecord(Start(committers), ls, s);
  }

  /** An error costs nothing: whatever step of a commit fails, the same committer can begin again at once, and if nothing
      else intervenes the current position is then in the file and recorded. */
  lemma RetryAfterError(committers: nat, run: seq<Label>, s: State, p: nat) returns (ls: seq<Label>, s': State)
    requires ReachesSerially(Start(committers), run, s) && Enabled(s, Fail(p))
    ensures ls == [Fail(p), Begin(p), OpenTmp(p), FinishWrite(p), Rename(p), Finish(p)]
    ensures Reaches(s, ls, s') && FileOf(s') == Position(s.latest) && s'.commited == s'.latest == s.latest
  {
    hide Reaches, ReachesSerially;
    StartInv(committers);
    SerialInv(Start(committers), run, s);
    SerialRecord(Start(committers), run, s);
    ls, s' := CommitAgain(s, p);
  }

  lemma CommitAgain(s: State, p: nat) returns (ls: seq<Label>, s': State)
    requires Inv(s) && RecordOk(s) && Enabled(s, Fail(p))
    ensures ls == [Fail(p), Begin(p), OpenTmp(p), FinishWrite(p), Rename(p), Finish(p)]
    ensures Reaches(s, ls, s') && FileOf(s') == Position(s.latest) && s'.commited == s'.latest == s.latest
  {
    hide Reaches;
    var s1 := Step(s, Fail(p));
    var s2 := Step(s1, Begin(p));
    var s3 := Step(s2, OpenTmp(p));
    var s4 := Step(s3, FinishWrite(p));
    var s5 := Step(s4, Rename(p));
    s' := Step(s5, Finish(p));
    Nothing(s');
    Prepend(s5, Finish(p), [], s');
    ls := [Finish(p)] + [];
    Prepend(s4, Rename(p), ls, s');
    ls := [Rename(p)] + ls;
    Prepend(s3, FinishWrite(p), ls, s');
    ls := [FinishWrite(p)] + ls;
    Prepend(s2, OpenTmp(p), ls, s');
    ls := [OpenTmp(p)] + ls;
    Prepend(s1, Begin(p), ls, s');
    ls := [Begin(p)] + ls;
    Prepend(s, Fail(p), ls, s');
    ls := [Fail(p)] + ls;
  }

  // ----- overlapping commits -----

  lemma Prepend(s: State, l: Label, ls: seq<Label>, s': State)
    requires Enabled(s, l) && Reaches(Step(s, l), ls, s')
    ensures Reaches(s, [l] + ls, s')
  {
  }

  lemma Nothing(s: State)
    ensures Reaches(s, [], s)
  {
  }

  /** Committers share one temporary path. As soon as there are two, one can rename what another has just
      truncated; a crash then restarts from live although a position had been chosen and written. */
  lemma TwoCommittersCanTear(committers: nat, pos: int64) returns (ls: seq<Label>, s: State)
    requires committers >= 2 && pos > 0
    ensures Reaches(Start(committers), ls, s)
    ensures FileOf(s) == Torn && s.latest == pos && Step(s, Crash).latest == 0
  {
    hide Reaches;
    var s1 := Step(Start(committers), Advance(pos));
    var s2 := Step(s1, Begin(0));
    var s3 := Step(s2, OpenTmp(0));
    var s4 := Step(s3, FinishWrite(0));
    var s5 := Step(s4, Begin(1));
    var s6 := Step(s5, OpenTmp(1));
    s := Step(s6, Rename(0));
    Nothing(s);
    Prepend(s6, Rename(0), [], s);
    Prepend(s5, OpenTmp(1), [Rename(0)] + [], s);
    ls := [OpenTmp(1)] + ([Rename(0)] + []);
    Prepend(s4, Begin(1), ls, s);
    ls := [Begin(1)] + ls;
    Prepend(s3, FinishWrite(0), ls, s);
    ls := [FinishWrite(0)] + ls;
    Prepend(s2, OpenTmp(0), ls, s);
    ls := [OpenTmp(0)] + ls;
    Prepend(s1, Begin(0), ls, s);
    ls := [Begin(0)] + ls;
    Prepend(Start(committers), Advance(pos), ls, s);
    ls := [Advance(pos)] + ls;
  }

  /** Without care for overlap, the file is safe from tearing in every run if and only if there is at most one
      committer. */
  lemma SafeUnattendedExactly(committers: nat)
    ensures (forall ls, s :: Reaches(Start(committers), ls, s) ==> FileOf(s) != Torn) <==> committers <= 1
  {
    hide Reaches, ReachesSerially;
    if committers <= 1 {
      forall ls, s | Reaches(Start(committers), ls, s) ensures FileOf(s) != Torn {
        OneIsSerial(Start(committers), ls, s);
        FileIsAlwaysSound(committers, ls, s);
      }
    } else {
      var ls, s := TwoCommittersCanTear(committers, 1);
    }
  }
}
