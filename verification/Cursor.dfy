/** The stream position and its file (internal/jetstream/cursor.go). */
module Cursors {
  import opened Int64

  /** What a path holds: nothing, bytes that do not parse, or a complete position. */
  datatype File = Absent | Torn | Position(timeUS: int64)

  /** The position a file yields on Load; anything unreadable means "start from live". */
  function Loaded(f: File): int64 {
    if f.Position? then f.timeUS else 0
  }

  function Max(a: int64, b: int64): int64 {
    if a < b then b else a
  }

  /** The largest of `a` and all of `xs`. */
  function MaxAll(a: int64, xs: seq<int64>): (m: int64)
    ensures m >= a && (m == a || m in xs) && forall x :: x in xs ==> x <= m
  {
    if xs == [] then a
    else
      assert xs == xs[..|xs| - 1] + [xs[|xs| - 1]];
      Max(MaxAll(a, xs[..|xs| - 1]), xs[|xs| - 1])
  }

  lemma MaxAllSnoc(a: int64, xs: seq<int64>, x: int64)
    ensures MaxAll(a, xs + [x]) == Max(MaxAll(a, xs), x)
  {
  }

  /** The step of Commit at which the operating system reports an error, if any. */
  datatype Fault = NoFault | MkdirFails | WriteFails | RenameFails

  class Cursor {
    var latest: int64
    var commited: int64
    var file: File
    var tmp: File

    constructor (file: File, tmp: File)
      ensures latest == 0 && commited == 0 && this.file == file && this.tmp == tmp
    {
      latest, commited := 0, 0;
      this.file, this.tmp := file, tmp;
    }

    /** Read the persisted position; both positions become it when the file parses. */
    method Load() returns (pos: int64)
      modifies this`latest, this`commited
      ensures pos == Loaded(file)
      ensures if file.Position? then latest == commited == pos
              else latest == old(latest) && commited == old(commited)
    {
      if !file.Position? {
        return 0;
      }
      latest := file.timeUS;
      commited := file.timeUS;
      return file.timeUS;
    }

    /** The compare-and-swap loop. `others` are positions that other goroutines install, at most one
        between each load and its swap; each of them only ever raises the position. */
    method Advance(timeUS: int64, others: seq<int64>) returns (k: nat)
      modifies this`latest
      ensures k <= |others|
      ensures latest == if timeUS <= 0 then old(latest) else Max(MaxAll(old(latest), others[..k]), timeUS)
    {
      k := 0;
      if timeUS <= 0 {
        return;
      }
      while true
        invariant k <= |others| && latest == MaxAll(old(latest), others[..k])
        decreases |others| - k
      {
        var cur := latest;
        if timeUS <= cur {
          return;
        }
        var interferes := k < |others|;
        if interferes {
          MaxAllSnoc(old(latest), others[..k], others[k]);
          assert others[..k + 1] == others[..k] + [others[k]];
          latest := Max(latest, others[k]);
          k := k + 1;
        }
        if latest == cur {
          latest := timeUS;
          return;
        }
      }
    }

    /** Write the position to the temporary file and rename it over the real one. */
    method Commit(fault: Fault) returns (ok: bool)
      modifies this
      ensures latest == old(latest)
      ensures var idle := old(latest) == 0 || old(latest) == old(commited);
              && ok == (idle || fault == NoFault)
              && (if idle || !ok then file == old(file) && commited == old(commited)
                  else file == Position(old(latest)) && commited == old(latest))
    {
      var v := latest;
      if v == 0 || v == commited {
        return true;
      }
      if fault == MkdirFails {
        return false;
      }
      tmp := Torn;
      if fault == WriteFails {
        return false;
      }
      tmp := Position(v);
      if fault == RenameFails {
        return false;
      }
      file := tmp;
      tmp := Absent;
      commited := v;
      return true;
    }
  }

  /** After a commit that succeeded and had something to write, a restart loads that position. */
  method CommitThenLoad(c: Cursor) returns (pos: int64)
    requires c.latest != 0 && c.latest != c.commited
    modifies c
    ensures pos == old(c.latest) && c.latest == pos && c.commited == pos
  {
    var ok := c.Commit(NoFault);
    var restarted := new Cursor(c.file, c.tmp);
    pos := restarted.Load();
  }
}
