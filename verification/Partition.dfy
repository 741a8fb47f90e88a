/** Which shard a key has, and what that buys: one key per residue needs room for one key (internal/handler/shard.go). */
module Partition {
  import opened Sets
  import opened History
  import opened Shards
  import opened LogSpec
  import opened Refinement
  import opened Sharding

  /** The shard is the remainder of the hash. In particular each shard is that of some hash. */
  lemma ShardIsRemainder(hash: string -> nat, n: nat, key: string, q: nat, i: nat)
    requires i < n && hash(key) == q * n + i
    ensures ShardOf(hash, n, key) == i
  {
    if n > 1 {
      RemainderIs(hash(key), n, q, i);
    } else {
      assert i == 0;
    }
  }

  lemma RemainderIs(x: nat, n: nat, q: int, i: nat)
    requires i < n && x == q * n + i
    ensures x % n == i
  {
    var d := x / n - q;
    assert x == (x / n) * n + x % n;
    assert d * n == i - x % n;
    if d > 0 {
      AtLeast(d, n);
    } else if d < 0 {
      AtLeast(-d, n);
    }
  }

  lemma AtLeast(d: int, n: nat)
    requires d > 0
    ensures d * n >= n
  {
  }

  /** Two keys share a shard exactly when their hashes differ by a multiple of the number of shards. */
  lemma SameShardExactly(hash: string -> nat, n: nat, a: string, b: string)
    requires n > 0
    ensures ShardOf(hash, n, a) == ShardOf(hash, n, b) <==> (hash(a) - hash(b)) % n == 0
  {
    var x, y := hash(a), hash(b);
    var q, k := (x - y) / n, (x - y) % n;
    assert x - y == q * n + k;
    if n > 1 && k == 0 {
      assert x == (q + y / n) * n + y % n by {
        assert y == (y / n) * n + y % n;
      }
      RemainderIs(x, n, q + y / n, y % n);
    } else if n > 1 && x % n == y % n {
      assert x - y == (x / n - y / n) * n;
      NoRemainder(x - y, n, x / n - y / n);
    } else if n == 1 {
      assert k == 0;
    }
  }

  lemma NoRemainder(x: int, n: nat, q: int)
    requires n > 0 && x == q * n
    ensures x % n == 0
  {
    var d := x / n - q;
    assert x == (x / n) * n + x % n;
    assert d * n == -(x % n);
    if d > 0 {
      AtLeast(d, n);
    } else if d < 0 {
      AtLeast(-d, n);
    }
  }

  // ----- one key per residue -----

  /** Different subjects have hashes that differ modulo the number of shards. */
  ghost predicate Separate(hash: string -> nat, n: nat, es: seq<Occurrence>)
    requires n > 0
  {
    forall i, j :: 0 <= i < |es| && 0 <= j < |es| && (hash(es[i].subject) - hash(es[j].subject)) % n == 0 ==>
      es[i].subject == es[j].subject
  }

  ghost predicate OneSubject(log: Log) {
    forall x, y :: x in log && y in log ==> x.ev.subject == y.ev.subject
  }

  lemma {:induction false} HitsOfLog(log: Log)
    ensures forall h :: h in SubjectHits(log) || h in AlertHits(log) ==> exists x :: x in log && x.ev.subject == h.key
    ensures |DedupHits(log)| <= |log|
  {
    if log != [] {
      var l, x := log[..|log| - 1], log[|log| - 1];
      HitsOfLog(l);
      assert log == l + [x] && x in log;
      forall h | h in SubjectHits(log) || h in AlertHits(log) ensures exists y :: y in log && y.ev.subject == h.key {
        if h in SubjectHits(l) || h in AlertHits(l) {
          var y :| y in l && y.ev.subject == h.key;
          assert y in log;
        }
      }
    }
  }

  lemma {:induction false} KeysWithin(h: seq<Hit>, cutoff: int)
    ensures |KeysSince(h, cutoff)| <= |h|
  {
    if h == [] {
      assert KeysSince(h, cutoff) == {};
    } else {
      var l, x := h[..|h| - 1], h[|h| - 1];
      KeysWithin(l, cutoff);
      assert h == l + [x];
      SubsetSize(KeysSince(h, cutoff), KeysSince(l, cutoff) + {x.key});
      UnionSize(KeysSince(l, cutoff), {x.key});
    }
  }

  lemma OneSubjectFits(c: Config, log: Log)
    requires c.Valid() && log != [] && OneSubject(log) && |log| <= c.dedupKeys && c.throttleKeys > 1
    ensures Fits(c, log)
  {
    var now, s := log[|log| - 1].ev.time, log[0].ev.subject;
    HitsOfLog(log);
    assert log[0] in log;
    SubsetSize(KeysSince(SubjectHits(log), now - c.windowUS), {s});
    SubsetSize(AlertKeys(log), {s});
    KeysWithin(DedupHits(log), now - c.dedupUS);
  }

  lemma OneSubjectIsProvisioned(c: Config, log: Log)
    requires c.Valid() && OneSubject(log) && |log| <= c.dedupKeys && c.throttleKeys > 1
    ensures Provisioned(c, log)
  {
    hide Fits;
    forall n | 0 < n <= |log| ensures Fits(c, log[..n]) {
      assert forall x :: x in log[..n] ==> x in log;
      OneSubjectFits(c, log[..n]);
    }
  }

  lemma {:induction false} PartSize(log: Log, hash: string -> nat, n: nat, i: nat)
    requires n > 0
    ensures |ShardLog(log, hash, n, i)| <= |log|
  {
    if log != [] {
      PartSize(log[..|log| - 1], hash, n, i);
    }
  }

  /** Sharding pays: if no two subjects share a residue, any number of them is counted exactly by shards that each have
      room for a single one. */
  lemma OneSlotPerShardSuffices(c: Config, hash: string -> nat, n: nat, es: seq<Occurrence>, threshold: int)
    requires Windowed(c) && n > 0 && NonDecreasing(es) && Owned(es) && Separate(hash, n, es)
    requires |es| <= c.dedupKeys && c.throttleKeys > 1
    ensures RunSet(c, hash, n, es, threshold).verdicts == SpecVerdicts(SpecLog(c, es, threshold))
  {
    hide SpecLog, Owned, NonDecreasing, Colocated, OrderedInShards, ShardOf, Provisioned;
    var log := SpecLog(c, es, threshold);
    SpecLogEvents(c, es, threshold);
    InOrderEverywhere(c, hash, n, es, threshold);
    OwnedIsColocated(c, hash, n, es, threshold);
    forall i | 0 <= i < n ensures Provisioned(c, ShardLog(log, hash, n, i)) {
      PartSize(log, hash, n, i);
      PartHasOneSubject(c, hash, n, es, log, i);
      OneSubjectIsProvisioned(c, ShardLog(log, hash, n, i));
    }
    ShardsRefineLog(c, hash, n, es, threshold);
  }

  lemma PartHasOneSubject(c: Config, hash: string -> nat, n: nat, es: seq<Occurrence>, log: Log, i: nat)
    requires n > 0 && Separate(hash, n, es) && |log| == |es| && forall k :: 0 <= k < |es| ==> log[k].ev == es[k]
    ensures OneSubject(ShardLog(log, hash, n, i))
  {
    hide ShardOf, ShardLog;
    ShardLogMembers(log, hash, n, i);
    forall x, y | x in ShardLog(log, hash, n, i) && y in ShardLog(log, hash, n, i) ensures x.ev.subject == y.ev.subject {
      var j :| 0 <= j < |log| && log[j] == x;
      var k :| 0 <= k < |log| && log[k] == y;
      SameShardExactly(hash, n, es[j].subject, es[k].subject);
    }
  }
}
