/** One route's aggregation state, partitioned by key (internal/handler/shard.go). */
module Shards {
  import opened Int64
  import opened LinkedMap
  import opened Recency
  import opened Windows
  import opened Dedups
  import opened Throttles

  const SWEEP_EVERY := 2048

  /** Windows and caps of one shard. */
  datatype Config = Config(windowUS: int64, dedupUS: int64, windowKeys: nat, throttleKeys: nat, dedupKeys: nat) {
    predicate Valid() {
      windowKeys > 0 && throttleKeys > 0 && dedupKeys > 0
    }
  }

  /** The configuration that one limit for all three structures leads to. */
  function ConfigOf(windowUS: int64, dedupUS: int64, maxKeysPerShard: int): (c: Config)
    ensures c.Valid() && c.windowUS == windowUS && c.dedupUS == dedupUS && c.windowKeys == c.throttleKeys
    ensures c.windowKeys == if maxKeysPerShard <= 0 then 10000 else maxKeysPerShard
    ensures c.dedupKeys == if maxKeysPerShard <= 0 then 50000 else maxKeysPerShard
  {
    if maxKeysPerShard <= 0 then Config(windowUS, dedupUS, 10000, 10000, 50000)
    else Config(windowUS, dedupUS, maxKeysPerShard, maxKeysPerShard, maxKeysPerShard)
  }

  datatype ShardState = ShardState(window: seq<Slot>, dedup: seq<Slot>, last: Table, sinceSweep: nat)

  const EMPTY := ShardState([], [], map[], 0)

  /** One occurrence of `subject`, identified by `dedup`, at an event time. */
  datatype Occurrence = Occurrence(subject: string, dedup: string, time: int64)

  datatype Verdict = Verdict(count: nat, dup: bool, alert: bool)

  // ----- what one observation does -----

  /** The counting half of an accepted event: an add, and a sweep when one is due. */
  function Counted(c: Config, st: ShardState, subject: string, time: int64): ShardState
    requires c.Valid()
  {
    var s := WindowAdd(st.window, subject, time, c.windowUS, c.windowKeys).0;
    if st.sinceSweep + 1 >= SWEEP_EVERY then st.(window := WindowSweep(s, time, c.windowUS), sinceSweep := 0)
    else st.(window := s, sinceSweep := st.sinceSweep + 1)
  }

  function ObserveStep(c: Config, st: ShardState, ev: Occurrence, threshold: int): (ShardState, Verdict)
    requires c.Valid()
  {
    var (marks, dup) := DedupSeen(st.dedup, ev.dedup, ev.time, c.dedupUS, c.dedupKeys);
    if dup then (st.(dedup := marks), Verdict(0, true, false))
    else
      var count := WindowAdd(st.window, ev.subject, ev.time, c.windowUS, c.windowKeys).1;
      var counted := Counted(c, st.(dedup := marks), ev.subject, ev.time);
      if count < threshold then (counted, Verdict(count, false, false))
      else
        var (last, ok) := ThrottleAllow(st.last, ev.subject, ev.time, c.windowUS, c.throttleKeys);
        (counted.(last := last), Verdict(count, false, ok))
  }

  // ----- the classes -----

  /** The data of one shard. Its mutex makes each Observe one atomic step. */
  class Shard {
    const window: Window
    const throttle: Throttle
    const dedup: Dedup
    var sinceSwep: nat

    ghost const config: Config
    ghost var State: ShardState
    ghost var Repr: set<object>

    ghost predicate Valid()
      reads this, Repr
      ensures Valid() ==> this in Repr
    {
      && {this, window, throttle, dedup} <= Repr && (forall e :: e in window.lru ==> e in Repr)
      && window.Valid() && throttle.Valid() && dedup.Valid() && config.Valid()
      && window.windowUS == throttle.intervalUS == config.windowUS && dedup.windowUS == config.dedupUS
      && window.maxKeys == config.windowKeys && throttle.maxKeys == config.throttleKeys
      && dedup.maxKeys == config.dedupKeys
      && State == ShardState(window.Contents, dedup.Contents, throttle.last, sinceSwep)
    }

    constructor (windowUS: int64, dedupUS: int64, maxKeysPerShard: int)
      ensures Valid() && fresh(Repr)
      ensures State == EMPTY && config == ConfigOf(windowUS, dedupUS, maxKeysPerShard)
    {
      hide Window.Valid, Dedup.Valid, Throttle.Valid;
      window := new Window(windowUS, maxKeysPerShard);
      throttle := new Throttle(windowUS, maxKeysPerShard);
      dedup := new Dedup(dedupUS, maxKeysPerShard);
      sinceSwep := 0;
      config := ConfigOf(windowUS, dedupUS, maxKeysPerShard);
      State := EMPTY;
      new;
      Repr := {this, window, throttle, dedup};
    }

    method Observe(key: string, dedupKey: string, nowUS: int64, threshold: int)
      returns (count: nat, dup: bool, alert: bool)
      requires Valid()
      modifies Repr
      ensures Valid() && fresh(Repr - old(Repr))
      ensures (State, Verdict(count, dup, alert))
           == ObserveStep(config, old(State), Occurrence(key, dedupKey, nowUS), threshold)
    {
      hide Window.Valid, Dedup.Valid, Throttle.Valid, WindowAdd, WindowSweep, DedupSeen, ThrottleAllow;
      dup := dedup.Seen(dedupKey, nowUS);
      State := State.(dedup := dedup.Contents);
      if dup {
        return 0, true, false;
      }
      count := Count(key, nowUS);
      if count < threshold {
        return count, false, false;
      }
      var ok := throttle.Allow(key, nowUS);
      State := State.(last := throttle.last);
      if !ok {
        return count, false, false;
      }
      return count, false, true;
    }

    /** The counting half of Observe: add to the window and sweep it when due. */
    method Count(key: string, nowUS: int64) returns (count: nat)
      requires Valid()
      modifies this, window, window.lru
      ensures Valid() && fresh(Repr - old(Repr))
      ensures count == WindowAdd(old(State).window, key, nowUS, config.windowUS, config.windowKeys).1
      ensures State == Counted(config, old(State), key, nowUS)
    {
      hide Window.Valid, Dedup.Valid, Throttle.Valid, WindowAdd, WindowSweep;
      count := window.Add(key, nowUS);
      sinceSwep := sinceSwep + 1;
      if sinceSwep >= SWEEP_EVERY {
        sinceSwep := 0;
        window.Sweep(nowUS);
      }
      Repr := Repr + set e | e in window.lru;
      State := State.(window := window.Contents, sinceSweep := sinceSwep);
    }
  }

  // ----- the set of shards -----

  /** The shard of a key: its hash modulo the number of shards. */
  function ShardOf(hash: string -> nat, n: nat, key: string): (i: nat)
    requires n > 0
    ensures i < n
  {
    if n == 1 then 0 else hash(key) % n
  }

  /** One observation on a set of shards touches the shard of the key and no other. */
  function SetStep(c: Config, hash: string -> nat, sts: seq<ShardState>, ev: Occurrence, threshold: int)
    : (seq<ShardState>, Verdict)
    requires c.Valid() && sts != []
  {
    var i := ShardOf(hash, |sts|, ev.subject);
    var (st, v) := ObserveStep(c, sts[i], ev, threshold);
    (sts[i := st], v)
  }

  class ShardSet {
    const hash: string -> nat
    const config: Config
    const shards: seq<Shard>

    /** Every shard is sound and no two share a structure or a window entry. */
    ghost predicate Valid()
      reads set s | s in shards, set s, o | s in shards && o in s.Repr :: o
    {
      && shards != []
      && (forall i :: 0 <= i < |shards| ==> shards[i].Valid() && shards[i].config == config)
      && (forall i, j :: 0 <= i < j < |shards| ==> shards[i].Repr !! shards[j].Repr)
    }

    ghost function States(): seq<ShardState>
      reads set s | s in shards
    {
      seq(|shards|, i requires 0 <= i < |shards| reads set s | s in shards => shards[i].State)
    }

    /** `newShardSet`: at least one shard, all empty. */
    constructor (hash: string -> nat, n: int, windowUS: int64, dedupUS: int64, maxKeysPerShard: int)
      ensures Valid() && fresh(set s, o | s in shards && o in s.Repr :: o)
      ensures this.hash == hash && config == ConfigOf(windowUS, dedupUS, maxKeysPerShard)
      ensures |shards| == (if n < 1 then 1 else n) && forall i :: 0 <= i < |shards| ==> shards[i].State == EMPTY
    {
      hide Shard.Valid;
      this.hash := hash;
      config := ConfigOf(windowUS, dedupUS, maxKeysPerShard);
      var count := if n < 1 then 1 else n;
      var made: seq<Shard> := [];
      for i := 0 to count
        invariant |made| == i
        invariant forall j :: 0 <= j < i ==>
          && made[j].Valid() && fresh(made[j]) && fresh(made[j].Repr) && made[j].State == EMPTY
          && made[j].config == ConfigOf(windowUS, dedupUS, maxKeysPerShard)
        invariant forall j, k :: 0 <= j < k < i ==> made[j].Repr !! made[k].Repr
      {
        var s := new Shard(windowUS, dedupUS, maxKeysPerShard);
        made := made + [s];
      }
      shards := made;
    }

    method Observe(key: string, dedupKey: string, nowUS: int64, threshold: int)
      returns (count: nat, dup: bool, alert: bool)
      requires Valid()
      modifies shards[ShardOf(hash, |shards|, key)].Repr
      ensures Valid()
      ensures (States(), Verdict(count, dup, alert))
           == SetStep(config, hash, old(States()), Occurrence(key, dedupKey, nowUS), threshold)
    {
      hide Shard.Valid, ObserveStep;
      var i := ShardOf(hash, |shards|, key);
      ghost var before := States();
      count, dup, alert := shards[i].Observe(key, dedupKey, nowUS, threshold);
      assert States() == before[i := shards[i].State];
    }
  }
}
