/** The alert throttle (internal/handler/state.go, Throttle) and its bounds. */
module Throttles {
  import opened Int64
  import opened Sets

  type Table = map<string, int64>

  /** The table after the call, and whether the key may fire. A full table is dropped whole. */
  function ThrottleAllow(last: Table, key: string, now: int64, interval: int64, cap: nat): (Table, bool) {
    if key in last && Sub(now, last[key]) < interval then (last, false)
    else ((if |last| >= cap then map[] else last)[key := now], true)
  }

  class Throttle {
    const intervalUS: int64
    const maxKeys: nat
    var last: Table

    ghost predicate Valid()
      reads this
    {
      |last| <= maxKeys && maxKeys > 0
    }

    constructor (intervalUS: int64, maxKeys: int)
      ensures Valid() && last == map[] && this.intervalUS == intervalUS
      ensures this.maxKeys == if maxKeys <= 0 then 10000 else maxKeys
    {
      this.intervalUS := intervalUS;
      this.maxKeys := if maxKeys <= 0 then 10000 else maxKeys;
      last := map[];
    }

    /** Report whether `key` may fire at event time `nowUS`. */
    method Allow(key: string, nowUS: int64) returns (ok: bool)
      requires Valid()
      modifies this
      ensures Valid()
      ensures (last, ok) == ThrottleAllow(old(last), key, nowUS, intervalUS, maxKeys)
    {
      if key in last && Sub(nowUS, last[key]) < intervalUS {
        return false;
      }
      if |last| >= maxKeys {
        last := map[];
      }
      last := last[key := nowUS];
      return true;
    }
  }

  // ----- runs, with event times in any order -----

  datatype Request = Request(key: string, time: int64)

  function TableAfter(rs: seq<Request>, interval: int64, cap: nat): Table {
    if rs == [] then map[]
    else
      var x := rs[|rs| - 1];
      ThrottleAllow(TableAfter(rs[..|rs| - 1], interval, cap), x.key, x.time, interval, cap).0
  }

  predicate Fires(rs: seq<Request>, interval: int64, cap: nat, n: nat)
    requires n < |rs|
  {
    ThrottleAllow(TableAfter(rs[..n], interval, cap), rs[n].key, rs[n].time, interval, cap).1
  }

  predicate Resets(rs: seq<Request>, interval: int64, cap: nat, n: nat)
    requires n < |rs|
  {
    Fires(rs, interval, cap, n) && |TableAfter(rs[..n], interval, cap)| >= cap
  }

  function Firings(rs: seq<Request>, interval: int64, cap: nat): nat {
    if rs == [] then 0
    else Firings(rs[..|rs| - 1], interval, cap) + if Fires(rs, interval, cap, |rs| - 1) then 1 else 0
  }

  function ResetCount(rs: seq<Request>, interval: int64, cap: nat): nat {
    if rs == [] then 0
    else ResetCount(rs[..|rs| - 1], interval, cap) + if Resets(rs, interval, cap, |rs| - 1) then 1 else 0
  }

  lemma InsertSize(m: Table, key: string, now: int64)
    ensures |m| <= |m[key := now]| <= |m| + 1
    ensures key !in m ==> |m[key := now]| == |m| + 1
  {
  }

  lemma OneMore(r: nat, cap: nat)
    ensures (r + 1) * cap == r * cap + cap
  {
  }

  /** Every reset is paid for by a full table of firings. */
  lemma {:induction false} ResetsArePaid(rs: seq<Request>, interval: int64, cap: nat)
    requires cap > 0
    ensures ResetCount(rs, interval, cap) * cap + |TableAfter(rs, interval, cap)| <= Firings(rs, interval, cap)
  {
    if rs != [] {
      var l, x := rs[..|rs| - 1], rs[|rs| - 1];
      ResetsArePaid(l, interval, cap);
      var table, r := TableAfter(l, interval, cap), ResetCount(l, interval, cap);
      InsertSize(table, x.key, x.time);
      InsertSize(map[], x.key, x.time);
      OneMore(r, cap);
    }
  }

  ghost predicate NoResetBetween(rs: seq<Request>, interval: int64, cap: nat, i: nat, j: nat)
    requires j <= |rs|
  {
    forall m :: i < m < j ==> !Resets(rs, interval, cap, m)
  }

  /** After firing, a key stays in the table with a time no earlier, until a reset. */
  lemma {:induction false} KeepsFiring(rs: seq<Request>, interval: int64, cap: nat, i: nat, n: nat)
    requires i < n <= |rs| && 0 <= interval
    requires forall m :: 0 <= m < |rs| ==> 0 <= rs[m].time
    requires Fires(rs, interval, cap, i) && NoResetBetween(rs, interval, cap, i, n)
    ensures var table := TableAfter(rs[..n], interval, cap);
            rs[i].key in table && table[rs[i].key] >= rs[i].time
  {
    assert rs[..n][..n - 1] == rs[..n - 1];
    if n > i + 1 {
      KeepsFiring(rs, interval, cap, i, n - 1);
      assert !Resets(rs, interval, cap, n - 1);
    }
  }

  /** Two firings of a key with no reset between them are at least the interval apart. */
  lemma FiringsAreSpaced(rs: seq<Request>, interval: int64, cap: nat, i: nat, j: nat)
    requires i < j < |rs| && rs[i].key == rs[j].key && 0 <= interval
    requires forall m :: 0 <= m < |rs| ==> 0 <= rs[m].time
    requires Fires(rs, interval, cap, i) && Fires(rs, interval, cap, j)
    requires NoResetBetween(rs, interval, cap, i, j)
    ensures rs[j].time - rs[i].time >= interval
  {
    KeepsFiring(rs, interval, cap, i, j);
  }

  /** `i` is the last firing of request `n`'s key before `n` that no reset has dropped since. */
  ghost predicate LastFiring(rs: seq<Request>, interval: int64, cap: nat, key: string, n: nat, i: nat)
    requires n <= |rs|
  {
    && i < n && rs[i].key == key && Fires(rs, interval, cap, i) && NoResetBetween(rs, interval, cap, i, n)
    && forall j :: i < j < n && rs[j].key == key ==> !Fires(rs, interval, cap, j)
  }

  /** The table holds exactly the keys with a firing that no reset has dropped, each with the time of the last one. */
  lemma {:induction false} TableIsLastFirings(rs: seq<Request>, interval: int64, cap: nat, key: string, n: nat)
    requires n <= |rs| && cap > 0
    ensures var table := TableAfter(rs[..n], interval, cap);
            && (key in table <==> exists i: nat :: LastFiring(rs, interval, cap, key, n, i))
            && forall i: nat :: LastFiring(rs, interval, cap, key, n, i) ==> key in table && table[key] == rs[i].time
  {
    hide Fires, Resets, ThrottleAllow, LastFiring;
    if n == 0 {
      NoFiringYet(rs, interval, cap, key);
    } else {
      var m := n - 1;
      TableIsLastFirings(rs, interval, cap, key, m);
      TableStep(rs, interval, cap, m);
      forall i: nat
        ensures LastFiring(rs, interval, cap, key, n, i) <==>
                  if Fires(rs, interval, cap, m) && rs[m].key == key then i == m
                  else LastFiring(rs, interval, cap, key, m, i) && !Resets(rs, interval, cap, m)
      {
        LastFiringStep(rs, interval, cap, key, m, i);
      }
      if Fires(rs, interval, cap, m) && rs[m].key == key {
        assert LastFiring(rs, interval, cap, key, n, m);
      }
    }
  }

  lemma NoFiringYet(rs: seq<Request>, interval: int64, cap: nat, key: string)
    ensures key !in TableAfter(rs[..0], interval, cap)
    ensures forall i: nat :: !LastFiring(rs, interval, cap, key, 0, i)
  {
  }

  lemma LastFiringStep(rs: seq<Request>, interval: int64, cap: nat, key: string, m: nat, i: nat)
    requires m < |rs|
    ensures LastFiring(rs, interval, cap, key, m + 1, i) <==>
              if Fires(rs, interval, cap, m) && rs[m].key == key then i == m
              else LastFiring(rs, interval, cap, key, m, i) && !Resets(rs, interval, cap, m)
  {
    hide Fires, Resets;
  }

  lemma TableStep(rs: seq<Request>, interval: int64, cap: nat, m: nat)
    requires m < |rs|
    ensures Resets(rs, interval, cap, m) ==> Fires(rs, interval, cap, m)
    ensures TableAfter(rs[..m + 1], interval, cap)
         == if !Fires(rs, interval, cap, m) then TableAfter(rs[..m], interval, cap)
            else (if Resets(rs, interval, cap, m) then map[] else TableAfter(rs[..m], interval, cap))[rs[m].key := rs[m].time]
  {
    assert rs[..m + 1][..m] == rs[..m];
  }

  /** When a request fires, in any run, whatever the order of times and however often the table is dropped: unless the
      last firing of its key, if no reset has dropped it, is less than the interval ago. Denied requests never
      count. */
  lemma FiresExactly(rs: seq<Request>, interval: int64, cap: nat, n: nat)
    requires n < |rs| && cap > 0
    ensures Fires(rs, interval, cap, n) <==>
              forall i: nat :: LastFiring(rs, interval, cap, rs[n].key, n, i) ==> Sub(rs[n].time, rs[i].time) >= interval
  {
    hide LastFiring;
    TableIsLastFirings(rs, interval, cap, rs[n].key, n);
  }

  /** With fewer possible keys than the cap the table is never dropped. */
  lemma {:induction false} SmallAlphabetNeverResets(rs: seq<Request>, interval: int64, cap: nat, keys: set<string>)
    requires |keys| < cap && forall m :: 0 <= m < |rs| ==> rs[m].key in keys
    ensures TableAfter(rs, interval, cap).Keys <= keys
    ensures forall m :: 0 <= m < |rs| ==> !Resets(rs, interval, cap, m)
  {
    if rs != [] {
      var l := rs[..|rs| - 1];
      SmallAlphabetNeverResets(l, interval, cap, keys);
      SubsetSize(TableAfter(l, interval, cap).Keys, keys);
      forall m | 0 <= m < |l| ensures !Resets(rs, interval, cap, m) {
        assert l[..m] == rs[..m];
        assert !Resets(l, interval, cap, m);
      }
    }
  }

  /** Positions that fired at a time in the half-open interval from `a` of the given length. */
  ghost function FiredIn(rs: seq<Request>, interval: int64, cap: nat, a: int, length: int): set<nat> {
    set n | 0 <= n < |rs| && Fires(rs, interval, cap, n) && a <= rs[n].time < a + length
  }

  lemma {:induction false} DistinctKeysBound(rs: seq<Request>, ns: set<nat>, keys: set<string>)
    requires forall n :: n in ns ==> n < |rs| && rs[n].key in keys
    requires forall n, m :: n in ns && m in ns && n < m ==> rs[n].key != rs[m].key
    ensures |ns| <= |keys|
  {
    if ns != {} {
      var n :| n in ns;
      DistinctKeysBound(rs, ns - {n}, keys - {rs[n].key});
    }
  }

  /** In any interval-long stretch of event time each of a few keys fires at most once,
      however the requests are ordered. */
  lemma FiringsPerInterval(rs: seq<Request>, interval: int64, cap: nat, keys: set<string>, a: int)
    requires 0 <= interval && |keys| < cap
    requires forall m :: 0 <= m < |rs| ==> rs[m].key in keys && 0 <= rs[m].time
    ensures |FiredIn(rs, interval, cap, a, interval)| <= |keys|
  {
    hide Fires, Resets;
    var ns := FiredIn(rs, interval, cap, a, interval);
    SmallAlphabetNeverResets(rs, interval, cap, keys);
    forall n, m | n in ns && m in ns && n < m ensures rs[n].key != rs[m].key {
      if rs[n].key == rs[m].key {
        FiringsAreSpaced(rs, interval, cap, n, m);
      }
    }
    DistinctKeysBound(rs, ns, keys);
  }

  // ----- how large the cap has to be -----

  /** Requests for these keys, at times that are not negative, in any order. */
  ghost predicate Over(rs: seq<Request>, keys: set<string>) {
    forall m :: 0 <= m < |rs| ==> rs[m].key in keys && 0 <= rs[m].time
  }

  /** No key ever fires twice within the interval. */
  ghost predicate Spaced(rs: seq<Request>, interval: int64, cap: nat) {
    forall i, j :: 0 <= i < j < |rs| && rs[i].key == rs[j].key
                   && Fires(rs, interval, cap, i) && Fires(rs, interval, cap, j) ==>
      rs[j].time - rs[i].time >= interval
  }

  /** A table with one key never forgets it for long: a reset puts it straight back. */
  lemma {:induction false} OnlyKeyStays(rs: seq<Request>, interval: int64, cap: nat, i: nat, n: nat)
    requires i < n <= |rs| && 0 <= interval && Fires(rs, interval, cap, i)
    requires forall m :: 0 <= m < |rs| ==> 0 <= rs[m].time && rs[m].key == rs[i].key
    ensures var table := TableAfter(rs[..n], interval, cap);
            rs[i].key in table && table[rs[i].key] >= rs[i].time
  {
    assert rs[..n][..n - 1] == rs[..n - 1];
    if n > i + 1 {
      OnlyKeyStays(rs, interval, cap, i, n - 1);
    }
  }

  lemma FewKeysAreSpaced(rs: seq<Request>, keys: set<string>, interval: int64, cap: nat)
    requires Over(rs, keys) && 0 <= interval && (|keys| < cap || |keys| <= 1)
    ensures Spaced(rs, interval, cap)
  {
    hide Fires, Resets;
    forall i, j | 0 <= i < j < |rs| && rs[i].key == rs[j].key
                  && Fires(rs, interval, cap, i) && Fires(rs, interval, cap, j)
      ensures rs[j].time - rs[i].time >= interval
    {
      if |keys| < cap {
        SmallAlphabetNeverResets(rs, interval, cap, keys);
        FiringsAreSpaced(rs, interval, cap, i, j);
      } else {
        forall m | 0 <= m < |rs| ensures rs[m].key == rs[i].key {
          SubsetSize({rs[m].key, rs[i].key}, keys);
        }
        OnlyKeyIsSpaced(rs, interval, cap, i, j);
      }
    }
  }

  lemma OnlyKeyIsSpaced(rs: seq<Request>, interval: int64, cap: nat, i: nat, j: nat)
    requires i < j < |rs| && 0 <= interval && Fires(rs, interval, cap, i) && Fires(rs, interval, cap, j)
    requires forall m :: 0 <= m < |rs| ==> 0 <= rs[m].time && rs[m].key == rs[i].key
    ensures rs[j].time - rs[i].time >= interval
  {
    OnlyKeyStays(rs, interval, cap, i, j);
  }

  lemma {:induction false} Enumerate(keys: set<string>, n: nat) returns (ks: seq<string>)
    requires n <= |keys|
    ensures |ks| == n && (forall i :: 0 <= i < n ==> ks[i] in keys)
    ensures forall i, j :: 0 <= i < j < n ==> ks[i] != ks[j]
  {
    if n == 0 {
      ks := [];
    } else {
      var k :| k in keys;
      ks := Enumerate(keys - {k}, n - 1);
      ks := ks + [k];
    }
  }

  /** Each key once, the first at time 0 and the others an interval later. */
  function Fill(ks: seq<string>, interval: int64, n: nat): (rs: seq<Request>)
    requires n <= |ks|
    ensures |rs| == n
  {
    seq(n, i requires 0 <= i < n => Request(ks[i], if i == 0 then 0 else interval))
  }

  /** A key fires that is not in the table or is old enough, and joins a table that has room. */
  lemma FiresNext(l: seq<Request>, x: Request, interval: int64, cap: nat)
    requires x.key in TableAfter(l, interval, cap) ==> Sub(x.time, TableAfter(l, interval, cap)[x.key]) >= interval
    ensures Fires(l + [x], interval, cap, |l|)
    ensures var table := TableAfter(l, interval, cap);
            TableAfter(l + [x], interval, cap) == (if |table| >= cap then map[] else table)[x.key := x.time]
  {
    assert (l + [x])[..|l|] == l;
  }

  /** Whether an earlier request fired does not depend on later ones. */
  lemma FiresEarlier(l: seq<Request>, x: Request, interval: int64, cap: nat, m: nat)
    requires m < |l|
    ensures Fires(l + [x], interval, cap, m) == Fires(l, interval, cap, m)
  {
    assert (l + [x])[..m] == l[..m];
  }

  lemma FillNext(ks: seq<string>, interval: int64, n: nat)
    requires n < |ks|
    ensures Fill(ks, interval, n + 1) == Fill(ks, interval, n) + [Request(ks[n], if n == 0 then 0 else interval)]
    ensures ks[..n + 1] == ks[..n] + [ks[n]]
  {
  }

  lemma {:induction false} Filled(ks: seq<string>, interval: int64, cap: nat, n: nat)
    requires n <= |ks| == cap && 0 <= interval
    requires forall i, j :: 0 <= i < j < |ks| ==> ks[i] != ks[j]
    ensures var table := TableAfter(Fill(ks, interval, n), interval, cap);
            && |table| == n && (forall k :: k in table <==> k in ks[..n])
            && (n > 0 ==> table[ks[0]] == 0)
    ensures forall m :: 0 <= m < n ==> Fires(Fill(ks, interval, n), interval, cap, m)
  {
    if n > 0 {
      hide Fires, ThrottleAllow, Fill;
      var l := Fill(ks, interval, n - 1);
      var x := Request(ks[n - 1], if n == 1 then 0 else interval);
      Filled(ks, interval, cap, n - 1);
      FillNext(ks, interval, n - 1);
      FiresNext(l, x, interval, cap);
      InsertSize(TableAfter(l, interval, cap), x.key, x.time);
      forall m | 0 <= m < n - 1 ensures Fires(l + [x], interval, cap, m) {
        FiresEarlier(l, x, interval, cap, m);
      }
    } else {
      assert Fill(ks, interval, 0) == [];
    }
  }

  /** With a full table of at least two keys, the first key fires again and drops the table, and the second key then
      fires at the very time at which it fired before. */
  lemma FullTableForgets(ks: seq<string>, interval: int64) returns (rs: seq<Request>)
    requires |ks| >= 2 && 0 < interval
    requires forall i, j :: 0 <= i < j < |ks| ==> ks[i] != ks[j]
    ensures (forall m :: 0 <= m < |rs| ==> rs[m].key in ks && 0 <= rs[m].time) && !Spaced(rs, interval, |ks|)
  {
    hide Fires, ThrottleAllow, TableAfter;
    var cap := |ks|;
    var l, x, y := Fill(ks, interval, cap), Request(ks[0], interval), Request(ks[1], interval);
    Filled(ks, interval, cap, cap);
    FiresNext(l, x, interval, cap);
    FiresNext(l + [x], y, interval, cap);
    FiresEarlier(l, x, interval, cap, 1);
    FiresEarlier(l + [x], y, interval, cap, 1);
    rs := l + [x] + [y];
    assert rs[1] == l[1] == Request(ks[1], interval) && rs[cap + 1] == y;
  }

  /** With room for one key, a second key drops the first, which fires again at once. */
  lemma OneSlotForgets(a: string, b: string, interval: int64) returns (rs: seq<Request>)
    requires a != b && 0 < interval
    ensures Over(rs, {a, b}) && !Spaced(rs, interval, 1)
  {
    rs := [Request(a, 0), Request(b, 0), Request(a, 0)];
    assert rs[..0] == [] && rs[..1][..0] == [] && rs[..2][..1] == rs[..1];
    assert TableAfter(rs[..1], interval, 1) == map[a := 0];
    assert TableAfter(rs[..2], interval, 1) == map[b := 0];
    assert Fires(rs, interval, 1, 0) && Fires(rs, interval, 1, 2);
  }

  /** The bound on a key's firings holds in every run over a set of keys if and only if the cap exceeds the number of
      keys, or there is but one. */
  lemma SpacingExactly(keys: set<string>, interval: int64, cap: nat)
    requires 0 < interval && cap > 0
    ensures (forall rs :: Over(rs, keys) ==> Spaced(rs, interval, cap)) <==> (|keys| < cap || |keys| <= 1)
  {
    hide Spaced;
    if |keys| < cap || |keys| <= 1 {
      forall rs | Over(rs, keys) ensures Spaced(rs, interval, cap) {
        FewKeysAreSpaced(rs, keys, interval, cap);
      }
    } else if cap == 1 {
      var ks := Enumerate(keys, 2);
      var rs := OneSlotForgets(ks[0], ks[1], interval);
      assert Over(rs, keys);
    } else {
      var ks := Enumerate(keys, cap);
      var rs := FullTableForgets(ks, interval);
      assert Over(rs, keys);
    }
  }
}
