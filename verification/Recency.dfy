/**
 Bounded recency lists: the value behind Window's LRU list and Dedup's FIFO list.

 Both structures keep a list of keys with the front most recently recorded, push at the
 front, and drop from the back when a new key would exceed the cap. `Touch` is that
 operation. `Tracks` says that such a list stands for an unbounded map, up to entries
 that are older than a time window.
 */
module Recency {
  import opened Sets

  /** What is remembered about one key: event times in arrival order. */
  datatype Slot = Slot(key: string, times: seq<int>)

  function Last(ts: seq<int>): int
    requires ts != []
  {
    ts[|ts| - 1]
  }

  /** Position of `key`, or the length of the list when it is absent. */
  function IndexOf(s: seq<Slot>, key: string): (i: nat)
    ensures i <= |s|
    ensures i < |s| ==> s[i].key == key
    ensures forall j :: 0 <= j < i ==> s[j].key != key
  {
    if s == [] then 0
    else if s[0].key == key then 0
    else 1 + IndexOf(s[1..], key)
  }

  predicate Has(s: seq<Slot>, key: string) {
    IndexOf(s, key) < |s|
  }

  function Lookup(s: seq<Slot>, key: string): seq<int> {
    var i := IndexOf(s, key);
    if i < |s| then s[i].times else []
  }

  function Without(s: seq<Slot>, key: string): seq<Slot> {
    var i := IndexOf(s, key);
    if i < |s| then s[..i] + s[i + 1..] else s
  }

  /** What stays of the list when `key` is about to be pushed: the others if `key` is
      already there, otherwise the list cut back to make room for one more. */
  function Keep(s: seq<Slot>, key: string, cap: nat): seq<Slot>
    requires cap > 0
  {
    if Has(s, key) then Without(s, key)
    else if |s| >= cap then s[..cap - 1]
    else s
  }

  /** Record `times` for `key` at the front. */
  function Touch(s: seq<Slot>, key: string, times: seq<int>, cap: nat): seq<Slot>
    requires cap > 0
  {
    [Slot(key, times)] + Keep(s, key, cap)
  }

  lemma KeepWithout(s: seq<Slot>, key: string, cap: nat)
    requires cap > 0 && Has(s, key) && |s| <= cap
    ensures Keep(s, key, cap) == Without(s, key) && |Without(s, key)| == |s| - 1
  {
  }

  lemma KeepRoom(s: seq<Slot>, key: string, cap: nat)
    requires cap > 0 && !Has(s, key)
    ensures Keep(s, key, cap) == if |s| >= cap then s[..cap - 1] else s
  {
  }

  lemma TouchIs(s: seq<Slot>, key: string, times: seq<int>, cap: nat)
    requires cap > 0
    ensures Touch(s, key, times, cap) == [Slot(key, times)] + Keep(s, key, cap)
  {
  }

  ghost predicate Distinct(s: seq<Slot>) {
    forall i, j :: 0 <= i < j < |s| ==> s[i].key != s[j].key
  }

  ghost function Keys(s: seq<Slot>): set<string> {
    set x | x in s :: x.key
  }

  lemma {:induction false} KeysCard(s: seq<Slot>)
    requires Distinct(s)
    ensures |Keys(s)| == |s|
  {
    if s == [] {
      assert Keys(s) == {};
    } else {
      KeysCard(s[1..]);
      assert s == [s[0]] + s[1..];
      assert Keys(s) == {s[0].key} + Keys(s[1..]);
    }
  }

  /** A key with the given index in a list without repeats is found there. */
  lemma IndexIs(s: seq<Slot>, i: nat)
    requires Distinct(s) && i < |s|
    ensures IndexOf(s, s[i].key) == i
  {
  }

  lemma TouchDistinct(s: seq<Slot>, key: string, times: seq<int>, cap: nat)
    requires cap > 0 && Distinct(s) && |s| <= cap
    ensures Distinct(Touch(s, key, times, cap))
    ensures |Touch(s, key, times, cap)| <= cap
  {
  }

  // ----- a recency list stands for an unbounded map -----

  /** The most recent record comes first, and nothing is later than `t`. */
  ghost predicate Sorted(s: seq<Slot>, t: int) {
    && (forall i :: 0 <= i < |s| ==> s[i].times != [] && Last(s[i].times) <= t)
    && (forall i, j :: 0 <= i < j < |s| ==> Last(s[j].times) <= Last(s[i].times))
  }

  ghost predicate RecordsUpTo(m: map<string, seq<int>>, t: int) {
    forall k :: k in m ==> m[k] != [] && Last(m[k]) <= t
  }

  /** Keys of `m` whose latest record is at `cutoff` or later. */
  ghost function LiveKeys(m: map<string, seq<int>>, cutoff: int): set<string> {
    set k | k in m && m[k] != [] && Last(m[k]) >= cutoff
  }

  /** At time `t` the list holds a correct record for each of its keys, and every key whose
      latest record lies within `w` of `t` is in the list. */
  ghost predicate Tracks(s: seq<Slot>, m: map<string, seq<int>>, t: int, w: int) {
    && Distinct(s) && Sorted(s, t) && RecordsUpTo(m, t)
    && (forall i :: 0 <= i < |s| ==> s[i].key in m && m[s[i].key] == s[i].times)
    && (forall k :: k in LiveKeys(m, t - w) ==> Has(s, k))
  }

  lemma TracksLookup(s: seq<Slot>, m: map<string, seq<int>>, t: int, w: int, key: string)
    requires Tracks(s, m, t, w)
    ensures Has(s, key) ==> key in m && Lookup(s, key) == m[key]
    ensures !Has(s, key) ==> key !in LiveKeys(m, t - w)
  {
  }

  /** When pushing a new key overflows the list, the key at the back is out of the window. */
  lemma BackIsStale(s: seq<Slot>, m: map<string, seq<int>>, t: int, w: int,
                    key: string, times: seq<int>, now: int, cap: nat)
    requires Tracks(s, m, t, w) && t <= now && 0 <= w
    requires |s| == cap > 0 && !Has(s, key)
    requires times != [] && Last(times) == now
    requires |LiveKeys(m[key := times], now - w)| <= cap
    ensures Last(s[cap - 1].times) < now - w
  {
    if Last(s[cap - 1].times) >= now - w {
      var live := LiveKeys(m[key := times], now - w);
      forall k | k in Keys(s) + {key} ensures k in live {
        if k != key {
          var x :| x in s && x.key == k;
          var i :| 0 <= i < |s| && s[i] == x;
          assert Last(s[i].times) >= now - w;
        }
      }
      KeysCard(s);
      assert key !in Keys(s);
      SubsetSize(Keys(s) + {key}, live);
    }
  }

  /** Where the `k`-th slot of `Touch` comes from, for `k` past the front. */
  ghost function Origin(s: seq<Slot>, key: string, k: nat): int {
    if IndexOf(s, key) < k then k else k - 1
  }

  lemma TouchOrigin(s: seq<Slot>, key: string, times: seq<int>, cap: nat, k: nat)
    requires cap > 0 && 1 <= k < |Touch(s, key, times, cap)|
    ensures 0 <= Origin(s, key, k) < |s|
    ensures Touch(s, key, times, cap)[k] == s[Origin(s, key, k)]
  {
  }

  /** Where slot `j` of another key goes. */
  ghost function Shifted(s: seq<Slot>, key: string, j: nat): nat {
    if IndexOf(s, key) < j then j else j + 1
  }

  lemma TouchShifts(s: seq<Slot>, key: string, times: seq<int>, cap: nat, j: nat)
    requires cap > 0 && |s| <= cap && j < |s| && s[j].key != key
    requires Has(s, key) || |s| < cap || j < cap - 1
    ensures Shifted(s, key, j) < |Touch(s, key, times, cap)|
    ensures Touch(s, key, times, cap)[Shifted(s, key, j)] == s[j]
  {
  }

  /** Touching one key keeps every other slot, unless the back was dropped to make room. */
  lemma TouchKeepsOthers(s: seq<Slot>, key: string, times: seq<int>, cap: nat, j: nat)
    requires cap > 0 && Distinct(s) && |s| <= cap && j < |s| && s[j].key != key
    requires Has(s, key) || |s| < cap || j < cap - 1
    ensures Has(Touch(s, key, times, cap), s[j].key)
    ensures Lookup(Touch(s, key, times, cap), s[j].key) == s[j].times
  {
    hide Distinct, Touch, Shifted;
    TouchDistinct(s, key, times, cap);
    TouchShifts(s, key, times, cap, j);
    IndexIs(Touch(s, key, times, cap), Shifted(s, key, j));
  }

  lemma TouchSorted(s: seq<Slot>, t: int, key: string, times: seq<int>, now: int, cap: nat)
    requires cap > 0 && Sorted(s, t) && t <= now
    requires times != [] && Last(times) == now
    ensures Sorted(Touch(s, key, times, cap), now)
  {
    var s' := Touch(s, key, times, cap);
    forall k | 1 <= k < |s'| ensures 0 <= Origin(s, key, k) < |s| && s'[k] == s[Origin(s, key, k)] {
      TouchOrigin(s, key, times, cap, k);
    }
  }

  /** The cap is harmless when the keys live in the trailing window fit it. */
  lemma TouchTracks(s: seq<Slot>, m: map<string, seq<int>>, t: int, w: int,
                    key: string, times: seq<int>, now: int, cap: nat)
    requires Tracks(s, m, t, w) && t <= now && 0 <= w
    requires |s| <= cap && cap > 0
    requires times != [] && Last(times) == now
    requires |LiveKeys(m[key := times], now - w)| <= cap
    ensures Tracks(Touch(s, key, times, cap), m[key := times], now, w)
    ensures |Touch(s, key, times, cap)| <= cap
  {
    hide Touch, Distinct, Sorted;
    var s', m' := Touch(s, key, times, cap), m[key := times];
    TouchDistinct(s, key, times, cap);
    TouchSorted(s, t, key, times, now, cap);
    TouchIs(s, key, times, cap);
    forall k | 1 <= k < |s'| ensures s'[k].key in m' && m'[s'[k].key] == s'[k].times {
      TouchRecorded(s, m, key, times, cap, k);
    }
    forall k | k in LiveKeys(m', now - w) ensures Has(s', k) {
      if k == key {
        IndexIs(s', 0);
      } else {
        TouchKeepsLive(s, m, t, w, key, times, now, cap, k);
      }
    }
  }

  lemma TouchRecorded(s: seq<Slot>, m: map<string, seq<int>>, key: string, times: seq<int>, cap: nat, k: nat)
    requires Distinct(s) && |s| <= cap && cap > 0 && 1 <= k < |Touch(s, key, times, cap)|
    requires forall i :: 0 <= i < |s| ==> s[i].key in m && m[s[i].key] == s[i].times
    ensures var x := Touch(s, key, times, cap)[k];
            x.key in m && x.key != key && m[x.key] == x.times
  {
  }

  lemma TouchKeepsLive(s: seq<Slot>, m: map<string, seq<int>>, t: int, w: int,
                       key: string, times: seq<int>, now: int, cap: nat, k: string)
    requires Tracks(s, m, t, w) && t <= now && 0 <= w
    requires |s| <= cap && cap > 0 && k != key
    requires times != [] && Last(times) == now
    requires |LiveKeys(m[key := times], now - w)| <= cap
    requires k in LiveKeys(m, now - w)
    ensures Has(Touch(s, key, times, cap), k)
  {
    assert k in LiveKeys(m, t - w);
    assert Has(s, k);
    var j := IndexOf(s, k);
    if !Has(s, key) && |s| == cap {
      BackIsStale(s, m, t, w, key, times, now, cap);
    }
    TouchKeepsOthers(s, key, times, cap, j);
  }
}
