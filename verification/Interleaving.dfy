/** Concurrent workers on one subject: no interleaving with one another or with other subjects loses a count or
    adds an alert. */
module Interleaving {
  import opened Int64
  import opened Sets
  import opened Recency
  import opened Windows
  import opened WindowTheorems
  import opened Dedups
  import opened Throttles
  import opened Shards
  import opened Sharding

  // ----- the events of one subject among all others -----

  /** Is `x` observed on the shard of `subject`? */
  predicate Beside(hash: string -> nat, n: nat, subject: string, x: Occurrence)
    requires n > 0
  {
    ShardOf(hash, n, x.subject) == ShardOf(hash, n, subject)
  }

  function Mine(es: seq<Occurrence>, subject: string): seq<Occurrence> {
    if es == [] then []
    else Mine(es[..|es| - 1], subject) + if es[|es| - 1].subject == subject then [es[|es| - 1]] else []
  }

  /** The subjects of the shard. */
  ghost function Neighbours(hash: string -> nat, n: nat, es: seq<Occurrence>, subject: string): set<string>
    requires n > 0
  {
    set x | x in es && Beside(hash, n, subject, x) :: x.subject
  }

  /** The subject's own events have dedup keys of their own. No event of its shard is a whole window ahead of them.
      The shard has room for its subjects, and the throttle for one more, unless there is no other subject.
      Events on other shards are not restricted, and nothing depends on the order of `es`. */
  ghost predicate Burst(c: Config, hash: string -> nat, n: nat, es: seq<Occurrence>, subject: string)
    requires n > 0
  {
    && (forall x :: x in es && Beside(hash, n, subject, x) ==> 0 <= x.time)
    && (forall x, y :: x in es && y in es && x.subject == subject && Beside(hash, n, subject, y) ==>
          y.time - x.time < c.windowUS)
    && (forall x, y :: x in es && y in es && x.subject == subject && Beside(hash, n, subject, y) && x.dedup == y.dedup ==>
          x == y)
    && (forall x :: x in es && x.subject == subject ==> multiset(es)[x] == 1)
    && var subjects := Neighbours(hash, n, es, subject);
       |subjects| <= c.windowKeys && (|subjects| < c.throttleKeys || subjects <= {subject})
  }

  lemma BurstPrefix(c: Config, hash: string -> nat, n: nat, l: seq<Occurrence>, ev: Occurrence, subject: string)
    requires n > 0 && Burst(c, hash, n, l + [ev], subject)
    ensures Burst(c, hash, n, l, subject)
  {
    hide ShardOf;
    var es := l + [ev];
    assert forall x :: x in l ==> x in es;
    SubsetSize(Neighbours(hash, n, l, subject), Neighbours(hash, n, es, subject));
    forall x | x in l && x.subject == subject ensures multiset(l)[x] == 1 {
      assert multiset(es)[x] == multiset(l)[x] + multiset([ev])[x];
    }
  }

  /** What a burst says about its last event. */
  lemma LastOfBurst(c: Config, hash: string -> nat, n: nat, l: seq<Occurrence>, ev: Occurrence, subject: string)
    requires n > 0 && Burst(c, hash, n, l + [ev], subject) && Beside(hash, n, subject, ev)
    ensures 0 <= ev.time && ev.subject in Neighbours(hash, n, l + [ev], subject)
    ensures forall x :: x in l && x.subject == subject ==> ev.time - x.time < c.windowUS && 0 <= x.time
    ensures ev.subject == subject ==> forall x :: x in l && Beside(hash, n, subject, x) ==> x.dedup != ev.dedup
    ensures ev.subject == subject ==> 0 < c.windowUS
  {
    hide ShardOf;
    var es := l + [ev];
    assert ev in es && forall x :: x in l ==> x in es;
    if ev.subject == subject {
      assert multiset(es)[ev] == multiset(l)[ev] + 1;
      assert ev !in multiset(l);
      assert ev !in l;
    }
  }

  lemma {:induction false} MineMembers(es: seq<Occurrence>, subject: string)
    ensures forall x :: x in Mine(es, subject) <==> x in es && x.subject == subject
  {
    if es != [] {
      MineMembers(es[..|es| - 1], subject);
      assert es == es[..|es| - 1] + [es[|es| - 1]];
    }
  }

  function TimesOf(es: seq<Occurrence>): seq<int> {
    seq(|es|, i requires 0 <= i < |es| => es[i].time)
  }

  // ----- the window of a shard that others share -----

  /** The list holds exactly these stamps of `key`, and nothing but keys in `subjects`. */
  ghost predicate Holds(s: seq<Slot>, key: string, ts: seq<int>, subjects: set<string>) {
    && Distinct(s) && Keys(s) <= subjects
    && (if ts == [] then !Has(s, key) else Has(s, key) && Lookup(s, key) == ts)
  }

  lemma RoomForKnown(s: seq<Slot>, subjects: set<string>, other: string, cap: nat)
    requires Distinct(s) && Keys(s) <= subjects && |subjects| <= cap && other in subjects
    ensures |s| <= cap && (Has(s, other) || |s| < cap)
  {
    KeysCard(s);
    SubsetSize(Keys(s), subjects);
    if !Has(s, other) {
      assert other !in Keys(s);
      SubsetSize(Keys(s) + {other}, subjects);
    }
  }

  lemma TouchKeys(s: seq<Slot>, other: string, ts: seq<int>, cap: nat, subjects: set<string>)
    requires cap > 0 && Keys(s) <= subjects && other in subjects
    ensures Keys(Touch(s, other, ts, cap)) <= subjects
  {
    hide Touch;
    TouchIs(s, other, ts, cap);
    var s' := Touch(s, other, ts, cap);
    forall x | x in s' ensures x.key in subjects {
      var i :| 0 <= i < |s'| && s'[i] == x;
      if i > 0 {
        TouchOrigin(s, other, ts, cap, i);
        assert s[Origin(s, other, i)] in s;
      }
    }
  }

  /** Another subject's add leaves the stamps of `key` alone. */
  lemma AddOther(s: seq<Slot>, key: string, ts: seq<int>, subjects: set<string>, other: string, now: int64, w: int64,
                 cap: nat)
    requires Holds(s, key, ts, subjects) && |subjects| <= cap && cap > 0 && other in subjects && other != key
    ensures Holds(WindowAdd(s, other, now, w, cap).0, key, ts, subjects)
  {
    hide Distinct, Touch, Keys;
    var stamps := Trim(Lookup(s, other) + [now], Sub(now, w));
    RoomForKnown(s, subjects, other, cap);
    TouchDistinct(s, other, stamps, cap);
    TouchKeys(s, other, stamps, cap, subjects);
    TouchLookup(s, other, stamps, cap, key);
    if ts != [] {
      TouchKeepsOthers(s, other, stamps, cap, IndexOf(s, key));
    }
  }

  /** The subject's own add appends a stamp and counts them all. */
  lemma AddOwn(s: seq<Slot>, key: string, ts: seq<int>, subjects: set<string>, now: int64, w: int64, cap: nat)
    requires Holds(s, key, ts, subjects) && |subjects| <= cap && cap > 0 && key in subjects
    requires 0 <= now && 0 <= w && forall i :: 0 <= i < |ts| ==> now - ts[i] < w
    ensures Holds(WindowAdd(s, key, now, w, cap).0, key, ts + [now], subjects)
    ensures WindowAdd(s, key, now, w, cap).1 == |ts| + 1
  {
    hide Distinct, Touch, Keys, Trim;
    assert Lookup(s, key) == ts;
    assert (ts + [now])[0] >= now - w;
    NoTrim(ts + [now], now - w);
    RoomForKnown(s, subjects, key, cap);
    TouchDistinct(s, key, ts + [now], cap);
    TouchKeys(s, key, ts + [now], cap, subjects);
    TouchLookup(s, key, ts + [now], cap, key);
    TouchIs(s, key, ts + [now], cap);
    IndexIs(Touch(s, key, ts + [now], cap), 0);
  }

  lemma NoTrim(ts: seq<int>, cutoff: int)
    requires ts != [] && ts[0] >= cutoff
    ensures Trim(ts, cutoff) == ts
  {
  }

  lemma {:induction false} AliveKeeps(s: seq<Slot>, cutoff: int, x: Slot)
    requires x in s && !Stale(x, cutoff)
    ensures x in Alive(s, cutoff)
  {
    if s[0] != x {
      AliveKeeps(s[1..], cutoff, x);
    }
  }

  /** A sweep leaves stamps that are within the window. */
  lemma SweepHolds(s: seq<Slot>, key: string, ts: seq<int>, subjects: set<string>, now: int64, w: int64)
    requires Holds(s, key, ts, subjects) && 0 <= now && 0 <= w
    requires ts != [] ==> Last(ts) >= now - w
    ensures Holds(WindowSweep(s, now, w), key, ts, subjects)
  {
    hide Distinct, Alive;
    var cutoff, s' := now - w, WindowSweep(s, now, w);
    SweepIs(s, now, w);
    AliveMembers(s, cutoff);
    AliveLookup(s, cutoff, key);
    if ts != [] {
      var x := s[IndexOf(s, key)];
      AliveKeeps(s, cutoff, x);
      var i :| 0 <= i < |s'| && s'[i] == x;
      IndexIs(s', i);
    }
  }

  // ----- one observation -----

  lemma ObserveParts(c: Config, st: ShardState, ev: Occurrence, threshold: int)
    requires c.Valid()
    ensures var (st', v) := ObserveStep(c, st, ev, threshold);
            var (marks, dup) := DedupSeen(st.dedup, ev.dedup, ev.time, c.dedupUS, c.dedupKeys);
            var (s, count) := WindowAdd(st.window, ev.subject, ev.time, c.windowUS, c.windowKeys);
            && st'.dedup == marks && v.dup == dup
            && (dup ==> st'.window == st.window && st'.last == st.last && !v.alert)
            && (!dup ==> st'.window == s || st'.window == WindowSweep(s, ev.time, c.windowUS))
            && (!dup ==> v.count == count)
            && (!dup ==> (st'.last, v.alert)
                         == if count < threshold then (st.last, false)
                            else ThrottleAllow(st.last, ev.subject, ev.time, c.windowUS, c.throttleKeys))
  {
  }

  lemma SeenKeys(s: seq<Slot>, key: string, now: int64, w: int64, cap: nat)
    requires cap > 0
    ensures forall x :: x in DedupSeen(s, key, now, w, cap).0 ==> x.key == key || x in s
    ensures (forall x :: x in s ==> x.key != key) ==> !DedupSeen(s, key, now, w, cap).1
  {
    hide Touch, Keep;
    if Has(s, key) {
      assert s[IndexOf(s, key)] in s;
    }
    var t := Touch(s, key, [now], cap);
    TouchIs(s, key, [now], cap);
    forall x | x in t ensures x.key == key || x in s {
      var i :| 0 <= i < |t| && t[i] == x;
      if i > 0 {
        TouchOrigin(s, key, [now], cap, i);
      }
    }
  }

  /** The subject's shard after `es`: all stamps of the subject, and its alert once the threshold was reached. */
  ghost predicate AfterBurst(c: Config, hash: string -> nat, n: nat, st: ShardState, es: seq<Occurrence>, subject: string,
                             threshold: int, subjects: set<string>)
    requires threshold >= 1 && n > 0
  {
    var mine := Mine(es, subject);
    && Holds(st.window, subject, TimesOf(mine), subjects)
    && (forall s :: s in st.dedup ==> exists x :: x in es && Beside(hash, n, subject, x) && x.dedup == s.key)
    && st.last.Keys <= subjects && (subject in st.last <==> |mine| >= threshold)
    && (subject in st.last ==> st.last[subject] == mine[threshold - 1].time)
  }

  /** The throttle keeps the alert of `subject` whatever another subject does. */
  lemma AllowOther(last: Table, subjects: set<string>, subject: string, other: string, now: int64, interval: int64, cap: nat)
    requires last.Keys <= subjects && |subjects| < cap && other in subjects && other != subject
    ensures var last' := ThrottleAllow(last, other, now, interval, cap).0;
            last'.Keys <= subjects && (subject in last' <==> subject in last)
            && (subject in last ==> last'[subject] == last[subject])
  {
    SubsetSize(last.Keys, subjects);
    assert |last| == |last.Keys|;
  }

  /** And it lets the subject fire just once within an interval. */
  lemma AllowOwn(last: Table, subjects: set<string>, subject: string, now: int64, interval: int64, cap: nat)
    requires last.Keys <= subjects && (|subjects| < cap || subjects <= {subject}) && cap > 0 && subject in subjects
    requires 0 <= now && (subject in last ==> 0 <= last[subject] && now - last[subject] < interval)
    ensures var (last', ok) := ThrottleAllow(last, subject, now, interval, cap);
            && ok == (subject !in last)
            && last'.Keys <= subjects && subject in last' && last'[subject] == if ok then now else last[subject]
  {
    SubsetSize(last.Keys, subjects);
    assert |last| == |last.Keys|;
  }

  /** What the step of an event on the subject's shard comes to. */
  ghost predicate StepOk(c: Config, hash: string -> nat, n: nat, st: ShardState, l: seq<Occurrence>, ev: Occurrence,
                         subject: string, threshold: int, subjects: set<string>)
    requires c.Valid() && threshold >= 1 && n > 0
  {
    var (st', v) := ObserveStep(c, st, ev, threshold);
    var count := |Mine(l, subject)| + 1;
    && AfterBurst(c, hash, n, st', l + [ev], subject, threshold, subjects)
    && (ev.subject == subject ==> v == Verdict(count, false, count == threshold))
  }

  lemma DedupsGrow(hash: string -> nat, n: nat, marks: seq<Slot>, marks': seq<Slot>, l: seq<Occurrence>, ev: Occurrence,
                   subject: string)
    requires n > 0 && Beside(hash, n, subject, ev)
    requires forall s :: s in marks ==> exists x :: x in l && Beside(hash, n, subject, x) && x.dedup == s.key
    requires forall s :: s in marks' ==> s.key == ev.dedup || s in marks
    ensures forall s :: s in marks' ==> exists x :: x in l + [ev] && Beside(hash, n, subject, x) && x.dedup == s.key
  {
    hide ShardOf;
    forall s | s in marks' ensures exists x :: x in l + [ev] && Beside(hash, n, subject, x) && x.dedup == s.key {
      if s.key == ev.dedup {
        assert ev in l + [ev];
      } else {
        var x :| x in l && Beside(hash, n, subject, x) && x.dedup == s.key;
        assert x in l + [ev];
      }
    }
  }

  lemma MineSnoc(l: seq<Occurrence>, ev: Occurrence, subject: string)
    ensures Mine(l + [ev], subject) == if ev.subject == subject then Mine(l, subject) + [ev] else Mine(l, subject)
  {
    assert Mine(l, subject) + [] == Mine(l, subject);
  }

  lemma OtherStep(c: Config, hash: string -> nat, n: nat, st: ShardState, l: seq<Occurrence>, ev: Occurrence,
                  subject: string, threshold: int, subjects: set<string>)
    requires c.Valid() && 0 <= c.windowUS && threshold >= 1 && n > 0
    requires AfterBurst(c, hash, n, st, l, subject, threshold, subjects)
    requires Beside(hash, n, subject, ev) && ev.subject != subject && ev.subject in subjects && 0 <= ev.time
    requires |subjects| <= c.windowKeys && |subjects| < c.throttleKeys
    requires forall x :: x in l && x.subject == subject ==> ev.time - x.time < c.windowUS
    ensures StepOk(c, hash, n, st, l, ev, subject, threshold, subjects)
  {
    hide ObserveStep, Holds, WindowAdd, WindowSweep, DedupSeen, ThrottleAllow, Beside;
    var ts := TimesOf(Mine(l, subject));
    ObserveParts(c, st, ev, threshold);
    MineSnoc(l, ev, subject);
    MineMembers(l, subject);
    SeenKeys(st.dedup, ev.dedup, ev.time, c.dedupUS, c.dedupKeys);
    DedupsGrow(hash, n, st.dedup, ObserveStep(c, st, ev, threshold).0.dedup, l, ev, subject);
    AddOther(st.window, subject, ts, subjects, ev.subject, ev.time, c.windowUS, c.windowKeys);
    var s := WindowAdd(st.window, ev.subject, ev.time, c.windowUS, c.windowKeys).0;
    SweepHolds(s, subject, ts, subjects, ev.time, c.windowUS);
    AllowOther(st.last, subjects, subject, ev.subject, ev.time, c.windowUS, c.throttleKeys);
  }

  lemma OwnStep(c: Config, hash: string -> nat, n: nat, st: ShardState, l: seq<Occurrence>, ev: Occurrence,
                subject: string, threshold: int, subjects: set<string>)
    requires c.Valid() && 0 < c.windowUS && threshold >= 1 && n > 0
    requires AfterBurst(c, hash, n, st, l, subject, threshold, subjects)
    requires ev.subject == subject && subject in subjects && 0 <= ev.time
    requires |subjects| <= c.windowKeys && (|subjects| < c.throttleKeys || subjects <= {subject})
    requires forall x :: x in l && x.subject == subject ==> ev.time - x.time < c.windowUS && 0 <= x.time
    requires forall x :: x in l && Beside(hash, n, subject, x) ==> x.dedup != ev.dedup
    ensures StepOk(c, hash, n, st, l, ev, subject, threshold, subjects)
  {
    hide ObserveStep, Holds, WindowAdd, WindowSweep, DedupSeen, ThrottleAllow, ShardOf, Mine;
    var mine := Mine(l, subject);
    ObserveParts(c, st, ev, threshold);
    MineSnoc(l, ev, subject);
    SeenKeys(st.dedup, ev.dedup, ev.time, c.dedupUS, c.dedupKeys);
    DedupsGrow(hash, n, st.dedup, ObserveStep(c, st, ev, threshold).0.dedup, l, ev, subject);
    MineIsRecent(l, ev, subject, c.windowUS);
    OwnWindow(c, st.window, mine, ev, subject, subjects);
    AllowOwn(st.last, subjects, subject, ev.time, c.windowUS, c.throttleKeys);
  }

  lemma MineIsRecent(l: seq<Occurrence>, ev: Occurrence, subject: string, w: int)
    requires forall x :: x in l && x.subject == subject ==> ev.time - x.time < w && 0 <= x.time
    ensures var mine := Mine(l, subject);
            forall i :: 0 <= i < |mine| ==> ev.time - mine[i].time < w && 0 <= mine[i].time
  {
    var mine := Mine(l, subject);
    MineMembers(l, subject);
    forall i | 0 <= i < |mine| ensures ev.time - mine[i].time < w && 0 <= mine[i].time {
      assert mine[i] in mine;
    }
  }

  /** The window after the subject's own event, swept or not, and the count it returns. */
  lemma OwnWindow(c: Config, s: seq<Slot>, mine: seq<Occurrence>, ev: Occurrence, subject: string, subjects: set<string>)
    requires c.Valid() && 0 < c.windowUS && 0 <= ev.time && subject in subjects && |subjects| <= c.windowKeys
    requires Holds(s, subject, TimesOf(mine), subjects)
    requires forall i :: 0 <= i < |mine| ==> ev.time - mine[i].time < c.windowUS
    ensures var (s', count) := WindowAdd(s, subject, ev.time, c.windowUS, c.windowKeys);
            && count == |mine| + 1
            && Holds(s', subject, TimesOf(mine + [ev]), subjects)
            && Holds(WindowSweep(s', ev.time, c.windowUS), subject, TimesOf(mine + [ev]), subjects)
  {
    hide Holds, WindowAdd, WindowSweep;
    AddOwn(s, subject, TimesOf(mine), subjects, ev.time, c.windowUS, c.windowKeys);
    assert TimesOf(mine + [ev]) == TimesOf(mine) + [ev.time];
    var s' := WindowAdd(s, subject, ev.time, c.windowUS, c.windowKeys).0;
    SweepHolds(s', subject, TimesOf(mine + [ev]), subjects, ev.time, c.windowUS);
  }

  // ----- whole runs -----

  /** How many events of the subject there are up to and including number `k`. */
  function Rank(es: seq<Occurrence>, subject: string, k: nat): nat
    requires k < |es|
  {
    |Mine(es[..k + 1], subject)|
  }

  lemma RankSnoc(l: seq<Occurrence>, ev: Occurrence, subject: string)
    ensures forall k :: 0 <= k < |l| ==> Rank(l + [ev], subject, k) == Rank(l, subject, k)
    ensures Rank(l + [ev], subject, |l|) == |Mine(l + [ev], subject)|
  {
    hide Mine;
    assert (l + [ev])[..|l| + 1] == l + [ev];
    forall k | 0 <= k < |l| ensures Rank(l + [ev], subject, k) == Rank(l, subject, k) {
      assert (l + [ev])[..k + 1] == l[..k + 1];
    }
  }

  /** The verdicts on the subject's events count them one by one and alert at the threshold. */
  ghost predicate CountedOneByOne(es: seq<Occurrence>, vs: seq<Verdict>, subject: string, threshold: int)
    requires |es| == |vs|
  {
    forall k :: 0 <= k < |es| && es[k].subject == subject ==>
      vs[k] == Verdict(Rank(es, subject, k), false, Rank(es, subject, k) == threshold)
  }

  lemma CountedSnoc(l: seq<Occurrence>, vs: seq<Verdict>, ev: Occurrence, v: Verdict, subject: string, threshold: int)
    requires |l| == |vs| && CountedOneByOne(l, vs, subject, threshold)
    requires ev.subject == subject ==>
               v == Verdict(|Mine(l, subject)| + 1, false, |Mine(l, subject)| + 1 == threshold)
    ensures CountedOneByOne(l + [ev], vs + [v], subject, threshold)
  {
    hide Mine, Rank;
    RankSnoc(l, ev, subject);
    MineSnoc(l, ev, subject);
  }

  lemma StartsEmpty(c: Config, hash: string -> nat, n: nat, subject: string, threshold: int, subjects: set<string>)
    requires threshold >= 1 && n > 0
    ensures AfterBurst(c, hash, n, EMPTY, [], subject, threshold, subjects)
  {
  }

  lemma ElsewhereIsQuiet(c: Config, hash: string -> nat, n: nat, st: ShardState, l: seq<Occurrence>, ev: Occurrence,
                         subject: string, threshold: int, subjects: set<string>)
    requires threshold >= 1 && n > 0 && !Beside(hash, n, subject, ev)
    requires AfterBurst(c, hash, n, st, l, subject, threshold, subjects)
    ensures AfterBurst(c, hash, n, st, l + [ev], subject, threshold, subjects)
  {
    hide Holds;
    MineSnoc(l, ev, subject);
    forall s | s in st.dedup ensures exists x :: x in l + [ev] && Beside(hash, n, subject, x) && x.dedup == s.key {
      var x :| x in l && Beside(hash, n, subject, x) && x.dedup == s.key;
      assert x in l + [ev];
    }
  }

  lemma ShardStep(c: Config, hash: string -> nat, n: nat, st: ShardState, all: seq<Occurrence>, l: seq<Occurrence>,
                  ev: Occurrence, subject: string, threshold: int)
    requires c.Valid() && 0 <= c.windowUS && threshold >= 1 && n > 0
    requires Burst(c, hash, n, all, subject) && Burst(c, hash, n, l + [ev], subject) && l + [ev] <= all
    requires Beside(hash, n, subject, ev)
    requires AfterBurst(c, hash, n, st, l, subject, threshold, Neighbours(hash, n, all, subject))
    ensures StepOk(c, hash, n, st, l, ev, subject, threshold, Neighbours(hash, n, all, subject))
  {
    hide AfterBurst, StepOk, ShardOf;
    var subjects := Neighbours(hash, n, all, subject);
    assert ev in l + [ev] && forall x :: x in l + [ev] ==> x in all;
    LastOfBurst(c, hash, n, l, ev, subject);
    if ev.subject == subject {
      OwnStep(c, hash, n, st, l, ev, subject, threshold, subjects);
    } else {
      OtherStep(c, hash, n, st, l, ev, subject, threshold, subjects);
    }
  }

  lemma NothingCounted(subject: string, threshold: int)
    ensures CountedOneByOne([], [], subject, threshold)
  {
  }

  lemma {:induction false} BurstRun(c: Config, hash: string -> nat, n: nat, all: seq<Occurrence>, es: seq<Occurrence>,
                                    subject: string, threshold: int)
    requires c.Valid() && 0 <= c.windowUS && threshold >= 1 && n > 0
    requires Burst(c, hash, n, all, subject) && Burst(c, hash, n, es, subject) && es <= all
    ensures var r := RunSet(c, hash, n, es, threshold);
            && AfterBurst(c, hash, n, r.states[ShardOf(hash, n, subject)], es, subject, threshold,
                          Neighbours(hash, n, all, subject))
            && CountedOneByOne(es, r.verdicts, subject, threshold)
  {
    hide Burst, ObserveStep, ShardOf, AfterBurst, Neighbours, Mine, CountedOneByOne, Rank;
    if es == [] {
      StartsEmpty(c, hash, n, subject, threshold, Neighbours(hash, n, all, subject));
      NothingCounted(subject, threshold);
    } else {
      var l, ev := es[..|es| - 1], es[|es| - 1];
      assert es == l + [ev];
      BurstPrefix(c, hash, n, l, ev, subject);
      BurstRun(c, hash, n, all, l, subject, threshold);
      var st := RunSet(c, hash, n, l, threshold).states[ShardOf(hash, n, subject)];
      var v := ObserveStep(c, StateFor(hash, RunSet(c, hash, n, l, threshold).states, ev.subject), ev, threshold).1;
      if Beside(hash, n, subject, ev) {
        ShardStep(c, hash, n, st, all, l, ev, subject, threshold);
        CountedSnoc(l, RunSet(c, hash, n, l, threshold).verdicts, ev, v, subject, threshold);
      } else {
        CountedSnoc(l, RunSet(c, hash, n, l, threshold).verdicts, ev, v, subject, threshold);
        ElsewhereIsQuiet(c, hash, n, st, l, ev, subject, threshold, Neighbours(hash, n, all, subject));
      }
    }
  }

  /** Whatever order the workers take the locks in, and whatever other subjects' events come in between: the counts of
      the subject run through 1, 2, .., N with none lost, and exactly the event that reaches the threshold
      alerts. */
  lemma BurstInAnyOrder(c: Config, hash: string -> nat, n: nat, es: seq<Occurrence>, subject: string, threshold: int)
    requires c.Valid() && 0 <= c.windowUS && threshold >= 1 && n > 0
    requires Burst(c, hash, n, es, subject)
    ensures CountedOneByOne(es, RunSet(c, hash, n, es, threshold).verdicts, subject, threshold)
  {
    hide Burst, AfterBurst, RunSet, CountedOneByOne;
    BurstRun(c, hash, n, es, es, subject, threshold);
  }

  /** The alerts that the subject raised. */
  function Alerts(es: seq<Occurrence>, vs: seq<Verdict>, subject: string): nat
    requires |es| == |vs|
  {
    if es == [] then 0
    else
      Alerts(es[..|es| - 1], vs[..|vs| - 1], subject)
      + if es[|es| - 1].subject == subject && vs[|vs| - 1].alert then 1 else 0
  }

  lemma {:induction false} OneAlert(es: seq<Occurrence>, vs: seq<Verdict>, subject: string, threshold: int)
    requires threshold >= 1 && |es| == |vs| && CountedOneByOne(es, vs, subject, threshold)
    ensures Alerts(es, vs, subject) == if |Mine(es, subject)| >= threshold then 1 else 0
  {
    if es != [] {
      hide Rank;
      var l, ev := es[..|es| - 1], es[|es| - 1];
      assert es == l + [ev];
      RankSnoc(l, ev, subject);
      OneAlert(l, vs[..|vs| - 1], subject, threshold);
    }
  }

  lemma {:induction false} MinePermutes(es: seq<Occurrence>, subject: string)
    ensures forall x :: multiset(Mine(es, subject))[x] == if x.subject == subject then multiset(es)[x] else 0
  {
    if es != [] {
      var l, ev := es[..|es| - 1], es[|es| - 1];
      assert es == l + [ev];
      MinePermutes(l, subject);
      MineSnoc(l, ev, subject);
    }
  }

  lemma SameMembers(es: seq<Occurrence>, es': seq<Occurrence>)
    requires multiset(es) == multiset(es')
    ensures forall x :: x in es <==> x in es'
  {
    forall x ensures x in es <==> x in es' {
      assert x in es <==> x in multiset(es);
      assert x in es' <==> x in multiset(es');
    }
  }

  lemma SameTotal(es: seq<Occurrence>, es': seq<Occurrence>, subject: string)
    requires multiset(es) == multiset(es')
    ensures |Mine(es', subject)| == |Mine(es, subject)|
  {
    hide Mine;
    MinePermutes(es, subject);
    MinePermutes(es', subject);
    assert multiset(Mine(es, subject)) == multiset(Mine(es', subject));
    assert |multiset(Mine(es, subject))| == |Mine(es, subject)|;
    assert |multiset(Mine(es', subject))| == |Mine(es', subject)|;
  }

  lemma BurstPermutes(c: Config, hash: string -> nat, n: nat, es: seq<Occurrence>, es': seq<Occurrence>, subject: string)
    requires n > 0 && Burst(c, hash, n, es, subject) && multiset(es) == multiset(es')
    ensures Burst(c, hash, n, es', subject)
  {
    hide ShardOf;
    SameMembers(es, es');
    assert Neighbours(hash, n, es', subject) == Neighbours(hash, n, es, subject);
  }

  /** Two interleavings of the same events: the subject raises the same number of alerts in both, one if it has enough
      events and none otherwise, and its last event counts them all. */
  lemma InterleavingsAgree(c: Config, hash: string -> nat, n: nat, es: seq<Occurrence>, es': seq<Occurrence>,
                           subject: string, threshold: int)
    requires c.Valid() && 0 <= c.windowUS && threshold >= 1 && n > 0
    requires Burst(c, hash, n, es, subject) && multiset(es) == multiset(es')
    ensures var total := |Mine(es, subject)|;
            && Alerts(es, RunSet(c, hash, n, es, threshold).verdicts, subject)
               == Alerts(es', RunSet(c, hash, n, es', threshold).verdicts, subject)
               == (if total >= threshold then 1 else 0)
            && (es' != [] && es'[|es'| - 1].subject == subject ==>
                  RunSet(c, hash, n, es', threshold).verdicts[|es'| - 1].count == total)
  {
    hide RunSet, Burst, Mine, Alerts;
    BurstPermutes(c, hash, n, es, es', subject);
    SameTotal(es, es', subject);
    BurstInAnyOrder(c, hash, n, es, subject, threshold);
    BurstInAnyOrder(c, hash, n, es', subject, threshold);
    OneAlert(es, RunSet(c, hash, n, es, threshold).verdicts, subject, threshold);
    OneAlert(es', RunSet(c, hash, n, es', threshold).verdicts, subject, threshold);
    assert es' != [] ==> es'[..|es'| - 1 + 1] == es';
  }
}
