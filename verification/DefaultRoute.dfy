/** The fallback route's handler (internal/handler/default.go): bounded logging of unknown collections. */
module DefaultRoute {
  import opened Int64
  import Events
  import opened Sets
  import opened Throttles

  const LOG_INTERVAL_US := 60 * 1_000_000
  const LOG_KEYS := 512

  const KNOWN_COLLECTIONS: set<string> :=
    {"app.bsky.feed.like", "app.bsky.feed.repost", "app.bsky.graph.follow", "app.bsky.feed.post"}

  const PREFIXES: seq<string> := ["app.bsky.feed.", "app.bsky.graph.", "app.bsky.actor.", "chat.bsky."]

  /** Everything that `Bucket` can answer. */
  ghost function Buckets(): set<string> {
    KNOWN_COLLECTIONS + {PREFIXES[0] + "*", PREFIXES[1] + "*", PREFIXES[2] + "*", PREFIXES[3] + "*"} + {"other"}
  }

  function FirstPrefix(collection: string, prefixes: seq<string>): string {
    if prefixes == [] then "other"
    else if |collection| > |prefixes[0]| && collection[..|prefixes[0]|] == prefixes[0] then prefixes[0] + "*"
    else FirstPrefix(collection, prefixes[1..])
  }

  /** The lexicon namespace of a collection, or "other". */
  function Bucket(collection: string): string {
    if collection in KNOWN_COLLECTIONS then collection else FirstPrefix(collection, PREFIXES)
  }

  lemma {:induction false} FirstPrefixRange(collection: string, prefixes: seq<string>)
    ensures var r := FirstPrefix(collection, prefixes);
            r == "other" || exists i :: 0 <= i < |prefixes| && r == prefixes[i] + "*"
  {
    if prefixes != [] {
      FirstPrefixRange(collection, prefixes[1..]);
      var r := FirstPrefix(collection, prefixes[1..]);
      if r != "other" {
        var i :| 0 <= i < |prefixes[1..]| && r == prefixes[1..][i] + "*";
        assert prefixes[1..][i] == prefixes[i + 1];
      }
    }
  }

  /** An attacker-chosen collection lands in one of nine buckets. */
  lemma NineBuckets(collection: string)
    ensures Bucket(collection) in Buckets() && |Buckets()| <= 9
  {
    FirstPrefixRange(collection, PREFIXES);
    UnionSize(KNOWN_COLLECTIONS, {PREFIXES[0] + "*", PREFIXES[1] + "*", PREFIXES[2] + "*", PREFIXES[3] + "*"});
    UnionSize(KNOWN_COLLECTIONS + {PREFIXES[0] + "*", PREFIXES[1] + "*", PREFIXES[2] + "*", PREFIXES[3] + "*"}, {"other"});
  }

  /** `collection` lies in the namespace `prefix`: it begins with it and names something in it. */
  predicate Within(collection: string, prefix: string) {
    prefix < collection
  }

  lemma {:induction false} FirstPrefixIs(collection: string, prefixes: seq<string>, i: nat)
    requires i < |prefixes| && Within(collection, prefixes[i])
    requires forall j :: 0 <= j < i ==> !Within(collection, prefixes[j])
    ensures FirstPrefix(collection, prefixes) == prefixes[i] + "*"
  {
    if i > 0 {
      assert !Within(collection, prefixes[0]);
      FirstPrefixIs(collection, prefixes[1..], i - 1);
    }
  }

  lemma {:induction false} FirstPrefixNone(collection: string, prefixes: seq<string>)
    requires forall i :: 0 <= i < |prefixes| ==> !Within(collection, prefixes[i])
    ensures FirstPrefix(collection, prefixes) == "other"
  {
    if prefixes != [] {
      assert !Within(collection, prefixes[0]);
      FirstPrefixNone(collection, prefixes[1..]);
    }
  }

  lemma PrefixesAreApart(collection: string)
    ensures forall i, j :: 0 <= i < |PREFIXES| && 0 <= j < |PREFIXES| && i != j ==>
              !(Within(collection, PREFIXES[i]) && Within(collection, PREFIXES[j]))
  {
    assert forall i :: 0 <= i < |PREFIXES| && Within(collection, PREFIXES[i]) ==>
             collection[0] == PREFIXES[i][0] && collection[9] == PREFIXES[i][9];
  }

  /** A known collection is its own bucket. Any other goes to the namespace it lies in, and to "other" if and
      only if it lies in none; no collection lies in two. */
  lemma BucketMeaning(collection: string, i: nat)
    requires i < |PREFIXES|
    ensures collection in KNOWN_COLLECTIONS ==> Bucket(collection) == collection
    ensures collection !in KNOWN_COLLECTIONS && Within(collection, PREFIXES[i]) ==> Bucket(collection) == PREFIXES[i] + "*"
    ensures collection !in KNOWN_COLLECTIONS ==>
              (Bucket(collection) == "other" <==> forall j :: 0 <= j < |PREFIXES| ==> !Within(collection, PREFIXES[j]))
  {
    PrefixesAreApart(collection);
    if j: nat :| j < |PREFIXES| && Within(collection, PREFIXES[j]) {
      FirstPrefixIs(collection, PREFIXES, j);
      assert PREFIXES[j] + "*" != "other";
    } else {
      FirstPrefixNone(collection, PREFIXES);
    }
  }

  datatype Reason = UnmappedCollection | NonCommitKind

  /** One unrouted event: what routing kept of it. */
  datatype Unrouted = Unrouted(kind: string, collection: string, time: int64)

  function ReasonOf(ev: Unrouted): Reason {
    if ev.kind != Events.KIND_COMMIT then NonCommitKind else UnmappedCollection
  }

  class Default {
    const seen: Throttle
    ghost var requests: seq<Request>

    /** The throttle has seen exactly the buckets of the commit events handled so far. */
    ghost predicate Valid()
      reads this, seen
    {
      && seen.Valid() && seen.intervalUS == LOG_INTERVAL_US && seen.maxKeys == LOG_KEYS
      && seen.last == TableAfter(requests, LOG_INTERVAL_US, LOG_KEYS)
    }

    constructor ()
      ensures Valid() && requests == [] && fresh(seen)
    {
      seen := new Throttle(LOG_INTERVAL_US, LOG_KEYS);
      requests := [];
    }

    /** Count one unrouted event; `logged` tells whether it produced a log line. */
    method Handle(ev: Unrouted) returns (reason: Reason, logged: bool)
      requires Valid()
      modifies this, seen
      ensures Valid() && reason == ReasonOf(ev)
      ensures reason.UnmappedCollection? <==> ev.kind == Events.KIND_COMMIT
      ensures requests == if reason.UnmappedCollection? then old(requests) + [Request(Bucket(ev.collection), ev.time)]
                          else old(requests)
      ensures logged <==> (reason.UnmappedCollection? && Fires(requests, LOG_INTERVAL_US, LOG_KEYS, |requests| - 1))
    {
      reason, logged := UnmappedCollection, false;
      if ev.kind != Events.KIND_COMMIT {
        reason := NonCommitKind;
      }
      if reason == UnmappedCollection {
        var b := Bucket(ev.collection);
        logged := seen.Allow(b, ev.time);
        requests := requests + [Request(b, ev.time)];
        assert requests[..|requests| - 1] == old(requests);
      }
    }
  }

  function RequestsOf(evs: seq<Unrouted>): seq<Request> {
    if evs == [] then []
    else
      var ev := evs[|evs| - 1];
      RequestsOf(evs[..|evs| - 1])
      + if ReasonOf(ev).UnmappedCollection? then [Request(Bucket(ev.collection), ev.time)] else []
  }

  /** The commits among the events. */
  function Commits(evs: seq<Unrouted>): seq<Unrouted> {
    if evs == [] then []
    else Commits(evs[..|evs| - 1]) + if evs[|evs| - 1].kind == Events.KIND_COMMIT then [evs[|evs| - 1]] else []
  }

  /** Identity and account frames neither log nor cost another event its line: the throttle sees each commit once, in
      order, under its bucket, and nothing else. */
  lemma {:induction false} OnlyCommitsAreThrottled(evs: seq<Unrouted>)
    ensures RequestsOf(evs) == seq(|Commits(evs)|, i requires 0 <= i < |Commits(evs)| =>
                                 Request(Bucket(Commits(evs)[i].collection), Commits(evs)[i].time))
  {
    hide Bucket;
    if evs != [] {
      OnlyCommitsAreThrottled(evs[..|evs| - 1]);
    }
  }

  lemma {:induction false} RequestsAreBuckets(evs: seq<Unrouted>)
    requires forall i :: 0 <= i < |evs| ==> 0 <= evs[i].time
    ensures forall m :: 0 <= m < |RequestsOf(evs)| ==> RequestsOf(evs)[m].key in Buckets() && 0 <= RequestsOf(evs)[m].time
  {
    if evs != [] {
      RequestsAreBuckets(evs[..|evs| - 1]);
      NineBuckets(evs[|evs| - 1].collection);
    }
  }

  /** Whatever collections strangers invent, and in whatever order their times arrive, the default
      route never resets its throttle and logs at most nine lines per minute of event time. */
  lemma {:induction false} NineLinesPerMinute(evs: seq<Unrouted>, a: int)
    requires forall i :: 0 <= i < |evs| ==> 0 <= evs[i].time
    ensures |FiredIn(RequestsOf(evs), LOG_INTERVAL_US, LOG_KEYS, a, LOG_INTERVAL_US)| <= 9
    ensures ResetCount(RequestsOf(evs), LOG_INTERVAL_US, LOG_KEYS) == 0
  {
    var rs := RequestsOf(evs);
    RequestsAreBuckets(evs);
    NineBuckets("");
    FiringsPerInterval(rs, LOG_INTERVAL_US, LOG_KEYS, Buckets(), a);
    NoResets(rs);
  }

  lemma {:induction false} NoResets(rs: seq<Request>)
    requires forall m :: 0 <= m < |rs| ==> rs[m].key in Buckets()
    ensures ResetCount(rs, LOG_INTERVAL_US, LOG_KEYS) == 0
  {
    if rs != [] {
      NoResets(rs[..|rs| - 1]);
      NineBuckets("");
      SmallAlphabetNeverResets(rs, LOG_INTERVAL_US, LOG_KEYS, Buckets());
    }
  }
}
