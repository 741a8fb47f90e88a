/** The envelope of one frame and the key that identifies a logical record (internal/event/event.go). */
module Events {
  import opened Int64
  import opened Wrappers

  const KIND_COMMIT := "commit"

  /** The routing tuple; collection and operation are empty for identity and account frames. */
  datatype Key = Key(kind: string, collection: string, operation: string)

  datatype Event = Event(key: Key, did: string, timeUS: int64, rkey: string, record: string)

  datatype Commit = Commit(operation: string, collection: string, rkey: string, record: string)

  /** A frame after JSON parsing. */
  datatype Envelope = Envelope(did: string, timeUS: int64, kind: string, commit: Option<Commit>)

  /** `None` is the malformed-event error. The argument is `None` when the JSON itself is broken. */
  function Decode(frame: Option<Envelope>): (r: Option<Event>)
    ensures r.Some? ==> frame.Some? && r.value.key.kind != "" && r.value.timeUS == frame.value.timeUS
    ensures r.Some? ==> (r.value.key.kind == KIND_COMMIT <==> r.value.key.collection != "")
    ensures r.Some? ==> (r.value.key.kind == KIND_COMMIT <==> r.value.key.operation != "")
  {
    if frame.None? || frame.value.kind == "" then None
    else
      var env := frame.value;
      if env.kind != KIND_COMMIT then Some(Event(Key(env.kind, "", ""), env.did, env.timeUS, "", ""))
      else if env.commit.None? || env.commit.value.collection == "" || env.commit.value.operation == "" then None
      else
        var m := env.commit.value;
        Some(Event(Key(env.kind, m.collection, m.operation), env.did, env.timeUS, m.rkey, m.record))
  }

  /** The frame of an event. */
  function FrameOf(e: Event): Envelope {
    Envelope(e.did, e.timeUS, e.key.kind,
             if e.key.kind == KIND_COMMIT then Some(Commit(e.key.operation, e.key.collection, e.rkey, e.record)) else None)
  }

  /** The events there are: a commit names a collection and an operation, anything else carries no commit data. */
  predicate Proper(e: Event) {
    && e.key.kind != ""
    && if e.key.kind == KIND_COMMIT then e.key.collection != "" && e.key.operation != ""
       else e.key.collection == "" && e.key.operation == "" && e.rkey == "" && e.record == ""
  }

  /** Every proper event decodes from its frame, nothing but proper events is ever decoded, and what is decoded
      has all that the frame says about it. */
  lemma DecodeRoundTrip(e: Event, frame: Option<Envelope>)
    ensures Proper(e) ==> Decode(Some(FrameOf(e))) == Some(e)
    ensures Decode(frame).Some? ==>
              && Proper(Decode(frame).value)
              && FrameOf(Decode(frame).value) == if frame.value.kind == KIND_COMMIT then frame.value
                                                 else frame.value.(commit := None)
  {
  }

  function DedupKey(e: Event): string {
    e.did + "|" + e.key.collection + "|" + e.rkey + "|" + e.key.operation
  }

  // ----- the key can be taken apart again -----

  predicate NoBar(s: string) {
    '|' !in s
  }

  /** The text before the first bar and the text after it. */
  function SplitBar(s: string): (string, string) {
    if s == [] then ("", "")
    else if s[0] == '|' then ("", s[1..])
    else var (a, b) := SplitBar(s[1..]); ([s[0]] + a, b)
  }

  lemma {:induction false} SplitJoined(a: string, rest: string)
    requires NoBar(a)
    ensures SplitBar(a + "|" + rest) == (a, rest)
  {
    var s := a + "|" + rest;
    if a == [] {
      assert s[1..] == rest;
    } else {
      SplitJoined(a[1..], rest);
      assert s[1..] == a[1..] + "|" + rest;
      assert [a[0]] + a[1..] == a;
    }
  }

  /** DID, collection, record key and operation read back from a dedup key. */
  function ParseKey(s: string): (string, string, string, string) {
    var (did, s1) := SplitBar(s);
    var (collection, s2) := SplitBar(s1);
    var (rkey, operation) := SplitBar(s2);
    (did, collection, rkey, operation)
  }

  /** No DID, collection NSID or record key contains a bar. */
  predicate BarFree(e: Event) {
    NoBar(e.did) && NoBar(e.key.collection) && NoBar(e.rkey)
  }

  lemma DedupKeyRoundTrip(e: Event)
    requires BarFree(e)
    ensures ParseKey(DedupKey(e)) == (e.did, e.key.collection, e.rkey, e.key.operation)
  {
    var s2 := e.rkey + "|" + e.key.operation;
    var s1 := e.key.collection + "|" + s2;
    assert DedupKey(e) == e.did + "|" + s1;
    SplitJoined(e.did, s1);
    SplitJoined(e.key.collection, s2);
    SplitJoined(e.rkey, e.key.operation);
  }

  /** Two events share a dedup key exactly when they are the same operation on the same record. */
  lemma DedupKeyIdentifiesRecord(e: Event, e': Event)
    requires BarFree(e) && BarFree(e')
    ensures DedupKey(e) == DedupKey(e') <==>
              e.did == e'.did && e.key.collection == e'.key.collection
              && e.rkey == e'.rkey && e.key.operation == e'.key.operation
  {
    DedupKeyRoundTrip(e);
    DedupKeyRoundTrip(e');
  }

  function Bars(s: string): nat {
    if s == [] then 0 else (if s[0] == '|' then 1 else 0) + Bars(s[1..])
  }

  lemma {:induction false} BarsAppend(a: string, b: string)
    ensures Bars(a + b) == Bars(a) + Bars(b)
  {
    if a == [] {
      assert a + b == b;
    } else {
      assert (a + b)[1..] == a[1..] + b;
      BarsAppend(a[1..], b);
    }
  }

  /** A joined text comes apart in one way once it is known how many bars the first part has. */
  lemma SplitAtBar(a: string, rest: string, a': string, rest': string)
    requires a + "|" + rest == a' + "|" + rest' && Bars(a) == Bars(a')
    ensures a == a' && rest == rest'
  {
    var s := a + "|" + rest;
    if |a| == |a'| {
      assert a == s[..|a|] == a';
      assert rest == s[|a| + 1..] == rest';
    } else if |a| < |a'| {
      LongerHasMoreBars(s, a, a');
    } else {
      LongerHasMoreBars(s, a', a);
    }
  }

  lemma LongerHasMoreBars(s: string, a: string, b: string)
    requires |a| < |b| < |s| && a == s[..|a|] && b == s[..|b|] && s[|a|] == '|'
    ensures Bars(a) < Bars(b)
  {
    var mid := s[|a|..|b|];
    assert b == a + mid && mid[0] == '|';
    BarsAppend(a, mid);
  }

  /** In general two events with the same dedup key are the same operation on the same record exactly when each of
      DID, collection and record key has as many bars in one as in the other. */
  lemma SameKeySameRecordExactly(e: Event, e': Event)
    requires DedupKey(e) == DedupKey(e')
    ensures (e.did == e'.did && e.key.collection == e'.key.collection
             && e.rkey == e'.rkey && e.key.operation == e'.key.operation) <==>
              (Bars(e.did) == Bars(e'.did) && Bars(e.key.collection) == Bars(e'.key.collection)
               && Bars(e.rkey) == Bars(e'.rkey))
  {
    if Bars(e.did) == Bars(e'.did) && Bars(e.key.collection) == Bars(e'.key.collection) && Bars(e.rkey) == Bars(e'.rkey) {
      var s2, s2' := e.rkey + "|" + e.key.operation, e'.rkey + "|" + e'.key.operation;
      var s1, s1' := e.key.collection + "|" + s2, e'.key.collection + "|" + s2';
      assert DedupKey(e) == e.did + "|" + s1 && DedupKey(e') == e'.did + "|" + s1';
      SplitAtBar(e.did, s1, e'.did, s1');
      SplitAtBar(e.key.collection, s2, e'.key.collection, s2');
      SplitAtBar(e.rkey, e.key.operation, e'.rkey, e'.key.operation);
    }
  }

  /** With a bar inside a field two different records can collide. */
  lemma BarsCollide() returns (e: Event, e': Event)
    ensures DedupKey(e) == DedupKey(e') && e.did != e'.did
    ensures e.did == "a|b" && e.key.collection == "c" && e.rkey == "r"
    ensures e'.did == "a" && e'.key.collection == "b" && e'.rkey == "c|r"
  {
    e := Event(Key(KIND_COMMIT, "c", "create"), "a|b", 1, "r", "");
    e' := Event(Key(KIND_COMMIT, "b", "create"), "a", 1, "c|r", "");
    assert DedupKey(e) == "a|b|c|r|create";
    assert DedupKey(e') == "a|b|c|r|create";
  }
}
