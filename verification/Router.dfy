/** Two-pass rule routing and dispatch (internal/routing/routing.go, cmd/router/main.go). */
module Routing {
  import opened Events

  /** An empty field matches anything. */
  datatype Match = Match(kind: string, collection: string, operation: string)

  datatype Rule = Rule(match_: Match, route: string)

  datatype Table = Table(rules: seq<Rule>, fallback: string)

  /** The answer of the path-glob library, which is not part of this model. */
  datatype GlobResult = Matched | NotMatched | BadPattern

  type Glob = (string, string) -> GlobResult

  datatype Error = NoFallback | NoRoute(index: nat) | BadGlob(index: nat)

  datatype Result<+T> = Success(value: T) | Failure(error: Error)

  // ----- specification -----

  predicate Matches(glob: Glob, m: Match, k: Key) {
    && (m.kind == "" || m.kind == k.kind)
    && (m.operation == "" || m.operation == k.operation)
    && (m.collection == "" || (k.collection != "" && glob(m.collection, k.collection) == Matched))
  }

  predicate PinsOperation(r: Rule) {
    r.match_.operation != ""
  }

  /** The rule itself is acceptable. */
  predicate RuleOk(glob: Glob, r: Rule) {
    r.route != "" && (r.match_.collection != "" ==> glob(r.match_.collection, "probe") != BadPattern)
  }

  /** The rules of one class in their configured order. */
  function Select(rules: seq<Rule>, pins: bool): seq<Rule> {
    if rules == [] then []
    else
      var r := rules[|rules| - 1];
      Select(rules[..|rules| - 1], pins) + if PinsOperation(r) == pins then [r] else []
  }

  /** `i` is the first rule in configured order that matches, among those that pin an operation
      if `pins` and among the others if not. */
  ghost predicate FirstMatch(glob: Glob, rules: seq<Rule>, pins: bool, k: Key, i: nat) {
    && i < |rules| && PinsOperation(rules[i]) == pins && Matches(glob, rules[i].match_, k)
    && forall j :: 0 <= j < i && PinsOperation(rules[j]) == pins ==> !Matches(glob, rules[j].match_, k)
  }

  ghost predicate NoMatch(glob: Glob, rules: seq<Rule>, pins: bool, k: Key) {
    forall j :: 0 <= j < |rules| && PinsOperation(rules[j]) == pins ==> !Matches(glob, rules[j].match_, k)
  }

  /** The documented precedence, on the table as configured: the first matching rule that pins an operation,
      else the first matching rule that does not, else the fallback. */
  ghost predicate Answers(glob: Glob, t: Table, k: Key, name: string) {
    || (exists i: nat :: FirstMatch(glob, t.rules, true, k, i) && name == t.rules[i].route)
    || (NoMatch(glob, t.rules, true, k) && exists i: nat :: FirstMatch(glob, t.rules, false, k, i) && name == t.rules[i].route)
    || (NoMatch(glob, t.rules, true, k) && NoMatch(glob, t.rules, false, k) && name == t.fallback)
  }

  /** First match in a list already split by class. */
  function Scan(glob: Glob, rules: seq<Rule>, k: Key, otherwise: string): string {
    if rules == [] then otherwise
    else if Matches(glob, rules[0].match_, k) then rules[0].route
    else Scan(glob, rules[1..], k, otherwise)
  }

  function RouteOf(glob: Glob, opRules: seq<Rule>, collRules: seq<Rule>, fallback: string, k: Key): string {
    Scan(glob, opRules, k, Scan(glob, collRules, k, fallback))
  }

  lemma {:induction false} ScanSnoc(glob: Glob, rules: seq<Rule>, r: Rule, k: Key, otherwise: string)
    ensures Scan(glob, rules + [r], k, otherwise)
         == Scan(glob, rules, k, if Matches(glob, r.match_, k) then r.route else otherwise)
  {
    if rules == [] {
      assert [r][1..] == [];
    } else {
      ScanSnoc(glob, rules[1..], r, k, otherwise);
      assert (rules + [r])[1..] == rules[1..] + [r];
    }
  }

  /** Scanning one class finds its first match in the configured table. */
  lemma {:induction false} ScanFindsFirst(glob: Glob, rules: seq<Rule>, pins: bool, k: Key, otherwise: string) returns (i: nat)
    ensures if i < |rules| then
              FirstMatch(glob, rules, pins, k, i) && Scan(glob, Select(rules, pins), k, otherwise) == rules[i].route
            else NoMatch(glob, rules, pins, k) && Scan(glob, Select(rules, pins), k, otherwise) == otherwise
  {
    hide Matches, PinsOperation;
    if rules == [] {
      i := 0;
    } else {
      var l, r := rules[..|rules| - 1], rules[|rules| - 1];
      var here := if Matches(glob, r.match_, k) then r.route else otherwise;
      if PinsOperation(r) == pins {
        i := ScanFindsFirst(glob, l, pins, k, here);
        ScanSnoc(glob, Select(l, pins), r, k, otherwise);
        if i >= |l| {
          i := if Matches(glob, r.match_, k) then |l| else |rules|;
        }
      } else {
        i := ScanFindsFirst(glob, l, pins, k, otherwise);
        assert Select(rules, pins) == Select(l, pins);
        if i >= |l| {
          i := |rules|;
        }
      }
    }
  }

  /** The split router gives the documented answer for the table, whatever the order in which rules of the
      two classes were mixed. */
  lemma SplitMeetsPrecedence(glob: Glob, t: Table, k: Key)
    ensures Answers(glob, t, k, RouteOf(glob, Select(t.rules, true), Select(t.rules, false), t.fallback, k))
  {
    hide Matches, PinsOperation, Select, Scan, FirstMatch, NoMatch;
    var rest := Scan(glob, Select(t.rules, false), k, t.fallback);
    var i := ScanFindsFirst(glob, t.rules, true, k, rest);
    var j := ScanFindsFirst(glob, t.rules, false, k, t.fallback);
  }

  /** The precedence leaves no choice. */
  lemma AnswerIsUnique(glob: Glob, t: Table, k: Key, a: string, b: string)
    requires Answers(glob, t, k, a) && Answers(glob, t, k, b)
    ensures a == b
  {
  }

  // ----- the precedence, field by field -----

  /** Some field of the rule is set and contradicts the key. */
  predicate Contradicts(glob: Glob, r: Rule, k: Key) {
    || (r.match_.kind != "" && r.match_.kind != k.kind)
    || (r.match_.operation != "" && r.match_.operation != k.operation)
    || (r.match_.collection != "" && k.collection == "")
    || (r.match_.collection != "" && glob(r.match_.collection, k.collection) != Matched)
  }

  /** Rule `i` comes before rule `j`: it names an operation and `j` does not, or both or neither do and it is listed
      before `j`. */
  predicate Precedes(rules: seq<Rule>, i: nat, j: nat)
    requires i < |rules| && j < |rules|
  {
    || (rules[i].match_.operation != "" && rules[j].match_.operation == "")
    || ((rules[i].match_.operation == "" <==> rules[j].match_.operation == "") && i < j)
  }

  /** Rule `i` decides: it does not contradict the key, and every rule before it does. */
  ghost predicate Decides(glob: Glob, rules: seq<Rule>, k: Key, i: nat) {
    && i < |rules| && !Contradicts(glob, rules[i], k)
    && forall j: nat :: j < |rules| && Precedes(rules, j, i) ==> Contradicts(glob, rules[j], k)
  }

  /** What the answer says about the fields: it is the route of the one rule that contradicts the key nowhere while every
      rule before it does somewhere, and the fallback if and only if every rule contradicts the key. */
  lemma AnswerByFields(glob: Glob, t: Table, k: Key, name: string)
    ensures Answers(glob, t, k, name) <==>
              if forall j :: 0 <= j < |t.rules| ==> Contradicts(glob, t.rules[j], k) then name == t.fallback
              else exists i: nat :: i < |t.rules| && Decides(glob, t.rules, k, i) && name == t.rules[i].route
  {
  }

  /** So the split router's answer always exists in these terms, whatever the table. */
  lemma RouteByFields(glob: Glob, t: Table, k: Key)
    ensures var name := RouteOf(glob, Select(t.rules, true), Select(t.rules, false), t.fallback, k);
            if forall j :: 0 <= j < |t.rules| ==> Contradicts(glob, t.rules[j], k) then name == t.fallback
            else exists i: nat :: i < |t.rules| && Decides(glob, t.rules, k, i) && name == t.rules[i].route
  {
    hide Contradicts, Decides, Answers;
    var name := RouteOf(glob, Select(t.rules, true), Select(t.rules, false), t.fallback, k);
    SplitMeetsPrecedence(glob, t, k);
    AnswerByFields(glob, t, k, name);
  }

  /** Nothing is ever answered by a rule that names another operation, so a create never goes where only deletes do, and
      a delete goes to the rule for deletes whatever its collection. */
  lemma OperationsAreKept(glob: Glob, t: Table, k: Key, name: string)
    requires Answers(glob, t, k, name)
    requires forall i :: 0 <= i < |t.rules| && t.rules[i].route == name ==>
               t.rules[i].match_.operation != "" && t.rules[i].match_.operation != k.operation
    ensures name == t.fallback && forall j :: 0 <= j < |t.rules| ==> Contradicts(glob, t.rules[j], k)
  {
  }

  /** A rule for one operation alone decides for every key of that operation, wherever it is listed, unless another rule
      that names the operation comes before it. */
  lemma OperationComesFirst(glob: Glob, t: Table, k: Key, name: string, i: nat)
    requires Answers(glob, t, k, name) && i < |t.rules|
    requires t.rules[i].match_ == Match("", "", k.operation) && k.operation != ""
    requires forall j :: 0 <= j < i ==> t.rules[j].match_.operation != k.operation
    ensures name == t.rules[i].route
  {
  }

  // ----- the class -----

  class Router {
    const glob: Glob
    const opRules: seq<Rule>
    const collRules: seq<Rule>
    const fallback: string

    constructor (glob: Glob, opRules: seq<Rule>, collRules: seq<Rule>, fallback: string)
      ensures this.glob == glob && this.opRules == opRules && this.collRules == collRules && this.fallback == fallback
    {
      this.glob, this.opRules, this.collRules, this.fallback := glob, opRules, collRules, fallback;
    }

    /** Was this router built from `t`? */
    ghost predicate Of(t: Table) {
      && opRules == Select(t.rules, true) && collRules == Select(t.rules, false) && fallback == t.fallback
      && fallback != "" && forall i :: 0 <= i < |t.rules| ==> t.rules[i].route != ""
    }

    /** Validate a table and split its rules; the first offending rule is reported. */
    static method New(glob: Glob, t: Table) returns (r: Result<Router>)
      ensures r.Success? ==> fresh(r.value) && r.value.Of(t) && r.value.glob == glob
      ensures r.Success? <==> t.fallback != "" && forall i :: 0 <= i < |t.rules| ==> RuleOk(glob, t.rules[i])
      ensures r == Failure(NoFallback) <==> t.fallback == ""
      ensures r.Failure? && !r.error.NoFallback? ==>
                && r.error.index < |t.rules| && !RuleOk(glob, t.rules[r.error.index])
                && (r.error.NoRoute? <==> t.rules[r.error.index].route == "")
                && forall i :: 0 <= i < r.error.index ==> RuleOk(glob, t.rules[i])
    {
      if t.fallback == "" {
        return Failure(NoFallback);
      }
      var opRules, collRules: seq<Rule> := [], [];
      for i := 0 to |t.rules|
        invariant opRules == Select(t.rules[..i], true) && collRules == Select(t.rules[..i], false)
        invariant forall j :: 0 <= j < i ==> RuleOk(glob, t.rules[j])
      {
        var rule := t.rules[i];
        assert t.rules[..i + 1][..i] == t.rules[..i];
        if rule.route == "" {
          return Failure(NoRoute(i));
        }
        if rule.match_.collection != "" && glob(rule.match_.collection, "probe") == BadPattern {
          return Failure(BadGlob(i));
        }
        if rule.match_.operation != "" {
          opRules := opRules + [rule];
        } else {
          collRules := collRules + [rule];
        }
      }
      assert t.rules[..|t.rules|] == t.rules;
      var router := new Router(glob, opRules, collRules, t.fallback);
      return Success(router);
    }

    /** Resolve a key to a route name. */
    method Route(k: Key) returns (name: string)
      ensures name == RouteOf(glob, opRules, collRules, fallback, k)
      ensures forall t: Table :: Of(t) ==> Answers(glob, t, k, name)
    {
      forall t: Table | Of(t) ensures Answers(glob, t, k, RouteOf(glob, opRules, collRules, fallback, k)) {
        SplitMeetsPrecedence(glob, t, k);
      }
      for i := 0 to |opRules|
        invariant RouteOf(glob, opRules, collRules, fallback, k)
               == Scan(glob, opRules[i..], k, Scan(glob, collRules, k, fallback))
      {
        if Matches(glob, opRules[i].match_, k) {
          return opRules[i].route;
        }
      }
      for i := 0 to |collRules|
        invariant RouteOf(glob, opRules, collRules, fallback, k) == Scan(glob, collRules[i..], k, fallback)
      {
        if Matches(glob, collRules[i].match_, k) {
          return collRules[i].route;
        }
      }
      return fallback;
    }

    /** Every route name the table can produce, each once. */
    method Routes() returns (names: seq<string>)
      ensures forall n :: n in names <==> n != "" && n in RouteNames(opRules, collRules, fallback)
      ensures forall i, j :: 0 <= i < j < |names| ==> names[i] != names[j]
    {
      names := [];
      for i := 0 to |opRules|
        invariant forall n :: n in names <==> n != "" && exists j :: 0 <= j < i && opRules[j].route == n
        invariant forall a, b :: 0 <= a < b < |names| ==> names[a] != names[b]
      {
        names := AddName(names, opRules[i].route);
      }
      ghost var ops := names;
      for i := 0 to |collRules|
        invariant forall n :: n in names <==> n in ops || (n != "" && exists j :: 0 <= j < i && collRules[j].route == n)
        invariant forall a, b :: 0 <= a < b < |names| ==> names[a] != names[b]
      {
        names := AddName(names, collRules[i].route);
      }
      names := AddName(names, fallback);
    }
  }

  ghost function RouteNames(opRules: seq<Rule>, collRules: seq<Rule>, fallback: string): set<string> {
    (set i | 0 <= i < |opRules| :: opRules[i].route) + (set i | 0 <= i < |collRules| :: collRules[i].route) + {fallback}
  }

  function AddName(names: seq<string>, name: string): seq<string> {
    if name != "" && name !in names then names + [name] else names
  }

  lemma {:induction false} ScanStaysInside(glob: Glob, rules: seq<Rule>, k: Key, otherwise: string)
    ensures Scan(glob, rules, k, otherwise) == otherwise
         || exists i :: 0 <= i < |rules| && Scan(glob, rules, k, otherwise) == rules[i].route
  {
    if rules != [] {
      ScanStaysInside(glob, rules[1..], k, otherwise);
      var r := Scan(glob, rules[1..], k, otherwise);
      if i :| 0 <= i < |rules[1..]| && r == rules[1..][i].route {
        assert r == rules[i + 1].route;
      }
    }
  }

  /** Every answer of the router is one of the names it lists. */
  lemma AnswersAreListed(glob: Glob, opRules: seq<Rule>, collRules: seq<Rule>, fallback: string, k: Key)
    ensures RouteOf(glob, opRules, collRules, fallback, k) in RouteNames(opRules, collRules, fallback)
  {
    ScanStaysInside(glob, collRules, k, fallback);
    ScanStaysInside(glob, opRules, k, Scan(glob, collRules, k, fallback));
  }
}
