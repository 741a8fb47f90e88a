/** Building the routes of a table and dispatching events to them (cmd/router/main.go, internal/config/config.go). */
module Dispatch {
  import opened Wrappers
  import opened Events
  import opened Routing
  import Routes

  /** One route's block of the configuration; unset fields are zero. */
  datatype RouteBlock = RouteBlock(buffer: int, workers: int, policy: Routes.Policy, maxAttempts: int,
                                   blockTimeoutNS: int)

  const UNSET := RouteBlock(0, 0, Routes.Drop, 0, 0)

  /** What a block says is what its route runs with. */
  function Resolved(b: RouteBlock): (c: Routes.Config)
    ensures c.Valid() && c.policy == b.policy
    ensures (b.buffer > 0 ==> c.buffer == b.buffer) && (b.workers > 0 ==> c.workers == b.workers)
    ensures (b.maxAttempts > 0 ==> c.maxAttempts == b.maxAttempts)
    ensures (b.blockTimeoutNS > 0 ==> c.blockTimeoutNS == b.blockTimeoutNS)
  {
    Routes.WithDefaults(b.buffer, b.workers, b.policy, b.maxAttempts, b.blockTimeoutNS)
  }

  /** `Validate`'s coverage check: every route the table can produce has a block. */
  method Validate(router: Router, blocks: map<string, RouteBlock>) returns (missing: Option<string>)
    ensures missing.None? <==>
              forall n :: n != "" && n in RouteNames(router.opRules, router.collRules, router.fallback) ==> n in blocks
    ensures missing.Some? ==> missing.value !in blocks
                              && missing.value in RouteNames(router.opRules, router.collRules, router.fallback)
  {
    var names := router.Routes();
    for i := 0 to |names|
      invariant forall n :: n in names[..i] ==> n in blocks
    {
      assert names[i] in names && names[..i + 1] == names[..i] + [names[i]];
      if names[i] !in blocks {
        return Some(names[i]);
      }
    }
    assert names[..|names|] == names;
    return None;
  }

  /** Build exactly the routes the table can produce; a name with no registered handler is an error. */
  method BuildRoutes(router: Router, blocks: map<string, RouteBlock>, handlers: set<string>)
    returns (routes: Option<map<string, Routes.Channel>>)
    ensures routes.Some? <==>
              forall n :: n != "" && n in RouteNames(router.opRules, router.collRules, router.fallback) ==> n in handlers
    ensures routes.Some? ==>
              && (forall n :: n in routes.value <==>
                    n != "" && n in RouteNames(router.opRules, router.collRules, router.fallback))
              && (forall n :: n in routes.value ==>
                    && fresh(routes.value[n]) && routes.value[n].Valid() && !routes.value[n].closed
                    && routes.value[n].config == Resolved(if n in blocks then blocks[n] else UNSET))
              && (forall n, m :: n in routes.value && m in routes.value && n != m ==> routes.value[n] != routes.value[m])
  {
    hide Routes.Inv;
    var names := router.Routes();
    var built: map<string, Routes.Channel> := map[];
    for i := 0 to |names|
      invariant forall n :: n in built <==> n in names[..i]
      invariant forall n :: n in names[..i] ==> n in handlers
      invariant forall n :: n in built ==>
        && fresh(built[n]) && built[n].Valid() && !built[n].closed
        && built[n].config == Resolved(if n in blocks then blocks[n] else UNSET)
      invariant forall n, m :: n in built && m in built && n != m ==> built[n] != built[m]
    {
      var name := names[i];
      assert name in names && names[..i + 1] == names[..i] + [name];
      if name !in handlers {
        return None;
      }
      var r := new Routes.Channel(Resolved(if name in blocks then blocks[name] else UNSET));
      built := built[name := r];
    }
    assert names[..|names|] == names;
    return Some(built);
  }

  /** The channel an event goes to, if there is one: the only object a dispatch changes. */
  ghost function Target(router: Router, routes: map<string, Routes.Channel>, k: Key): set<object> {
    var name := RouteOf(router.glob, router.opRules, router.collRules, router.fallback, k);
    if name in routes then {routes[name]} else {}
  }

  /** Resolve an event and offer it to its route. `known` is false in the branch that counts an event for a
      route that does not exist. */
  method DispatchEvent(router: Router, routes: map<string, Routes.Channel>, k: Key, choice: Routes.Choice)
    returns (known: bool, accepted: bool)
    requires forall n :: n in routes ==> routes[n].Valid() && !routes[n].closed
    requires forall n :: n in routes && routes[n].config.policy.Block? ==>
               var r := routes[n];
               Routes.Enabled(r.config, r.route, Routes.OfferLabel(r.config, r.route, choice))
    modifies Target(router, routes, k)
    ensures known <==> RouteOf(router.glob, router.opRules, router.collRules, router.fallback, k) in routes
    ensures !known ==> !accepted
    ensures known ==>
              var r := routes[RouteOf(router.glob, router.opRules, router.collRules, router.fallback, k)];
              && r.Valid()
              && Routes.Enabled(r.config, old(r.route), Routes.OfferLabel(r.config, old(r.route), choice))
              && r.route == Routes.Next(r.config, old(r.route), Routes.OfferLabel(r.config, old(r.route), choice))
              && (accepted <==> Routes.OfferLabel(r.config, old(r.route), choice) == Routes.Accept)
  {
    hide Routes.Inv, Routes.Enabled, Routes.Next, Routes.OfferLabel;
    var name := router.Route(k);
    if name !in routes {
      return false, false;
    }
    var ok := routes[name].Offer(choice);
    return true, ok;
  }

  /** Nothing is dispatched into the void: with the routes that BuildRoutes makes, every key of every event has
      a route. */
  lemma DispatchIsTotal(router: Router, names: set<string>, k: Key)
    requires forall n :: n in names <==> n != "" && n in RouteNames(router.opRules, router.collRules, router.fallback)
    requires exists t :: router.Of(t)
    ensures RouteOf(router.glob, router.opRules, router.collRules, router.fallback, k) in names
  {
    AnswersAreListed(router.glob, router.opRules, router.collRules, router.fallback, k);
    var t :| router.Of(t);
    SplitMeetsPrecedence(router.glob, t, k);
  }
}
