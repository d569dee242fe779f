/** Exactly when every route table comes to rest while the health stays as it is, whatever the addresses. */
module RouteRest {
  import opened Wrappers
  import opened RouteSwitcher
  import opened RouteTables

  // ---------------------------------------------------------------------------------------------
  // Following backups

  /** Where one tick takes a route that its record does not call back. */
  function Next(hops: Hops, ip: Ip): Ip {
    if Movable(hops, ip) then hops.unhealthy[ip] else ip
  }

  function Follow(hops: Hops, ip: Ip, n: nat): Ip
    decreases n
  {
    if n == 0 then ip else Follow(hops, Next(hops, ip), n - 1)
  }

  /** Healthy, and not failed as well: the routes a record may call back. */
  predicate Pure(hops: Hops, ip: Ip) {
    ip in hops.healthy && ip !in hops.unhealthy
  }

  /** Two or more addresses are each other's backups in a ring. */
  ghost predicate HasRing(hops: Hops) {
    exists ip, n: nat :: n > 0 && Next(hops, ip) != ip && Follow(hops, ip, n) == ip
  }

  /** An address that is healthy and failed at once, so that a record can call a route back to it, and
      from which the backups lead to one that is healthy only, from where the record calls it back. */
  ghost predicate HasDetour(hops: Hops) {
    exists ip, n: nat :: ip in hops.healthy && ip in hops.unhealthy && Pure(hops, Follow(hops, ip, n))
  }

  function Ticks(t: Table, n: nat, hops: Hops, backToPrimary: bool): Table {
    if n == 0 then t else TableTick(Ticks(t, n - 1, hops, backToPrimary), hops, backToPrimary)
  }

  /** Some tick changes nothing any more, and so no later tick does. (If an address is its own backup, there
      are PATCHes still, with the routes as they are.) */
  ghost predicate Rests(t: Table, hops: Hops, backToPrimary: bool) {
    exists n: nat :: TableTick(Ticks(t, n, hops, backToPrimary), hops, backToPrimary)
        == Ticks(t, n, hops, backToPrimary)
  }

  lemma {:induction false} FollowMore(hops: Hops, ip: Ip, m: nat, n: nat)
    ensures Follow(hops, ip, m + n) == Follow(hops, Follow(hops, ip, m), n)
    decreases m
  {
    hide Next;
    if m > 0 {
      FollowMore(hops, Next(hops, ip), m - 1, n);
    }
  }

  lemma {:induction false} FollowFixed(hops: Hops, ip: Ip, n: nat)
    requires Next(hops, ip) == ip
    ensures Follow(hops, ip, n) == ip
    decreases n
  {
    hide Next;
    if n > 0 {
      FollowFixed(hops, ip, n - 1);
    }
  }

  lemma {:induction false} AroundTheRing(hops: Hops, ip: Ip, n: nat, rounds: nat)
    requires Follow(hops, ip, n) == ip
    ensures Follow(hops, ip, rounds * n) == ip
    decreases rounds
  {
    hide Follow;
    if rounds == 0 {
      assert Follow(hops, ip, 0) == ip by { FollowNone(hops, ip); }
    } else {
      AroundTheRing(hops, ip, n, rounds - 1);
      FollowMore(hops, ip, n, (rounds - 1) * n);
      assert rounds * n == n + (rounds - 1) * n;
    }
  }

  lemma FollowNone(hops: Hops, ip: Ip)
    ensures Follow(hops, ip, 0) == ip
  {
  }

  lemma FollowOne(hops: Hops, ip: Ip, n: nat)
    ensures Follow(hops, ip, n + 1) == Follow(hops, Next(hops, ip), n)
    ensures Follow(hops, ip, n + 1) == Next(hops, Follow(hops, ip, n))
  {
    hide Next;
    FollowMore(hops, ip, n, 1);
    FollowNone(hops, Next(hops, Follow(hops, ip, n)));
  }

  // ---------------------------------------------------------------------------------------------
  // A ring or a detour keeps a route moving

  lemma OneRouteTick(ip: Ip, hops: Hops, backToPrimary: bool)
    requires Movable(hops, ip)
    ensures TableTick(Table([Route("x", ip)], None), hops, backToPrimary) == Table([Route("x", Next(hops, ip))], None)
  {
    OnePass(Route("x", ip), None, hops, backToPrimary);
    OneSorted(Route("x", Next(hops, ip)));
    var none: seq<Route> := [];
    assert none + [Route("x", Next(hops, ip))] == [Route("x", Next(hops, ip))];
  }

  lemma {:induction false} RingStep(ip: Ip, n: nat, m: nat, hops: Hops)
    requires n > 0 && Next(hops, ip) != ip && Follow(hops, ip, n) == ip
    ensures Next(hops, Follow(hops, ip, m)) != Follow(hops, ip, m)
  {
    hide Follow;
    var here := Follow(hops, ip, m);
    if Next(hops, here) == here {
      AroundTheRing(hops, ip, n, m);
      assert m * n >= m;
      FollowMore(hops, ip, m, m * n - m);
      FollowFixed(hops, here, m * n - m);
      assert false;
    }
  }

  lemma {:induction false} RingTicks(ip: Ip, n: nat, m: nat, hops: Hops, backToPrimary: bool)
    requires n > 0 && Next(hops, ip) != ip && Follow(hops, ip, n) == ip
    ensures Ticks(Table([Route("x", ip)], None), m, hops, backToPrimary)
            == Table([Route("x", Follow(hops, ip, m))], None)
    decreases m
  {
    hide TableTick;
    if m > 0 {
      RingTicks(ip, n, m - 1, hops, backToPrimary);
      RingStep(ip, n, m - 1, hops);
      OneRouteTick(Follow(hops, ip, m - 1), hops, backToPrimary);
      FollowOne(hops, ip, m - 1);
    }
  }

  lemma RingNeverRests(ip: Ip, n: nat, hops: Hops, backToPrimary: bool)
    requires n > 0 && Next(hops, ip) != ip && Follow(hops, ip, n) == ip
    ensures !Rests(Table([Route("x", ip)], None), hops, backToPrimary)
  {
    hide TableTick, Follow, Next, Ticks;
    var t := Table([Route("x", ip)], None);
    forall m: nat
      ensures TableTick(Ticks(t, m, hops, backToPrimary), hops, backToPrimary) != Ticks(t, m, hops, backToPrimary)
    {
      RingTicks(ip, n, m, hops, backToPrimary);
      RingTicks(ip, n, m + 1, hops, backToPrimary);
      NextTick(t, m, hops, backToPrimary);
      FollowOne(hops, ip, m);
      RingStep(ip, n, m, hops);
    }
  }

  lemma NextTick(t: Table, n: nat, hops: Hops, backToPrimary: bool)
    ensures Ticks(t, n + 1, hops, backToPrimary) == TableTick(Ticks(t, n, hops, backToPrimary), hops, backToPrimary)
  {
  }

  /** From here the backups lead to an address that is healthy only. */
  ghost predicate LeadsToPure(hops: Hops, ip: Ip) {
    exists n: nat :: Pure(hops, Follow(hops, ip, n))
  }

  lemma LeadsOn(hops: Hops, ip: Ip)
    requires LeadsToPure(hops, ip) && !Pure(hops, ip)
    ensures Next(hops, ip) != ip && LeadsToPure(hops, Next(hops, ip))
  {
    hide Next, Pure;
    var n: nat :| Pure(hops, Follow(hops, ip, n));
    FollowNone(hops, ip);
    if Next(hops, ip) == ip {
      FollowFixed(hops, ip, n);
      assert false;
    }
    FollowOne(hops, ip, n - 1);
  }

  /** Where the route goes: along the backups, and from an address that is healthy only back to `home`. */
  function Detour(hops: Hops, home: Ip, ip: Ip): Ip {
    if Pure(hops, ip) then home else Next(hops, ip)
  }

  lemma DetourTick(home: Ip, ip: Ip, hops: Hops)
    requires home in hops.healthy && home in hops.unhealthy && LeadsToPure(hops, ip)
    ensures TableTick(Table([Route("x", ip)], Some(map["x" := home])), hops, true)
            == Table([Route("x", Detour(hops, home, ip))], Some(map["x" := home]))
    ensures Detour(hops, home, ip) != ip
  {
    hide LeadsToPure;
    if !Pure(hops, ip) {
      LeadsOn(hops, ip);
    }
    OnePass(Route("x", ip), Some(map["x" := home]), hops, true);
    OneSorted(Route("x", Detour(hops, home, ip)));
    var none: seq<Route> := [];
    assert none + [Route("x", Detour(hops, home, ip))] == [Route("x", Detour(hops, home, ip))];
    var noPrefix: set<Prefix> := {};
    assert map["x" := home].Keys == {"x"} == noPrefix + {"x"};
  }

  lemma {:induction false} DetourTicks(home: Ip, n: nat, hops: Hops) returns (ip: Ip)
    requires home in hops.healthy && home in hops.unhealthy && LeadsToPure(hops, home)
    ensures LeadsToPure(hops, ip)
    ensures Ticks(Table([Route("x", home)], Some(map["x" := home])), n, hops, true)
            == Table([Route("x", ip)], Some(map["x" := home]))
    decreases n
  {
    hide TableTick, LeadsToPure;
    ip := home;
    if n > 0 {
      var before := DetourTicks(home, n - 1, hops);
      DetourTick(home, before, hops);
      ip := Detour(hops, home, before);
      if !Pure(hops, before) {
        LeadsOn(hops, before);
      }
    }
  }

  lemma DetourNeverRests(home: Ip, hops: Hops)
    requires home in hops.healthy && home in hops.unhealthy && LeadsToPure(hops, home)
    ensures !Rests(Table([Route("x", home)], Some(map["x" := home])), hops, true)
  {
    hide TableTick, LeadsToPure, Ticks, Detour;
    var t := Table([Route("x", home)], Some(map["x" := home]));
    forall m: nat
      ensures TableTick(Ticks(t, m, hops, true), hops, true) != Ticks(t, m, hops, true)
    {
      var ip := DetourTicks(home, m, hops);
      DetourTick(home, ip, hops);
    }
  }

  // ---------------------------------------------------------------------------------------------
  // Without them every route runs out of moves

  /** At most n more backups to follow. */
  predicate EndsIn(hops: Hops, ip: Ip, n: nat) {
    Next(hops, Follow(hops, ip, n)) == Follow(hops, ip, n)
  }

  lemma EndsOneLess(hops: Hops, ip: Ip, n: nat)
    ensures n > 0 ==> (EndsIn(hops, ip, n) <==> EndsIn(hops, Next(hops, ip), n - 1))
    ensures EndsIn(hops, ip, 0) <==> Next(hops, ip) == ip
  {
  }

  lemma EndsLater(hops: Hops, ip: Ip, n: nat, m: nat)
    requires EndsIn(hops, ip, n) && n <= m
    ensures EndsIn(hops, ip, m)
  {
    hide Follow, Next;
    FollowMore(hops, ip, n, m - n);
    FollowFixed(hops, Follow(hops, ip, n), m - n);
  }

  ghost predicate LeadsTo(hops: Hops, from: Ip, to: Ip) {
    exists n: nat :: n > 0 && Follow(hops, from, n) == to
  }

  lemma LeadsToNext(hops: Hops, from: Ip, to: Ip)
    requires from == to || LeadsTo(hops, from, to)
    ensures LeadsTo(hops, from, Next(hops, to))
  {
    hide Follow, Next;
    FollowNone(hops, from);
    var n: nat :| Follow(hops, from, n) == to;
    FollowOne(hops, from, n);
  }

  /** Without a ring no address comes twice, so there are at most as many moves as failed addresses. */
  lemma {:induction false} NoRingEnds(hops: Hops, ip: Ip, seen: set<Ip>)
    requires !HasRing(hops) && seen <= hops.unhealthy.Keys
    requires forall a :: a in seen ==> LeadsTo(hops, a, ip)
    ensures |seen| <= |hops.unhealthy.Keys| && EndsIn(hops, ip, |hops.unhealthy.Keys| - |seen|)
    decreases |hops.unhealthy.Keys - seen|
  {
    hide EndsIn, LeadsTo;
    SubsetSize(seen, hops.unhealthy.Keys);
    var room := |hops.unhealthy.Keys| - |seen|;
    if Next(hops, ip) == ip {
      EndsOneLess(hops, ip, 0);
      EndsLater(hops, ip, 0, room);
    } else {
      if ip in seen {
        RingFound(hops, ip);
        assert false;
      }
      var more := seen + {ip};
      forall a | a in more
        ensures LeadsTo(hops, a, Next(hops, ip))
      {
        LeadsToNext(hops, a, ip);
      }
      SubsetSize(more, hops.unhealthy.Keys);
      NoRingEnds(hops, Next(hops, ip), more);
      EndsOneLess(hops, ip, room);
    }
  }

  lemma RingFound(hops: Hops, ip: Ip)
    requires LeadsTo(hops, ip, ip) && Next(hops, ip) != ip
    ensures HasRing(hops)
  {
  }

  /** At most m more ticks move this route: it is home; or its backups never lead to an address that is
      healthy only, and they end in time; or there is time for them to end, for one call back, and for the
      backups of the address it is called to. */
  ghost predicate Tires(r: Route, preferences: Option<Preferences>, hops: Hops, backToPrimary: bool, m: nat) {
    var (hop, all) := (r.nextHopAddress, |hops.unhealthy.Keys|);
    || (Pure(hops, hop) && AtHome(r, preferences, hops, backToPrimary))
    || (!LeadsToPure(hops, hop) && EndsIn(hops, hop, m))
    || (m > all && EndsIn(hops, hop, m - all - 1))
  }

  lemma TiresLater(r: Route, before: Option<Preferences>, after: Option<Preferences>, hops: Hops, backToPrimary: bool,
                   m: nat)
    requires Tires(r, before, hops, backToPrimary, m) && Extends(before, after)
    ensures Tires(r, after, hops, backToPrimary, m)
  {
    hide EndsIn, LeadsToPure, Pure;
  }

  lemma PureLeads(hops: Hops, ip: Ip)
    requires Pure(hops, ip)
    ensures LeadsToPure(hops, ip)
  {
    assert Pure(hops, Follow(hops, ip, 0));
  }

  /** What the step makes of one route. */
  function Stepped(pass: Pass, route: Route, hops: Hops, backToPrimary: bool): Route {
    StepMeaning(pass, route, hops, backToPrimary);
    StepRoute(pass, route, hops, backToPrimary).routes[|pass.routes|]
  }

  lemma StepFollows(pass: Pass, route: Route, hops: Hops, backToPrimary: bool)
    requires !Pure(hops, route.nextHopAddress)
    ensures Stepped(pass, route, hops, backToPrimary) == route.(nextHopAddress := Next(hops, route.nextHopAddress))
  {
  }

  lemma StepCallsBack(pass: Pass, route: Route, hops: Hops, backToPrimary: bool)
    requires Pure(hops, route.nextHopAddress)
    ensures var r := Stepped(pass, route, hops, backToPrimary);
            && AtHome(r, StepRoute(pass, route, hops, backToPrimary).preferences, hops, backToPrimary)
            && r.nextHopAddress in hops.healthy
            && (AtHome(route, pass.preferences, hops, backToPrimary) ==> r == route)
            && (r != route ==> backToPrimary)
  {
  }

  lemma NotLeading(hops: Hops, ip: Ip)
    requires !LeadsToPure(hops, ip)
    ensures !LeadsToPure(hops, Next(hops, ip)) && !Pure(hops, ip)
  {
    hide Next, Pure, Follow;
    forall n: nat
      ensures !Pure(hops, Follow(hops, Next(hops, ip), n))
    {
      FollowOne(hops, ip, n);
    }
    FollowNone(hops, ip);
  }

  lemma StepTires(pass: Pass, route: Route, hops: Hops, backToPrimary: bool, m: nat)
    requires !HasRing(hops) && (backToPrimary ==> !HasDetour(hops)) && m > 0
    requires Tires(route, pass.preferences, hops, backToPrimary, m)
    ensures var after := StepRoute(pass, route, hops, backToPrimary);
            Tires(Stepped(pass, route, hops, backToPrimary), after.preferences, hops, backToPrimary, m - 1)
  {
    hide StepRoute, Stepped, Pure, LeadsToPure, EndsIn, AtHome, Next, HasRing, HasDetour;
    var (hop, all) := (route.nextHopAddress, |hops.unhealthy.Keys|);
    var r := Stepped(pass, route, hops, backToPrimary);
    if Pure(hops, hop) {
      StepCallsBack(pass, route, hops, backToPrimary);
      if !Pure(hops, r.nextHopAddress) {
        PureLeads(hops, hop);
        CalledBack(hops, r.nextHopAddress, m - 1);
      }
    } else {
      StepFollows(pass, route, hops, backToPrimary);
      if !LeadsToPure(hops, hop) && EndsIn(hops, hop, m) {
        NotLeading(hops, hop);
        EndsOneLess(hops, hop, m);
      } else if m - all - 1 > 0 {
        EndsOneLess(hops, hop, m - all - 1);
      } else {
        EndsOneLess(hops, hop, 0);
        StuckLeadsNowhere(hops, hop);
        EndsLater(hops, hop, 0, m - 1);
      }
    }
  }

  lemma StuckLeadsNowhere(hops: Hops, ip: Ip)
    requires !Pure(hops, ip) && Next(hops, ip) == ip
    ensures !LeadsToPure(hops, ip)
  {
    hide Next, Pure;
    forall n: nat
      ensures !Pure(hops, Follow(hops, ip, n))
    {
      FollowFixed(hops, ip, n);
    }
  }

  /** Without a detour, an address to which a route is called back is home or leads to none. */
  lemma CalledBack(hops: Hops, ip: Ip, m: nat)
    requires !HasRing(hops) && !HasDetour(hops) && ip in hops.healthy && !Pure(hops, ip)
    requires m >= |hops.unhealthy.Keys|
    ensures !LeadsToPure(hops, ip) && EndsIn(hops, ip, m)
  {
    hide EndsIn, HasRing, Follow;
    NoRingEnds(hops, ip, {});
    EndsLater(hops, ip, |hops.unhealthy.Keys|, m);
  }

  ghost predicate AllTire(t: Table, hops: Hops, backToPrimary: bool, m: nat) {
    forall r :: r in t.routes ==> Tires(r, t.preferences, hops, backToPrimary, m)
  }

  lemma {:induction false} PassTires(routes: seq<Route>, preferences: Option<Preferences>, hops: Hops,
                                     backToPrimary: bool, m: nat)
    requires !HasRing(hops) && (backToPrimary ==> !HasDetour(hops)) && m > 0
    requires AllTire(Table(routes, preferences), hops, backToPrimary, m)
    ensures var pass := PassOver(routes, preferences, hops, backToPrimary);
            AllTire(Table(pass.routes, pass.preferences), hops, backToPrimary, m - 1)
    decreases |routes|
  {
    hide StepRoute, Tires, Extends, HasRing, HasDetour;
    if routes != [] {
      var (front, last) := (routes[..|routes| - 1], routes[|routes| - 1]);
      var before := PassOver(front, preferences, hops, backToPrimary);
      var pass := PassOver(routes, preferences, hops, backToPrimary);
      assert last in routes && forall r :: r in front ==> r in routes;
      PassTires(front, preferences, hops, backToPrimary, m);
      PassKeepsRecords(front, preferences, hops, backToPrimary);
      TiresLater(last, preferences, before.preferences, hops, backToPrimary, m);
      StepTires(before, last, hops, backToPrimary, m);
      StepMeaning(before, last, hops, backToPrimary);
      forall r | r in pass.routes
        ensures Tires(r, pass.preferences, hops, backToPrimary, m - 1)
      {
        var k :| 0 <= k < |pass.routes| && pass.routes[k] == r;
        if k < |before.routes| {
          assert r == pass.routes[..|before.routes|][k] == before.routes[k];
          TiresLater(r, before.preferences, pass.preferences, hops, backToPrimary, m - 1);
        }
      }
    }
  }

  /** Pruning does not reach a route that is home. */
  lemma TiresPruned(r: Route, pass: Pass, hops: Hops, backToPrimary: bool, m: nat)
    requires Tires(r, pass.preferences, hops, backToPrimary, m)
    requires Pure(hops, r.nextHopAddress) ==> r.destinationPrefix in pass.prefixes
    ensures Tires(r, Pruned(pass), hops, backToPrimary, m)
  {
    hide EndsIn, LeadsToPure, Pruned, Pure;
    PrunedKeeps(pass);
  }

  lemma TickTires(t: Table, hops: Hops, backToPrimary: bool, m: nat)
    requires !HasRing(hops) && (backToPrimary ==> !HasDetour(hops)) && m > 0
    requires AllTire(t, hops, backToPrimary, m)
    ensures AllTire(TableTick(t, hops, backToPrimary), hops, backToPrimary, m - 1)
  {
    hide PassOver, SortRoutes, Pruned, Tires, HasRing, HasDetour, ManagedPrefixes, Switched;
    if t.routes != [] {
      var pass := PassOver(t.routes, t.preferences, hops, backToPrimary);
      var after := TableTick(t, hops, backToPrimary);
      PassTires(t.routes, t.preferences, hops, backToPrimary, m);
      PassMeaning(t.routes, t.preferences, hops, backToPrimary);
      TickRoutes(t, hops, backToPrimary);
      ManagedPrefixesStay(t, hops, backToPrimary);
      forall r | r in after.routes
        ensures Tires(r, after.preferences, hops, backToPrimary, m - 1)
      {
        if Pure(hops, r.nextHopAddress) {
          ManagedRoutePrefix(after.routes, r, hops);
        }
        TiresPruned(r, pass, hops, backToPrimary, m - 1);
      }
    }
  }

  lemma {:induction false} TicksTire(t: Table, hops: Hops, backToPrimary: bool, n: nat, m: nat)
    requires !HasRing(hops) && (backToPrimary ==> !HasDetour(hops)) && n <= m
    requires AllTire(t, hops, backToPrimary, m)
    ensures AllTire(Ticks(t, n, hops, backToPrimary), hops, backToPrimary, m - n)
    decreases n
  {
    hide TableTick, AllTire, HasRing, HasDetour;
    if n > 0 {
      TicksTire(t, hops, backToPrimary, n - 1, m);
      TickTires(Ticks(t, n - 1, hops, backToPrimary), hops, backToPrimary, m - (n - 1));
    }
  }

  // ---------------------------------------------------------------------------------------------
  // When every route is tired, only the order of the routes can still change

  predicate Idle(r: Route, preferences: Option<Preferences>, hops: Hops, backToPrimary: bool) {
    && Next(hops, r.nextHopAddress) == r.nextHopAddress
    && (Pure(hops, r.nextHopAddress) ==> AtHome(r, preferences, hops, backToPrimary))
  }

  predicate AllIdle(t: Table, hops: Hops, backToPrimary: bool) {
    forall r :: r in t.routes ==> Idle(r, t.preferences, hops, backToPrimary)
  }

  lemma TiredIsIdle(r: Route, preferences: Option<Preferences>, hops: Hops, backToPrimary: bool)
    requires Tires(r, preferences, hops, backToPrimary, 0)
    ensures Idle(r, preferences, hops, backToPrimary)
  {
    hide LeadsToPure, AtHome;
    if Pure(hops, r.nextHopAddress) {
      PureLeads(hops, r.nextHopAddress);
    }
  }

  lemma IdleStep(pass: Pass, route: Route, hops: Hops, backToPrimary: bool)
    requires Idle(route, pass.preferences, hops, backToPrimary)
    ensures var after := StepRoute(pass, route, hops, backToPrimary);
            after.routes == pass.routes + [route] && after.preferences == pass.preferences
  {
  }

  lemma {:induction false} IdlePass(routes: seq<Route>, preferences: Option<Preferences>, hops: Hops,
                                    backToPrimary: bool)
    requires AllIdle(Table(routes, preferences), hops, backToPrimary)
    ensures var pass := PassOver(routes, preferences, hops, backToPrimary);
            pass.routes == routes && pass.preferences == preferences
    decreases |routes|
  {
    hide StepRoute, Idle;
    if routes != [] {
      var (front, last) := (routes[..|routes| - 1], routes[|routes| - 1]);
      assert last in routes && forall r :: r in front ==> r in routes;
      IdlePass(front, preferences, hops, backToPrimary);
      IdleStep(PassOver(front, preferences, hops, backToPrimary), last, hops, backToPrimary);
      assert front + [last] == routes;
    }
  }

  lemma {:induction false} SortSorted(routes: seq<Route>)
    requires SortedByPrefix(routes)
    ensures SortRoutes(routes) == routes
    decreases |routes|
  {
    hide Leq;
    if routes != [] {
      SortSorted(routes[1..]);
      assert routes == [routes[0]] + routes[1..];
    }
  }

  lemma IdleTick(t: Table, hops: Hops, backToPrimary: bool)
    requires t.routes != [] && AllIdle(t, hops, backToPrimary) && SizesAgree(t, hops)
    ensures var after := TableTick(t, hops, backToPrimary);
            && after.preferences == t.preferences && (after == t || after.routes == SortRoutes(t.routes))
            && AllIdle(after, hops, backToPrimary)
  {
    hide PassOver, SortRoutes, Pruned, Idle, ManagedPrefixes, Switched;
    PassMeaning(t.routes, t.preferences, hops, backToPrimary);
    IdlePass(t.routes, t.preferences, hops, backToPrimary);
    PruneAgain(t.preferences, PassOver(t.routes, t.preferences, hops, backToPrimary));
    TickRoutes(t, hops, backToPrimary);
  }

  /** At most one more tick, which may sort the routes, and then nothing changes. */
  lemma IdleRests(t: Table, hops: Hops, backToPrimary: bool)
    requires AllIdle(t, hops, backToPrimary) && SizesAgree(t, hops)
    ensures var after := TableTick(t, hops, backToPrimary); TableTick(after, hops, backToPrimary) == after
  {
    hide TableTick, AllIdle, SizesAgree, SortRoutes, SortedByPrefix;
    if t.routes == [] {
      EmptyTable(t, hops, backToPrimary);
      return;
    }
    var after := TableTick(t, hops, backToPrimary);
    IdleTick(t, hops, backToPrimary);
    SizesAgreeAfter(t, hops, backToPrimary);
    SortMeaning(t.routes);
    SameElements(SortRoutes(t.routes), t.routes);
    IdleTick(after, hops, backToPrimary);
    SortSorted(SortRoutes(t.routes));
  }

  // ---------------------------------------------------------------------------------------------
  // The condition

  /** How long it can take: each failed address once, a call back, each failed address once more, and the
      routes sorted. */
  function Patience(hops: Hops): nat {
    2 * |hops.unhealthy.Keys| + 2
  }

  lemma RestsInTime(t: Table, hops: Hops, backToPrimary: bool)
    requires !HasRing(hops) && (backToPrimary ==> !HasDetour(hops))
    ensures var last := Ticks(t, Patience(hops), hops, backToPrimary); TableTick(last, hops, backToPrimary) == last
  {
    hide TableTick, HasRing, HasDetour, Tires, SizesAgree, Idle;
    var all := |hops.unhealthy.Keys|;
    forall r | r in t.routes
      ensures Tires(r, t.preferences, hops, backToPrimary, 2 * all + 1)
    {
      TiresInTime(r, t.preferences, hops, backToPrimary);
    }
    TicksTire(t, hops, backToPrimary, 2 * all + 1, 2 * all + 1);
    var (before, tired) := (Ticks(t, 2 * all, hops, backToPrimary), Ticks(t, 2 * all + 1, hops, backToPrimary));
    NextTick(t, 2 * all, hops, backToPrimary);
    NextTick(t, 2 * all + 1, hops, backToPrimary);
    forall r | r in tired.routes
      ensures Idle(r, tired.preferences, hops, backToPrimary)
    {
      TiredIsIdle(r, tired.preferences, hops, backToPrimary);
    }
    if before.routes == [] {
      EmptyTable(before, hops, backToPrimary);
    } else {
      SizesAgreeAfter(before, hops, backToPrimary);
      IdleRests(tired, hops, backToPrimary);
    }
  }

  lemma TiresInTime(r: Route, preferences: Option<Preferences>, hops: Hops, backToPrimary: bool)
    requires !HasRing(hops)
    ensures Tires(r, preferences, hops, backToPrimary, 2 * |hops.unhealthy.Keys| + 1)
  {
    hide EndsIn, HasRing, LeadsToPure, Pure, AtHome;
    NoRingEnds(hops, r.nextHopAddress, {});
  }

  ghost predicate AllRest(hops: Hops, backToPrimary: bool) {
    forall t: Table :: Rests(t, hops, backToPrimary)
  }

  /** While the health stays as it is, every route table with every record comes to rest exactly if the
      backups make no ring and, when routes go back, no detour. Then the time it takes has a bound. */
  lemma RestDomain(hops: Hops, backToPrimary: bool)
    ensures AllRest(hops, backToPrimary) <==> !HasRing(hops) && (backToPrimary ==> !HasDetour(hops))
    ensures AllRest(hops, backToPrimary) ==>
              forall t: Table :: var last := Ticks(t, Patience(hops), hops, backToPrimary);
                                 TableTick(last, hops, backToPrimary) == last
  {
    hide TableTick, Ticks, Follow, Next, Pure;
    if HasRing(hops) {
      var ip, n: nat :| n > 0 && Next(hops, ip) != ip && Follow(hops, ip, n) == ip;
      RingNeverRests(ip, n, hops, backToPrimary);
    } else if backToPrimary && HasDetour(hops) {
      var ip, n: nat :| ip in hops.healthy && ip in hops.unhealthy && Pure(hops, Follow(hops, ip, n));
      DetourNeverRests(ip, hops);
    } else {
      forall t: Table
        ensures var last := Ticks(t, Patience(hops), hops, backToPrimary);
                TableTick(last, hops, backToPrimary) == last && Rests(t, hops, backToPrimary)
      {
        RestsInTime(t, hops, backToPrimary);
      }
    }
  }

  /** Distinct addresses are enough: no address is both healthy and failed, so every move is to one that
      is healthy only. */
  lemma DisjointRests(hops: Hops)
    requires Disjoint(hops)
    ensures !HasRing(hops) && !HasDetour(hops)
  {
    forall ip, n: nat | n > 0 && Next(hops, ip) != ip
      ensures Follow(hops, ip, n) != ip
    {
      FollowOne(hops, ip, n - 1);
      FollowFixed(hops, Next(hops, ip), n - 1);
    }
  }

  // ---------------------------------------------------------------------------------------------
  // Two worlds

  /** A first step over a table: nothing seen yet. */
  function FirstStep(route: Route, preferences: Option<Preferences>, hops: Hops, backToPrimary: bool): Pass {
    StepRoute(Pass([], preferences, {}, false, false), route, hops, backToPrimary)
  }

  lemma OneRouteOutcome(id: TableId, route: Route, preferences: Option<Preferences>, hops: Hops, backToPrimary: bool)
    ensures var pass := FirstStep(route, preferences, hops, backToPrimary);
            OutcomeOf(map[id := [route]], TableConfig(id, preferences), {}, hops, backToPrimary)
            == Outcome(TableConfig(id, Pruned(pass)), pass.recorded || SizesDiffer(pass),
                       if pass.modified then Some(pass.routes) else None)
    ensures var pass := FirstStep(route, preferences, hops, backToPrimary);
            !pass.recorded && !SizesDiffer(pass) ==> Pruned(pass) == preferences
  {
    hide StepRoute, SortRoutes;
    var pass := FirstStep(route, preferences, hops, backToPrimary);
    OnePass(route, preferences, hops, backToPrimary);
    StepMeaning(Pass([], preferences, {}, false, false), route, hops, backToPrimary);
    assert |pass.routes| == 1 && pass.routes == [pass.routes[0]];
    OneSorted(pass.routes[0]);
  }

  lemma OneTable(cloud: Cloud, table: TableConfig, hops: Hops, backToPrimary: bool)
    ensures var outcome := OutcomeOf(cloud, table, {}, hops, backToPrimary);
            && PatchesOf(cloud, [table], {}, hops, backToPrimary)
               == (if outcome.patch.Some? then [Patch(table.id, outcome.patch.value)] else [])
            && ConfigsAfter(cloud, [table], {}, hops, backToPrimary) == [outcome.config]
            && (AnyChanged(cloud, [table], {}, hops, backToPrimary) <==> outcome.changed)
  {
    hide OutcomeOf;
    var none: seq<TableConfig> := [];
    assert [table][..0] == none;
    assert [table][0] == table;
  }

  lemma OneTableTick(routers: seq<Router>, states: seq<(Ip, string)>, id: TableId, route: Route,
                     preferences: Option<Preferences>, backToPrimary: bool)
    requires |states| >= 2 && exists ip :: ip in StatusMap(states) && StatusMap(states)[ip] == HEALTHY
    ensures var config := Config(Some(routers), Some([TableConfig(id, preferences)]));
            var pass := FirstStep(route, preferences, GatherHops(routers, StatusMap(states)), backToPrimary);
            Tick(World(map[id := [route]], config), Env(Targets(states), {}, {}, {}, false, false), backToPrimary)
            == World(map[id := if pass.modified then pass.routes else [route]],
                     config.(routeTables := Some([TableConfig(id, Pruned(pass))])))
  {
    hide GatherHops, StatusMap, FirstStep, Pruned, OutcomeOf, SizesDiffer, SortRoutes;
    var hops := GatherHops(routers, StatusMap(states));
    var (cloud, table) := (map[id := [route]], TableConfig(id, preferences));
    var pass := FirstStep(route, preferences, hops, backToPrimary);
    OneRouteOutcome(id, route, preferences, hops, backToPrimary);
    OneTable(cloud, table, hops, backToPrimary);
    hide PatchesOf, ConfigsAfter, AnyChanged;
    ApplyOne(cloud, Patch(id, pass.routes), {});
    assert cloud[id := pass.routes] == map[id := pass.routes];
  }

  lemma TwoStatuses(a: Ip, b: Ip, x: string, y: string)
    requires a != b
    ensures StatusMap([(a, x), (b, y)]) == map[a := x, b := y]
  {
    var none: seq<(Ip, string)> := [];
    assert [(a, x), (b, y)][..1] == [(a, x)] && [(a, x)][..0] == none;
    assert StatusMap([(a, x)]) == map[a := x];
  }

  lemma TwoRouters(a: Router, b: Router, status: map<Ip, string>)
    ensures GatherHops([a, b], status) == AddRouter(AddRouter(Hops(map[], map[]), a, status), b, status)
  {
    hide AddRouter;
    var none: seq<Router> := [];
    assert [a, b][..1] == [a] && [a][..0] == none;
    assert GatherHops([a], status) == AddRouter(Hops(map[], map[]), a, status);
  }

  lemma OneInterface(own: Ip, peer: Ip)
    ensures Backups(map[], [Interface(Some(own), Some(peer))]) == map[own := peer]
  {
    var one := Interface(Some(own), Some(peer));
    assert [one][..0] == [];
  }

  lemma TwoInterfaces(a: Ip, b: Ip)
    requires a != b
    ensures Backups(map[], [Interface(Some(a), Some(b)), Interface(Some(b), Some(a))]) == map[a := b, b := a]
  {
    var (x, y) := (Interface(Some(a), Some(b)), Interface(Some(b), Some(a)));
    OneInterface(a, b);
    assert [x, y][..1] == [x];
  }

  /** A target list that goes on, for two routers. */
  lemma TwoTargets(a: Ip, b: Ip, y: string)
    requires a != b
    ensures exists ip :: ip in StatusMap([(a, HEALTHY), (b, y)]) && StatusMap([(a, HEALTHY), (b, y)])[ip] == HEALTHY
  {
    TwoStatuses(a, b, HEALTHY, y);
    assert StatusMap([(a, HEALTHY), (b, y)])[a] == HEALTHY;
  }

  const SHARED := [Interface(Some("a"), Some("b")), Interface(Some("b"), Some("a"))]

  const SHARING := [Router(Some("h1"), SHARED), Router(Some("h2"), SHARED)]

  lemma SharedHops()
    ensures GatherHops(SHARING, StatusMap([("h1", HEALTHY), ("h2", "UNHEALTHY")]))
            == Hops(map["a" := "b", "b" := "a"], map["a" := "b", "b" := "a"])
  {
    hide Backups, GatherHops, StatusMap;
    TwoStatuses("h1", "h2", HEALTHY, "UNHEALTHY");
    TwoRouters(SHARING[0], SHARING[1], map["h1" := HEALTHY, "h2" := "UNHEALTHY"]);
    TwoInterfaces("a", "b");
    assert SHARING == [SHARING[0], SHARING[1]];
  }

  lemma SharedStep(hop: Ip, backToPrimary: bool)
    requires hop == "a" || hop == "b"
    ensures var pair := map["a" := "b", "b" := "a"];
            var pass := FirstStep(Route("x", hop), None, Hops(pair, pair), backToPrimary);
            pass.modified && pass.routes == [Route("x", pair[hop])] && Pruned(pass) == None
  {
  }

  function SharedWorld(hop: Ip): World {
    World(map["t" := [Route("x", hop)]], Config(Some(SHARING), Some([TableConfig("t", None)])))
  }

  /** Two routers of different health that are configured with the same two addresses: from one tick to
      the next the route moves there and back, for ever. */
  lemma SharedAddressesOscillate(backToPrimary: bool)
    ensures var env := Env(Targets([("h1", HEALTHY), ("h2", "UNHEALTHY")]), {}, {}, {}, false, false);
            && Tick(SharedWorld("a"), env, backToPrimary) == SharedWorld("b")
            && Tick(SharedWorld("b"), env, backToPrimary) == SharedWorld("a")
  {
    hide StatusMap, GatherHops, Tick, FirstStep, Pruned;
    SharedHops();
    TwoTargets("h1", "h2", "UNHEALTHY");
    var states := [("h1", HEALTHY), ("h2", "UNHEALTHY")];
    SharedStep("a", backToPrimary);
    OneTableTick(SHARING, states, "t", Route("x", "a"), None, backToPrimary);
    SharedStep("b", backToPrimary);
    OneTableTick(SHARING, states, "t", Route("x", "b"), None, backToPrimary);
  }

  const PAIRED := [Router(Some("ha"), [Interface(Some("a"), Some("b"))]),
                   Router(Some("hb"), [Interface(Some("b"), Some("a"))])]

  lemma HalfTheHops()
    ensures GatherHops(PAIRED, StatusMap([("hb", HEALTHY), ("hc", HEALTHY)])) == Hops(map["b" := "a"], map[])
  {
    hide Backups, GatherHops, StatusMap;
    TwoStatuses("hb", "hc", HEALTHY, HEALTHY);
    TwoRouters(PAIRED[0], PAIRED[1], map["hb" := HEALTHY, "hc" := HEALTHY]);
    OneInterface("b", "a");
    assert PAIRED == [PAIRED[0], PAIRED[1]];
  }

  lemma ForgetfulStep(backToPrimary: bool)
    ensures var pass := FirstStep(Route("x", "a"), Some(map["x" := "a"]), Hops(map["b" := "a"], map[]), backToPrimary);
            !pass.modified && Pruned(pass) == Some(map[])
  {
    assert map["x" := "a"].Keys == {"x"};
    var none: Preferences := map[];
    assert map["x" := "a"] - {"x"} == none;
  }

  function PairedWorld(preferences: Preferences): World {
    World(map["t" := [Route("x", "a")]], Config(Some(PAIRED), Some([TableConfig("t", Some(preferences))])))
  }

  /** A router that is missing from a target list takes the preferences for its addresses with it: the
      route stays on its preferred address, but that it is preferred is forgotten. */
  lemma UnlistedRouterIsForgotten(backToPrimary: bool)
    ensures var env := Env(Targets([("hb", HEALTHY), ("hc", HEALTHY)]), {}, {}, {}, false, false);
            Tick(PairedWorld(map["x" := "a"]), env, backToPrimary) == PairedWorld(map[])
  {
    hide StatusMap, GatherHops, Tick, FirstStep, Pruned;
    HalfTheHops();
    TwoTargets("hb", "hc", HEALTHY);
    ForgetfulStep(backToPrimary);
    var states := [("hb", HEALTHY), ("hc", HEALTHY)];
    OneTableTick(PAIRED, states, "t", Route("x", "a"), Some(map["x" := "a"]), backToPrimary);
  }

  lemma FailedHops()
    ensures Movable(GatherHops(PAIRED, StatusMap([("hb", HEALTHY), ("ha", "UNHEALTHY")])), "a")
  {
    hide Backups, GatherHops, StatusMap;
    TwoStatuses("hb", "ha", HEALTHY, "UNHEALTHY");
    TwoRouters(PAIRED[0], PAIRED[1], map["hb" := HEALTHY, "ha" := "UNHEALTHY"]);
    OneInterface("a", "b");
    OneInterface("b", "a");
    assert PAIRED == [PAIRED[0], PAIRED[1]];
  }

  /** Table t has a route on a failed next hop with a healthy backup. Table g has a route to a gateway, and
      so nothing happens to either. */
  lemma GatewayStopsAll(backToPrimary: bool)
    ensures var world := World(map["t" := [Route("x", "a")], "g" := []],
                               Config(Some(PAIRED), Some([TableConfig("t", None), TableConfig("g", None)])));
            var env := Env(Targets([("hb", HEALTHY), ("ha", "UNHEALTHY")]), {}, {"g"}, {}, false, false);
            && Proceeds(env.reply, world.config)
            && Movable(GatherHops(PAIRED, StatusMap(env.reply.states)), "a")
            && Tick(world, env, backToPrimary) == world
  {
    hide StatusMap, GatherHops, Movable;
    var cloud: Cloud := map["t" := [Route("x", "a")], "g" := []];
    var tables := [TableConfig("t", None), TableConfig("g", None)];
    TwoTargets("hb", "ha", "UNHEALTHY");
    FailedHops();
    assert tables[1].id == "g" && Derails(cloud, tables[1], {}, {"g"});
    assert AnyDerails(cloud, tables, {}, {"g"});
  }
}
