/** What a tick does to one route table and its recorded preferences. */
module RouteTables {
  import opened Wrappers
  import opened RouteSwitcher

  predicate IsManaged(hops: Hops, ip: Ip) {
    ip in hops.healthy || ip in hops.unhealthy
  }

  /** On a failed next hop whose backup is up. */
  predicate Movable(hops: Hops, ip: Ip) {
    ip in hops.unhealthy && hops.unhealthy[ip] in hops.healthy
  }

  function ManagedPrefixes(routes: seq<Route>, hops: Hops): set<Prefix> {
    set k | 0 <= k < |routes| && IsManaged(hops, routes[k].nextHopAddress) :: routes[k].destinationPrefix
  }

  /** What may become of one route. */
  predicate Switched(before: Route, after: Route, hops: Hops) {
    var hop := before.nextHopAddress;
    && after.destinationPrefix == before.destinationPrefix
    && (!IsManaged(hops, hop) ==> after == before)
    && (Movable(hops, hop) ==> after.nextHopAddress == hops.unhealthy[hop])
    && (hop in hops.unhealthy && !Movable(hops, hop) ==> after == before)
    && (after == before || after.nextHopAddress in hops.healthy)
  }

  /** A route that changes without need goes where its record says, and only if that is wanted. */
  predicate Justified(before: Route, after: Route, hops: Hops, preferences: Option<Preferences>, backToPrimary: bool) {
    || after == before
    || Movable(hops, before.nextHopAddress)
    || (backToPrimary && preferences.Some? && before.destinationPrefix in preferences.value
        && after.nextHopAddress == preferences.value[before.destinationPrefix])
  }

  /** Nothing recorded is changed or forgotten. */
  predicate Extends(before: Option<Preferences>, after: Option<Preferences>) {
    before.Some? ==>
      after.Some? && forall x :: x in before.value ==> x in after.value && after.value[x] == before.value[x]
  }

  lemma ManagedStep(routes: seq<Route>, hops: Hops)
    requires routes != []
    ensures var (front, last) := (routes[..|routes| - 1], routes[|routes| - 1]);
            ManagedPrefixes(routes, hops) ==
            ManagedPrefixes(front, hops)
            + (if IsManaged(hops, last.nextHopAddress) then {last.destinationPrefix} else {})
  {
    hide IsManaged;
    var (front, last) := (routes[..|routes| - 1], routes[|routes| - 1]);
    forall x | x in ManagedPrefixes(front, hops)
      ensures x in ManagedPrefixes(routes, hops)
    {
      var k :| 0 <= k < |front| && IsManaged(hops, front[k].nextHopAddress) && front[k].destinationPrefix == x;
      assert routes[k] == front[k];
    }
    forall x | x in ManagedPrefixes(routes, hops)
      ensures x in ManagedPrefixes(front, hops) || (IsManaged(hops, last.nextHopAddress) && x == last.destinationPrefix)
    {
      var k :| 0 <= k < |routes| && IsManaged(hops, routes[k].nextHopAddress) && routes[k].destinationPrefix == x;
      if k < |front| {
        assert routes[k] == front[k];
      }
    }
  }

  lemma StepMeaning(pass: Pass, route: Route, hops: Hops, backToPrimary: bool)
    ensures var after := StepRoute(pass, route, hops, backToPrimary);
            && |after.routes| == |pass.routes| + 1 && after.routes[..|pass.routes|] == pass.routes
            && Switched(route, after.routes[|pass.routes|], hops)
            && Justified(route, after.routes[|pass.routes|], hops, after.preferences, backToPrimary)
            && (after.modified <==> pass.modified || after.routes[|pass.routes|].nextHopAddress != route.nextHopAddress
                                    || Movable(hops, route.nextHopAddress))
            && after.prefixes == pass.prefixes
                                 + (if IsManaged(hops, route.nextHopAddress) then {route.destinationPrefix} else {})
            && Extends(pass.preferences, after.preferences)
            && (pass.recorded ==> after.recorded) && (!after.recorded ==> after.preferences == pass.preferences)
  {
  }

  /** The loop over the routes, route by route and as a whole. */
  lemma {:induction false} PassMeaning(routes: seq<Route>, preferences: Option<Preferences>, hops: Hops,
                                       backToPrimary: bool)
    ensures var pass := PassOver(routes, preferences, hops, backToPrimary);
            && |pass.routes| == |routes|
            && (forall k :: 0 <= k < |routes| ==>
                  Switched(routes[k], pass.routes[k], hops)
                  && Justified(routes[k], pass.routes[k], hops, pass.preferences, backToPrimary))
            && pass.prefixes == ManagedPrefixes(routes, hops)
            && (!pass.modified ==> pass.routes == routes)
            && (!pass.recorded ==> pass.preferences == preferences)
            && Extends(preferences, pass.preferences)
    decreases |routes|
  {
    hide ManagedPrefixes, StepRoute, IsManaged, Movable;
    if routes == [] {
      NothingManaged(hops);
    } else {
      var (front, last) := (routes[..|routes| - 1], routes[|routes| - 1]);
      PassMeaning(front, preferences, hops, backToPrimary);
      ManagedStep(routes, hops);
      var before := PassOver(front, preferences, hops, backToPrimary);
      StepMeaning(before, last, hops, backToPrimary);
      var pass := PassOver(routes, preferences, hops, backToPrimary);
      assert front + [last] == routes;
      forall k | 0 <= k < |routes|
        ensures Switched(routes[k], pass.routes[k], hops)
        ensures Justified(routes[k], pass.routes[k], hops, pass.preferences, backToPrimary)
        ensures !pass.modified ==> pass.routes[k] == routes[k]
      {
        if k < |front| {
          assert pass.routes[k] == pass.routes[..|front|][k] == before.routes[k] && routes[k] == front[k];
        }
      }
    }
  }

  /** A table is PATCHed exactly if one of its routes is on a failed next hop with a healthy backup, or changes. */
  lemma {:induction false} PassModifies(routes: seq<Route>, preferences: Option<Preferences>, hops: Hops,
                                        backToPrimary: bool)
    ensures var pass := PassOver(routes, preferences, hops, backToPrimary);
            && |pass.routes| == |routes|
            && (pass.modified <==>
                exists k ::
                  0 <= k < |routes| && (Movable(hops, routes[k].nextHopAddress) || pass.routes[k] != routes[k]))
    decreases |routes|
  {
    hide StepRoute, Movable, ManagedPrefixes, IsManaged;
    if routes != [] {
      var (front, last) := (routes[..|routes| - 1], routes[|routes| - 1]);
      PassModifies(front, preferences, hops, backToPrimary);
      var before := PassOver(front, preferences, hops, backToPrimary);
      StepMeaning(before, last, hops, backToPrimary);
      var pass := PassOver(routes, preferences, hops, backToPrimary);
      assert pass.routes == before.routes + [pass.routes[|front|]];
      forall k | 0 <= k < |front|
        ensures pass.routes[k] == before.routes[k] && routes[k] == front[k]
      {
      }
    }
  }

  lemma NothingManaged(hops: Hops)
    ensures ManagedPrefixes([], hops) == {}
  {
  }

  // ---------------------------------------------------------------------------------------------
  // The sort

  lemma {:induction false} LeqTotal(a: string, b: string)
    ensures Leq(a, b) || Leq(b, a)
    decreases |a|
  {
    if a != "" && b != "" && a[0] == b[0] {
      LeqTotal(a[1..], b[1..]);
    }
  }

  lemma {:induction false} LeqTransitive(a: string, b: string, c: string)
    requires Leq(a, b) && Leq(b, c)
    ensures Leq(a, c)
    decreases |a|
  {
    if a != "" && a[0] == b[0] && b[0] == c[0] {
      LeqTransitive(a[1..], b[1..], c[1..]);
    }
  }

  /** Strings are in the order of their first different characters; a string comes before those it begins. */
  lemma {:induction false} LeqMeaning(a: string, b: string) returns (n: nat)
    ensures n <= |a| && n <= |b| && a[..n] == b[..n] && (n < |a| && n < |b| ==> a[n] != b[n])
    ensures Leq(a, b) <==> n == |a| || (n < |b| && a[n] < b[n])
    decreases |a|
  {
    n := 0;
    if a != "" && b != "" && a[0] == b[0] {
      var m := LeqMeaning(a[1..], b[1..]);
      n := m + 1;
      assert a[..n] == [a[0]] + a[1..][..m] && b[..n] == [b[0]] + b[1..][..m];
    }
  }

  predicate SortedByPrefix(routes: seq<Route>) {
    forall i, j :: 0 <= i < j < |routes| ==> Leq(routes[i].destinationPrefix, routes[j].destinationPrefix)
  }

  lemma {:induction false} InsertSorts(route: Route, sorted: seq<Route>)
    requires SortedByPrefix(sorted)
    ensures SortedByPrefix(Insert(route, sorted))
    ensures multiset(Insert(route, sorted)) == multiset(sorted) + multiset{route}
    decreases |sorted|
  {
    hide Leq;
    if sorted != [] {
      LeqTotal(route.destinationPrefix, sorted[0].destinationPrefix);
      assert sorted == [sorted[0]] + sorted[1..];
      if Leq(route.destinationPrefix, sorted[0].destinationPrefix) {
        forall j | 0 <= j < |sorted|
          ensures Leq(route.destinationPrefix, sorted[j].destinationPrefix)
        {
          if j > 0 {
            LeqTransitive(route.destinationPrefix, sorted[0].destinationPrefix, sorted[j].destinationPrefix);
          }
        }
      } else {
        InsertSorts(route, sorted[1..]);
        var rest := Insert(route, sorted[1..]);
        forall j | 0 <= j < |rest|
          ensures Leq(sorted[0].destinationPrefix, rest[j].destinationPrefix)
        {
          assert rest[j] in multiset(rest);
          assert rest[j] == route || rest[j] in sorted[1..];
        }
      }
    }
  }

  /** The list sent to the cloud is the same routes in the order of their prefixes. */
  lemma {:induction false} SortMeaning(routes: seq<Route>)
    ensures SortedByPrefix(SortRoutes(routes)) && multiset(SortRoutes(routes)) == multiset(routes)
    decreases |routes|
  {
    if routes != [] {
      SortMeaning(routes[1..]);
      InsertSorts(routes[0], SortRoutes(routes[1..]));
      assert routes == [routes[0]] + routes[1..];
    }
  }

  /** The routes of one prefix, in their order. */
  function OfPrefix(routes: seq<Route>, x: Prefix): seq<Route> {
    if routes == [] then []
    else (if routes[0].destinationPrefix == x then [routes[0]] else []) + OfPrefix(routes[1..], x)
  }

  lemma {:induction false} InsertStable(route: Route, sorted: seq<Route>, x: Prefix)
    requires SortedByPrefix(sorted)
    ensures OfPrefix(Insert(route, sorted), x) == OfPrefix([route] + sorted, x)
    decreases |sorted|
  {
    hide Leq;
    assert ([route] + sorted)[1..] == sorted;
    if sorted != [] && !Leq(route.destinationPrefix, sorted[0].destinationPrefix) {
      InsertStable(route, sorted[1..], x);
      assert ([route] + sorted[1..])[1..] == sorted[1..];
      assert Insert(route, sorted)[1..] == Insert(route, sorted[1..]);
      LeqReflexive(route.destinationPrefix);
      assert route.destinationPrefix != sorted[0].destinationPrefix;
    }
  }

  lemma LeqReflexive(a: string)
    ensures Leq(a, a)
  {
    LeqTotal(a, a);
  }

  /** Routes of the same prefix keep their order. */
  lemma {:induction false} SortStable(routes: seq<Route>, x: Prefix)
    ensures OfPrefix(SortRoutes(routes), x) == OfPrefix(routes, x)
    decreases |routes|
  {
    hide Insert, SortedByPrefix;
    if routes != [] {
      SortStable(routes[1..], x);
      SortMeaning(routes[1..]);
      InsertStable(routes[0], SortRoutes(routes[1..]), x);
      assert ([routes[0]] + SortRoutes(routes[1..]))[1..] == SortRoutes(routes[1..]);
    }
  }

  lemma SameElements(a: seq<Route>, b: seq<Route>)
    requires multiset(a) == multiset(b)
    ensures |a| == |b|
    ensures forall r :: r in a <==> r in b
  {
    assert |multiset(a)| == |multiset(b)|;
    forall r
      ensures r in a <==> r in b
    {
      assert r in multiset(a) <==> r in multiset(b);
    }
  }

  /** Safety and frame of a tick: the list sent in a PATCH is, sorted by prefix, the old list with each
      route switched on its own. Only routes on a router's address change; they keep their prefix; they
      move only to an address that is healthy now; every route on a failed hop with a healthy backup
      moves to that backup; and any other move is a return to the recorded preference. */
  lemma TickSafety(cloud: Cloud, table: TableConfig, getFails: set<TableId>, hops: Hops, backToPrimary: bool)
    requires OutcomeOf(cloud, table, getFails, hops, backToPrimary).patch.Some?
    ensures var outcome := OutcomeOf(cloud, table, getFails, hops, backToPrimary);
            && table.id in cloud && SortedByPrefix(outcome.patch.value)
            && exists switched: seq<Route> ::
                 && multiset(outcome.patch.value) == multiset(switched)
                 && |switched| == |cloud[table.id]|
                 && forall k :: 0 <= k < |switched| ==>
                      Switched(cloud[table.id][k], switched[k], hops)
                      && Justified(cloud[table.id][k], switched[k], hops, outcome.config.routes, backToPrimary)
  {
    hide SortedByPrefix, SortRoutes, PassOver, Pruned;
    var routes := cloud[table.id];
    var pass := PassOver(routes, table.routes, hops, backToPrimary);
    PassMeaning(routes, table.routes, hops, backToPrimary);
    SortMeaning(pass.routes);
    PrunedKeeps(pass);
    forall k | 0 <= k < |routes|
      ensures Justified(routes[k], pass.routes[k], hops, Pruned(pass), backToPrimary)
    {
      if IsManaged(hops, routes[k].nextHopAddress) {
        ManagedRoutePrefix(routes, routes[k], hops);
      }
    }
  }

  // ---------------------------------------------------------------------------------------------
  // Pruning by size

  lemma SubsetSize<T>(a: set<T>, b: set<T>)
    requires a <= b
    ensures |a| <= |b| && (|a| == |b| ==> a == b)
  {
    assert b == a + (b - a);
    assert |b| == |a| + |b - a|;
    if |a| == |b| {
      assert b - a == {};
    }
  }

  /** Every prefix on a healthy next hop is recorded after the loop. */
  lemma {:induction false} HealthyRecorded(routes: seq<Route>, preferences: Option<Preferences>, hops: Hops,
                                           backToPrimary: bool)
    ensures var pass := PassOver(routes, preferences, hops, backToPrimary);
            forall k :: 0 <= k < |routes| && routes[k].nextHopAddress in hops.healthy
                && routes[k].nextHopAddress !in hops.unhealthy
              ==> pass.preferences.Some? && routes[k].destinationPrefix in pass.preferences.value
    decreases |routes|
  {
    if routes != [] {
      var front := routes[..|routes| - 1];
      HealthyRecorded(front, preferences, hops, backToPrimary);
      var before := PassOver(front, preferences, hops, backToPrimary);
      var pass := PassOver(routes, preferences, hops, backToPrimary);
      assert Extends(before.preferences, pass.preferences);
      forall k | 0 <= k < |front| && routes[k].nextHopAddress in hops.healthy
          && routes[k].nextHopAddress !in hops.unhealthy
        ensures pass.preferences.Some? && routes[k].destinationPrefix in pass.preferences.value
      {
        assert front[k] == routes[k];
      }
    }
  }

  /** The first route of the prefix that is on a healthy next hop. */
  predicate FirstHealthy(routes: seq<Route>, hops: Hops, x: Prefix, k: nat)
    requires k < |routes|
  {
    && OnHealthy(routes[k], hops, x)
    && forall j :: 0 <= j < k ==> !OnHealthy(routes[j], hops, x)
  }

  predicate OnHealthy(r: Route, hops: Hops, x: Prefix) {
    r.destinationPrefix == x && r.nextHopAddress in hops.healthy && r.nextHopAddress !in hops.unhealthy
  }

  predicate Newly(before: Option<Preferences>, after: Option<Preferences>, x: Prefix) {
    after.Some? && x in after.value && !(before.Some? && x in before.value)
  }

  lemma StepRecords(pass: Pass, route: Route, hops: Hops, backToPrimary: bool)
    ensures var after := StepRoute(pass, route, hops, backToPrimary);
            && (forall x :: Newly(pass.preferences, after.preferences, x) <==>
                  OnHealthy(route, hops, x) && !(pass.preferences.Some? && x in pass.preferences.value))
            && (forall x :: Newly(pass.preferences, after.preferences, x) ==>
                  after.preferences.value[x] == route.nextHopAddress)
            && (after.recorded <==>
                pass.recorded || Newly(pass.preferences, after.preferences, route.destinationPrefix))
  {
  }

  /** What a pass records: exactly the prefixes not recorded before that have a route on a healthy next hop,
      with the next hop of the first such route. */
  lemma {:induction false} NewRecords(routes: seq<Route>, preferences: Option<Preferences>, hops: Hops,
                                      backToPrimary: bool)
    ensures var pass := PassOver(routes, preferences, hops, backToPrimary);
            && (forall x :: Newly(preferences, pass.preferences, x) <==>
                  !(preferences.Some? && x in preferences.value)
                  && exists k :: 0 <= k < |routes| && OnHealthy(routes[k], hops, x))
            && (forall x, k :: Newly(preferences, pass.preferences, x)
                               && 0 <= k < |routes| && FirstHealthy(routes, hops, x, k)
                  ==> pass.preferences.value[x] == routes[k].nextHopAddress)
            && (pass.recorded <==> exists x :: Newly(preferences, pass.preferences, x))
    decreases |routes|
  {
    hide StepRoute, OnHealthy;
    if routes != [] {
      var (front, last) := (routes[..|routes| - 1], routes[|routes| - 1]);
      var before := PassOver(front, preferences, hops, backToPrimary);
      var pass := PassOver(routes, preferences, hops, backToPrimary);
      NewRecords(front, preferences, hops, backToPrimary);
      StepMeaning(before, last, hops, backToPrimary);
      StepRecords(before, last, hops, backToPrimary);
      PassKeepsRecords(front, preferences, hops, backToPrimary);
      assert forall k :: 0 <= k < |front| ==> front[k] == routes[k];
      forall x
        ensures Newly(preferences, pass.preferences, x) <==>
                !(preferences.Some? && x in preferences.value)
                && exists k :: 0 <= k < |routes| && OnHealthy(routes[k], hops, x)
        ensures forall k :: Newly(preferences, pass.preferences, x)
                            && 0 <= k < |routes| && FirstHealthy(routes, hops, x, k)
                  ==> pass.preferences.value[x] == routes[k].nextHopAddress
      {
        assert Newly(preferences, pass.preferences, x) <==>
               Newly(preferences, before.preferences, x)
               || (Newly(before.preferences, pass.preferences, x) && !(preferences.Some? && x in preferences.value));
        assert routes[|front|] == last;
        forall k | Newly(preferences, pass.preferences, x) && 0 <= k < |routes| && FirstHealthy(routes, hops, x, k)
          ensures pass.preferences.value[x] == routes[k].nextHopAddress
        {
          if k < |front| {
            assert FirstHealthy(front, hops, x, k) && OnHealthy(front[k], hops, x);
          }
        }
      }
      OnHealthyPrefix(last, hops);
    } else {
      assert forall x :: !Newly(preferences, preferences, x);
    }
  }

  /** Where a route on a healthy next hop goes, given what is recorded for its prefix. */
  function HomeOf(hop: Ip, preferred: Ip, hops: Hops, backToPrimary: bool): Ip {
    if backToPrimary && preferred in hops.healthy then preferred else hop
  }

  lemma StepGoesHome(pass: Pass, route: Route, hops: Hops, backToPrimary: bool)
    requires route.nextHopAddress in hops.healthy && route.nextHopAddress !in hops.unhealthy
    ensures var after := StepRoute(pass, route, hops, backToPrimary);
            && after.preferences.Some? && route.destinationPrefix in after.preferences.value
            && |after.routes| == |pass.routes| + 1
            && after.routes[|pass.routes|].nextHopAddress
               == HomeOf(route.nextHopAddress, after.preferences.value[route.destinationPrefix], hops, backToPrimary)
  {
  }

  /** Every route on a healthy next hop is recorded after a pass; it goes to its preferred next hop exactly if that
      is wanted and the preferred next hop is healthy, and stays where it is otherwise. */
  lemma {:induction false} PassGoesHome(routes: seq<Route>, preferences: Option<Preferences>, hops: Hops,
                                        backToPrimary: bool)
    ensures var pass := PassOver(routes, preferences, hops, backToPrimary);
            && |pass.routes| == |routes|
            && forall k :: 0 <= k < |routes| && OnHealthy(routes[k], hops, routes[k].destinationPrefix) ==>
                 && pass.preferences.Some? && routes[k].destinationPrefix in pass.preferences.value
                 && pass.routes[k].nextHopAddress ==
                    HomeOf(routes[k].nextHopAddress, pass.preferences.value[routes[k].destinationPrefix], hops,
                           backToPrimary)
    decreases |routes|
  {
    hide StepRoute, ManagedPrefixes, IsManaged, Movable, Switched, Justified, HomeOf;
    if routes != [] {
      var (front, last) := (routes[..|routes| - 1], routes[|routes| - 1]);
      var before := PassOver(front, preferences, hops, backToPrimary);
      var pass := PassOver(routes, preferences, hops, backToPrimary);
      PassGoesHome(front, preferences, hops, backToPrimary);
      StepMeaning(before, last, hops, backToPrimary);
      if OnHealthy(last, hops, last.destinationPrefix) {
        StepGoesHome(before, last, hops, backToPrimary);
      }
      forall k | 0 <= k < |front|
        ensures routes[k] == front[k] && pass.routes[k] == before.routes[k]
      {
        assert pass.routes[k] == pass.routes[..|front|][k];
      }
    }
  }

  lemma OnHealthyPrefix(r: Route, hops: Hops)
    ensures forall x :: OnHealthy(r, hops, x) ==> x == r.destinationPrefix
  {
  }

  lemma PassKeepsRecords(routes: seq<Route>, preferences: Option<Preferences>, hops: Hops, backToPrimary: bool)
    ensures Extends(preferences, PassOver(routes, preferences, hops, backToPrimary).preferences)
  {
    hide *;
    PassMeaning(routes, preferences, hops, backToPrimary);
  }

  /** Comparing only the sizes of the recorded and the managed prefixes is sound. */
  lemma PruningIsSound(routes: seq<Route>, preferences: Option<Preferences>, hops: Hops, backToPrimary: bool)
    ensures var kept := Pruned(PassOver(routes, preferences, hops, backToPrimary));
            var managed := ManagedPrefixes(routes, hops);
            && (kept.Some? ==> kept.value.Keys <= managed || |kept.value.Keys| == |managed|)
            && (kept.Some? && (forall k :: 0 <= k < |routes| ==> routes[k].nextHopAddress !in hops.unhealthy)
                ==> kept.value.Keys == managed)
  {
    hide PassOver, Switched;
    var pass := PassOver(routes, preferences, hops, backToPrimary);
    var managed := ManagedPrefixes(routes, hops);
    PassMeaning(routes, preferences, hops, backToPrimary);
    if pass.preferences.Some? && forall k :: 0 <= k < |routes| ==> routes[k].nextHopAddress !in hops.unhealthy {
      HealthyRecorded(routes, preferences, hops, backToPrimary);
      assert managed <= pass.preferences.value.Keys;
      SubsetSize(managed, pass.preferences.value.Keys);
    }
  }

  /** Pruning drops no managed prefix and changes no value. */
  lemma PrunedKeeps(pass: Pass)
    ensures pass.preferences.Some? <==> Pruned(pass).Some?
    ensures pass.preferences.Some? ==>
              forall x :: x in pass.preferences.value && x in pass.prefixes
                          ==> x in Pruned(pass).value && Pruned(pass).value[x] == pass.preferences.value[x]
    ensures pass.preferences.Some? ==>
              forall x :: x in Pruned(pass).value
                          ==> x in pass.preferences.value && Pruned(pass).value[x] == pass.preferences.value[x]
  {
  }

  lemma PruneAgain(preferences: Option<Preferences>, pass: Pass)
    requires pass.preferences == preferences
    requires preferences.Some? ==>
               preferences.value.Keys <= pass.prefixes || |preferences.value.Keys| == |pass.prefixes|
    ensures Pruned(pass) == preferences
  {
    if SizesDiffer(pass) {
      assert preferences.value.Keys - pass.prefixes == {};
      assert preferences.value - {} == preferences.value;
    }
  }

  // ---------------------------------------------------------------------------------------------
  // A lost PATCH

  /** Every managed prefix that the pass knows about is known to `later` with the same next hop. */
  predicate Covers(later: Option<Preferences>, pass: Pass) {
    pass.preferences.Some? ==>
      forall x :: x in pass.preferences.value && x in pass.prefixes
                  ==> later.Some? && x in later.value && later.value[x] == pass.preferences.value[x]
  }

  lemma StepAgain(pass: Pass, again: Pass, route: Route, later: Option<Preferences>, hops: Hops, backToPrimary: bool)
    requires again == pass.(preferences := later, recorded := again.recorded)
    requires Covers(later, StepRoute(pass, route, hops, backToPrimary))
    ensures var (p, a) := (StepRoute(pass, route, hops, backToPrimary), StepRoute(again, route, hops, backToPrimary));
            a == p.(preferences := later, recorded := again.recorded)
  {
  }

  /** Reading the same routes again, with what the first pass recorded, switches them the same way and
      records nothing more. */
  lemma {:induction false} SecondPass(routes: seq<Route>, first: Option<Preferences>, later: Option<Preferences>,
                                      hops: Hops, backToPrimary: bool)
    requires Covers(later, PassOver(routes, first, hops, backToPrimary))
    ensures var pass := PassOver(routes, first, hops, backToPrimary);
            var again := PassOver(routes, later, hops, backToPrimary);
            again == pass.(preferences := later, recorded := false)
    decreases |routes|
  {
    hide StepRoute, Covers;
    if routes != [] {
      var (front, last) := (routes[..|routes| - 1], routes[|routes| - 1]);
      var before := PassOver(front, first, hops, backToPrimary);
      CoversBefore(before, last, later, hops, backToPrimary);
      SecondPass(front, first, later, hops, backToPrimary);
      StepAgain(before, PassOver(front, later, hops, backToPrimary), last, later, hops, backToPrimary);
    }
  }

  lemma CoversBefore(pass: Pass, route: Route, later: Option<Preferences>, hops: Hops, backToPrimary: bool)
    requires Covers(later, StepRoute(pass, route, hops, backToPrimary))
    ensures Covers(later, pass)
  {
    hide StepRoute;
    StepMeaning(pass, route, hops, backToPrimary);
  }

  // ---------------------------------------------------------------------------------------------
  // Repeated ticks on one table, when its requests succeed

  datatype Table = Table(routes: seq<Route>, preferences: Option<Preferences>)

  function TableTick(t: Table, hops: Hops, backToPrimary: bool): Table {
    if t.routes == [] then t
    else
      var pass := PassOver(t.routes, t.preferences, hops, backToPrimary);
      Table(if pass.modified then SortRoutes(pass.routes) else t.routes, Pruned(pass))
  }

  /** A tick whose PATCH is lost still records and prunes; the tick after it then does what it would
      have done alone. Whether the lost tick's preferences were stored does not matter. */
  lemma LostPatchIsRetried(t: Table, hops: Hops, backToPrimary: bool)
    ensures var lost := Table(t.routes, TableTick(t, hops, backToPrimary).preferences);
            TableTick(lost, hops, backToPrimary) == TableTick(t, hops, backToPrimary)
  {
    hide PassOver, SortRoutes, ManagedPrefixes, Switched, Pruned;
    if t.routes != [] {
      var pass := PassOver(t.routes, t.preferences, hops, backToPrimary);
      var later := Pruned(pass);
      PassMeaning(t.routes, t.preferences, hops, backToPrimary);
      PrunedKeeps(pass);
      SecondPass(t.routes, t.preferences, later, hops, backToPrimary);
      PruningIsSound(t.routes, t.preferences, hops, backToPrimary);
      PruneAgain(later, PassOver(t.routes, later, hops, backToPrimary));
    }
  }

  predicate Disjoint(hops: Hops) {
    hops.healthy.Keys !! hops.unhealthy.Keys
  }

  /** No route is left on a failed next hop with a healthy backup. */
  predicate NoneMovable(routes: seq<Route>, hops: Hops) {
    forall r :: r in routes ==> !Movable(hops, r.nextHopAddress)
  }

  /** And every route on a healthy next hop is recorded, and is where its record says if it should be. */
  predicate Settled(t: Table, hops: Hops, backToPrimary: bool) {
    && NoneMovable(t.routes, hops)
    && forall r :: r in t.routes && r.nextHopAddress in hops.healthy ==> AtHome(r, t.preferences, hops, backToPrimary)
  }

  predicate AtHome(r: Route, preferences: Option<Preferences>, hops: Hops, backToPrimary: bool) {
    && preferences.Some? && r.destinationPrefix in preferences.value
    && (backToPrimary && preferences.value[r.destinationPrefix] in hops.healthy
        ==> r.nextHopAddress == preferences.value[r.destinationPrefix])
  }

  lemma TickRoutes(t: Table, hops: Hops, backToPrimary: bool)
    requires t.routes != []
    ensures var after := TableTick(t, hops, backToPrimary).routes;
            var pass := PassOver(t.routes, t.preferences, hops, backToPrimary);
            && multiset(after) == multiset(pass.routes) && (forall r :: r in after <==> r in pass.routes)
  {
    hide PassOver, SortRoutes, Pruned, Switched;
    var pass := PassOver(t.routes, t.preferences, hops, backToPrimary);
    PassMeaning(t.routes, t.preferences, hops, backToPrimary);
    SortMeaning(pass.routes);
    SameElements(SortRoutes(pass.routes), pass.routes);
  }

  /** One tick moves every route that has somewhere to go. */
  lemma FirstTick(t: Table, hops: Hops, backToPrimary: bool)
    requires Disjoint(hops)
    ensures NoneMovable(TableTick(t, hops, backToPrimary).routes, hops)
  {
    hide PassOver, SortRoutes, Pruned, TableTick;
    if t.routes != [] {
      var pass := PassOver(t.routes, t.preferences, hops, backToPrimary);
      PassMeaning(t.routes, t.preferences, hops, backToPrimary);
      TickRoutes(t, hops, backToPrimary);
      forall r | r in pass.routes
        ensures !Movable(hops, r.nextHopAddress)
      {
        var k :| 0 <= k < |pass.routes| && pass.routes[k] == r;
        assert Switched(t.routes[k], r, hops);
      }
    } else {
      assert TableTick(t, hops, backToPrimary) == t by { EmptyTable(t, hops, backToPrimary); }
    }
  }

  lemma EmptyTable(t: Table, hops: Hops, backToPrimary: bool)
    requires t.routes == []
    ensures TableTick(t, hops, backToPrimary) == t
  {
  }

  lemma AtHomeLater(r: Route, before: Option<Preferences>, after: Option<Preferences>, hops: Hops, backToPrimary: bool)
    requires AtHome(r, before, hops, backToPrimary) && Extends(before, after)
    ensures AtHome(r, after, hops, backToPrimary)
  {
  }

  lemma StepSettles(pass: Pass, route: Route, hops: Hops, backToPrimary: bool)
    requires Disjoint(hops) && !Movable(hops, route.nextHopAddress)
    ensures var after := StepRoute(pass, route, hops, backToPrimary);
            var r := after.routes[|pass.routes|];
            r.nextHopAddress in hops.healthy ==> AtHome(r, after.preferences, hops, backToPrimary)
  {
  }

  /** Once nothing is movable, a pass brings every route on a healthy next hop home. */
  lemma {:induction false} PassSettles(routes: seq<Route>, preferences: Option<Preferences>, hops: Hops,
                                       backToPrimary: bool)
    requires Disjoint(hops) && NoneMovable(routes, hops)
    ensures var pass := PassOver(routes, preferences, hops, backToPrimary);
            forall r :: r in pass.routes && r.nextHopAddress in hops.healthy
                ==> AtHome(r, pass.preferences, hops, backToPrimary)
    decreases |routes|
  {
    hide StepRoute, AtHome, Extends, Movable, Disjoint;
    if routes != [] {
      var (front, last) := (routes[..|routes| - 1], routes[|routes| - 1]);
      var before := PassOver(front, preferences, hops, backToPrimary);
      var pass := PassOver(routes, preferences, hops, backToPrimary);
      assert last in routes && forall r :: r in front ==> r in routes;
      PassSettles(front, preferences, hops, backToPrimary);
      StepMeaning(before, last, hops, backToPrimary);
      StepSettles(before, last, hops, backToPrimary);
      forall r | r in pass.routes && r.nextHopAddress in hops.healthy
        ensures AtHome(r, pass.preferences, hops, backToPrimary)
      {
        var k :| 0 <= k < |pass.routes| && pass.routes[k] == r;
        if k < |before.routes| {
          assert r == pass.routes[..|before.routes|][k] == before.routes[k];
          AtHomeLater(r, before.preferences, pass.preferences, hops, backToPrimary);
        }
      }
    }
  }

  lemma ManagedRoutePrefix(routes: seq<Route>, r: Route, hops: Hops)
    requires r in routes && IsManaged(hops, r.nextHopAddress)
    ensures r.destinationPrefix in ManagedPrefixes(routes, hops)
  {
  }

  /** A tick changes which routes are where, but not which prefixes are managed. */
  lemma ManagedPrefixesStay(t: Table, hops: Hops, backToPrimary: bool)
    ensures ManagedPrefixes(TableTick(t, hops, backToPrimary).routes, hops) == ManagedPrefixes(t.routes, hops)
  {
    hide PassOver, SortRoutes, Pruned, TableTick;
    if t.routes == [] {
      EmptyTable(t, hops, backToPrimary);
      return;
    }
    var pass := PassOver(t.routes, t.preferences, hops, backToPrimary);
    var after := TableTick(t, hops, backToPrimary).routes;
    PassMeaning(t.routes, t.preferences, hops, backToPrimary);
    TickRoutes(t, hops, backToPrimary);
    forall x
      ensures x in ManagedPrefixes(after, hops) <==> x in ManagedPrefixes(t.routes, hops)
    {
      if x in ManagedPrefixes(after, hops) {
        var j :| 0 <= j < |after| && IsManaged(hops, after[j].nextHopAddress) && after[j].destinationPrefix == x;
        assert after[j] in pass.routes;
        var k :| 0 <= k < |pass.routes| && pass.routes[k] == after[j];
        assert Switched(t.routes[k], pass.routes[k], hops);
      }
      if x in ManagedPrefixes(t.routes, hops) {
        var k :| 0 <= k < |t.routes| && IsManaged(hops, t.routes[k].nextHopAddress)
            && t.routes[k].destinationPrefix == x;
        assert Switched(t.routes[k], pass.routes[k], hops);
        assert pass.routes[k] in after;
        ManagedRoutePrefix(after, pass.routes[k], hops);
      }
    }
  }

  /** The second tick settles the table. */
  lemma SecondTick(t: Table, hops: Hops, backToPrimary: bool)
    requires Disjoint(hops) && NoneMovable(t.routes, hops)
    ensures Settled(TableTick(t, hops, backToPrimary), hops, backToPrimary)
  {
    hide PassOver, SortRoutes, Pruned, Switched, Movable, ManagedPrefixes;
    FirstTick(t, hops, backToPrimary);
    if t.routes != [] {
      var pass := PassOver(t.routes, t.preferences, hops, backToPrimary);
      var after := TableTick(t, hops, backToPrimary);
      PassMeaning(t.routes, t.preferences, hops, backToPrimary);
      PassSettles(t.routes, t.preferences, hops, backToPrimary);
      PrunedKeeps(pass);
      TickRoutes(t, hops, backToPrimary);
      ManagedPrefixesStay(t, hops, backToPrimary);
      forall r | r in after.routes && r.nextHopAddress in hops.healthy
        ensures AtHome(r, after.preferences, hops, backToPrimary)
      {
        ManagedRoutePrefix(after.routes, r, hops);
      }
    }
  }

  lemma SettledStep(pass: Pass, route: Route, hops: Hops, backToPrimary: bool)
    requires Disjoint(hops) && !Movable(hops, route.nextHopAddress)
    requires route.nextHopAddress in hops.healthy ==> AtHome(route, pass.preferences, hops, backToPrimary)
    ensures var after := StepRoute(pass, route, hops, backToPrimary);
            && after.routes == pass.routes + [route] && after.modified == pass.modified
            && after.preferences == pass.preferences
  {
  }

  lemma {:induction false} SettledPass(routes: seq<Route>, preferences: Option<Preferences>, hops: Hops,
                                       backToPrimary: bool)
    requires Disjoint(hops) && Settled(Table(routes, preferences), hops, backToPrimary)
    ensures var pass := PassOver(routes, preferences, hops, backToPrimary);
            pass.routes == routes && !pass.modified && pass.preferences == preferences
    decreases |routes|
  {
    hide StepRoute, AtHome, Movable, Disjoint;
    if routes != [] {
      var (front, last) := (routes[..|routes| - 1], routes[|routes| - 1]);
      assert last in routes && forall r :: r in front ==> r in routes;
      SettledPass(front, preferences, hops, backToPrimary);
      SettledStep(PassOver(front, preferences, hops, backToPrimary), last, hops, backToPrimary);
      assert front + [last] == routes;
    }
  }

  /** The sizes condition that every tick leaves behind. */
  predicate SizesAgree(t: Table, hops: Hops) {
    t.preferences.Some? ==>
      t.preferences.value.Keys <= ManagedPrefixes(t.routes, hops)
      || |t.preferences.value.Keys| == |ManagedPrefixes(t.routes, hops)|
  }

  lemma SizesAgreeAfter(t: Table, hops: Hops, backToPrimary: bool)
    requires t.routes != []
    ensures SizesAgree(TableTick(t, hops, backToPrimary), hops)
  {
    hide PassOver, SortRoutes, Pruned, ManagedPrefixes;
    PruningIsSound(t.routes, t.preferences, hops, backToPrimary);
    ManagedPrefixesStay(t, hops, backToPrimary);
  }

  lemma SettledStays(t: Table, hops: Hops, backToPrimary: bool)
    requires Disjoint(hops) && Settled(t, hops, backToPrimary) && SizesAgree(t, hops)
    ensures TableTick(t, hops, backToPrimary) == t
  {
    hide PassOver, SortRoutes, Pruned, Settled, ManagedPrefixes, Switched;
    if t.routes != [] {
      PassMeaning(t.routes, t.preferences, hops, backToPrimary);
      SettledPass(t.routes, t.preferences, hops, backToPrimary);
      PruneAgain(t.preferences, PassOver(t.routes, t.preferences, hops, backToPrimary));
    }
  }

  /** While health stays as it is, a table and its preferences are settled after two ticks, whatever they
      were: a third tick changes nothing. */
  lemma TwoTicksSuffice(t: Table, hops: Hops, backToPrimary: bool)
    requires Disjoint(hops)
    ensures var two := TableTick(TableTick(t, hops, backToPrimary), hops, backToPrimary);
            Settled(two, hops, backToPrimary) && TableTick(two, hops, backToPrimary) == two
  {
    hide TableTick, Settled, SizesAgree, NoneMovable;
    var one := TableTick(t, hops, backToPrimary);
    FirstTick(t, hops, backToPrimary);
    SecondTick(one, hops, backToPrimary);
    if one.routes == [] {
      EmptyTable(one, hops, backToPrimary);
    } else {
      SizesAgreeAfter(one, hops, backToPrimary);
      SettledStays(TableTick(one, hops, backToPrimary), hops, backToPrimary);
    }
  }

  // ---------------------------------------------------------------------------------------------
  // Where the guarantees end

  /** The prefixes recorded before a tick, and those it records. */
  function RecordedAfter(t: Table, hops: Hops, backToPrimary: bool): set<Prefix> {
    (if t.preferences.Some? then t.preferences.value.Keys else {})
    + (set k | 0 <= k < |t.routes| && OnHealthy(t.routes[k], hops, t.routes[k].destinationPrefix)
         :: t.routes[k].destinationPrefix)
  }

  lemma RecordedKeys(t: Table, hops: Hops, backToPrimary: bool)
    ensures var after := PassOver(t.routes, t.preferences, hops, backToPrimary).preferences;
            (if after.Some? then after.value.Keys else {}) == RecordedAfter(t, hops, backToPrimary)
  {
    hide PassOver;
    NewRecords(t.routes, t.preferences, hops, backToPrimary);
    PassKeepsRecords(t.routes, t.preferences, hops, backToPrimary);
    var after := PassOver(t.routes, t.preferences, hops, backToPrimary).preferences;
    var recorded := RecordedAfter(t, hops, backToPrimary);
    forall x
      ensures (after.Some? && x in after.value) <==> x in recorded
    {
      if after.Some? && x in after.value && Newly(t.preferences, after, x) {
        var k :| 0 <= k < |t.routes| && OnHealthy(t.routes[k], hops, x);
        assert t.routes[k].destinationPrefix == x;
      }
      if x in recorded && !(t.preferences.Some? && x in t.preferences.value) {
        var k :| 0 <= k < |t.routes| && OnHealthy(t.routes[k], hops, t.routes[k].destinationPrefix)
                 && t.routes[k].destinationPrefix == x;
        assert Newly(t.preferences, after, x);
      }
    }
  }

  /** What is recorded after a tick that reads a table: of the prefixes recorded before and those newly recorded, all
      if they are as many as the managed ones, and else the managed ones. */
  lemma TickRecords(t: Table, hops: Hops, backToPrimary: bool)
    requires t.routes != []
    ensures var after := TableTick(t, hops, backToPrimary).preferences;
            var recorded := RecordedAfter(t, hops, backToPrimary);
            var managed := ManagedPrefixes(t.routes, hops);
            && (after.Some? <==> t.preferences.Some? || recorded != {})
            && (after.Some? ==>
                  after.value.Keys == if |recorded| == |managed| then recorded else recorded * managed)
  {
    hide PassOver, ManagedPrefixes, SortRoutes, Switched, Justified, RecordedAfter, StepRoute;
    PassMeaning(t.routes, t.preferences, hops, backToPrimary);
    RecordedKeys(t, hops, backToPrimary);
    NoneRecorded(t, hops, backToPrimary);
    var pass := PassOver(t.routes, t.preferences, hops, backToPrimary);
    if pass.preferences.Some? {
      var (keys, managed) := (pass.preferences.value.Keys, pass.prefixes);
      assert (pass.preferences.value - (keys - managed)).Keys == keys * managed;
    }
  }

  lemma {:induction false} PassSome(routes: seq<Route>, preferences: Option<Preferences>, hops: Hops,
                                    backToPrimary: bool)
    ensures var after := PassOver(routes, preferences, hops, backToPrimary).preferences;
            after.Some? ==> preferences.Some? || after.value != map[]
    decreases |routes|
  {
    if routes != [] {
      var (front, last) := (routes[..|routes| - 1], routes[|routes| - 1]);
      PassSome(front, preferences, hops, backToPrimary);
      var before := PassOver(front, preferences, hops, backToPrimary).preferences;
      var after := PassOver(routes, preferences, hops, backToPrimary).preferences;
      assert after == before || (after.Some? && last.destinationPrefix in after.value);
    }
  }

  lemma NoneRecorded(t: Table, hops: Hops, backToPrimary: bool)
    ensures var after := PassOver(t.routes, t.preferences, hops, backToPrimary).preferences;
            after.Some? <==> t.preferences.Some? || RecordedAfter(t, hops, backToPrimary) != {}
  {
    hide PassOver, RecordedAfter;
    RecordedKeys(t, hops, backToPrimary);
    PassSome(t.routes, t.preferences, hops, backToPrimary);
    PassKeepsRecords(t.routes, t.preferences, hops, backToPrimary);
  }

  /** Exactly when a tick that reads a table keeps a recorded prefix: its route is on a router's address
      at that moment, or the numbers of recorded and managed prefixes happen to agree. */
  lemma RecordSurvives(t: Table, hops: Hops, backToPrimary: bool, x: Prefix)
    requires t.routes != [] && t.preferences.Some? && x in t.preferences.value
    ensures var after := TableTick(t, hops, backToPrimary).preferences;
            && after.Some?
            && (x in after.value <==>
                x in ManagedPrefixes(t.routes, hops)
                || |RecordedAfter(t, hops, backToPrimary)| == |ManagedPrefixes(t.routes, hops)|)
            && (x in after.value ==> after.value[x] == t.preferences.value[x])
  {
    hide PassOver, ManagedPrefixes, SortRoutes, Switched, Justified, RecordedAfter;
    PassMeaning(t.routes, t.preferences, hops, backToPrimary);
    RecordedKeys(t, hops, backToPrimary);
  }

  lemma OnePass(route: Route, preferences: Option<Preferences>, hops: Hops, backToPrimary: bool)
    ensures PassOver([route], preferences, hops, backToPrimary) ==
            StepRoute(Pass([], preferences, {}, false, false), route, hops, backToPrimary)
  {
    assert [route][..0] == [];
  }

  lemma OneSorted(route: Route)
    ensures SortRoutes([route]) == [route]
  {
    assert [route][1..] == [];
  }
}
