/** Runs of the route switcher: what holds after any number of ticks. */
module RouteRuns {
  import opened Wrappers
  import opened RouteSwitcher
  import opened RouteTables

  // ---------------------------------------------------------------------------------------------
  // A tick, table by table

  predicate DistinctIds(tables: seq<TableConfig>) {
    forall i, j :: 0 <= i < j < |tables| ==> tables[i].id != tables[j].id
  }

  lemma AppendPatch(cloud: Cloud, patches: seq<Patch>, patch: Patch, lost: set<TableId>)
    ensures ApplyPatches(cloud, patches + [patch], lost) ==
            if patch.id in lost then ApplyPatches(cloud, patches, lost)
            else ApplyPatches(cloud, patches, lost)[patch.id := patch.routes]
  {
    assert (patches + [patch])[..|patches + [patch]| - 1] == patches;
  }

  function CloudAfter(cloud: Cloud, tables: seq<TableConfig>, getFails: set<TableId>, lost: set<TableId>,
                      hops: Hops, backToPrimary: bool): Cloud {
    ApplyPatches(cloud, PatchesOf(cloud, tables, getFails, hops, backToPrimary), lost)
  }

  /** Each table ends as its own PATCH left it, if it had one that was not lost. */
  lemma {:induction false} TableAfter(cloud: Cloud, tables: seq<TableConfig>, getFails: set<TableId>,
                                      lost: set<TableId>, hops: Hops, backToPrimary: bool)
    requires DistinctIds(tables)
    ensures var after := CloudAfter(cloud, tables, getFails, lost, hops, backToPrimary);
            && after.Keys == cloud.Keys
            && (forall id ::
                  id in cloud && (forall i :: 0 <= i < |tables| ==> tables[i].id != id) ==> after[id] == cloud[id])
            && (forall i :: 0 <= i < |tables| && tables[i].id in cloud ==>
                  var outcome := OutcomeOf(cloud, tables[i], getFails, hops, backToPrimary);
                  after[tables[i].id] ==
                  if outcome.patch.Some? && tables[i].id !in lost then outcome.patch.value else cloud[tables[i].id])
    decreases |tables|
  {
    hide PassOver, Pruned, SortRoutes;
    if tables != [] {
      var (front, last) := (tables[..|tables| - 1], tables[|tables| - 1]);
      TableAfter(cloud, front, getFails, lost, hops, backToPrimary);
      var before := PatchesOf(cloud, front, getFails, hops, backToPrimary);
      var outcome := OutcomeOf(cloud, last, getFails, hops, backToPrimary);
      if outcome.patch.Some? {
        AppendPatch(cloud, before, Patch(last.id, outcome.patch.value), lost);
      }
      forall i | 0 <= i < |front|
        ensures tables[i] == front[i]
      {
      }
    }
  }

  lemma UnchangedOutcome(cloud: Cloud, table: TableConfig, getFails: set<TableId>, hops: Hops, backToPrimary: bool)
    ensures var outcome := OutcomeOf(cloud, table, getFails, hops, backToPrimary);
            outcome.config.id == table.id && (!outcome.changed ==> outcome.config == table)
  {
    hide PassOver, SortRoutes, Switched, ManagedPrefixes, Justified;
    if table.id in cloud {
      PassMeaning(cloud[table.id], table.routes, hops, backToPrimary);
    }
  }

  function HopsOf(config: Config, env: Env): Hops
    requires Proceeds(env.reply, config)
  {
    GatherHops(config.routers.value, StatusMap(env.reply.states))
  }

  /** When the configuration counts as changed because of a table: if it is read and a prefix is recorded anew, or
      there are not as many recorded prefixes as managed ones. */
  lemma ChangedDomain(cloud: Cloud, table: TableConfig, getFails: set<TableId>, hops: Hops, backToPrimary: bool)
    ensures OutcomeOf(cloud, table, getFails, hops, backToPrimary).changed <==>
            && table.id !in getFails && table.id in cloud && cloud[table.id] != []
            && var t := Table(cloud[table.id], table.routes);
               var recorded := RecordedAfter(t, hops, backToPrimary);
               || recorded != (if table.routes.Some? then table.routes.value.Keys else {})
               || ((table.routes.Some? || recorded != {}) && |recorded| != |ManagedPrefixes(t.routes, hops)|)
  {
    hide PassOver, SortRoutes, Switched, ManagedPrefixes, Justified, RecordedAfter, OnHealthy;
    if table.id in cloud {
      var t := Table(cloud[table.id], table.routes);
      var after := PassOver(t.routes, t.preferences, hops, backToPrimary).preferences;
      PassMeaning(t.routes, t.preferences, hops, backToPrimary);
      NewRecords(t.routes, t.preferences, hops, backToPrimary);
      PassKeepsRecords(t.routes, t.preferences, hops, backToPrimary);
      RecordedKeys(t, hops, backToPrimary);
      NoneRecorded(t, hops, backToPrimary);
      var recorded := RecordedAfter(t, hops, backToPrimary);
      var before := if table.routes.Some? then table.routes.value.Keys else {};
      assert forall x :: Newly(t.preferences, after, x) <==> x in recorded && x !in before;
      assert before <= recorded;
      if recorded != before {
        var x :| x in recorded && x !in before;
        assert Newly(t.preferences, after, x);
      }
    }
  }

  /** A tick that proceeds, seen from one configured table. */
  lemma TickAt(world: World, env: Env, backToPrimary: bool, i: nat)
    requires Works(world, env)
    requires DistinctIds(world.config.routeTables.value) && i < |world.config.routeTables.value|
    ensures var after := Tick(world, env, backToPrimary);
            var table := world.config.routeTables.value[i];
            var outcome := OutcomeOf(world.cloud, table, env.getFails, HopsOf(world.config, env), backToPrimary);
            && after.config.routers == world.config.routers
            && after.config.routeTables.Some? && |after.config.routeTables.value| == |world.config.routeTables.value|
            && after.config.routeTables.value[i] == (if env.putFails then table else outcome.config)
            && after.cloud.Keys == world.cloud.Keys
            && (table.id in world.cloud ==>
                  after.cloud[table.id] ==
                  if outcome.patch.Some? && table.id !in env.patchLost then outcome.patch.value
                  else world.cloud[table.id])
  {
    hide OutcomeOf, PatchesOf, ApplyPatches, GatherHops;
    var tables := world.config.routeTables.value;
    var hops := HopsOf(world.config, env);
    TableAfter(world.cloud, tables, env.getFails, env.patchLost, hops, backToPrimary);
    UnchangedOutcome(world.cloud, tables[i], env.getFails, hops, backToPrimary);
  }

  /** A table that cannot be read or has no routes is left alone, and so is its entry; one whose PATCH is lost
      keeps its routes. */
  lemma LeftAlone(world: World, env: Env, backToPrimary: bool, i: nat)
    requires world.config.routeTables.Some? && DistinctIds(world.config.routeTables.value)
    requires i < |world.config.routeTables.value|
    ensures var after := Tick(world, env, backToPrimary);
            var table := world.config.routeTables.value[i];
            && after.config.routeTables.Some? && |after.config.routeTables.value| == |world.config.routeTables.value|
            && (table.id in env.getFails || table.id !in world.cloud || world.cloud[table.id] == [] ==>
                  after.config.routeTables.value[i] == table)
            && (table.id in world.cloud
                && (table.id in env.getFails || world.cloud[table.id] == [] || table.id in env.patchLost) ==>
                  table.id in after.cloud && after.cloud[table.id] == world.cloud[table.id])
  {
    hide Tick, GatherHops, PassOver, Pruned, SortRoutes;
    if Works(world, env) {
      TickAt(world, env, backToPrimary, i);
    } else {
      Idle(world, env, backToPrimary);
    }
  }

  lemma SameIds(world: World, env: Env, backToPrimary: bool)
    requires world.config.routeTables.Some? && DistinctIds(world.config.routeTables.value)
    ensures var after := Tick(world, env, backToPrimary);
            && after.config.routers == world.config.routers
            && after.config.routeTables.Some? && |after.config.routeTables.value| == |world.config.routeTables.value|
            && (forall i :: 0 <= i < |world.config.routeTables.value|
                  ==> after.config.routeTables.value[i].id == world.config.routeTables.value[i].id)
            && DistinctIds(after.config.routeTables.value)
  {
    hide OutcomeOf, GatherHops, Proceeds, Tick, DistinctIds;
    if Works(world, env) {
      var tables := world.config.routeTables.value;
      var after := Tick(world, env, backToPrimary);
      if tables == [] {
        NoTables(world, env, backToPrimary);
      } else {
        TickAt(world, env, backToPrimary, 0);
      }
      forall i | 0 <= i < |tables|
        ensures after.config.routeTables.value[i].id == tables[i].id
      {
        TickAt(world, env, backToPrimary, i);
        UnchangedOutcome(world.cloud, tables[i], env.getFails, HopsOf(world.config, env), backToPrimary);
      }
      IdsDistinct(tables, after.config.routeTables.value);
    } else {
      assert Tick(world, env, backToPrimary) == world by { Idle(world, env, backToPrimary); }
    }
  }

  lemma Idle(world: World, env: Env, backToPrimary: bool)
    requires !Works(world, env)
    ensures Tick(world, env, backToPrimary) == world
  {
  }

  /** Whether a tick comes to its PATCH requests depends on nothing that a tick changes. */
  lemma StillWorks(world: World, env: Env, later: Env, backToPrimary: bool)
    requires Works(world, env) && Works(world, later) && DistinctIds(world.config.routeTables.value)
    ensures Works(Tick(world, env, backToPrimary), later)
  {
    hide Tick, StatusMap, DistinctIds;
    var after := Tick(world, env, backToPrimary);
    SameIds(world, env, backToPrimary);
    SameKeys(world, env, backToPrimary);
    ProceedsAgain(later.reply, world.config, after.config);
    var (before, tables) := (world.config.routeTables.value, after.config.routeTables.value);
    forall i | 0 <= i < |tables|
      ensures !Derails(after.cloud, tables[i], later.getFails, later.gateways)
    {
      assert tables[i].id == before[i].id && !Derails(world.cloud, before[i], later.getFails, later.gateways);
    }
  }

  lemma ProceedsAgain(reply: Reply, a: Config, b: Config)
    requires Proceeds(reply, a) && b.routers == a.routers && b.routeTables.Some?
    ensures Proceeds(reply, b)
  {
    hide StatusMap;
  }

  lemma NoTables(world: World, env: Env, backToPrimary: bool)
    requires world.config.routeTables == Some([])
    ensures Tick(world, env, backToPrimary) == world
  {
  }

  lemma IdsDistinct(a: seq<TableConfig>, b: seq<TableConfig>)
    requires DistinctIds(a) && |a| == |b| && forall i :: 0 <= i < |a| ==> a[i].id == b[i].id
    ensures DistinctIds(b)
  {
  }

  // ---------------------------------------------------------------------------------------------
  // Routers and their backups

  function InterfaceOwns(interfaces: seq<Interface>): seq<Ip> {
    if interfaces == [] then []
    else
      var last := interfaces[|interfaces| - 1];
      InterfaceOwns(interfaces[..|interfaces| - 1])
      + (if last.ownIp.Some? && last.backupPeerIp.Some? then [last.ownIp.value] else [])
  }

  /** The own addresses of all usable router interfaces. */
  function Owns(routers: seq<Router>): seq<Ip> {
    if routers == [] then []
    else
      var last := routers[|routers| - 1];
      Owns(routers[..|routers| - 1]) + (if last.healthcheckedIp.Some? then InterfaceOwns(last.interfaces) else [])
  }

  predicate Distinct(ips: seq<Ip>) {
    forall i, j :: 0 <= i < j < |ips| ==> ips[i] != ips[j]
  }

  /** The backup of every own address, whatever its health. */
  function Peers(routers: seq<Router>): map<Ip, Ip> {
    if routers == [] then map[]
    else
      var last := routers[|routers| - 1];
      var before := Peers(routers[..|routers| - 1]);
      if last.healthcheckedIp.Some? then Backups(before, last.interfaces) else before
  }

  /** Backups are mutual pairs. */
  predicate Mutual(peers: map<Ip, Ip>) {
    forall ip :: ip in peers ==> peers[ip] in peers && peers[peers[ip]] == ip
  }

  /** Every router is in the target list of the load balancer. */
  predicate AllListed(routers: seq<Router>, status: map<Ip, string>) {
    forall k :: 0 <= k < |routers| && routers[k].healthcheckedIp.Some? ==> routers[k].healthcheckedIp.value in status
  }

  lemma {:induction false} BackupsMerge(known: map<Ip, Ip>, interfaces: seq<Interface>)
    ensures Backups(known, interfaces) == known + Backups(map[], interfaces)
    ensures forall ip :: ip in Backups(map[], interfaces) <==> ip in InterfaceOwns(interfaces)
    decreases |interfaces|
  {
    if interfaces != [] {
      BackupsMerge(known, interfaces[..|interfaces| - 1]);
    }
  }

  lemma {:induction false} HopsWithinOwns(routers: seq<Router>, status: map<Ip, string>)
    ensures var hops := GatherHops(routers, status);
            && (forall ip :: ip in hops.healthy ==> ip in Owns(routers))
            && (forall ip :: ip in hops.unhealthy ==> ip in Owns(routers))
    decreases |routers|
  {
    hide Backups, InterfaceOwns;
    if routers != [] {
      var (front, last) := (routers[..|routers| - 1], routers[|routers| - 1]);
      HopsWithinOwns(front, status);
      var before := GatherHops(front, status);
      BackupsMerge(before.healthy, last.interfaces);
      BackupsMerge(before.unhealthy, last.interfaces);
    }
  }

  lemma SplitDistinct(a: seq<Ip>, b: seq<Ip>)
    requires Distinct(a + b)
    ensures Distinct(a) && forall ip :: ip in b ==> ip !in a
  {
    forall i, j | 0 <= i < j < |a|
      ensures a[i] != a[j]
    {
      assert (a + b)[i] == a[i] && (a + b)[j] == a[j];
    }
    forall i, j | 0 <= i < |a| && 0 <= j < |b|
      ensures a[i] != b[j]
    {
      assert (a + b)[i] == a[i] && (a + b)[|a| + j] == b[j];
    }
  }

  lemma MergeEither(a: map<Ip, Ip>, b: map<Ip, Ip>, n: map<Ip, Ip>)
    requires a.Keys !! b.Keys && n.Keys !! a.Keys && n.Keys !! b.Keys
    ensures (a + n).Keys !! b.Keys && a.Keys !! (b + n).Keys
    ensures (a + n) + b == (a + b) + n && a + (b + n) == (a + b) + n
  {
  }

  /** With distinct own addresses no address is both healthy and failed; with every router listed, the
      two maps together are all the pairs. */
  lemma {:induction false} HopsSplitPeers(routers: seq<Router>, status: map<Ip, string>)
    requires Distinct(Owns(routers))
    ensures var hops := GatherHops(routers, status);
            Disjoint(hops) && (AllListed(routers, status) ==> hops.healthy + hops.unhealthy == Peers(routers))
    decreases |routers|
  {
    hide Backups, InterfaceOwns, Distinct, AllListed;
    if routers != [] {
      var (front, last) := (routers[..|routers| - 1], routers[|routers| - 1]);
      var own := if last.healthcheckedIp.Some? then InterfaceOwns(last.interfaces) else [];
      SplitDistinct(Owns(front), own);
      HopsSplitPeers(front, status);
      HopsWithinOwns(front, status);
      ListedFront(routers, status);
      if last.healthcheckedIp.Some? {
        var before := GatherHops(front, status);
        var added := Backups(map[], last.interfaces);
        BackupsMerge(before.healthy, last.interfaces);
        BackupsMerge(before.unhealthy, last.interfaces);
        BackupsMerge(Peers(front), last.interfaces);
        MergeEither(before.healthy, before.unhealthy, added);
      }
    }
  }

  /** An interface with that address and backup. */
  predicate HasPair(interfaces: seq<Interface>, ip: Ip, peer: Ip) {
    exists i :: 0 <= i < |interfaces| && interfaces[i] == Interface(Some(ip), Some(peer))
  }

  predicate HasUsable(interfaces: seq<Interface>, ip: Ip) {
    exists i :: 0 <= i < |interfaces| && interfaces[i].ownIp == Some(ip) && interfaces[i].backupPeerIp.Some?
  }

  lemma {:induction false} BackupsMeaning(known: map<Ip, Ip>, interfaces: seq<Interface>, ip: Ip)
    ensures var after := Backups(known, interfaces);
            && (ip in after <==> ip in known || HasUsable(interfaces, ip))
            && (ip in after ==>
                  if HasUsable(interfaces, ip) then HasPair(interfaces, ip, after[ip])
                  else ip in known && after[ip] == known[ip])
    decreases |interfaces|
  {
    if interfaces != [] {
      var (front, last) := (interfaces[..|interfaces| - 1], interfaces[|interfaces| - 1]);
      BackupsMeaning(known, front, ip);
      var (before, after) := (Backups(known, front), Backups(known, interfaces));
      assert forall i :: 0 <= i < |front| ==> front[i] == interfaces[i];
      assert last == interfaces[|interfaces| - 1];
      if HasUsable(front, ip) {
        var i :| 0 <= i < |front| && front[i].ownIp == Some(ip) && front[i].backupPeerIp.Some?;
        assert interfaces[i].ownIp == Some(ip);
        var j :| 0 <= j < |front| && front[j] == Interface(Some(ip), Some(before[ip]));
        assert interfaces[j] == Interface(Some(ip), Some(before[ip]));
      }
    }
  }

  /** A router that is in the target list with that health and has a usable interface with the address. */
  predicate Serves(router: Router, status: map<Ip, string>, healthy: bool, ip: Ip) {
    && router.healthcheckedIp.Some? && router.healthcheckedIp.value in status
    && (healthy <==> status[router.healthcheckedIp.value] == "HEALTHY")
    && HasUsable(router.interfaces, ip)
  }

  predicate ServesPair(router: Router, status: map<Ip, string>, healthy: bool, ip: Ip, peer: Ip) {
    Serves(router, status, healthy, ip) && HasPair(router.interfaces, ip, peer)
  }

  /** Which next hops are healthy and which have failed: those of the listed routers whose status is HEALTHY, and
      those of the listed routers with any other status, each with a backup it is configured with. */
  lemma {:induction false} HopsMeaning(routers: seq<Router>, status: map<Ip, string>, ip: Ip)
    ensures var hops := GatherHops(routers, status);
            && (ip in hops.healthy <==> exists k :: 0 <= k < |routers| && Serves(routers[k], status, true, ip))
            && (ip in hops.unhealthy <==> exists k :: 0 <= k < |routers| && Serves(routers[k], status, false, ip))
            && (ip in hops.healthy ==>
                  exists k :: 0 <= k < |routers| && ServesPair(routers[k], status, true, ip, hops.healthy[ip]))
            && (ip in hops.unhealthy ==>
                  exists k :: 0 <= k < |routers| && ServesPair(routers[k], status, false, ip, hops.unhealthy[ip]))
    decreases |routers|
  {
    hide Backups, HasPair, HasUsable;
    if routers != [] {
      var (front, last) := (routers[..|routers| - 1], routers[|routers| - 1]);
      HopsMeaning(front, status, ip);
      var before := GatherHops(front, status);
      BackupsMeaning(before.healthy, last.interfaces, ip);
      BackupsMeaning(before.unhealthy, last.interfaces, ip);
      var hops := GatherHops(routers, status);
      ServesFront(routers, status, true, ip, if ip in hops.healthy then hops.healthy[ip] else "");
      ServesFront(routers, status, false, ip, if ip in hops.unhealthy then hops.unhealthy[ip] else "");
    }
  }

  lemma ServesFront(routers: seq<Router>, status: map<Ip, string>, healthy: bool, ip: Ip, peer: Ip)
    requires routers != []
    ensures var (front, last) := (routers[..|routers| - 1], routers[|routers| - 1]);
            && ((exists k :: 0 <= k < |routers| && Serves(routers[k], status, healthy, ip)) <==>
                (exists k :: 0 <= k < |front| && Serves(front[k], status, healthy, ip))
                || Serves(last, status, healthy, ip))
            && ((exists k :: 0 <= k < |routers| && ServesPair(routers[k], status, healthy, ip, peer)) <==>
                (exists k :: 0 <= k < |front| && ServesPair(front[k], status, healthy, ip, peer))
                || ServesPair(last, status, healthy, ip, peer))
  {
    hide Serves, ServesPair;
    var (front, last) := (routers[..|routers| - 1], routers[|routers| - 1]);
    assert forall k :: 0 <= k < |front| ==> front[k] == routers[k];
    assert last == routers[|routers| - 1];
    if k :| 0 <= k < |front| && Serves(front[k], status, healthy, ip) {
      assert Serves(routers[k], status, healthy, ip);
    }
    if k :| 0 <= k < |front| && ServesPair(front[k], status, healthy, ip, peer) {
      assert ServesPair(routers[k], status, healthy, ip, peer);
    }
    if k :| 0 <= k < |routers| && Serves(routers[k], status, healthy, ip) {
      assert k < |front| ==> Serves(front[k], status, healthy, ip);
    }
    if k :| 0 <= k < |routers| && ServesPair(routers[k], status, healthy, ip, peer) {
      assert k < |front| ==> ServesPair(front[k], status, healthy, ip, peer);
    }
  }

  /** A tick does nothing without at least two targets of which one is HEALTHY in its last report, without
      routers or route tables, or if the load balancer does not answer; else it does all it has to. */
  lemma ProceedsDomain(reply: Reply, config: Config)
    ensures Proceeds(reply, config) <==>
            && reply.Targets? && |reply.states| >= 2
            && (exists k :: 0 <= k < |reply.states| && reply.states[k].1 == "HEALTHY" && LastReport(reply.states, k))
            && config.routers.Some? && config.routeTables.Some?
  {
    hide StatusMap;
    if reply.Targets? {
      var states := reply.states;
      if ip :| ip in StatusMap(states) && StatusMap(states)[ip] == HEALTHY {
        LastReportWins(states, ip);
      }
      if k :| 0 <= k < |states| && states[k].1 == "HEALTHY" && LastReport(states, k) {
        LastReportWins(states, states[k].0);
        var status := StatusMap(states)[states[k].0];
        var j :| 0 <= j < |states| && states[j] == (states[k].0, status) && LastReport(states, j);
        assert j == k;
      }
    }
  }

  lemma NothingHappens(world: World, env: Env, backToPrimary: bool)
    requires env.reply.Targets? ==>
               |env.reply.states| < 2
               || forall k :: 0 <= k < |env.reply.states| ==> env.reply.states[k].1 != "HEALTHY"
    ensures Tick(world, env, backToPrimary) == world
  {
    hide Proceeds;
    ProceedsDomain(env.reply, world.config);
    Idle(world, env, backToPrimary);
  }

  /** A route without a next hop address in a configured table that is read ends a tick before it does anything;
      in a table that is not read, or not configured, it does not matter. */
  lemma GatewaysMatter(world: World, env: Env, backToPrimary: bool)
    requires world.config.routeTables.Some?
    ensures var tables := world.config.routeTables.value;
            Tick(world, env, backToPrimary) ==
            if exists i :: 0 <= i < |tables| && tables[i].id in env.gateways && tables[i].id in world.cloud
                           && tables[i].id !in env.getFails
            then world else Tick(world, env.(gateways := {}), backToPrimary)
  {
    hide Proceeds, GatherHops, StatusMap, PatchesOf, ConfigsAfter, AnyChanged, ApplyPatches;
  }

  /** A failure to store the configuration leaves the old one and the same tables; without the old one to begin
      with nothing happens. */
  lemma StoreAndRead(world: World, env: Env, backToPrimary: bool)
    ensures Tick(world, env.(readFails := true), backToPrimary) == world
    ensures Tick(world, env.(putFails := true), backToPrimary)
            == World(Tick(world, env.(putFails := false), backToPrimary).cloud, world.config)
  {
    hide Proceeds, AnyDerails, GatherHops, StatusMap, PatchesOf, ConfigsAfter, AnyChanged, ApplyPatches;
  }

  lemma ListedFront(routers: seq<Router>, status: map<Ip, string>)
    requires routers != []
    ensures AllListed(routers, status) ==> AllListed(routers[..|routers| - 1], status)
    ensures AllListed(routers, status) && routers[|routers| - 1].healthcheckedIp.Some?
            ==> routers[|routers| - 1].healthcheckedIp.value in status
  {
  }

  // ---------------------------------------------------------------------------------------------
  // Runs

  function Run(world: World, envs: seq<Env>, backToPrimary: bool): World {
    if envs == [] then world
    else Tick(Run(world, envs[..|envs| - 1], backToPrimary), envs[|envs| - 1], backToPrimary)
  }

  /** Prefix x of table i is recorded with preferred next hop p, and is on p or on p's backup. */
  predicate Held(world: World, i: nat, x: Prefix, p: Ip, peers: map<Ip, Ip>) {
    && world.config.routeTables.Some? && i < |world.config.routeTables.value|
    && p in peers
    && var table := world.config.routeTables.value[i];
       && table.routes.Some? && x in table.routes.value && table.routes.value[x] == p
       && table.id in world.cloud
       && OnPair(world.cloud[table.id], x, p, peers)
  }

  predicate OnPair(routes: seq<Route>, x: Prefix, p: Ip, peers: map<Ip, Ip>)
    requires p in peers
  {
    && (exists r :: r in routes && r.destinationPrefix == x)
    && (forall r :: r in routes && r.destinationPrefix == x ==> r.nextHopAddress == p || r.nextHopAddress == peers[p])
  }

  predicate HopsAre(hops: Hops, peers: map<Ip, Ip>) {
    Disjoint(hops) && hops.healthy + hops.unhealthy == peers
  }

  /** One route of the pair stays on the pair. */
  lemma PairedRoute(before: Route, after: Route, hops: Hops, preferences: Option<Preferences>, backToPrimary: bool,
                    p: Ip, peers: map<Ip, Ip>)
    requires HopsAre(hops, peers) && Mutual(peers) && p in peers
    requires preferences.Some? && before.destinationPrefix in preferences.value
             && preferences.value[before.destinationPrefix] == p
    requires Switched(before, after, hops) && Justified(before, after, hops, preferences, backToPrimary)
    requires before.nextHopAddress == p || before.nextHopAddress == peers[p]
    ensures after.nextHopAddress == p || after.nextHopAddress == peers[p]
    ensures IsManaged(hops, before.nextHopAddress)
  {
  }

  lemma PairSurvivesPass(routes: seq<Route>, preferences: Option<Preferences>, hops: Hops, backToPrimary: bool,
                         x: Prefix, p: Ip, peers: map<Ip, Ip>)
    requires HopsAre(hops, peers) && Mutual(peers) && p in peers
    requires preferences.Some? && x in preferences.value && preferences.value[x] == p
    requires OnPair(routes, x, p, peers)
    ensures var pass := PassOver(routes, preferences, hops, backToPrimary);
            && Pruned(pass).Some? && x in Pruned(pass).value && Pruned(pass).value[x] == p
            && OnPair(pass.routes, x, p, peers) && OnPair(SortRoutes(pass.routes), x, p, peers)
  {
    hide PassOver, Pruned, ManagedPrefixes, SortRoutes, HopsAre, Mutual, IsManaged, Justified, Movable;
    var pass := PassOver(routes, preferences, hops, backToPrimary);
    PassMeaning(routes, preferences, hops, backToPrimary);
    PrunedKeeps(pass);
    SortMeaning(pass.routes);
    SameElements(SortRoutes(pass.routes), pass.routes);
    var r :| r in routes && r.destinationPrefix == x;
    var k :| 0 <= k < |routes| && routes[k] == r;
    PairedRoute(r, pass.routes[k], hops, pass.preferences, backToPrimary, p, peers);
    ManagedRoutePrefix(routes, r, hops);
    assert pass.routes[k] in pass.routes;
    forall s | s in pass.routes && s.destinationPrefix == x
      ensures s.nextHopAddress == p || s.nextHopAddress == peers[p]
    {
      var j :| 0 <= j < |pass.routes| && pass.routes[j] == s;
      assert Switched(routes[j], s, hops) && routes[j] in routes;
      PairedRoute(routes[j], s, hops, pass.preferences, backToPrimary, p, peers);
    }
  }

  /** The load balancer may fail to answer, but when it answers it lists every router. */
  predicate Listing(config: Config, env: Env) {
    config.routers.Some? && env.reply.Targets? ==> AllListed(config.routers.value, StatusMap(env.reply.states))
  }

  predicate GoodRouters(config: Config) {
    config.routers.Some? ==> Distinct(Owns(config.routers.value)) && Mutual(Peers(config.routers.value))
  }

  lemma HeldOneTick(world: World, env: Env, backToPrimary: bool, i: nat, x: Prefix, p: Ip)
    requires world.config.routers.Some? && GoodRouters(world.config) && Listing(world.config, env)
    requires world.config.routeTables.Some? && DistinctIds(world.config.routeTables.value)
    requires Held(world, i, x, p, Peers(world.config.routers.value))
    ensures Held(Tick(world, env, backToPrimary), i, x, p, Peers(world.config.routers.value))
  {
    hide GatherHops, StatusMap, Peers, Owns, PassOver, Pruned, SortRoutes, Tick, OnPair, AllListed, Distinct, Mutual,
         DistinctIds;
    var peers := Peers(world.config.routers.value);
    if !Works(world, env) {
      Idle(world, env, backToPrimary);
      return;
    }
    var table := world.config.routeTables.value[i];
    var hops := HopsOf(world.config, env);
    HopsSplitPeers(world.config.routers.value, StatusMap(env.reply.states));
    TickAt(world, env, backToPrimary, i);
    PairSurvivesPass(world.cloud[table.id], table.routes, hops, backToPrimary, x, p, peers);
  }

  /** Over every run, with any health and with GET, PATCH, read and store failures anywhere: the record
      of a prefix stays what it was, and its live next hop is always the preferred one or its backup. */
  lemma {:induction false} PreferencesAreKept(world: World, envs: seq<Env>, backToPrimary: bool, i: nat, x: Prefix,
                                              p: Ip)
    requires world.config.routers.Some? && GoodRouters(world.config)
    requires forall k :: 0 <= k < |envs| ==> Listing(world.config, envs[k])
    requires world.config.routeTables.Some? && DistinctIds(world.config.routeTables.value)
    requires Held(world, i, x, p, Peers(world.config.routers.value))
    ensures var after := Run(world, envs, backToPrimary);
            && after.config.routers == world.config.routers
            && after.config.routeTables.Some? && DistinctIds(after.config.routeTables.value)
            && Held(after, i, x, p, Peers(world.config.routers.value))
    decreases |envs|
  {
    hide Tick, Peers, Held, GoodRouters, DistinctIds;
    if envs != [] {
      var front := envs[..|envs| - 1];
      forall k | 0 <= k < |front|
        ensures Listing(world.config, front[k])
      {
        assert front[k] == envs[k];
      }
      PreferencesAreKept(world, front, backToPrimary, i, x, p);
      var before := Run(world, front, backToPrimary);
      SameRouters(before.config, world.config, envs[|envs| - 1]);
      SameIds(before, envs[|envs| - 1], backToPrimary);
      HeldOneTick(before, envs[|envs| - 1], backToPrimary, i, x, p);
    }
  }

  lemma SameRouters(a: Config, b: Config, env: Env)
    requires a.routers == b.routers
    ensures GoodRouters(a) <==> GoodRouters(b)
    ensures Listing(a, env) <==> Listing(b, env)
  {
  }

  // ---------------------------------------------------------------------------------------------
  // Convergence

  /** Every call of the tick succeeds. */
  predicate Clear(env: Env) {
    env.getFails == {} && env.patchLost == {} && !env.readFails && !env.putFails
  }

  function ViewOf(world: World, i: nat): Table
    requires world.config.routeTables.Some? && i < |world.config.routeTables.value|
    requires world.config.routeTables.value[i].id in world.cloud
  {
    var table := world.config.routeTables.value[i];
    Table(world.cloud[table.id], table.routes)
  }

  lemma ClearTickAt(world: World, env: Env, backToPrimary: bool, i: nat)
    requires Works(world, env) && Clear(env)
    requires DistinctIds(world.config.routeTables.value) && i < |world.config.routeTables.value|
    ensures var after := Tick(world, env, backToPrimary);
            var id := world.config.routeTables.value[i].id;
            && after.config.routers == world.config.routers && after.config.routeTables.Some?
            && |after.config.routeTables.value| == |world.config.routeTables.value|
            && after.config.routeTables.value[i].id == id && after.cloud.Keys == world.cloud.Keys
            && (id !in world.cloud ==> after.config.routeTables.value[i] == world.config.routeTables.value[i])
            && (id in world.cloud ==>
                  ViewOf(after, i) == TableTick(ViewOf(world, i), HopsOf(world.config, env), backToPrimary))
  {
    hide PassOver, Pruned, SortRoutes, GatherHops, Tick, DistinctIds, StatusMap;
    TickAt(world, env, backToPrimary, i);
  }

  lemma OthersUntouched(world: World, env: Env, backToPrimary: bool, id: TableId)
    requires Works(world, env) && DistinctIds(world.config.routeTables.value) && id in world.cloud
    requires forall i :: 0 <= i < |world.config.routeTables.value| ==> world.config.routeTables.value[i].id != id
    ensures var after := Tick(world, env, backToPrimary);
            id in after.cloud && after.cloud[id] == world.cloud[id]
  {
    hide OutcomeOf, GatherHops;
    TableAfter(world.cloud, world.config.routeTables.value, env.getFails, env.patchLost, HopsOf(world.config, env),
               backToPrimary);
  }

  /** While the health is the same and every call succeeds, two ticks bring the whole world, route tables
      and recorded preferences, to rest, from any state and for any number of routers. At rest no route
      is on a failed next hop with a healthy backup, and every route on a healthy next hop is recorded
      and, if routes are to go back, on its preferred next hop if that is healthy. */
  lemma Converges(world: World, env: Env, backToPrimary: bool)
    requires Works(world, env) && Clear(env)
    requires Distinct(Owns(world.config.routers.value)) && DistinctIds(world.config.routeTables.value)
    ensures var two := Tick(Tick(world, env, backToPrimary), env, backToPrimary);
            && Tick(two, env, backToPrimary) == two
            && two.config.routeTables.Some?
            && (forall i :: 0 <= i < |two.config.routeTables.value| && two.config.routeTables.value[i].id in two.cloud
                  ==> Settled(ViewOf(two, i), HopsOf(world.config, env), backToPrimary))
  {
    hide Settled, Tick, TableTick, GatherHops, StatusMap, Distinct, DistinctIds, Owns;
    var one := Tick(world, env, backToPrimary);
    var two := Tick(one, env, backToPrimary);
    var three := Tick(two, env, backToPrimary);
    HopsSplitPeers(world.config.routers.value, StatusMap(env.reply.states));
    StillWorks(world, env, env, backToPrimary);
    SameIds(world, env, backToPrimary);
    SameIds(one, env, backToPrimary);
    StillWorks(one, env, env, backToPrimary);
    SameIds(two, env, backToPrimary);
    SameKeys(world, env, backToPrimary);
    SameKeys(one, env, backToPrimary);
    SameKeys(two, env, backToPrimary);
    var hops := HopsOf(world.config, env);
    var tables := world.config.routeTables.value;
    forall i | 0 <= i < |tables|
      ensures three.config.routeTables.value[i] == two.config.routeTables.value[i]
      ensures tables[i].id in world.cloud ==> three.cloud[tables[i].id] == two.cloud[tables[i].id]
      ensures tables[i].id in world.cloud ==> Settled(ViewOf(two, i), hops, backToPrimary)
    {
      ClearTickAt(world, env, backToPrimary, i);
      ClearTickAt(one, env, backToPrimary, i);
      ClearTickAt(two, env, backToPrimary, i);
      if tables[i].id in world.cloud {
        TwoTicksSuffice(ViewOf(world, i), hops, backToPrimary);
      }
    }
    forall id | id in world.cloud
      ensures three.cloud[id] == two.cloud[id]
    {
      if forall i :: 0 <= i < |tables| ==> tables[i].id != id {
        OthersUntouched(two, env, backToPrimary, id);
      }
    }
    assert three.cloud == two.cloud;
    assert three.config.routeTables.value == two.config.routeTables.value;
  }

  /** No route of a configured table is on a failed next hop with a healthy backup. */
  predicate AllSafe(world: World, cloud: Cloud, hops: Hops)
    requires world.config.routeTables.Some?
  {
    forall i :: 0 <= i < |world.config.routeTables.value| && world.config.routeTables.value[i].id in cloud
      ==> NoneMovable(cloud[world.config.routeTables.value[i].id], hops)
  }

  /** When every call succeeds, one tick takes all routes off the failed next hops exactly if none was on
      one, or if no table that is read has a route without a next hop address: one such route, in any of
      the tables, keeps the tick from switching them all. */
  lemma FailoverHappens(world: World, env: Env, backToPrimary: bool)
    requires Proceeds(env.reply, world.config) && Clear(env)
    requires Distinct(Owns(world.config.routers.value)) && DistinctIds(world.config.routeTables.value)
    ensures var tables := world.config.routeTables.value;
            var hops := HopsOf(world.config, env);
            AllSafe(world, Tick(world, env, backToPrimary).cloud, hops) <==>
              AllSafe(world, world.cloud, hops)
              || forall i :: 0 <= i < |tables| && tables[i].id in world.cloud ==> tables[i].id !in env.gateways
  {
    assert AnyDerails(world.cloud, world.config.routeTables.value, env.getFails, env.gateways) <==>
           exists i :: 0 <= i < |world.config.routeTables.value|
             && Derails(world.cloud, world.config.routeTables.value[i], env.getFails, env.gateways);
    hide Tick, TableTick, GatherHops, StatusMap, Distinct, DistinctIds, Owns, NoneMovable, AnyDerails;
    if !Works(world, env) {
      Idle(world, env, backToPrimary);
    } else {
      HopsSplitPeers(world.config.routers.value, StatusMap(env.reply.states));
      SameKeys(world, env, backToPrimary);
      forall i | 0 <= i < |world.config.routeTables.value| && world.config.routeTables.value[i].id in world.cloud
        ensures NoneMovable(Tick(world, env, backToPrimary).cloud[world.config.routeTables.value[i].id],
                            HopsOf(world.config, env))
      {
        ClearTickAt(world, env, backToPrimary, i);
        FirstTick(ViewOf(world, i), HopsOf(world.config, env), backToPrimary);
      }
    }
  }

  lemma SameKeys(world: World, env: Env, backToPrimary: bool)
    requires Works(world, env) && DistinctIds(world.config.routeTables.value)
    ensures Tick(world, env, backToPrimary).cloud.Keys == world.cloud.Keys
  {
    hide OutcomeOf, GatherHops;
    TableAfter(world.cloud, world.config.routeTables.value, env.getFails, env.patchLost, HopsOf(world.config, env),
               backToPrimary);
  }

  // ---------------------------------------------------------------------------------------------
  // A lost PATCH, and PATCHes in any order

  /** For a table whose PATCH was lost, or that could not even be read, a later successful tick under the
      same health gives the table and preferences it would have given alone, stored or not. */
  lemma RetryAfterLoss(world: World, failing: Env, env: Env, backToPrimary: bool, i: nat)
    requires Works(world, env) && Clear(env) && failing.reply == env.reply
    requires DistinctIds(world.config.routeTables.value) && i < |world.config.routeTables.value|
    requires var id := world.config.routeTables.value[i].id;
             id in world.cloud && (id in failing.patchLost || id in failing.getFails || failing.readFails)
    ensures var id := world.config.routeTables.value[i].id;
            var alone := Tick(world, env, backToPrimary);
            var retried := Tick(Tick(world, failing, backToPrimary), env, backToPrimary);
            && retried.cloud.Keys == alone.cloud.Keys == world.cloud.Keys
            && retried.cloud[id] == alone.cloud[id]
            && retried.config.routeTables.Some? && alone.config.routeTables.Some?
            && i < |retried.config.routeTables.value| && i < |alone.config.routeTables.value|
            && retried.config.routeTables.value[i] == alone.config.routeTables.value[i]
  {
    hide Tick, PassOver, Pruned, SortRoutes, GatherHops, StatusMap, DistinctIds;
    var hops := HopsOf(world.config, env);
    var t := ViewOf(world, i);
    ClearTickAt(world, env, backToPrimary, i);
    if !Works(world, failing) {
      Idle(world, failing, backToPrimary);
    } else {
      var middle := Tick(world, failing, backToPrimary);
      StillWorks(world, failing, env, backToPrimary);
      SameIds(world, failing, backToPrimary);
      TickAt(world, failing, backToPrimary, i);
      ClearTickAt(middle, env, backToPrimary, i);
      LostPatchIsRetried(t, hops, backToPrimary);
    }
  }

  predicate DistinctPatches(patches: seq<Patch>) {
    forall i, j :: 0 <= i < j < |patches| ==> patches[i].id != patches[j].id
  }

  lemma {:induction false} PatchesAt(cloud: Cloud, patches: seq<Patch>, lost: set<TableId>)
    requires DistinctPatches(patches)
    ensures var after := ApplyPatches(cloud, patches, lost);
            && (forall p :: p in patches && p.id !in lost ==> p.id in after && after[p.id] == p.routes)
            && (forall id :: (forall p :: p in patches && p.id !in lost ==> p.id != id)
                  ==> (id in after <==> id in cloud) && (id in cloud ==> after[id] == cloud[id]))
    decreases |patches|
  {
    if patches != [] {
      var (front, last) := (patches[..|patches| - 1], patches[|patches| - 1]);
      PatchesAt(cloud, front, lost);
      assert front + [last] == patches;
      assert forall p :: p in patches <==> p in front || p == last;
    }
  }

  /** The PATCH requests run in parallel; for distinct tables their order does not matter. */
  lemma PatchOrder(cloud: Cloud, patches: seq<Patch>, others: seq<Patch>, lost: set<TableId>)
    requires DistinctPatches(patches) && DistinctPatches(others) && multiset(patches) == multiset(others)
    ensures ApplyPatches(cloud, patches, lost) == ApplyPatches(cloud, others, lost)
  {
    hide ApplyPatches, DistinctPatches;
    PatchesAt(cloud, patches, lost);
    PatchesAt(cloud, others, lost);
    forall p
      ensures p in patches <==> p in others
    {
      assert p in multiset(patches) <==> p in multiset(others);
    }
    var (a, b) := (ApplyPatches(cloud, patches, lost), ApplyPatches(cloud, others, lost));
    forall id
      ensures id in a <==> id in b
      ensures id in a && id in b ==> a[id] == b[id]
    {
      if p :| p in patches && p.id !in lost && p.id == id {
        assert p in others;
      } else {
        assert forall p :: p in others && p.id !in lost ==> p.id != id;
      }
    }
  }

  /** The PATCHes of one tick are such: one for each table at most. */
  lemma {:induction false} TickPatchesDistinct(cloud: Cloud, tables: seq<TableConfig>, getFails: set<TableId>,
                                               hops: Hops, backToPrimary: bool)
    requires DistinctIds(tables)
    ensures var patches := PatchesOf(cloud, tables, getFails, hops, backToPrimary);
            && DistinctPatches(patches)
            && forall p :: p in patches ==> exists i :: 0 <= i < |tables| && tables[i].id == p.id
    decreases |tables|
  {
    hide OutcomeOf;
    if tables != [] {
      var (front, last) := (tables[..|tables| - 1], tables[|tables| - 1]);
      TickPatchesDistinct(cloud, front, getFails, hops, backToPrimary);
      var patches := PatchesOf(cloud, tables, getFails, hops, backToPrimary);
      forall p | p in patches
        ensures exists i :: 0 <= i < |tables| && tables[i].id == p.id
      {
        if p in PatchesOf(cloud, front, getFails, hops, backToPrimary) {
          var i :| 0 <= i < |front| && front[i].id == p.id;
          assert tables[i].id == p.id;
        } else {
          assert tables[|tables| - 1].id == p.id;
        }
      }
    }
  }
}
