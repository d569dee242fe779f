/** yc-route-switcher-v2: one tick of the controller that moves next hops between paired routers. */
module RouteSwitcher {
  import opened Wrappers

  type Ip = string
  type Prefix = string
  type TableId = string

  // ---------------------------------------------------------------------------------------------
  // The configuration in the bucket, the route tables in the cloud, and what a tick may meet

  /** Missing and empty addresses are both None. */
  datatype Interface = Interface(ownIp: Option<Ip>, backupPeerIp: Option<Ip>)

  datatype Router = Router(healthcheckedIp: Option<Ip>, interfaces: seq<Interface>)

  type Preferences = map<Prefix, Ip>

  datatype TableConfig = TableConfig(id: TableId, routes: Option<Preferences>)

  datatype Config = Config(routers: Option<seq<Router>>, routeTables: Option<seq<TableConfig>>)

  datatype Route = Route(destinationPrefix: Prefix, nextHopAddress: Ip)

  type Cloud = map<TableId, seq<Route>>

  /** What the load balancer answers when asked for the target states. */
  datatype Reply = Failed | NoTargets | Targets(states: seq<(Ip, string)>)

  /** The environment of one tick: the reply, the tables whose GET fails, the tables that also have a
      route without a next hop address, such as one to a gateway, the tables whose PATCH is lost, and
      whether the configuration can be read and stored. */
  datatype Env = Env(reply: Reply, getFails: set<TableId>, gateways: set<TableId>, patchLost: set<TableId>,
                     readFails: bool, putFails: bool)

  datatype World = World(cloud: Cloud, config: Config)

  const HEALTHY := "HEALTHY"

  // ---------------------------------------------------------------------------------------------
  // Health: the next hops of the routers that are up, and of those that are not, with their backups

  datatype Hops = Hops(healthy: map<Ip, Ip>, unhealthy: map<Ip, Ip>)

  function StatusMap(states: seq<(Ip, string)>): map<Ip, string> {
    if states == [] then map[]
    else StatusMap(states[..|states| - 1])[states[|states| - 1].0 := states[|states| - 1].1]
  }

  function Backups(known: map<Ip, Ip>, interfaces: seq<Interface>): map<Ip, Ip> {
    if interfaces == [] then known
    else
      var last := interfaces[|interfaces| - 1];
      var before := Backups(known, interfaces[..|interfaces| - 1]);
      if last.ownIp.Some? && last.backupPeerIp.Some? then before[last.ownIp.value := last.backupPeerIp.value]
      else before
  }

  function AddRouter(hops: Hops, router: Router, status: map<Ip, string>): Hops {
    if router.healthcheckedIp.None? || router.healthcheckedIp.value !in status then hops
    else if status[router.healthcheckedIp.value] != HEALTHY then
      hops.(unhealthy := Backups(hops.unhealthy, router.interfaces))
    else
      hops.(healthy := Backups(hops.healthy, router.interfaces))
  }

  function GatherHops(routers: seq<Router>, status: map<Ip, string>): Hops {
    if routers == [] then Hops(map[], map[])
    else AddRouter(GatherHops(routers[..|routers| - 1], status), routers[|routers| - 1], status)
  }

  // ---------------------------------------------------------------------------------------------
  // One route table

  /** Where the loop over the routes of a table stands. */
  datatype Pass = Pass(routes: seq<Route>, preferences: Option<Preferences>, prefixes: set<Prefix>,
                       modified: bool, recorded: bool)

  function StepRoute(pass: Pass, route: Route, hops: Hops, backToPrimary: bool): Pass {
    var (hop, prefix) := (route.nextHopAddress, route.destinationPrefix);
    if hop !in hops.healthy && hop !in hops.unhealthy then
      pass.(routes := pass.routes + [route])
    else
      var seen := pass.(prefixes := pass.prefixes + {prefix});
      if hop in hops.unhealthy then
        var backup := hops.unhealthy[hop];
        if backup in hops.healthy then
          seen.(routes := pass.routes + [route.(nextHopAddress := backup)], modified := true)
        else
          seen.(routes := pass.routes + [route])
      else if pass.preferences.Some? && prefix in pass.preferences.value then
        var primary := pass.preferences.value[prefix];
        if backToPrimary && primary in hops.healthy && hop != primary then
          seen.(routes := pass.routes + [route.(nextHopAddress := primary)], modified := true)
        else
          seen.(routes := pass.routes + [route])
      else
        var known := if pass.preferences.Some? then pass.preferences.value else map[];
        seen.(routes := pass.routes + [route], preferences := Some(known[prefix := hop]), recorded := true)
  }

  function PassOver(routes: seq<Route>, preferences: Option<Preferences>, hops: Hops, backToPrimary: bool): Pass {
    if routes == [] then Pass([], preferences, {}, false, false)
    else
      var before := PassOver(routes[..|routes| - 1], preferences, hops, backToPrimary);
      StepRoute(before, routes[|routes| - 1], hops, backToPrimary)
  }

  /** Recorded prefixes are compared with the managed ones by number only. */
  predicate SizesDiffer(pass: Pass) {
    pass.preferences.Some? && |pass.preferences.value.Keys| != |pass.prefixes|
  }

  function Pruned(pass: Pass): Option<Preferences> {
    if SizesDiffer(pass) then Some(pass.preferences.value - (pass.preferences.value.Keys - pass.prefixes))
    else pass.preferences
  }

  /** Strings are compared code point by code point. */
  predicate Leq(a: string, b: string) {
    a == "" || (b != "" && (a[0] < b[0] || (a[0] == b[0] && Leq(a[1..], b[1..]))))
  }

  function Insert(route: Route, sorted: seq<Route>): seq<Route> {
    if sorted == [] || Leq(route.destinationPrefix, sorted[0].destinationPrefix) then [route] + sorted
    else [sorted[0]] + Insert(route, sorted[1..])
  }

  /** The stable sort by destination prefix. */
  function SortRoutes(routes: seq<Route>): seq<Route> {
    if routes == [] then [] else Insert(routes[0], SortRoutes(routes[1..]))
  }

  // ---------------------------------------------------------------------------------------------
  // One tick

  /** What a tick does about one configured table. */
  datatype Outcome = Outcome(config: TableConfig, changed: bool, patch: Option<seq<Route>>)

  function OutcomeOf(cloud: Cloud, table: TableConfig, getFails: set<TableId>, hops: Hops,
                     backToPrimary: bool): Outcome {
    if table.id in getFails || table.id !in cloud || cloud[table.id] == [] then Outcome(table, false, None)
    else
      var pass := PassOver(cloud[table.id], table.routes, hops, backToPrimary);
      Outcome(table.(routes := Pruned(pass)), pass.recorded || SizesDiffer(pass),
              if pass.modified then Some(SortRoutes(pass.routes)) else None)
  }

  function ConfigsAfter(cloud: Cloud, tables: seq<TableConfig>, getFails: set<TableId>, hops: Hops,
                        backToPrimary: bool): (after: seq<TableConfig>)
    ensures |after| == |tables|
  {
    seq(|tables|, i requires 0 <= i < |tables| => OutcomeOf(cloud, tables[i], getFails, hops, backToPrimary).config)
  }

  predicate AnyChanged(cloud: Cloud, tables: seq<TableConfig>, getFails: set<TableId>, hops: Hops,
                       backToPrimary: bool) {
    exists i :: 0 <= i < |tables| && OutcomeOf(cloud, tables[i], getFails, hops, backToPrimary).changed
  }

  datatype Patch = Patch(id: TableId, routes: seq<Route>)

  function PatchesOf(cloud: Cloud, tables: seq<TableConfig>, getFails: set<TableId>, hops: Hops,
                     backToPrimary: bool): seq<Patch> {
    if tables == [] then []
    else
      var last := tables[|tables| - 1];
      var before := PatchesOf(cloud, tables[..|tables| - 1], getFails, hops, backToPrimary);
      var outcome := OutcomeOf(cloud, last, getFails, hops, backToPrimary);
      if outcome.patch.Some? then before + [Patch(last.id, outcome.patch.value)] else before
  }

  /** The effect of the PATCH requests that are not lost, one after the other. */
  function ApplyPatches(cloud: Cloud, patches: seq<Patch>, lost: set<TableId>): Cloud {
    if patches == [] then cloud
    else
      var before := ApplyPatches(cloud, patches[..|patches| - 1], lost);
      var last := patches[|patches| - 1];
      if last.id in lost then before else before[last.id := last.routes]
  }

  /** The tick goes on to the tables: at least two targets, one of them healthy, and both routers and
      tables configured. */
  predicate Proceeds(reply: Reply, config: Config) {
    && reply.Targets? && |reply.states| >= 2
    && (exists ip :: ip in StatusMap(reply.states) && StatusMap(reply.states)[ip] == HEALTHY)
    && config.routers.Some? && config.routeTables.Some?
  }

  /** Reading a route without a next hop address is an exception. It ends the tick before the first
      PATCH, so that no table is switched and nothing is stored. */
  predicate Derails(cloud: Cloud, table: TableConfig, getFails: set<TableId>, gateways: set<TableId>) {
    table.id !in getFails && table.id in cloud && table.id in gateways
  }

  predicate AnyDerails(cloud: Cloud, tables: seq<TableConfig>, getFails: set<TableId>, gateways: set<TableId>) {
    exists i :: 0 <= i < |tables| && Derails(cloud, tables[i], getFails, gateways)
  }

  /** The tick comes to its PATCH requests. */
  predicate Works(world: World, env: Env) {
    && !env.readFails && Proceeds(env.reply, world.config)
    && !AnyDerails(world.cloud, world.config.routeTables.value, env.getFails, env.gateways)
  }

  function Tick(world: World, env: Env, backToPrimary: bool): World {
    if !Works(world, env) then world
    else
      var hops := GatherHops(world.config.routers.value, StatusMap(env.reply.states));
      var tables := world.config.routeTables.value;
      var patches := PatchesOf(world.cloud, tables, env.getFails, hops, backToPrimary);
      var after := ConfigsAfter(world.cloud, tables, env.getFails, hops, backToPrimary);
      World(ApplyPatches(world.cloud, patches, env.patchLost),
            if AnyChanged(world.cloud, tables, env.getFails, hops, backToPrimary) && !env.putFails
            then world.config.(routeTables := Some(after)) else world.config)
  }

  // ---------------------------------------------------------------------------------------------
  // The program

  /** The VPC service. A PATCH is one atomic update. */
  class Vpc {
    var tables: Cloud

    method Failover(patch: Patch, lost: bool)
      modifies this
      ensures tables == ApplyPatches(old(tables), [patch], if lost then {patch.id} else {})
    {
      assert [patch][..0] == [];
      if !lost {
        tables := tables[patch.id := patch.routes];
      }
    }
  }

  /** The bucket that keeps the configuration between ticks. */
  class Bucket {
    var config: Config
  }

  method PrepareNexthops(routers: seq<Router>, targetStatus: map<Ip, string>)
    returns (healthyNexthops: map<Ip, Ip>, unhealthyNexthops: map<Ip, Ip>)
    ensures Hops(healthyNexthops, unhealthyNexthops) == GatherHops(routers, targetStatus)
  {
    healthyNexthops, unhealthyNexthops := map[], map[];
    assert routers[..0] == [];
    for i := 0 to |routers|
      invariant Hops(healthyNexthops, unhealthyNexthops) == GatherHops(routers[..i], targetStatus)
    {
      var router := routers[i];
      assert routers[..i + 1][..i] == routers[..i];
      if router.healthcheckedIp.None? {
        continue;
      }
      var address := router.healthcheckedIp.value;
      if address in targetStatus {
        if targetStatus[address] != HEALTHY {
          unhealthyNexthops := AddInterfaces(unhealthyNexthops, router.interfaces);
        } else {
          healthyNexthops := AddInterfaces(healthyNexthops, router.interfaces);
        }
      }
    }
    assert routers[..|routers|] == routers;
  }

  method AddInterfaces(known: map<Ip, Ip>, interfaces: seq<Interface>) returns (nexthops: map<Ip, Ip>)
    ensures nexthops == Backups(known, interfaces)
  {
    nexthops := known;
    assert interfaces[..0] == [];
    for i := 0 to |interfaces|
      invariant nexthops == Backups(known, interfaces[..i])
    {
      var interface := interfaces[i];
      assert interfaces[..i + 1][..i] == interfaces[..i];
      if interface.ownIp.Some? {
        if interface.backupPeerIp.Some? {
          nexthops := nexthops[interface.ownIp.value := interface.backupPeerIp.value];
        }
      }
    }
    assert interfaces[..|interfaces|] == interfaces;
  }

  lemma PassStep(routes: seq<Route>, i: nat, preferences: Option<Preferences>, hops: Hops, backToPrimary: bool)
    requires i < |routes|
    ensures PassOver(routes[..i + 1], preferences, hops, backToPrimary)
            == StepRoute(PassOver(routes[..i], preferences, hops, backToPrimary), routes[i], hops, backToPrimary)
  {
    hide StepRoute;
    assert routes[..i + 1][..i] == routes[..i];
  }

  lemma NoPass(preferences: Option<Preferences>, hops: Hops, backToPrimary: bool)
    ensures PassOver([], preferences, hops, backToPrimary) == Pass([], preferences, {}, false, false)
  {
  }

  /** The loop over the routes of one table: `routes` is updated in place, and so is the table's entry
      in the configuration. */
  method SwitchTable(routeTable: array<Route>, preferences: Option<Preferences>, hops: Hops, backToPrimary: bool)
    returns (pass: Pass)
    modifies routeTable
    ensures pass == PassOver(old(routeTable[..]), preferences, hops, backToPrimary)
    ensures routeTable[..] == pass.routes
  {
    hide PassOver;
    ghost var routes := routeTable[..];
    var known, prefixes, modified, recorded := preferences, {}, false, false;
    NoPass(preferences, hops, backToPrimary);
    for i := 0 to routeTable.Length
      invariant routeTable[i..] == routes[i..]
      invariant Pass(routeTable[..i], known, prefixes, modified, recorded)
                == PassOver(routes[..i], preferences, hops, backToPrimary)
    {
      ghost var (done, left) := (routeTable[..i], routeTable[i..]);
      ghost var before := Pass(done, known, prefixes, modified, recorded);
      ghost var route := routeTable[i];
      var (hop, prefix) := (routeTable[i].nextHopAddress, routeTable[i].destinationPrefix);
      assert route == left[0] == routes[i..][0] == routes[i];
      PassStep(routes, i, preferences, hops, backToPrimary);
      if hop in hops.healthy || hop in hops.unhealthy {
        prefixes := prefixes + {prefix};
        if hop in hops.unhealthy {
          var backup := hops.unhealthy[hop];
          if backup in hops.healthy {
            routeTable[i] := routeTable[i].(nextHopAddress := backup);
            modified := true;
          }
        } else if known.Some? {
          if prefix in known.value {
            if backToPrimary {
              var primary := known.value[prefix];
              if primary in hops.healthy && hop != primary {
                routeTable[i] := routeTable[i].(nextHopAddress := primary);
                modified := true;
              }
            }
          } else {
            known := Some(known.value[prefix := hop]);
            recorded := true;
          }
        } else {
          known := Some(map[prefix := hop]);
          recorded := true;
        }
      }
      assert StepRoute(before, route, hops, backToPrimary) ==
             Pass(done + [routeTable[i]], known, prefixes, modified, recorded);
      hide StepRoute;
      assert routeTable[..i] == done;
      assert routeTable[..i + 1] == done + [routeTable[i]];
      assert routeTable[i + 1..] == left[1..] == routes[i..][1..] == routes[i + 1..];
    }
    assert routes[..|routes|] == routes;
    pass := Pass(routeTable[..], known, prefixes, modified, recorded);
    assert routeTable[..] == routeTable[..routeTable.Length];
  }

  /** Report k is the last one about its address. */
  predicate LastReport(states: seq<(Ip, string)>, k: nat)
    requires k < |states|
  {
    forall j :: k < j < |states| ==> states[j].0 != states[k].0
  }

  /** An address has a status exactly if something was reported about it, and then the last report. */
  lemma {:induction false} LastReportWins(states: seq<(Ip, string)>, ip: Ip)
    ensures ip in StatusMap(states) <==> exists k :: 0 <= k < |states| && states[k].0 == ip
    ensures ip in StatusMap(states) ==>
              exists k :: 0 <= k < |states| && states[k] == (ip, StatusMap(states)[ip]) && LastReport(states, k)
    decreases |states|
  {
    if states != [] {
      var (front, last) := (states[..|states| - 1], |states| - 1);
      LastReportWins(front, ip);
      if states[last].0 == ip {
        assert states[last] == (ip, StatusMap(states)[ip]) && LastReport(states, last);
      } else if ip in StatusMap(states) {
        var k :| 0 <= k < |front| && front[k] == (ip, StatusMap(front)[ip]) && LastReport(front, k);
        assert states[k] == front[k];
        assert LastReport(states, k);
      } else {
        assert forall k :: 0 <= k < |front| ==> front[k] == states[k];
      }
    }
  }

  method ReadStatuses(states: seq<(Ip, string)>) returns (targetStatus: map<Ip, string>)
    ensures targetStatus == StatusMap(states)
    ensures forall ip :: ip in targetStatus <==> exists k :: 0 <= k < |states| && states[k].0 == ip
    ensures forall ip :: ip in targetStatus ==>
              exists k :: 0 <= k < |states| && states[k] == (ip, targetStatus[ip]) && LastReport(states, k)
  {
    targetStatus := map[];
    assert states[..0] == [];
    for i := 0 to |states|
      invariant targetStatus == StatusMap(states[..i])
    {
      assert states[..i + 1][..i] == states[..i];
      targetStatus := targetStatus[states[i].0 := states[i].1];
    }
    assert states[..|states|] == states;
    hide StatusMap;
    forall ip
      ensures ip in targetStatus <==> exists k :: 0 <= k < |states| && states[k].0 == ip
      ensures ip in targetStatus ==>
                exists k :: 0 <= k < |states| && states[k] == (ip, targetStatus[ip]) && LastReport(states, k)
    {
      LastReportWins(states, ip);
    }
  }

  lemma AnyChangedStep(cloud: Cloud, tables: seq<TableConfig>, i: nat, getFails: set<TableId>, hops: Hops,
                       backToPrimary: bool)
    requires i < |tables|
    ensures AnyChanged(cloud, tables[..i + 1], getFails, hops, backToPrimary) <==>
            AnyChanged(cloud, tables[..i], getFails, hops, backToPrimary)
            || OutcomeOf(cloud, tables[i], getFails, hops, backToPrimary).changed
  {
    hide OutcomeOf;
    if OutcomeOf(cloud, tables[i], getFails, hops, backToPrimary).changed {
      assert tables[..i + 1][i] == tables[i];
    }
    if AnyChanged(cloud, tables[..i], getFails, hops, backToPrimary) {
      var j :| 0 <= j < i && OutcomeOf(cloud, tables[..i][j], getFails, hops, backToPrimary).changed;
      assert tables[..i + 1][j] == tables[..i][j];
    }
  }

  lemma NoneChanged(cloud: Cloud, getFails: set<TableId>, hops: Hops, backToPrimary: bool)
    ensures !AnyChanged(cloud, [], getFails, hops, backToPrimary)
  {
  }

  lemma AnyDerailsStep(cloud: Cloud, tables: seq<TableConfig>, i: nat, getFails: set<TableId>, gateways: set<TableId>)
    requires i < |tables|
    ensures AnyDerails(cloud, tables[..i + 1], getFails, gateways) <==>
            AnyDerails(cloud, tables[..i], getFails, gateways) || Derails(cloud, tables[i], getFails, gateways)
    ensures Derails(cloud, tables[i], getFails, gateways) ==> AnyDerails(cloud, tables, getFails, gateways)
  {
    hide Derails;
    if Derails(cloud, tables[i], getFails, gateways) {
      assert tables[..i + 1][i] == tables[i];
    }
    if AnyDerails(cloud, tables[..i], getFails, gateways) {
      var j :| 0 <= j < i && Derails(cloud, tables[..i][j], getFails, gateways);
      assert tables[..i + 1][j] == tables[..i][j];
    }
  }

  lemma NoneDerails(cloud: Cloud, getFails: set<TableId>, gateways: set<TableId>)
    ensures !AnyDerails(cloud, [], getFails, gateways)
  {
  }

  /** The tables that can be read are switched in the configuration as it was read, and a PATCH is
      collected for each one with a changed route. A route without a next hop address ends all that. */
  method SwitchTables(vpc: Vpc, configured: seq<TableConfig>, getFails: set<TableId>, gateways: set<TableId>,
                      hops: Hops, backToPrimary: bool)
    returns (tables: seq<TableConfig>, allRouteTables: seq<Patch>, configChanged: bool, crashed: bool)
    ensures crashed <==> AnyDerails(vpc.tables, configured, getFails, gateways)
    ensures !crashed ==> tables == ConfigsAfter(vpc.tables, configured, getFails, hops, backToPrimary)
    ensures !crashed ==> allRouteTables == PatchesOf(vpc.tables, configured, getFails, hops, backToPrimary)
    ensures !crashed ==> (configChanged <==> AnyChanged(vpc.tables, configured, getFails, hops, backToPrimary))
  {
    hide PassOver, SortRoutes, AnyChanged, StepRoute, AnyDerails;
    NoneChanged(vpc.tables, getFails, hops, backToPrimary);
    NoneDerails(vpc.tables, getFails, gateways);
    tables, allRouteTables, configChanged, crashed := configured, [], false, false;
    ghost var cloud := vpc.tables;
    assert configured[..0] == [];
    for i := 0 to |configured|
      invariant |tables| == |configured| && tables[i..] == configured[i..]
      invariant tables[..i] == ConfigsAfter(cloud, configured, getFails, hops, backToPrimary)[..i]
      invariant allRouteTables == PatchesOf(cloud, configured[..i], getFails, hops, backToPrimary)
      invariant configChanged <==> AnyChanged(cloud, configured[..i], getFails, hops, backToPrimary)
      invariant !crashed && !AnyDerails(cloud, configured[..i], getFails, gateways)
    {
      var table := tables[i];
      assert table == tables[i..][0] == configured[i..][0] == configured[i];
      assert configured[..i + 1][..i] == configured[..i];
      AnyChangedStep(cloud, configured, i, getFails, hops, backToPrimary);
      AnyDerailsStep(cloud, configured, i, getFails, gateways);
      if table.id in getFails || table.id !in vpc.tables {
        continue;
      }
      if table.id in gateways {
        crashed := true;
        return;
      }
      var routes := vpc.tables[table.id];
      if |routes| == 0 {
        continue;
      }
      var routeTable := new Route[|routes|](k requires 0 <= k < |routes| => routes[k]);
      assert routeTable[..] == routes;
      var pass := SwitchTable(routeTable, table.routes, hops, backToPrimary);
      if pass.modified {
        allRouteTables := allRouteTables + [Patch(table.id, SortRoutes(routeTable[..]))];
      }
      if SizesDiffer(pass) {
        configChanged := true;
      }
      if pass.recorded {
        configChanged := true;
      }
      ghost var before := tables;
      tables := tables[i := table.(routes := Pruned(pass))];
      assert tables[..i] == before[..i] && tables[i + 1..] == before[i + 1..] == configured[i..][1..];
    }
    assert configured[..|configured|] == configured;
    assert tables == tables[..|configured|];
  }

  method CheckRouterStatuses(config: Config, vpc: Vpc, bucket: Bucket, env: Env, backToPrimary: bool)
    requires bucket.config == config && !env.readFails
    modifies vpc, bucket
    ensures World(vpc.tables, bucket.config) == Tick(World(old(vpc.tables), config), env, backToPrimary)
  {
    hide GatherHops, PatchesOf, ConfigsAfter, AnyChanged, AnyDerails;
    if !env.reply.Targets? {
      return;
    }
    if |env.reply.states| < 2 {
      return;
    }
    var targetStatus := ReadStatuses(env.reply.states);
    if HEALTHY !in targetStatus.Values {
      return;
    }
    if config.routers.None? {
      return;
    }
    var healthyNexthops, unhealthyNexthops := PrepareNexthops(config.routers.value, targetStatus);
    if config.routeTables.None? {
      return;
    }
    var hops := Hops(healthyNexthops, unhealthyNexthops);
    ghost var cloud := vpc.tables;
    var tables, allRouteTables, configChanged, crashed :=
      SwitchTables(vpc, config.routeTables.value, env.getFails, env.gateways, hops, backToPrimary);
    if crashed {
      return;
    }
    assert allRouteTables[..0] == [];
    for k := 0 to |allRouteTables|
      invariant vpc.tables == ApplyPatches(cloud, allRouteTables[..k], env.patchLost)
      invariant bucket.config == config
    {
      assert allRouteTables[..k + 1][..k] == allRouteTables[..k];
      ApplyOne(vpc.tables, allRouteTables[k], env.patchLost);
      vpc.Failover(allRouteTables[k], allRouteTables[k].id in env.patchLost);
    }
    assert allRouteTables[..|allRouteTables|] == allRouteTables;
    if configChanged {
      if !env.putFails {
        bucket.config := config.(routeTables := Some(tables));
      }
    }
  }

  lemma ApplyOne(cloud: Cloud, patch: Patch, lost: set<TableId>)
    ensures ApplyPatches(cloud, [patch], lost) == if patch.id in lost then cloud else cloud[patch.id := patch.routes]
    ensures ApplyPatches(cloud, [patch], if patch.id in lost then {patch.id} else {})
            == ApplyPatches(cloud, [patch], lost)
  {
    assert [patch][..0] == [];
  }

  /** The program of one tick does to the cloud and the bucket what the tick function says. */
  method Handler(vpc: Vpc, bucket: Bucket, env: Env, backToPrimary: bool)
    modifies vpc, bucket
    ensures World(vpc.tables, bucket.config) == Tick(World(old(vpc.tables), old(bucket.config)), env, backToPrimary)
  {
    if env.readFails {
      return;
    }
    var config := bucket.config;
    CheckRouterStatuses(config, vpc, bucket, env, backToPrimary);
  }
}
