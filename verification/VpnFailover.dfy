/** The strongswan example of yc-route-switcher: subnets are re-pointed in two steps, and the
    configuration is saved only when a run has come to its end. */
module VpnFailover {
  import opened Wrappers

  type SubnetId = string
  type TableId = string

  datatype Active = Primary | Secondary

  const HEALTHY := "HEALTHY"

  /** One entry of routes_config; `status` is None until the load balancer has reported it. */
  datatype Destination = Destination(address: string, status: Option<string>, active: Active, subnets: seq<SubnetId>,
                                     primaryTable: TableId, secondaryTable: TableId)
  {
    predicate Healthy() {
      status == Some(HEALTHY)
    }

    /** Exactly the two conditions under which a run fails over or back. */
    predicate Flips() {
      (!Healthy() && active == Primary) || (Healthy() && active == Secondary)
    }

    function Flipped(): Destination {
      if Flips() then this.(active := if active == Primary then Secondary else Primary) else this
    }

    function ActiveTable(): TableId {
      if active == Primary then primaryTable else secondaryTable
    }
  }

  type Config = seq<Destination>

  /** The route table of every subnet; "" is detached. */
  type Attached = map<SubnetId, TableId>

  datatype State = State(attached: Attached, config: Config)

  /** A PATCH of one subnet. */
  datatype Op = Op(subnet: SubnetId, table: TableId)

  function FailoverOps(table: TableId, subnets: seq<SubnetId>): (ops: seq<Op>)
    ensures |ops| == 2 * |subnets|
  {
    if subnets == [] then []
    else
      var last := subnets[|subnets| - 1];
      FailoverOps(table, subnets[..|subnets| - 1]) + [Op(last, ""), Op(last, table)]
  }

  function OpsOf(d: Destination): seq<Op> {
    if d.Flips() then FailoverOps(d.Flipped().ActiveTable(), d.subnets) else []
  }

  /** All PATCHes of a run that is not cut short. */
  function Ops(config: Config): seq<Op> {
    if config == [] then [] else Ops(config[..|config| - 1]) + OpsOf(config[|config| - 1])
  }

  function Apply(attached: Attached, ops: seq<Op>): Attached {
    if ops == [] then attached
    else Apply(attached, ops[..|ops| - 1])[ops[|ops| - 1].subnet := ops[|ops| - 1].table]
  }

  function FlippedAll(config: Config): (flipped: Config)
    ensures |flipped| == |config|
  {
    seq(|config|, i requires 0 <= i < |config| => config[i].Flipped())
  }

  function SetStatus(config: Config, address: string, status: string): (after: Config)
    ensures |after| == |config|
  {
    seq(|config|, i requires 0 <= i < |config| =>
      if config[i].address == address then config[i].(status := Some(status)) else config[i])
  }

  predicate Knows(config: Config, address: string) {
    exists i :: 0 <= i < |config| && config[i].address == address
  }

  /** The configuration with the reported statuses; an unknown address is an exception. */
  function Reported(config: Config, report: seq<(string, string)>): Option<Config> {
    if report == [] then Some(config)
    else
      var last := report[|report| - 1];
      match Reported(config, report[..|report| - 1])
      case None => None
      case Some(before) => if Knows(before, last.0) then Some(SetStatus(before, last.0, last.1)) else None
  }

  /** The destinations before the first one without a status, which is an exception too. */
  function ReadyCount(config: Config): (n: nat)
    ensures n <= |config|
    ensures forall i :: 0 <= i < n ==> config[i].status.Some?
    ensures n < |config| ==> config[n].status.None?
  {
    if config == [] then 0
    else
      var n := ReadyCount(config[..|config| - 1]);
      if n == |config| - 1 && config[n].status.Some? then n + 1 else n
  }

  function Min(a: nat, b: nat): nat {
    if a < b then a else b
  }

  /** One run of the handler in which the first `calls` PATCHes are accepted, and then no more. */
  function HandlerRun(state: State, report: seq<(string, string)>, calls: nat, putOk: bool): State {
    match Reported(state.config, report)
    case None => state
    case Some(config) =>
      var n := ReadyCount(config);
      var ops := Ops(config[..n]);
      State(Apply(state.attached, ops[..Min(calls, |ops|)]),
            if n == |config| && calls >= |ops| && putOk then FlippedAll(config) else state.config)
  }

  // ---------------------------------------------------------------------------------------------
  // Cutting the PATCHes of a run anywhere

  lemma {:induction false} ApplyTwice(attached: Attached, a: seq<Op>, b: seq<Op>)
    ensures Apply(attached, a + b) == Apply(Apply(attached, a), b)
    decreases |b|
  {
    if b == [] {
      assert a + b == a;
    } else {
      assert (a + b)[..|a + b| - 1] == a + b[..|b| - 1];
      ApplyTwice(attached, a, b[..|b| - 1]);
    }
  }

  lemma OpsStep(config: Config, i: nat)
    requires i < |config|
    ensures Ops(config[..i + 1]) == Ops(config[..i]) + OpsOf(config[i])
  {
    assert config[..i + 1][..i] == config[..i];
  }

  lemma {:induction false} OpsPrefix(config: Config, i: nat)
    requires i <= |config|
    ensures Ops(config[..i]) <= Ops(config)
    decreases |config|
  {
    hide OpsOf;
    if i < |config| {
      OpsPrefix(config[..|config| - 1], i);
      assert config[..|config| - 1][..i] == config[..i];
    } else {
      assert config[..i] == config;
    }
  }

  // ---------------------------------------------------------------------------------------------
  // The program

  /** The VPC service, which will accept `calls` more requests. A PATCH it accepts is carried out. */
  class Vpc {
    var attached: Attached
    var calls: nat

    method Patch(subnet: SubnetId, table: TableId) returns (ok: bool)
      modifies this
      ensures ok <==> old(calls) > 0
      ensures attached == if ok then old(attached)[subnet := table] else old(attached)
      ensures calls == if ok then old(calls) - 1 else 0
    {
      ok := calls > 0;
      if ok {
        attached := attached[subnet := table];
        calls := calls - 1;
      }
    }

    /** Every subnet is detached and attached again; the first refused request ends it. */
    method Failover(table: TableId, subnets: seq<SubnetId>) returns (ok: bool)
      modifies this
      ensures var ops := FailoverOps(table, subnets);
              && attached == Apply(old(attached), ops[..Min(old(calls), |ops|)])
              && calls == old(calls) - Min(old(calls), |ops|)
              && (ok <==> old(calls) >= |ops|)
    {
      hide Apply, FailoverOps;
      ghost var (start, budget) := (attached, calls);
      ghost var ops := FailoverOps(table, subnets);
      NothingApplied(start);
      assert ops[..0] == [];
      for i := 0 to |subnets|
        invariant 2 * i <= budget && calls == budget - 2 * i
        invariant attached == Apply(start, ops[..2 * i])
      {
        FailoverOpsAt(table, subnets, i);
        ApplyNext(start, ops, 2 * i);
        ApplyNext(start, ops, 2 * i + 1);
        ok := Patch(subnets[i], "");
        if !ok {
          return false;
        }
        ok := Patch(subnets[i], table);
        if !ok {
          return false;
        }
      }
      return true;
    }
  }

  lemma ApplyNext(attached: Attached, ops: seq<Op>, k: nat)
    requires k < |ops|
    ensures Apply(attached, ops[..k + 1]) == Apply(attached, ops[..k])[ops[k].subnet := ops[k].table]
  {
    assert ops[..k + 1][..k] == ops[..k];
  }

  lemma NothingApplied(attached: Attached)
    ensures Apply(attached, []) == attached
  {
  }

  lemma {:induction false} FailoverOpsAt(table: TableId, subnets: seq<SubnetId>, i: nat)
    requires i < |subnets|
    ensures var ops := FailoverOps(table, subnets);
            ops[2 * i] == Op(subnets[i], "") && ops[2 * i + 1] == Op(subnets[i], table)
    decreases |subnets|
  {
    if i < |subnets| - 1 {
      FailoverOpsAt(table, subnets[..|subnets| - 1], i);
    }
  }

  class Bucket {
    var config: Config
  }

  method ApplyReport(config: Config, report: seq<(string, string)>) returns (r: Option<Config>)
    ensures r == Reported(config, report)
  {
    var current := config;
    assert report[..0] == [];
    for i := 0 to |report|
      invariant Reported(config, report[..i]) == Some(current)
    {
      assert report[..i + 1][..i] == report[..i];
      var known := exists k :: 0 <= k < |current| && current[k].address == report[i].0;
      if !known {
        NoneAfter(config, report, i + 1);
        return None;
      }
      current := SetStatus(current, report[i].0, report[i].1);
    }
    assert report[..|report|] == report;
    return Some(current);
  }

  lemma {:induction false} NoneAfter(config: Config, report: seq<(string, string)>, i: nat)
    requires i <= |report| && Reported(config, report[..i]).None?
    ensures Reported(config, report).None?
    decreases |report|
  {
    if i < |report| {
      assert report[..|report| - 1][..i] == report[..i];
      NoneAfter(config, report[..|report| - 1], i);
    } else {
      assert report[..i] == report;
    }
  }

  /** None stands for an exception, which leaves the configuration unsaved. */
  method CheckRouterStatuses(config: Config, vpc: Vpc, report: seq<(string, string)>) returns (r: Option<Config>)
    modifies vpc
    ensures var after := HandlerRun(State(old(vpc.attached), config), report, old(vpc.calls), true);
            vpc.attached == after.attached && (if r.Some? then r.value else config) == after.config
    ensures r.Some? <==> Completes(config, report, old(vpc.calls))
  {
    hide FailoverOps, Apply, Reported, Ops, ReadyCount;
    ghost var (start, budget) := (vpc.attached, vpc.calls);
    var reported := ApplyReport(config, report);
    if reported.None? {
      return None;
    }
    var current := reported.value;
    ghost var statuses := current;
    assert statuses[..|statuses|] == statuses;
    NoOps(start, statuses);
    for i := 0 to |current|
      invariant |current| == |statuses|
      invariant forall j :: 0 <= j < i ==> statuses[j].status.Some? && current[j] == statuses[j].Flipped()
      invariant forall j :: i <= j < |current| ==> current[j] == statuses[j]
      invariant |Ops(statuses[..i])| <= budget && vpc.calls == budget - |Ops(statuses[..i])|
      invariant vpc.attached == Apply(start, Ops(statuses[..i]))
    {
      var value := current[i];
      if value.status.None? {
        StopAt(start, statuses, i, budget);
        return None;
      }
      RunStep(start, statuses, i, budget);
      if value.Flips() {
        current := current[i := value.Flipped()];
        var ok := vpc.Failover(value.Flipped().ActiveTable(), value.subnets);
        if !ok {
          return None;
        }
      }
    }
    StopAt(start, statuses, |statuses|, budget);
    assert current == FlippedAll(statuses);
    return Some(current);
  }

  lemma NoOps(attached: Attached, config: Config)
    ensures Ops(config[..0]) == [] && Apply(attached, Ops(config[..0])) == attached
  {
  }

  /** The run ends before destination i, whose status is missing, or at the end. */
  lemma StopAt(start: Attached, config: Config, i: nat, budget: nat)
    requires i <= |config| && |Ops(config[..i])| <= budget
    requires forall j :: 0 <= j < i ==> config[j].status.Some?
    requires i < |config| ==> config[i].status.None?
    ensures ReadyCount(config) == i
    ensures var ops := Ops(config[..i]); ops[..Min(budget, |ops|)] == ops
  {
  }

  /** Destination i is dealt with completely, or the requests run out within it. */
  lemma RunStep(start: Attached, config: Config, i: nat, budget: nat)
    requires i < |config| && |Ops(config[..i])| <= budget
    requires forall j :: 0 <= j <= i ==> config[j].status.Some?
    ensures var (done, own) := (Ops(config[..i]), OpsOf(config[i]));
            var all := Ops(config[..ReadyCount(config)]);
            var k := budget - |done|;
            var reached := Apply(Apply(start, done), own[..Min(k, |own|)]);
            && Ops(config[..i + 1]) == done + own
            && (k >= |own| ==> reached == Apply(start, done + own))
            && (k < |own| ==> budget < |all| && reached == Apply(start, all[..budget]))
            && (own == [] ==> done + own == done)
  {
    hide OpsOf, Apply, ReadyCount;
    var (done, own) := (Ops(config[..i]), OpsOf(config[i]));
    var k := budget - |done|;
    ApplyTwice(start, done, own[..Min(k, |own|)]);
    OpsStep(config, i);
    assert own[..|own|] == own;
    if k < |own| {
      ReadyBeyond(config, i + 1);
      var n := ReadyCount(config);
      OpsPrefix(config[..n], i + 1);
      assert config[..n][..i + 1] == config[..i + 1];
      assert Ops(config[..n])[..budget] == done + own[..k];
    }
  }

  predicate Completes(config: Config, report: seq<(string, string)>, calls: nat) {
    match Reported(config, report)
    case None => false
    case Some(c) => ReadyCount(c) == |c| && calls >= |Ops(c)|
  }

  lemma ReadyBeyond(config: Config, i: nat)
    requires i <= |config| && forall j :: 0 <= j < i ==> config[j].status.Some?
    ensures i <= ReadyCount(config)
  {
  }

  method Handler(vpc: Vpc, bucket: Bucket, report: seq<(string, string)>, putOk: bool)
    modifies vpc, bucket
    ensures State(vpc.attached, bucket.config) ==
            HandlerRun(State(old(vpc.attached), old(bucket.config)), report, old(vpc.calls), putOk)
  {
    hide Apply, Ops, Reported, FlippedAll;
    var config := CheckRouterStatuses(bucket.config, vpc, report);
    if config.Some? {
      if putOk {
        bucket.config := config.value;
      }
    }
  }

  // ---------------------------------------------------------------------------------------------
  // What one run does to one destination

  predicate Touches(ops: seq<Op>, s: SubnetId) {
    exists i :: 0 <= i < |ops| && ops[i].subnet == s
  }

  lemma {:induction false} Untouched(attached: Attached, ops: seq<Op>, s: SubnetId)
    requires !Touches(ops, s)
    ensures s in Apply(attached, ops) <==> s in attached
    ensures s in attached ==> Apply(attached, ops)[s] == attached[s]
    decreases |ops|
  {
    if ops != [] {
      var front := ops[..|ops| - 1];
      assert forall i :: 0 <= i < |front| ==> front[i] == ops[i];
      Untouched(attached, front, s);
    }
  }

  /** A request that a destination may cause. */
  predicate Sends(d: Destination, op: Op) {
    d.Flips() && op.subnet in d.subnets && (op.table == "" || op.table == d.Flipped().ActiveTable())
  }

  lemma {:induction false} FailoverTouches(table: TableId, subnets: seq<SubnetId>, op: Op)
    requires op in FailoverOps(table, subnets)
    ensures op.subnet in subnets && (op.table == "" || op.table == table)
    decreases |subnets|
  {
    var (front, last) := (subnets[..|subnets| - 1], subnets[|subnets| - 1]);
    if op in FailoverOps(table, front) {
      FailoverTouches(table, front, op);
    } else {
      assert op in [Op(last, ""), Op(last, table)];
    }
  }

  lemma OpsOfSends(d: Destination)
    ensures forall op :: op in OpsOf(d) ==> Sends(d, op)
  {
    forall op | op in OpsOf(d)
      ensures Sends(d, op)
    {
      FailoverTouches(d.Flipped().ActiveTable(), d.subnets, op);
    }
  }

  lemma ApplyOne(attached: Attached, op: Op)
    ensures Apply(attached, [op]) == attached[op.subnet := op.table]
  {
    assert [op][..0] == [];
  }

  /** A finished failover leaves every subnet of the list on the table. */
  lemma {:induction false} FailoverAttaches(attached: Attached, table: TableId, subnets: seq<SubnetId>, s: SubnetId)
    requires s in subnets
    ensures var after := Apply(attached, FailoverOps(table, subnets)); s in after && after[s] == table
    decreases |subnets|
  {
    var (front, last) := (subnets[..|subnets| - 1], subnets[|subnets| - 1]);
    var pair := [Op(last, ""), Op(last, table)];
    ApplyTwice(attached, FailoverOps(table, front), pair);
    var before := Apply(attached, FailoverOps(table, front));
    assert pair == [Op(last, "")] + [Op(last, table)];
    ApplyTwice(before, [Op(last, "")], [Op(last, table)]);
    ApplyOne(before, Op(last, ""));
    ApplyOne(before[last := ""], Op(last, table));
    if s != last {
      FailoverAttaches(attached, table, front, s);
    }
  }

  /** No subnet belongs to two destinations. */
  predicate DisjointSubnets(config: Config) {
    forall i, j, s :: 0 <= i < j < |config| && s in config[i].subnets ==> s !in config[j].subnets
  }

  lemma {:induction false} OpsTouch(config: Config, op: Op)
    requires op in Ops(config)
    ensures exists k :: 0 <= k < |config| && Sends(config[k], op)
    decreases |config|
  {
    hide OpsOf, Sends;
    var (front, last) := (config[..|config| - 1], config[|config| - 1]);
    if op in Ops(front) {
      OpsTouch(front, op);
      var k :| 0 <= k < |front| && Sends(front[k], op);
      assert config[k] == front[k];
    } else {
      OpsOfSends(last);
      assert Sends(config[|config| - 1], op);
    }
  }

  lemma {:induction false} OpsAttach(attached: Attached, config: Config, k: nat, s: SubnetId)
    requires k < |config| && DisjointSubnets(config) && config[k].Flips() && s in config[k].subnets
    ensures var after := Apply(attached, Ops(config)); s in after && after[s] == config[k].Flipped().ActiveTable()
    decreases |config|
  {
    hide FailoverOps, Apply;
    var (front, last) := (config[..|config| - 1], config[|config| - 1]);
    ApplyTwice(attached, Ops(front), OpsOf(last));
    var before := Apply(attached, Ops(front));
    if k == |front| {
      FailoverAttaches(before, last.Flipped().ActiveTable(), last.subnets, s);
    } else {
      assert config[k] == front[k];
      OpsAttach(attached, front, k, s);
      OpsOfSends(last);
      assert s !in last.subnets;
      forall i | 0 <= i < |OpsOf(last)|
        ensures OpsOf(last)[i].subnet != s
      {
        assert Sends(last, OpsOf(last)[i]);
      }
      Untouched(before, OpsOf(last), s);
    }
  }

  /** The same for requests that are cut short, but not before the destination is dealt with. */
  lemma {:induction false} OpsAttachCut(attached: Attached, config: Config, cut: nat, k: nat, s: SubnetId)
    requires k < |config| && DisjointSubnets(config) && config[k].Flips() && s in config[k].subnets
    requires |Ops(config[..k + 1])| <= cut <= |Ops(config)|
    ensures var after := Apply(attached, Ops(config)[..cut]);
            s in after && after[s] == config[k].Flipped().ActiveTable()
    decreases |config|
  {
    hide FailoverOps, Apply, OpsOf;
    if k == |config| - 1 {
      assert config[..k + 1] == config && Ops(config)[..cut] == Ops(config);
      OpsAttach(attached, config, k, s);
    } else {
      var (front, last) := (config[..|config| - 1], config[|config| - 1]);
      assert front[..k + 1] == config[..k + 1] && front[k] == config[k];
      OpsPrefix(front, k + 1);
      if cut <= |Ops(front)| {
        assert Ops(config)[..cut] == Ops(front)[..cut];
        OpsAttachCut(attached, front, cut, k, s);
      } else {
        var own := OpsOf(last)[..cut - |Ops(front)|];
        assert Ops(config)[..cut] == Ops(front) + own;
        ApplyTwice(attached, Ops(front), own);
        OpsAttach(attached, front, k, s);
        OpsOfSends(last);
        assert s !in last.subnets;
        forall i | 0 <= i < |own|
          ensures own[i].subnet != s
        {
          assert own[i] in OpsOf(last) && Sends(last, own[i]);
        }
        Untouched(Apply(attached, Ops(front)), own, s);
      }
    }
  }

  lemma OpsSpare(attached: Attached, config: Config, cut: nat, k: nat, s: SubnetId)
    requires k < |config| && DisjointSubnets(config) && !config[k].Flips() && s in config[k].subnets
             && cut <= |Ops(config)|
    ensures var after := Apply(attached, Ops(config)[..cut]);
            (s in after <==> s in attached) && (s in attached ==> after[s] == attached[s])
  {
    hide Ops;
    var ops := Ops(config)[..cut];
    forall i | 0 <= i < |ops|
      ensures ops[i].subnet != s
    {
      assert ops[i] in Ops(config);
      OpsTouch(config, ops[i]);
      var j :| 0 <= j < |config| && Sends(config[j], ops[i]);
      assert j != k;
    }
    Untouched(attached, ops, s);
  }

  // ---------------------------------------------------------------------------------------------
  // Recovery

  /** Every subnet of the destination is on the table of its active side. */
  predicate InPlace(attached: Attached, d: Destination) {
    forall s :: s in d.subnets ==> s in attached && attached[s] == d.ActiveTable()
  }

  predicate Consistent(state: State) {
    forall k :: 0 <= k < |state.config| ==> InPlace(state.attached, state.config[k])
  }

  /** What a completed run guarantees about one destination, from any state: its active side agrees with
      its health, and its subnets are in place exactly if the run switched it or they were in place. */
  lemma CompletedRun(state: State, report: seq<(string, string)>, calls: nat, k: nat)
    requires Completes(state.config, report, calls) && DisjointSubnets(state.config) && k < |state.config|
    ensures var seen := Reported(state.config, report).value;
            var after := HandlerRun(state, report, calls, true);
            && |seen| == |after.config| == |state.config|
            && after.config[k] == seen[k].(active := after.config[k].active)
            && (after.config[k].active == Primary <==> after.config[k].status == Some("HEALTHY"))
            && (InPlace(after.attached, after.config[k]) <==>
                seen[k].Flips() || InPlace(state.attached, state.config[k]))
  {
    hide Ops, Apply, Reported, ReadyCount;
    var seen := Reported(state.config, report).value;
    var after := HandlerRun(state, report, calls, true);
    ReportKeeps(state.config, report);
    assert seen[..|seen|] == seen && Ops(seen)[..|Ops(seen)|] == Ops(seen);
    forall s | s in seen[k].subnets
      ensures seen[k].Flips() ==> s in after.attached && after.attached[s] == after.config[k].ActiveTable()
      ensures !seen[k].Flips() ==> (s in after.attached <==> s in state.attached)
      ensures !seen[k].Flips() && s in state.attached ==> after.attached[s] == state.attached[s]
    {
      if seen[k].Flips() {
        OpsAttach(state.attached, seen, k, s);
      } else {
        OpsSpare(state.attached, seen, |Ops(seen)|, k, s);
      }
    }
  }

  /** A report changes statuses only. */
  lemma {:induction false} ReportKeeps(config: Config, report: seq<(string, string)>)
    requires Reported(config, report).Some?
    ensures var seen := Reported(config, report).value;
            && |seen| == |config|
            && (forall k :: 0 <= k < |config| ==> seen[k] == config[k].(status := seen[k].status))
            && (DisjointSubnets(config) ==> DisjointSubnets(seen))
    decreases |report|
  {
    if report != [] {
      ReportKeeps(config, report[..|report| - 1]);
    }
  }

  /** Nothing is reported about the address from the j-th status on. */
  predicate SilentFrom(report: seq<(string, string)>, j: nat, address: string) {
    forall i :: j <= i < |report| ==> report[i].0 != address
  }

  predicate LastAbout(report: seq<(string, string)>, j: nat, address: string)
    requires j < |report|
  {
    report[j].0 == address && SilentFrom(report, j + 1, address)
  }

  lemma {:induction false} ReportKnows(config: Config, report: seq<(string, string)>)
    ensures Reported(config, report).None? <==> exists j :: 0 <= j < |report| && !Knows(config, report[j].0)
    decreases |report|
  {
    hide Knows, SetStatus;
    if report != [] {
      var (front, last) := (report[..|report| - 1], report[|report| - 1]);
      ReportKnows(config, front);
      assert forall j :: 0 <= j < |front| ==> report[j] == front[j];
      assert last == report[|report| - 1];
      if Reported(config, front).Some? {
        ReportKeeps(config, front);
        SameAddresses(config, Reported(config, front).value, last.0);
      }
    }
  }

  lemma SameAddresses(a: Config, b: Config, address: string)
    requires |a| == |b| && forall k :: 0 <= k < |a| ==> b[k].address == a[k].address
    ensures Knows(a, address) <==> Knows(b, address)
  {
  }

  lemma {:induction false} StatusAfter(config: Config, report: seq<(string, string)>, k: nat)
    requires Reported(config, report).Some? && k < |config|
    ensures var seen := Reported(config, report).value;
            && |seen| == |config|
            && (SilentFrom(report, 0, config[k].address) ==> seen[k].status == config[k].status)
            && (forall j :: 0 <= j < |report| && LastAbout(report, j, config[k].address) ==>
                  seen[k].status == Some(report[j].1))
    decreases |report|
  {
    hide SilentFrom, Knows;
    ReportKeeps(config, report);
    if report != [] {
      var (front, last) := (report[..|report| - 1], report[|report| - 1]);
      StatusAfter(config, front, k);
      ReportKeeps(config, front);
      SilentLater(report, 0, config[k].address);
      forall j | 0 <= j < |report| && LastAbout(report, j, config[k].address)
        ensures Reported(config, report).value[k].status == Some(report[j].1)
      {
        if j < |front| {
          SilentLater(report, j + 1, config[k].address);
          assert LastAbout(front, j, config[k].address);
        }
      }
    }
  }

  /** What a report says: it is an exception exactly if it names an address that no destination has; else
      every destination has the last status reported for its own address, and no other. */
  lemma ReportMeaning(config: Config, report: seq<(string, string)>)
    ensures Reported(config, report).None? <==>
            exists j :: 0 <= j < |report| && forall k :: 0 <= k < |config| ==> config[k].address != report[j].0
    ensures Reported(config, report).Some? ==>
              var seen := Reported(config, report).value;
              && |seen| == |config|
              && forall k :: 0 <= k < |config| ==>
                   && seen[k] == config[k].(status := seen[k].status)
                   && (SilentFrom(report, 0, config[k].address) ==> seen[k].status == config[k].status)
                   && (forall j :: 0 <= j < |report| && LastAbout(report, j, config[k].address) ==>
                         seen[k].status == Some(report[j].1))
  {
    hide Reported, LastAbout, SilentFrom;
    ReportKnows(config, report);
    if Reported(config, report).Some? {
      ReportKeeps(config, report);
      forall k | 0 <= k < |config|
        ensures var seen := Reported(config, report).value;
                && (SilentFrom(report, 0, config[k].address) ==> seen[k].status == config[k].status)
                && (forall j :: 0 <= j < |report| && LastAbout(report, j, config[k].address) ==>
                      seen[k].status == Some(report[j].1))
      {
        StatusAfter(config, report, k);
      }
    }
  }

  lemma SilentLater(report: seq<(string, string)>, j: nat, address: string)
    requires j < |report|
    ensures SilentFrom(report, j, address) <==>
            SilentFrom(report[..|report| - 1], j, address) && report[|report| - 1].0 != address
  {
  }

  /** Each of two destinations has its own status. */
  lemma TwoReports(a: Destination, b: Destination)
    requires a.address == "a" && b.address == "b"
    ensures Reported([a, b], [("a", "UNHEALTHY"), ("b", HEALTHY)])
            == Some([a.(status := Some("UNHEALTHY")), b.(status := Some(HEALTHY))])
  {
    var report := [("a", "UNHEALTHY"), ("b", HEALTHY)];
    ReportMeaning([a, b], report);
    assert [a, b][0].address == report[0].0 && [a, b][1].address == report[1].0;
    assert LastAbout(report, 0, "a") && LastAbout(report, 1, "b");
    var seen := Reported([a, b], report).value;
    assert seen == [seen[0], seen[1]];
  }

  /** A run that ends early, at a refused request or a missing status, has still switched every destination
      it came to the end of: their subnets are on the table of the other side. */
  lemma SwitchedSoFar(state: State, report: seq<(string, string)>, calls: nat, putOk: bool, k: nat, s: SubnetId)
    requires Reported(state.config, report).Some? && DisjointSubnets(state.config)
    requires var seen := Reported(state.config, report).value;
             k < ReadyCount(seen) && |Ops(seen[..k + 1])| <= calls && seen[k].Flips() && s in seen[k].subnets
    ensures var seen := Reported(state.config, report).value;
            var after := HandlerRun(state, report, calls, putOk).attached;
            s in after && after[s] == if seen[k].active == Primary then seen[k].secondaryTable else seen[k].primaryTable
  {
    hide Ops, Apply, Reported;
    var seen := Reported(state.config, report).value;
    ReportKeeps(state.config, report);
    var n := ReadyCount(seen);
    OpsPrefix(seen[..n], k + 1);
    assert seen[..n][..k + 1] == seen[..k + 1];
    OpsAttachCut(state.attached, seen[..n], Min(calls, |Ops(seen[..n])|), k, s);
  }

  /** A run that is cut short leaves the configuration alone and the subnets of every destination that it
      did not want to switch as they were. */
  lemma CutRun(state: State, report: seq<(string, string)>, calls: nat, putOk: bool, k: nat)
    requires Reported(state.config, report).Some? && DisjointSubnets(state.config) && k < |state.config|
    requires !Completes(state.config, report, calls) || !putOk
    ensures var seen := Reported(state.config, report).value;
            var after := HandlerRun(state, report, calls, putOk);
            && after.config == state.config && |seen| == |state.config|
            && (!seen[k].Flips() ==>
                  (InPlace(after.attached, state.config[k]) <==> InPlace(state.attached, state.config[k])))
  {
    hide Ops, Apply, Reported;
    var seen := Reported(state.config, report).value;
    var after := HandlerRun(state, report, calls, putOk);
    ReportKeeps(state.config, report);
    var n := ReadyCount(seen);
    OpsPrefix(seen, n);
    assert seen[..|seen|] == seen;
    var cut := Min(calls, |Ops(seen[..n])|);
    assert Ops(seen[..n])[..cut] == Ops(seen)[..cut];
    if !seen[k].Flips() {
      forall s | s in seen[k].subnets
        ensures (s in after.attached <==> s in state.attached)
                && (s in state.attached ==> after.attached[s] == state.attached[s])
      {
        OpsSpare(state.attached, seen, cut, k, s);
      }
    }
  }

  /** Any number of runs under one report, each cut anywhere or not at all. */
  function Attempts(state: State, report: seq<(string, string)>, tries: seq<(nat, bool)>): State {
    if tries == [] then state
    else HandlerRun(Attempts(state, report, tries[..|tries| - 1]), report, tries[|tries| - 1].0, tries[|tries| - 1].1)
  }

  /** What every attempt keeps: a destination that the next run will not switch is in place. */
  predicate Recoverable(state: State, report: seq<(string, string)>) {
    match Reported(state.config, report)
    case None => true
    case Some(seen) =>
      && |seen| == |state.config| && DisjointSubnets(state.config)
      && forall k :: 0 <= k < |seen| && !seen[k].Flips() ==> InPlace(state.attached, state.config[k])
  }

  lemma CompletedConsistent(state: State, report: seq<(string, string)>, calls: nat)
    requires Reported(state.config, report).Some?
    requires Recoverable(state, report) && Completes(state.config, report, calls)
    ensures var after := HandlerRun(state, report, calls, true);
            && Consistent(after) && DisjointSubnets(after.config) && |after.config| == |state.config|
            && forall k :: 0 <= k < |after.config|
                ==> (after.config[k].active == Primary <==> after.config[k].status == Some("HEALTHY"))
  {
    hide HandlerRun, Reported, InPlace, Completes, DisjointSubnets;
    var seen := Reported(state.config, report).value;
    var after := HandlerRun(state, report, calls, true);
    ReportKeeps(state.config, report);
    RunConfig(state, report, calls);
    FlippedKeepsSubnets(seen);
    forall k | 0 <= k < |state.config|
      ensures InPlace(after.attached, after.config[k])
      ensures after.config[k].active == Primary <==> after.config[k].status == Some("HEALTHY")
    {
      CompletedRun(state, report, calls, k);
    }
  }

  lemma RunConfig(state: State, report: seq<(string, string)>, calls: nat)
    requires Completes(state.config, report, calls)
    ensures HandlerRun(state, report, calls, true).config == FlippedAll(Reported(state.config, report).value)
  {
    hide Ops, ReadyCount, Apply;
    var seen := Reported(state.config, report).value;
    assert seen[..|seen|] == seen;
  }

  lemma FlippedKeepsSubnets(config: Config)
    requires DisjointSubnets(config)
    ensures DisjointSubnets(FlippedAll(config))
  {
    assert forall k :: 0 <= k < |config| ==> FlippedAll(config)[k].subnets == config[k].subnets;
  }

  lemma AttemptKeeps(state: State, report: seq<(string, string)>, calls: nat, putOk: bool)
    requires Recoverable(state, report)
    ensures Recoverable(HandlerRun(state, report, calls, putOk), report)
  {
    hide InPlace, Ops, ReadyCount, Apply, Reported;
    var after := HandlerRun(state, report, calls, putOk);
    if Reported(state.config, report).None? {
    } else if Completes(state.config, report, calls) && putOk {
      CompletedConsistent(state, report, calls);
      if Reported(after.config, report).Some? {
        ReportKeeps(after.config, report);
      }
    } else {
      var seen := Reported(state.config, report).value;
      assert seen[..|seen|] == seen;
      forall k | 0 <= k < |state.config| && !seen[k].Flips()
        ensures InPlace(after.attached, state.config[k])
      {
        CutRun(state, report, calls, putOk, k);
      }
    }
  }

  lemma {:induction false} AttemptsKeep(state: State, report: seq<(string, string)>, tries: seq<(nat, bool)>)
    requires Recoverable(state, report)
    ensures Recoverable(Attempts(state, report, tries), report)
    decreases |tries|
  {
    hide Recoverable, HandlerRun;
    if tries != [] {
      var front := tries[..|tries| - 1];
      AttemptsKeep(state, report, front);
      AttemptKeeps(Attempts(state, report, front), report, tries[|tries| - 1].0, tries[|tries| - 1].1);
    }
  }

  lemma ReportedByCompletion(config: Config, report: seq<(string, string)>, calls: nat)
    requires Completes(config, report, calls)
    ensures Reported(config, report).Some?
  {
  }

  /** Crash recovery: start with every subnet in place; let any number of runs under one health report
      fail anywhere, even between the detach and the attach of a subnet; then the first run that
      completes leaves every active side on primary exactly for healthy destinations and every subnet
      on the table of its active side. */
  lemma CrashRecovery(state: State, report: seq<(string, string)>, tries: seq<(nat, bool)>, calls: nat)
    requires DisjointSubnets(state.config) && Consistent(state)
    requires Completes(Attempts(state, report, tries).config, report, calls)
    ensures var after := HandlerRun(Attempts(state, report, tries), report, calls, true);
            && Consistent(after)
            && forall k :: 0 <= k < |after.config|
                ==> (after.config[k].active == Primary <==> after.config[k].status == Some("HEALTHY"))
  {
    hide HandlerRun, Completes, Attempts;
    if Reported(state.config, report).Some? {
      ReportKeeps(state.config, report);
    }
    AttemptsKeep(state, report, tries);
    assert Reported(Attempts(state, report, tries).config, report).Some? by {
      ReportedByCompletion(Attempts(state, report, tries).config, report, calls);
    }
    CompletedConsistent(Attempts(state, report, tries), report, calls);
  }

  /** The health must stay the same: if a destination recovers after a run was cut between detach and
      attach, the next run completes, finds nothing to do and leaves the subnet detached. */
  lemma RecoveryNeedsSameHealth()
    ensures var d := Destination("ip", Some(HEALTHY), Primary, ["s"], "rt1", "rt2");
            var start := State(map["s" := "rt1"], [d]);
            var cut := HandlerRun(start, [("ip", "UNHEALTHY")], 1, true);
            && Consistent(start) && DisjointSubnets(start.config)
            && Completes(cut.config, [("ip", HEALTHY)], 0)
            && HandlerRun(cut, [("ip", HEALTHY)], 0, true) == State(map["s" := ""], [d])
  {
    var d := Destination("ip", Some(HEALTHY), Primary, ["s"], "rt1", "rt2");
    var start := State(map["s" := "rt1"], [d]);
    var sick := d.(status := Some("UNHEALTHY"));
    OneReport(d, "UNHEALTHY");
    OneReport(d, HEALTHY);
    OneDestination(sick);
    OneDestination(d);
    assert OpsOf(sick) == [Op("s", ""), Op("s", "rt2")] by {
      assert ["s"][..0] == [];
      assert FailoverOps("rt2", []) == [];
    }
    assert OpsOf(sick)[..1] == [Op("s", "")];
    ApplyOne(start.attached, Op("s", ""));
    var cut := HandlerRun(start, [("ip", "UNHEALTHY")], 1, true);
    assert cut == State(map["s" := ""], [d]);
    NothingApplied(cut.attached);
  }

  lemma OneReport(d: Destination, status: string)
    ensures Reported([d], [(d.address, status)]) == Some([d.(status := Some(status))])
  {
    assert [(d.address, status)][..|[(d.address, status)]| - 1] == [];
    assert Reported([d], []) == Some([d]);
    assert [d][0].address == d.address;
    assert SetStatus([d], d.address, status) == [d.(status := Some(status))];
  }

  lemma OneDestination(d: Destination)
    requires d.status.Some?
    ensures ReadyCount([d]) == 1 && [d][..1] == [d] && Ops([d]) == OpsOf(d)
    ensures FlippedAll([d]) == [d.Flipped()]
  {
    assert [d][..|[d]| - 1] == [];
    assert Ops([]) + OpsOf(d) == OpsOf(d);
    assert ReadyCount([]) == 0;
  }
}
