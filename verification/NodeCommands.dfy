/** The commands a node gives its bridge, and why its flows are always the compilation of what it knows. */
module NodeCommands {
  import opened Prelude
  import opened Word32
  import opened Watch
  import opened Records
  import OpenFlow
  import NF = NodeFlows
  import opened NodeOps
  import opened Bridge
  import opened HostRoutes
  import opened Retenanting
  import opened NodeRuns

  /** An operation on the bridge; adding a host whose subnet does not parse adds its tunnel alone. */
  datatype Command = Run(op: Op) | TunnelOnly(host: uint32)

  function Obey(net: NF.Net, rules: set<OpenFlow.Rule>, c: Command): set<OpenFlow.Rule> {
    match c
    case Run(op) => Apply(net, rules, op)
    case TunnelOnly(host) => OpenFlow.AddFlow(rules, NF.TunnelRule(host))
  }

  function ObeyAll(net: NF.Net, rules: set<OpenFlow.Rule>, cs: seq<Command>): set<OpenFlow.Rule>
    decreases |cs|
  {
    if cs == [] then rules else ObeyAll(net, Obey(net, rules, cs[0]), cs[1..])
  }

  ghost function Knows(net: NF.Net, st: NF.Node, c: Command): NF.Node {
    match c
    case Run(op) => Learn(net, st, op)
    case TunnelOnly(host) => WithTunnel(st, host)
  }

  ghost function KnowsAll(net: NF.Net, st: NF.Node, cs: seq<Command>): NF.Node
    decreases |cs|
  {
    if cs == [] then st else KnowsAll(net, Knows(net, st, cs[0]), cs[1..])
  }

  // ---------------------------------------------------------------- the commands of a happening

  function TagCommands(locals: seq<LocalPod>, vnid: uint32): seq<Command> {
    seq(|locals|, i requires 0 <= i < |locals| =>
      Run(UpdatePodOp(locals[i].ip, NF.Pod(locals[i].port, locals[i].mac, vnid))))
  }

  function ServiceCommands(services: seq<Service>, vnid: uint32): seq<Command>
    decreases |services|
  {
    if services == [] then [] else
      var keys := KeysOf(services[0]);
      [Run(DeleteServiceOp(keys)), Run(AddServiceOp(keys, vnid))] + ServiceCommands(services[1..], vnid)
  }

  /** An added namespace retags its pods and services unless the node has the VNID already; a removal names a
      key and leads to nothing. */
  function EventCommands(ids: map<string, uint32>, e: Event<NetnsInfo>, locals: seq<LocalPod>, services: seq<Service>): seq<Command> {
    if e.Removed? || Skipped(ids, e.rec) then []
    else TagCommands(locals, e.rec.value.netID) + ServiceCommands(services, e.rec.value.netID)
  }

  ghost function BatchCommands(net: NF.Net, t: Tenants, batch: seq<Event<NetnsInfo>>,
                               locals: string -> seq<LocalPod>, services: string -> seq<Service>): seq<Command>
    decreases |batch|
  {
    if batch == [] then [] else
      var init, last := batch[..|batch| - 1], batch[|batch| - 1];
      BatchCommands(net, t, init, locals, services)
      + EventCommands(AllNetnsEvents(net, t, init, locals, services).ids, last, locals(last.rec.name), services(last.rec.name))
  }

  /** The command for one recorded host. */
  function HostCommand(self: Self, rec: HostSubnet): seq<Command> {
    var ip, subnet := rec.value.hostIP, rec.value.subnet;
    if ip == self.ip || !Accepts(self, ip) then []
    else if subnet.None? then [TunnelOnly(ip)]
    else [Run(AddHostOp(subnet.value, ip))]
  }

  function HostCommands(self: Self, hosts: seq<HostSubnet>): seq<Command>
    decreases |hosts|
  {
    if hosts == [] then [] else HostCommands(self, hosts[..|hosts| - 1]) + HostCommand(self, hosts[|hosts| - 1])
  }

  ghost function Commands(site: Site, a: Agent, h: Happening): seq<Command> {
    var ids := a.vnids.ids;
    match h
    case NetnsListed(_) => []
    case NetnsCame(news, locals, services) =>
      BatchCommands(site.self.net, TenantsOf(a), BatchOf(site, a, news), locals, services)
    case HostsCame(HostSnapshot(hosts)) => HostCommands(site.self, hosts)
    case HostsCame(HostWrite(w)) => if w.Wrote? then HostCommand(site.self, w.rec) else []
    case PodUp(ip, port, mac, name) => if name in ids then [Run(SetupPodOp(ip, NF.Pod(port, mac, ids[name])))] else []
    case PodDown(ip) => [Run(TeardownPodOp(ip))]
    case ServiceUp(name, keys) => if name in ids then [Run(AddServiceOp(keys, ids[name]))] else []
    case ServiceDown(keys) => [Run(DeleteServiceOp(keys))]
  }

  // ---------------------------------------------------------------- the flows

  /** The command is one the flows follow. */
  ghost predicate Proper(net: NF.Net, st: NF.Node, c: Command) {
    c.Run? ==> Bridge.Admissible(net, st, c.op)
  }

  ghost predicate AllProper(net: NF.Net, st: NF.Node, cs: seq<Command>)
    decreases |cs|
  {
    cs != [] ==> Proper(net, st, cs[0]) && AllProper(net, Knows(net, st, cs[0]), cs[1..])
  }

  lemma {:induction false} CommandsCompile(net: NF.Net, st: NF.Node, cs: seq<Command>)
    requires net.Valid() && Sane(net, st) && AllProper(net, st, cs)
    ensures ObeyAll(net, NF.Compile(net, st), cs) == NF.Compile(net, KnowsAll(net, st, cs))
    ensures Sane(net, KnowsAll(net, st, cs))
    decreases |cs|
  {
    if cs != [] {
      match cs[0] {
        case Run(op) => OpCompiles(net, st, op);
        case TunnelOnly(host) => TunnelCompiles(net, st, host);
      }
      CommandsCompile(net, Knows(net, st, cs[0]), cs[1..]);
    }
  }

  lemma PodsHavePodAddresses(net: NF.Net, ip: uint32)
    requires net.Valid() && OpenFlow.InCidr(Some(net.local), ip) && ip != NF.Gateway(net.local)
    ensures PodAddress(net, ip)
  {
    OpenFlow.CidrWithinIsSubset(net.local, net.cluster, ip);
  }

  lemma {:induction false} TagsAreProper(net: NF.Net, st: NF.Node, locals: seq<LocalPod>, vnid: uint32, rest: seq<Command>)
    requires forall l :: l in locals ==> PodAddress(net, l.ip)
    requires AllProper(net, TagPods(st, locals, vnid), rest)
    ensures AllProper(net, st, TagCommands(locals, vnid) + rest)
    decreases |locals|
  {
    var cs := TagCommands(locals, vnid);
    if locals == [] {
      assert cs + rest == rest;
    } else {
      assert locals[0] in locals;
      assert (cs + rest)[1..] == TagCommands(locals[1..], vnid) + rest;
      TagsAreProper(net, WithPod(st, locals[0].ip, NF.Pod(locals[0].port, locals[0].mac, vnid)), locals[1..], vnid, rest);
    }
  }

  lemma {:induction false} ServicesAreProper(net: NF.Net, st: NF.Node, services: seq<Service>, vnid: uint32)
    requires forall k :: Mentions(services, k) ==> OpenFlow.InCidr(Some(net.service), k.ip)
    ensures AllProper(net, st, ServiceCommands(services, vnid))
    decreases |services|
  {
    if services != [] {
      var keys, cs := KeysOf(services[0]), ServiceCommands(services, vnid);
      assert cs[1..][1..] == ServiceCommands(services[1..], vnid);
      forall k | k in keys
        ensures OpenFlow.InCidr(Some(net.service), k.ip)
      {
        assert Mentions(services, k);
      }
      forall k | Mentions(services[1..], k)
        ensures Mentions(services, k)
      {
      }
      ServicesAreProper(net, MoveService(net, st, services[0], vnid), services[1..], vnid);
    }
  }

  lemma OneIsProper(net: NF.Net, st: NF.Node, c: Command)
    requires Proper(net, st, c)
    ensures AllProper(net, st, [c])
  {
    assert [c][1..] == [];
  }

  // ---------------------------------------------------------------- commands and knowledge

  /** Proper commands that bring the node's knowledge from `st` to `st'`. */
  ghost predicate Leads(net: NF.Net, st: NF.Node, cs: seq<Command>, st': NF.Node) {
    AllProper(net, st, cs) && KnowsAll(net, st, cs) == st'
  }

  lemma {:induction false} TagCommandsTag(net: NF.Net, st: NF.Node, locals: seq<LocalPod>, vnid: uint32, rest: seq<Command>)
    ensures KnowsAll(net, st, TagCommands(locals, vnid) + rest) == KnowsAll(net, TagPods(st, locals, vnid), rest)
    decreases |locals|
  {
    var cs := TagCommands(locals, vnid);
    if locals == [] {
      assert cs + rest == rest;
    } else {
      assert (cs + rest)[1..] == TagCommands(locals[1..], vnid) + rest;
      TagCommandsTag(net, WithPod(st, locals[0].ip, NF.Pod(locals[0].port, locals[0].mac, vnid)), locals[1..], vnid, rest);
    }
  }

  lemma {:induction false} ServiceCommandsTag(net: NF.Net, st: NF.Node, services: seq<Service>, vnid: uint32)
    ensures KnowsAll(net, st, ServiceCommands(services, vnid)) == TagServices(net, st, services, vnid)
    decreases |services|
  {
    if services != [] {
      var cs := ServiceCommands(services, vnid);
      assert cs[1..][1..] == ServiceCommands(services[1..], vnid);
      ServiceCommandsTag(net, MoveService(net, st, services[0], vnid), services[1..], vnid);
    }
  }

  lemma KnowsOne(net: NF.Net, st: NF.Node, c: Command)
    ensures KnowsAll(net, st, [c]) == Knows(net, st, c)
  {
    assert [c][1..] == [];
    assert KnowsAll(net, Knows(net, st, c), []) == Knows(net, st, c);
  }

  lemma {:induction false} KnowsSplit(net: NF.Net, st: NF.Node, a: seq<Command>, b: seq<Command>)
    ensures KnowsAll(net, st, a + b) == KnowsAll(net, KnowsAll(net, st, a), b)
    ensures AllProper(net, st, a + b) <==> AllProper(net, st, a) && AllProper(net, KnowsAll(net, st, a), b)
    decreases |a|
  {
    if a == [] {
      assert a + b == b;
    } else {
      assert (a + b)[1..] == a[1..] + b;
      KnowsSplit(net, Knows(net, st, a[0]), a[1..], b);
    }
  }

  lemma LeadsOn(net: NF.Net, st: NF.Node, a: seq<Command>, st1: NF.Node, b: seq<Command>, st2: NF.Node)
    requires Leads(net, st, a, st1) && Leads(net, st1, b, st2)
    ensures Leads(net, st, a + b, st2)
  {
    KnowsSplit(net, st, a, b);
  }

  lemma OneLeads(net: NF.Net, st: NF.Node, c: Command)
    requires Proper(net, st, c)
    ensures Leads(net, st, [c], Knows(net, st, c))
  {
    KnowsOne(net, st, c);
    OneIsProper(net, st, c);
  }

  lemma EventLeads(net: NF.Net, t: Tenants, e: Event<NetnsInfo>, locals: string -> seq<LocalPod>, services: string -> seq<Service>)
    requires net.Valid() && EventOrderly(net, t, e, locals(e.rec.name), services(e.rec.name))
    ensures Leads(net, t.st, EventCommands(t.ids, e, locals(e.rec.name), services(e.rec.name)),
                  OneNetnsEvent(net, t, e, locals, services).st)
  {
    if e.Added? && !Skipped(t.ids, e.rec) {
      var ls, ss, vnid := locals(e.rec.name), services(e.rec.name), e.rec.value.netID;
      forall l | l in ls
        ensures PodAddress(net, l.ip)
      {
        PodsHavePodAddresses(net, l.ip);
      }
      ServicesAreProper(net, TagPods(t.st, ls, vnid), ss, vnid);
      TagsAreProper(net, t.st, ls, vnid, ServiceCommands(ss, vnid));
      TagCommandsTag(net, t.st, ls, vnid, ServiceCommands(ss, vnid));
      ServiceCommandsTag(net, TagPods(t.st, ls, vnid), ss, vnid);
    }
  }

  lemma {:induction false} BatchLeads(net: NF.Net, t: Tenants, batch: seq<Event<NetnsInfo>>,
                                      locals: string -> seq<LocalPod>, services: string -> seq<Service>)
    requires net.Valid() && BatchOrderly(net, t, batch, locals, services)
    ensures Leads(net, t.st, BatchCommands(net, t, batch, locals, services), AllNetnsEvents(net, t, batch, locals, services).st)
    decreases |batch|
  {
    if batch != [] {
      var init, last := batch[..|batch| - 1], batch[|batch| - 1];
      var t1 := AllNetnsEvents(net, t, init, locals, services);
      BatchLeads(net, t, init, locals, services);
      EventLeads(net, t1, last, locals, services);
      LeadsOn(net, t.st, BatchCommands(net, t, init, locals, services), t1.st,
              EventCommands(t1.ids, last, locals(last.rec.name), services(last.rec.name)),
              OneNetnsEvent(net, t1, last, locals, services).st);
    }
  }

  lemma HostLeads(self: Self, st: NF.Node, seen: set<uint32>, rec: HostSubnet)
    requires rec.value.hostIP !in seen && (rec.value.subnet.Some? ==> rec.value.subnet.value.len < 32)
    ensures Leads(self.net, st, HostCommand(self, rec), OnEvent(self, st, seen, Added(rec)).0)
    ensures OnEvent(self, st, seen, Added(rec)).1 <= seen + {rec.value.hostIP}
  {
    var cs := HostCommand(self, rec);
    if cs != [] {
      OneLeads(self.net, st, cs[0]);
    }
  }

  lemma {:induction false} HostsLead(self: Self, st: NF.Node, hosts: seq<HostSubnet>)
    requires DistinctHosts(hosts)
    requires forall i :: 0 <= i < |hosts| && hosts[i].value.subnet.Some? ==> hosts[i].value.subnet.value.len < 32
    ensures Leads(self.net, st, HostCommands(self, hosts), OnBatch(self, st, Additions(hosts)).0)
    ensures forall ip :: ip in OnBatch(self, st, Additions(hosts)).1 ==> exists i :: 0 <= i < |hosts| && hosts[i].value.hostIP == ip
    decreases |hosts|
  {
    if hosts == [] {
      assert OnBatch(self, st, Additions(hosts)) == (st, {});
    } else {
      var init, last := hosts[..|hosts| - 1], hosts[|hosts| - 1];
      HostsLead(self, st, init);
      assert Additions(hosts)[..|hosts| - 1] == Additions(init);
      var (st1, seen1) := OnBatch(self, st, Additions(init));
      assert OnBatch(self, st, Additions(hosts)) == OnEvent(self, st1, seen1, Added(last));
      HostLeads(self, st1, seen1, last);
      LeadsOn(self.net, st, HostCommands(self, init), st1, HostCommand(self, last), OnEvent(self, st1, seen1, Added(last)).0);
    }
  }

  lemma HostNewsLead(site: Site, a: Agent, d: Dirs, news: HostNews)
    requires site.setup.cfg.Valid() && Ready(site, a, d) && NodeRuns.Admissible(site, a, d, HostsCame(news))
    ensures Leads(site.self.net, a.st, Commands(site, a, HostsCame(news)), Next(site, a, HostsCame(news)).st)
  {
    match news {
      case HostSnapshot(hosts) =>
        SnapshotDistinctHosts(site, hosts);
        FirstResetAdds(hosts);
        HostsLead(site.self, a.st, hosts);
      case HostWrite(w) =>
        match w {
          case Erased(ip) => DeletionUnnoticed(site.setup, site.self, Watching(a.records, a.st), ip);
          case Wrote(rec) =>
            assert AfterWrite(d.subnets, w)[rec.value.hostIP] == rec;
            OneEventBatch(site.self, a.st, Added(rec));
            HostLeads(site.self, a.st, {}, rec);
        }
    }
  }

  lemma PodsLead(site: Site, a: Agent, h: Happening)
    requires site.self.net.Valid() && Orderly(site, a, h) && (h.PodUp? || h.PodDown?)
    ensures Leads(site.self.net, a.st, Commands(site, a, h), Next(site, a, h).st)
  {
    PodsHavePodAddresses(site.self.net, h.ip);
    var cs := Commands(site, a, h);
    if cs != [] {
      OneLeads(site.self.net, a.st, cs[0]);
    }
  }

  lemma ServicesLead(site: Site, a: Agent, h: Happening)
    requires site.self.net.multitenant && Orderly(site, a, h) && (h.ServiceUp? || h.ServiceDown?)
    ensures Leads(site.self.net, a.st, Commands(site, a, h), Next(site, a, h).st)
  {
    var cs := Commands(site, a, h);
    if cs != [] {
      OneLeads(site.self.net, a.st, cs[0]);
    }
  }

  /** The commands are proper and bring the node's knowledge to where its handlers bring it. */
  lemma CommandsLead(site: Site, a: Agent, d: Dirs, h: Happening)
    requires site.setup.cfg.Valid() && site.self.net.Valid() && site.self.net.multitenant
    requires Ready(site, a, d) && NodeRuns.Admissible(site, a, d, h)
    ensures Leads(site.self.net, a.st, Commands(site, a, h), Next(site, a, h).st)
  {
    match h {
      case NetnsListed(_) =>
      case NetnsCame(news, locals, services) =>
        BatchLeads(site.self.net, TenantsOf(a), BatchOf(site, a, news), locals, services);
      case HostsCame(news) => HostNewsLead(site, a, d, news);
      case PodUp(_, _, _, _) => PodsLead(site, a, h);
      case PodDown(_) => PodsLead(site, a, h);
      case ServiceUp(_, _) => ServicesLead(site, a, h);
      case ServiceDown(_) => ServicesLead(site, a, h);
    }
  }

  // ---------------------------------------------------------------- runs

  ghost function FlowsAfter(site: Site, rules: set<OpenFlow.Rule>, a: Agent, hs: seq<Happening>): set<OpenFlow.Rule>
    decreases |hs|
  {
    if hs == [] then rules else
      FlowsAfter(site, ObeyAll(site.self.net, rules, Commands(site, a, hs[0])), Next(site, a, hs[0]), hs[1..])
  }

  /** Through all its happenings the commands keep a node's flows the compilation of what it knows. */
  lemma {:induction false} FlowsFollowRun(site: Site, a: Agent, d: Dirs, hs: seq<Happening>)
    requires site.setup.cfg.Valid() && site.self.net.Valid() && site.self.net.multitenant
    requires Sane(site.self.net, a.st) && Ready(site, a, d) && NodeRuns.AllAdmissible(site, a, d, hs)
    ensures FlowsAfter(site, NF.Compile(site.self.net, a.st), a, hs)
         == NF.Compile(site.self.net, AgentAfter(site, a, hs).st)
    decreases |hs|
  {
    if hs != [] {
      var net, h := site.self.net, hs[0];
      CommandsLead(site, a, d, h);
      CommandsCompile(net, a.st, Commands(site, a, h));
      StepKeepsReady(site, a, d, h);
      FlowsFollowRun(site, Next(site, a, h), Seen(d, h), hs[1..]);
    }
  }

  /** From set-up on. */
  lemma FlowsFromSetup(site: Site, hs: seq<Happening>)
    requires site.setup.cfg.Valid() && site.self.net.Valid() && site.self.net.multitenant
    requires NodeRuns.AllAdmissible(site, Blank(), Dirs(map[], map[]), hs)
    ensures FlowsAfter(site, OpenFlow.AddFlows({}, NF.Fixed(site.self.net)), Blank(), hs)
         == NF.Compile(site.self.net, AgentAfter(site, Blank(), hs).st)
  {
    SetupCompiles(site.self.net);
    BlankIsReady(site);
    FlowsFollowRun(site, Blank(), Dirs(map[], map[]), hs);
  }
}
