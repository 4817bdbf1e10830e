/** The whole system: the masters' writes, delivered to the nodes and compiled to flows, carry exactly
    the traffic the namespaces' VNIDs permit. */
module TenantNetwork {
  import opened Prelude
  import opened Word32
  import opened Cidrs
  import opened Watch
  import opened Records
  import MS = MasterSubnets
  import MV = MasterVnids
  import VnidRequests
  import NV = NodeVnids
  import OpenFlow
  import NF = NodeFlows
  import Pipeline
  import opened Delivery
  import opened HostRoutes
  import opened NodeRuns
  import NodeCommands

  // ---------------------------------------------------------------- what the VNID master writes

  /** The write a step of the master makes, if it makes one. */
  ghost function ChangeOf(m: MV.Master, step: MV.Step): seq<NV.Change> {
    match step
    case Assign(name, pick, etcdOk) =>
      if name !in m.vnids.ids && name !in m.etcd && etcdOk && MV.Assigned(m.vnids, name, pick).Ok?
      then [NV.Put(name, NetnsInfo(MV.Assigned(m.vnids, name, pick).value.ids[name], "", ""))] else []
    case Revoke(name, etcdOk) => if etcdOk && name in m.etcd then [NV.Delete(name)] else []
    case Request(name, action, joinTo) =>
      if name in m.etcd then [NV.Put(name, NetnsInfo(m.etcd[name].netID, action, joinTo))] else []
    case HandleEvent(rec, pick, renewOk) =>
      if rec.value.action != "" && renewOk && MV.Updated(m.vnids, rec.name, rec.value.action, rec.value.joinTo, pick).Ok?
      then [NV.Put(rec.name, NetnsInfo(MV.Updated(m.vnids, rec.name, rec.value.action, rec.value.joinTo, pick).value.1, "", ""))]
      else []
    case Failover(_) => []
  }

  ghost function ChangesOf(m: MV.Master, steps: seq<MV.Step>): seq<NV.Change>
    decreases |steps|
  {
    if steps == [] then [] else ChangeOf(m, steps[0]) + ChangesOf(MV.After(m, steps[0]), steps[1..])
  }

  /** Namespaces have plain names. */
  predicate PlainStep(step: MV.Step) {
    match step
    case Assign(name, _, _) => PlainName(name)
    case HandleEvent(rec, _, _) => PlainName(rec.name)
    case _ => true
  }

  /** Fair steps on namespaces with plain names. */
  ghost predicate PlainRun(m: MV.Master, steps: seq<MV.Step>) {
    MV.FairRun(m, steps) && forall step :: step in steps ==> PlainStep(step)
  }

  ghost predicate GoodMaster(m: MV.Master) {
    MV.InRange(m) && forall n :: n in m.etcd || n in m.vnids.ids ==> PlainName(n)
  }

  function AfterChanges(netns: map<string, NetnsInfo>, cs: seq<NV.Change>): map<string, NetnsInfo>
    decreases |cs|
  {
    if cs == [] then netns else AfterChanges(AfterChange(netns, cs[0]), cs[1..])
  }

  ghost predicate GoodChanges(cs: seq<NV.Change>) {
    forall i :: 0 <= i < |cs| ==> GoodChange(cs[i])
  }

  lemma StepIsGood(m: MV.Master, step: MV.Step)
    requires GoodMaster(m) && MV.Fair(m, step) && PlainStep(step)
    ensures GoodMaster(MV.After(m, step)) && GoodChanges(ChangeOf(m, step))
    ensures AfterChanges(m.etcd, ChangeOf(m, step)) == MV.After(m, step).etcd
  {
    MV.StepKeepsRange(m, step);
    match step {
      case Failover(list) => ListedIds(map[], list);
      case _ =>
    }
    var cs, m' := ChangeOf(m, step), MV.After(m, step);
    if cs != [] {
      assert AfterChanges(AfterChange(m.etcd, cs[0]), cs[1..]) == AfterChange(m.etcd, cs[0]);
      assert cs[0].Put? ==> m'.etcd[cs[0].name] == cs[0].info && cs[0].info.netID < VNI_VALUES;
    }
  }

  lemma {:induction false} AfterConcat(netns: map<string, NetnsInfo>, a: seq<NV.Change>, b: seq<NV.Change>)
    ensures AfterChanges(netns, a + b) == AfterChanges(AfterChanges(netns, a), b)
    decreases |a|
  {
    if a == [] {
      assert a + b == b;
    } else {
      assert (a + b)[1..] == a[1..] + b;
      AfterConcat(AfterChange(netns, a[0]), a[1..], b);
    }
  }

  /** etcd is what was written, all of it good. */
  lemma {:induction false} MasterWritesGood(m: MV.Master, steps: seq<MV.Step>)
    requires GoodMaster(m) && PlainRun(m, steps)
    ensures GoodMaster(MV.RunOf(m, steps)) && GoodChanges(ChangesOf(m, steps))
    ensures AfterChanges(m.etcd, ChangesOf(m, steps)) == MV.RunOf(m, steps).etcd
    decreases |steps|
  {
    if steps != [] {
      StepIsGood(m, steps[0]);
      MasterWritesGood(MV.After(m, steps[0]), steps[1..]);
      AfterConcat(m.etcd, ChangeOf(m, steps[0]), ChangesOf(MV.After(m, steps[0]), steps[1..]));
    }
  }

  lemma SplitRun(m: MV.Master, steps: seq<MV.Step>, k: nat)
    requires k <= |steps| && PlainRun(m, steps)
    ensures PlainRun(m, steps[..k]) && PlainRun(MV.RunOf(m, steps[..k]), steps[k..])
    ensures MV.RunOf(MV.RunOf(m, steps[..k]), steps[k..]) == MV.RunOf(m, steps)
  {
    assert steps[..k] + steps[k..] == steps;
    MV.RunOfSplit(m, steps[..k], steps[k..]);
  }

  // ---------------------------------------------------------------- what the subnet master writes

  function AfterWrites(subnets: map<uint32, HostSubnet>, ws: seq<MS.Write>): map<uint32, HostSubnet>
    decreases |ws|
  {
    if ws == [] then subnets else AfterWrites(AfterWrite(subnets, ws[0]), ws[1..])
  }

  ghost predicate GoodWrites(site: Site, subnets: map<uint32, HostSubnet>, ws: seq<MS.Write>)
    decreases |ws|
  {
    ws != [] ==> GoodHostNews(site, subnets, HostWrite(ws[0])) && GoodWrites(site, AfterWrite(subnets, ws[0]), ws[1..])
  }

  /** All the subnet master writes is good, and etcd is what was written. */
  lemma {:induction false} ProtocolWritesGood(site: Site, host: uint32 -> string, s: MS.State, actions: seq<MS.Action>)
    requires site.setup.cfg.Valid() && MS.Inv(site.setup, host, s)
    requires forall a :: a in actions ==> MS.Fixed(host, a)
    requires MS.RunOf(site.setup, s, actions).Some?
    ensures var end := MS.RunOf(site.setup, s, actions).value;
      && s.history <= end.history
      && GoodWrites(site, s.etcd, end.history[|s.history|..])
      && AfterWrites(s.etcd, end.history[|s.history|..]) == end.etcd
    decreases |actions|
  {
    var end := MS.RunOf(site.setup, s, actions).value;
    if actions == [] {
      assert end.history[|s.history|..] == [];
    } else {
      var s' := MS.Do(site.setup, s, actions[0]);
      MS.StepKeepsInv(site.setup, host, s, actions[0]);
      StepWrites(site.setup, s, actions[0]);
      InvRecords(site.setup, host, s');
      ProtocolWritesGood(site, host, s', actions[1..]);
      if !(s'.history == s.history && s'.etcd == s.etcd) {
        var w :| s'.history == s.history + [w] && s'.etcd == AfterWrite(s.etcd, w);
        assert w.Wrote? ==> s'.etcd[w.rec.value.hostIP] == w.rec;
        var ws := end.history[|s.history|..];
        assert ws[0] == w && ws[1..] == end.history[|s'.history|..];
      }
    }
  }

  /** A snapshot of the directory is good and lists it. */
  lemma SnapshotGood(site: Site, host: uint32 -> string, s: MS.State, hosts: seq<HostSubnet>)
    requires site.setup.cfg.Valid() && MS.Inv(site.setup, host, s) && MS.IsSnapshot(s, hosts)
    ensures ByAddress(hosts) == s.etcd && GoodHostNews(site, map[], HostSnapshot(hosts))
  {
    ByAddressHolds(hosts);
    InvRecords(site.setup, host, s);
    var owner :| MS.InvWith(site.setup, host, s, owner);
    MS.SnapshotNames(host, s, owner, hosts);
    forall i | 0 <= i < |hosts|
      ensures PlainName(hosts[i].name)
      ensures hosts[i].value.hostIP in s.etcd && s.etcd[hosts[i].value.hostIP] == hosts[i]
    {
      assert hosts[i] in hosts;
    }
    forall ip | ip in s.etcd
      ensures ip in ByAddress(hosts)
    {
      var i :| 0 <= i < |hosts| && hosts[i] == s.etcd[ip];
    }
  }

  // ---------------------------------------------------------------- the lives of the nodes

  /** Both masters' runs, and what the nodes are told about the cluster. */
  datatype Cluster = Cluster(
    setup: MS.Setup, host: uint32 -> string, subnets: MS.State, actions: seq<MS.Action>,
    vnids: MV.Master, steps: seq<MV.Step>, service: Cidr, netnsDir: string)
  {
    /** The masters start from good records and keep to the rules of their runs. */
    ghost predicate Valid() {
      && setup.cfg.Valid() && MS.Initial(setup, host, subnets.etcd)
      && (forall a :: a in actions ==> MS.Fixed(host, a))
      && MS.RunOf(setup, MS.Started(setup.cfg, subnets), actions).Some?
      && GoodMaster(vnids) && PlainRun(vnids, steps)
      && service.Valid() && service.len < 32 && !Overlap(setup.cfg.network, service)
    }

    /** The subnet protocol after `k` actions. */
    ghost function SubnetsAt(k: nat): Option<MS.State>
      requires setup.cfg.Valid() && k <= |actions|
    {
      MS.RunOf(setup, MS.Started(setup.cfg, subnets), actions[..k])
    }

    /** The VNID master after `k` steps. */
    ghost function VnidsAt(k: nat): MV.Master
      requires k <= |steps|
    {
      MV.RunOf(vnids, steps[..k])
    }
  }

  /** What etcd records for the namespaces at the end. */
  ghost function Recorded(c: Cluster): map<string, NetnsInfo> { MV.RunOf(c.vnids, c.steps).etcd }

  /** A node's life: when its watchers got their first snapshots, what those were, and everything that
      happened since it set up its bridge. */
  datatype Life = Life(
    net: NF.Net, netnsFrom: nat, subnetsFrom: nat, netns: seq<Netns>, hosts: seq<HostSubnet>,
    happenings: seq<Happening>)

  function SiteOf(c: Cluster, h: uint32, life: Life): Site { Site(c.setup, Self(h, life.net), c.netnsDir) }

  ghost function End(c: Cluster, h: uint32, life: Life): Agent {
    AgentAfter(SiteOf(c, h, life), Blank(), life.happenings)
  }

  function NetnsNewsOf(list: seq<Netns>, cs: seq<NV.Change>): seq<NetnsNews> {
    [NetnsSnapshot(list)] + seq(|cs|, i requires 0 <= i < |cs| => NetnsChange(cs[i]))
  }

  function HostNewsOf(hosts: seq<HostSubnet>, ws: seq<MS.Write>): seq<HostNews> {
    [HostSnapshot(hosts)] + seq(|ws|, i requires 0 <= i < |ws| => HostWrite(ws[i]))
  }

  /** The node listed and watched what the masters had written by then, its surroundings were orderly, its
      watchers have delivered all later writes, and it was set up with the subnet recorded for it. */
  ghost predicate Lived(c: Cluster, h: uint32, life: Life)
    requires c.Valid()
  {
    && life.net.cluster == c.setup.cfg.network && life.net.service == c.service && life.net.multitenant
    && Accepts(Self(h, life.net), h)
    && AllOrderly(SiteOf(c, h, life), Blank(), life.happenings)
    && NetnsLived(c, life) && SubnetsLived(c, h, life)
  }

  ghost predicate NetnsLived(c: Cluster, life: Life)
    requires c.Valid()
  {
    && life.netnsFrom <= |c.steps| && NV.Lists(life.netns, c.VnidsAt(life.netnsFrom).etcd)
    && NetnsIn(life.happenings) == NetnsNewsOf(life.netns, ChangesOf(c.VnidsAt(life.netnsFrom), c.steps[life.netnsFrom..]))
    && forall h :: h in life.happenings && h.NetnsListed? ==> ListedOnce(c, h.list)
  }

  /** A list of the namespaces at some time. */
  ghost predicate ListedOnce(c: Cluster, list: seq<Netns>) {
    exists k :: 0 <= k <= |c.steps| && NV.Lists(list, c.VnidsAt(k).etcd)
  }

  ghost predicate SubnetsLived(c: Cluster, h: uint32, life: Life)
    requires c.Valid()
  {
    && life.subnetsFrom <= |c.actions|
    && var from, end := c.SubnetsAt(life.subnetsFrom), c.SubnetsAt(|c.actions|);
       && from.Some? && end.Some? && MS.IsSnapshot(from.value, life.hosts)
       && |from.value.history| <= |end.value.history|
       && HostsIn(life.happenings) == HostNewsOf(life.hosts, end.value.history[|from.value.history|..])
       && h in end.value.etcd && end.value.etcd[h].value.subnet == Some(life.net.local)
  }

  /** Every node has lived. */
  ghost predicate Lives(c: Cluster, lives: map<uint32, Life>)
    requires c.Valid()
  {
    forall h :: h in lives ==> Lived(c, h, lives[h])
  }

  /** The nodes as their lives left them. */
  ghost function WorldOf(c: Cluster, lives: map<uint32, Life>): World {
    map h | h in lives :: Host(lives[h].net, End(c, h, lives[h]).st)
  }

  lemma {:induction false} RunSplit(setup: MS.Setup, s: MS.State, a: seq<MS.Action>, b: seq<MS.Action>)
    requires setup.cfg.Valid() && MS.RunOf(setup, s, a + b).Some?
    ensures MS.RunOf(setup, s, a).Some?
    ensures MS.RunOf(setup, MS.RunOf(setup, s, a).value, b) == MS.RunOf(setup, s, a + b)
    decreases |a|
  {
    if a == [] {
      assert a + b == b;
    } else {
      assert (a + b)[0] == a[0] && (a + b)[1..] == a[1..] + b;
      RunSplit(setup, MS.Do(setup, s, a[0]), a[1..], b);
    }
  }

  lemma SubnetsFrom(c: Cluster, k: nat)
    requires c.Valid() && k <= |c.actions|
    ensures c.SubnetsAt(k).Some? && MS.Inv(c.setup, c.host, c.SubnetsAt(k).value)
    ensures MS.RunOf(c.setup, c.SubnetsAt(k).value, c.actions[k..]) == c.SubnetsAt(|c.actions|)
  {
    var start := MS.Started(c.setup.cfg, c.subnets);
    assert c.actions[..k] + c.actions[k..] == c.actions && c.actions[..|c.actions|] == c.actions;
    RunSplit(c.setup, start, c.actions[..k], c.actions[k..]);
    MS.StartIsInv(c.setup, c.host, c.subnets);
    MS.RunKeepsInv(c.setup, c.host, start, c.actions[..k]);
  }

  lemma NetnsFrom(c: Cluster, k: nat)
    requires c.Valid() && k <= |c.steps|
    ensures GoodMaster(c.VnidsAt(k)) && GoodChanges(ChangesOf(c.VnidsAt(k), c.steps[k..]))
    ensures AfterChanges(c.VnidsAt(k).etcd, ChangesOf(c.VnidsAt(k), c.steps[k..])) == Recorded(c)
  {
    SplitRun(c.vnids, c.steps, k);
    MasterWritesGood(c.vnids, c.steps[..k]);
    MasterWritesGood(c.VnidsAt(k), c.steps[k..]);
  }

  lemma ListsGood(c: Cluster, k: nat, list: seq<Netns>)
    requires c.Valid() && k <= |c.steps| && NV.Lists(list, c.VnidsAt(k).etcd)
    ensures GoodList(list)
  {
    NetnsFrom(c, k);
  }

  lemma {:induction false} ChangesAsNews(netns: map<string, NetnsInfo>, cs: seq<NV.Change>)
    ensures AfterAllNetns(netns, NetnsNewsOf([], cs)[1..]) == AfterChanges(netns, cs)
    decreases |cs|
  {
    var news := NetnsNewsOf([], cs)[1..];
    if cs == [] {
      assert news == [];
    } else {
      assert news[1..] == NetnsNewsOf([], cs[1..])[1..];
      ChangesAsNews(AfterChange(netns, cs[0]), cs[1..]);
    }
  }

  lemma {:induction false} WritesAsNews(site: Site, subnets: map<uint32, HostSubnet>, ws: seq<MS.Write>)
    ensures AfterAllHosts(subnets, HostNewsOf([], ws)[1..]) == AfterWrites(subnets, ws)
    ensures GoodWrites(site, subnets, ws) ==> AllGoodHosts(site, subnets, HostNewsOf([], ws)[1..])
    decreases |ws|
  {
    var news := HostNewsOf([], ws)[1..];
    if ws == [] {
      assert news == [];
    } else {
      assert news[1..] == HostNewsOf([], ws[1..])[1..];
      WritesAsNews(site, AfterWrite(subnets, ws[0]), ws[1..]);
    }
  }

  /** The namespace news of a life are good and lead to what etcd records. */
  lemma NetnsDelivered(c: Cluster, life: Life)
    requires c.Valid() && NetnsLived(c, life)
    ensures AllGoodNetns(NetnsIn(life.happenings)) && GoodListings(life.happenings)
    ensures AfterAllNetns(map[], NetnsIn(life.happenings)) == Recorded(c)
  {
    var cs := ChangesOf(c.VnidsAt(life.netnsFrom), c.steps[life.netnsFrom..]);
    var news := NetnsIn(life.happenings);
    NetnsFrom(c, life.netnsFrom);
    ListsGood(c, life.netnsFrom, life.netns);
    assert forall i :: 0 < i < |news| ==> news[i] == NetnsChange(cs[i - 1]);
    assert news[1..] == NetnsNewsOf([], cs)[1..];
    ChangesAsNews(View(life.netns), cs);
    forall h | h in life.happenings && h.NetnsListed?
      ensures GoodList(h.list)
    {
      assert ListedOnce(c, h.list);
      var k :| 0 <= k <= |c.steps| && NV.Lists(h.list, c.VnidsAt(k).etcd);
      ListsGood(c, k, h.list);
    }
  }

  /** The host news of a life are good and lead to what etcd records. */
  lemma HostsDelivered(c: Cluster, h: uint32, life: Life)
    requires c.Valid() && SubnetsLived(c, h, life)
    ensures AllGoodHosts(SiteOf(c, h, life), map[], HostsIn(life.happenings))
    ensures AfterAllHosts(map[], HostsIn(life.happenings)) == c.SubnetsAt(|c.actions|).value.etcd
  {
    var site, from, end := SiteOf(c, h, life), c.SubnetsAt(life.subnetsFrom).value, c.SubnetsAt(|c.actions|).value;
    var ws, news := end.history[|from.history|..], HostsIn(life.happenings);
    SubnetsFrom(c, life.subnetsFrom);
    SnapshotGood(site, c.host, from, life.hosts);
    ProtocolWritesGood(site, c.host, from, c.actions[life.subnetsFrom..]);
    assert news[1..] == HostNewsOf([], ws)[1..];
    WritesAsNews(site, from.etcd, ws);
  }

  /** At the end of its life a node is in step with both masters. */
  lemma EndIsReady(c: Cluster, h: uint32, life: Life)
    requires c.Valid() && Lived(c, h, life)
    ensures Ready(SiteOf(c, h, life), End(c, h, life), Dirs(Recorded(c), c.SubnetsAt(|c.actions|).value.etcd))
  {
    NetnsDelivered(c, life);
    HostsDelivered(c, h, life);
    BlankIsReady(SiteOf(c, h, life));
    DeliveredIsReady(SiteOf(c, h, life), Blank(), Dirs(map[], map[]), life.happenings);
  }

  // ---------------------------------------------------------------- the network

  lemma NetIsValid(c: Cluster, h: uint32, life: Life)
    requires c.Valid() && Lived(c, h, life)
    ensures life.net.Valid()
  {
    SubnetsFrom(c, |c.actions|);
    var s := c.SubnetsAt(|c.actions|).value;
    var owner :| MS.InvWith(c.setup, c.host, s, owner);
    assert MS.RecStaged(c.host, owner, s.etcd[h]);
    assert life.net.local in s.pool.taken;
  }

  /** The flows a node has installed, command by command since it set up its bridge, are those of the
      world. */
  lemma InstalledFlows(c: Cluster, h: uint32, life: Life)
    requires c.Valid() && Lived(c, h, life)
    ensures NodeCommands.FlowsAfter(SiteOf(c, h, life), OpenFlow.AddFlows({}, NF.Fixed(life.net)), Blank(), life.happenings)
         == NF.Compile(life.net, End(c, h, life).st)
  {
    NetIsValid(c, h, life);
    NetnsDelivered(c, life);
    HostsDelivered(c, h, life);
    GoodIsAdmissible(SiteOf(c, h, life), Blank(), Dirs(map[], map[]), life.happenings);
    NodeCommands.FlowsFromSetup(SiteOf(c, h, life), life.happenings);
  }

  lemma LivedHostOk(c: Cluster, h: uint32, life: Life)
    requires c.Valid() && Lived(c, h, life)
    ensures HostOk(Host(life.net, End(c, h, life).st))
  {
    NetIsValid(c, h, life);
    EndIsReady(c, h, life);
    SizedRoutesUnambiguous(c.setup.cfg, End(c, h, life).st);
  }

  /** A node has the tunnel and the route of every other. */
  lemma LivedRoutes(c: Cluster, a: uint32, la: Life, b: uint32, lb: Life)
    requires c.Valid() && Lived(c, a, la) && Lived(c, b, lb) && a != b
    ensures var st := End(c, a, la).st;
      b in st.tunnels && lb.net.local in st.routes && st.routes[lb.net.local] == b
  {
    EndIsReady(c, a, la);
    assert Accepts(Self(b, lb.net), b) && Accepts(Self(a, la.net), b);
    assert Follows(Self(a, la.net), End(c, a, la).st, b, c.SubnetsAt(|c.actions|).value.etcd[b].value.subnet);
  }

  /** No address is in the subnets of two nodes. */
  lemma LivedApart(c: Cluster, a: uint32, la: Life, b: uint32, lb: Life)
    requires c.Valid() && Lived(c, a, la) && Lived(c, b, lb) && a != b
    requires la.net.local.len <= 32 && lb.net.local.len <= 32
    ensures !Overlap(la.net.local, lb.net.local)
  {
    SubnetsFrom(c, |c.actions|);
    MS.InvIsSafe(c.setup, c.host, c.SubnetsAt(|c.actions|).value);
    assert MS.Apart(Some(la.net.local), Some(lb.net.local));
  }

  lemma LivedLinked(c: Cluster, lives: map<uint32, Life>, a: uint32, b: uint32)
    requires c.Valid() && Lives(c, lives) && a in lives && b in lives && a != b
    ensures Linked(WorldOf(c, lives), a, b)
  {
    NetIsValid(c, a, lives[a]);
    NetIsValid(c, b, lives[b]);
    LivedRoutes(c, a, lives[a], b, lives[b]);
    LivedApart(c, a, lives[a], b, lives[b]);
  }

  /** What the masters and the nodes keep is what forwarding needs. */
  lemma LivedWorldOk(c: Cluster, lives: map<uint32, Life>)
    requires c.Valid() && Lives(c, lives)
    ensures WorldOk(WorldOf(c, lives))
  {
    forall h | h in lives
      ensures HostOk(WorldOf(c, lives)[h])
    {
      LivedHostOk(c, h, lives[h]);
    }
    forall a, b | a in lives && b in lives && a != b
      ensures Linked(WorldOf(c, lives), a, b)
    {
      LivedLinked(c, lives, a, b);
    }
  }

  /** A pod of a recorded namespace, not deleted from Kubernetes. */
  ghost predicate LivePod(c: Cluster, h: uint32, life: Life, ip: uint32) {
    var a := End(c, h, life);
    ip in a.st.pods && ip !in a.owned.lostPods && a.owned.podNs(ip) in Recorded(c)
  }

  /** The VNID etcd records for the namespace a pod has at the end. */
  ghost function TenantOf(c: Cluster, h: uint32, life: Life, ip: uint32): uint32
    requires LivePod(c, h, life, ip)
  {
    Recorded(c)[End(c, h, life).owned.podNs(ip)].netID
  }

  /** A pod carries it. */
  lemma PodTenant(c: Cluster, h: uint32, life: Life, ip: uint32)
    requires c.Valid() && Lived(c, h, life) && LivePod(c, h, life, ip)
    ensures End(c, h, life).st.pods[ip].vnid == TenantOf(c, h, life, ip)
  {
    EndIsReady(c, h, life);
  }

  /** After any runs of the masters and any lives of the nodes: a pod's IP packet to another pod arrives
      there, and only there, exactly when etcd records the same VNID for their namespaces or one of them is
      global. */
  lemma NamespacesAreIsolated(c: Cluster, lives: map<uint32, Life>, hops: nat, ha: uint32, hb: uint32,
                              a: uint32, b: uint32, p: OpenFlow.Packet, end: Arrival)
    requires c.Valid() && Lives(c, lives) && ha in lives && hb in lives && hops > 0
    requires LivePod(c, ha, lives[ha], a) && LivePod(c, hb, lives[hb], b)
    requires SentBy(End(c, ha, lives[ha]).st.pods, a, p) && a != b && p.dst == b
    ensures Arrives(WorldOf(c, lives), hops, ha, p, end) <==>
            && Pipeline.Permitted(TenantOf(c, ha, lives[ha], a), TenantOf(c, hb, lives[hb], b))
            && end == Arrival(hb, End(c, hb, lives[hb]).st.pods[b].port)
  {
    LivedWorldOk(c, lives);
    PodTenant(c, ha, lives[ha], a);
    PodTenant(c, hb, lives[hb], b);
    TenantDelivery(WorldOf(c, lives), hops, ha, hb, a, b, p, end);
  }

  /** A port of a service of a recorded namespace, not deleted from Kubernetes. */
  ghost predicate LiveService(c: Cluster, h: uint32, life: Life, k: NF.SvcKey) {
    var a := End(c, h, life);
    && k in a.st.services && k !in a.owned.lostServices && a.owned.svcNs(k) in Recorded(c)
    && OpenFlow.InCidr(Some(c.service), k.ip)
  }

  lemma ServiceTenant(c: Cluster, h: uint32, life: Life, k: NF.SvcKey)
    requires c.Valid() && Lived(c, h, life) && LiveService(c, h, life, k)
    ensures End(c, h, life).st.services[k] == {Recorded(c)[End(c, h, life).owned.svcNs(k)].netID}
  {
    EndIsReady(c, h, life);
  }

  /** A pod's packet to a service port leaves through tun0 exactly when etcd records the same VNID for the
      two namespaces or one of them is global, and is dropped otherwise. */
  lemma ServicesAreIsolated(c: Cluster, h: uint32, life: Life, a: uint32, k: NF.SvcKey, p: OpenFlow.Packet,
                            outs: seq<OpenFlow.Emit>)
    requires c.Valid() && Lived(c, h, life) && LivePod(c, h, life, a) && LiveService(c, h, life, k)
    requires SentBy(End(c, h, life).st.pods, a, p) && Pipeline.Addresses(p, k)
    ensures var tenant, owner := TenantOf(c, h, life, a), Recorded(c)[End(c, h, life).owned.svcNs(k)].netID;
      OpenFlow.Forwards(NF.Compile(life.net, End(c, h, life).st), 0, p, outs) <==>
      outs == if Pipeline.Permitted(tenant, owner) then [OpenFlow.Emit(NF.TUN, p.(reg0 := tenant))] else []
  {
    LivedHostOk(c, h, life);
    PodTenant(c, h, life, a);
    ServiceTenant(c, h, life, k);
    ServiceReachability(life.net, End(c, h, life).st, a, k, Recorded(c)[End(c, h, life).owned.svcNs(k)].netID, p, outs);
  }

  /** Ordinary namespaces that were separate at the start stay apart on the wire as long as nothing is
      joined or made global: no packet of a pod of the one arrives anywhere when sent to a pod of the
      other, whatever etcd answers and whichever masters and nodes start over. */
  lemma StrangersNeverTalk(c: Cluster, lives: map<uint32, Life>, hops: nat, ha: uint32, hb: uint32,
                           a: uint32, b: uint32, p: OpenFlow.Packet, end: Arrival)
    requires c.Valid() && Lives(c, lives) && ha in lives && hb in lives && hops > 0
    requires MV.Inv(c.vnids.vnids) && MV.Agree(c.vnids) && MV.Separated(c.vnids.vnids.ids)
    requires forall step :: step in c.steps ==> MV.Joinless(step)
    requires LivePod(c, ha, lives[ha], a) && LivePod(c, hb, lives[hb], b)
    requires SentBy(End(c, ha, lives[ha]).st.pods, a, p) && a != b && p.dst == b
    requires var na, nb := End(c, ha, lives[ha]).owned.podNs(a), End(c, hb, lives[hb]).owned.podNs(b);
      na != nb && na !in MV.ADMIN_NAMESPACES && nb !in MV.ADMIN_NAMESPACES
    ensures !Arrives(WorldOf(c, lives), hops, ha, p, end)
  {
    MV.SeparateWithoutJoins(c.vnids, c.steps);
    NamespacesAreIsolated(c, lives, hops, ha, hb, a, b, p, end);
  }

  /** Unless "kube-system" is joined to a namespace or isolated, every pod reaches its pods, and they reach
      every pod. */
  lemma SystemPodsReachAll(c: Cluster, lives: map<uint32, Life>, hops: nat, ha: uint32, hb: uint32,
                           a: uint32, b: uint32, p: OpenFlow.Packet, end: Arrival)
    requires c.Valid() && Lives(c, lives) && ha in lives && hb in lives && hops > 0
    requires VnidRequests.SystemIsGlobal(c.vnids) && forall step :: step in c.steps ==> VnidRequests.SparesSystem(step)
    requires LivePod(c, ha, lives[ha], a) && LivePod(c, hb, lives[hb], b)
    requires SentBy(End(c, ha, lives[ha]).st.pods, a, p) && a != b && p.dst == b
    requires End(c, ha, lives[ha]).owned.podNs(a) == "kube-system" || End(c, hb, lives[hb]).owned.podNs(b) == "kube-system"
    ensures Arrives(WorldOf(c, lives), hops, ha, p, end) <==> end == Arrival(hb, End(c, hb, lives[hb]).st.pods[b].port)
  {
    VnidRequests.SystemStaysGlobal(c.vnids, c.steps);
    NamespacesAreIsolated(c, lives, hops, ha, hb, a, b, p, end);
  }

  /** ... its pods reach every service, and every pod its services. */
  lemma SystemServicesReachAll(c: Cluster, h: uint32, life: Life, a: uint32, k: NF.SvcKey, p: OpenFlow.Packet,
                               outs: seq<OpenFlow.Emit>)
    requires c.Valid() && Lived(c, h, life) && LivePod(c, h, life, a) && LiveService(c, h, life, k)
    requires VnidRequests.SystemIsGlobal(c.vnids) && forall step :: step in c.steps ==> VnidRequests.SparesSystem(step)
    requires SentBy(End(c, h, life).st.pods, a, p) && Pipeline.Addresses(p, k)
    requires End(c, h, life).owned.podNs(a) == "kube-system" || End(c, h, life).owned.svcNs(k) == "kube-system"
    ensures OpenFlow.Forwards(NF.Compile(life.net, End(c, h, life).st), 0, p, outs) <==>
            outs == [OpenFlow.Emit(NF.TUN, p.(reg0 := TenantOf(c, h, life, a)))]
  {
    VnidRequests.SystemStaysGlobal(c.vnids, c.steps);
    ServicesAreIsolated(c, h, life, a, k, p, outs);
  }
}
