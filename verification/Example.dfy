/** A cluster of two nodes and two tenants in motion: the second node is added and the second namespace is
    assigned while the first node runs. Everything the end-to-end theorem asks for holds of it, so the
    theorem says which of its pods can talk. */
module Example {
  import opened Prelude
  import opened Word32
  import opened Cidrs
  import SubnetNumbering
  import SubnetAllocator
  import SubnetRename
  import opened Watch
  import opened Records
  import MS = MasterSubnets
  import MV = MasterVnids
  import NV = NodeVnids
  import OpenFlow
  import NF = NodeFlows
  import opened Delivery
  import opened HostRoutes
  import opened Retenanting
  import opened NodeRuns
  import opened TenantNetwork

  // 10.1.0.0/16 for pods, 172.30.0.0/16 for services; nodes 192.168.0.1 and 192.168.0.2
  const CLUSTER := Cidr(0x0A01_0000, 16)
  const SERVICE := Cidr(0xAC1E_0000, 16)
  const NODE1: uint32 := 0xC0A8_0001
  const NODE2: uint32 := 0xC0A8_0002
  const SUBNET1 := Cidr(0x0A01_0000, 26)
  const SUBNET2 := Cidr(0x0A01_0100, 26)

  // one red pod on the first node, a red and a blue one on the second
  const RED1: uint32 := 0x0A01_0002
  const RED2: uint32 := 0x0A01_0102
  const BLUE2: uint32 := 0x0A01_0103

  /** A name of its own for every host. */
  function NameOf(ip: uint32): string { seq(ip, _ => 'a') }

  function HostRecord(node: uint32, subnet: Cidr): HostSubnet {
    Record(NameOf(node), HostInfo(node, Some(subnet), false))
  }

  const HOST1 := HostRecord(NODE1, SUBNET1)
  const HOST2 := HostRecord(NODE2, SUBNET2)

  // ---------------------------------------------------------------- the subnet master adds a node

  ghost const SETUP := MS.Setup(SubnetAllocator.EXAMPLE, "subnets", _ => "key")

  function At(etcd: map<uint32, HostSubnet>, history: seq<MS.Write>, pool: SubnetAllocator.Pool, nodes: MS.Task): MS.State {
    MS.State(etcd, history, pool, None, [], [], nodes, MS.Idle)
  }

  const ONE: map<uint32, HostSubnet> := map[NODE1 := HOST1]
  const BOTH: map<uint32, HostSubnet> := map[NODE1 := HOST1, NODE2 := HOST2]
  const POOL1 := SubnetAllocator.Pool(0, {SUBNET1})
  const POOL2 := SubnetAllocator.Pool(2, {SUBNET1, SUBNET2})

  const START := At(ONE, [], POOL1, MS.Idle)
  const FINISH := At(BOTH, [MS.Wrote(HOST2)], POOL2, MS.Idle)

  function Actions(): seq<MS.Action> {
    [MS.AddNode(NameOf(NODE2), NODE2)] + [MS.NodeStep(true), MS.NodeStep(true), MS.NodeStep(true)]
  }

  lemma Sizes()
    ensures Pow2(6) == 64 && Pow2(16) == 0x1_0000 && Pow2(2) == 4 && Pow2(8) == 256
    ensures SubnetAllocator.EXAMPLE.Valid() && SERVICE.Valid() && SUBNET1.Valid() && SUBNET2.Valid()
    ensures !Overlap(CLUSTER, SERVICE)
  {
    SubnetAllocator.ExampleValid();
    assert Pow2(8) == 256;
    Pow2Sum(8, 8);
    assert Pow2(6) == 64;
  }

  lemma TenBits()
    ensures Pow2(8) == 256 && Pow2(2) == 4 && Pow2(10) == 1024 && Pow2(6) == 64
  {
    assert Pow2(8) == 256;
    Pow2Sum(8, 2);
  }

  /** The rotated numbering puts the second subnet four subnets after the first. */
  lemma FirstPositions(cfg: SubnetNumbering.Config)
    requires cfg.network.len == 16 && cfg.hostBits == 6
    ensures cfg.Count() > 1 && cfg.Position(0) == 0 && cfg.Position(1) == 4
  {
    TenBits();
    assert cfg.SubnetBits() == 10 && cfg.LeftShift() == 2;
    assert SubnetNumbering.Rotated(256, 4, 0) == 0 && SubnetNumbering.Rotated(256, 4, 1) == 4;
  }

  lemma SubnetAt(cfg: SubnetNumbering.Config, n: nat, at: nat)
    requires cfg.Valid() && cfg.hostBits == 6 && n < cfg.Count() && cfg.Position(n) == at
    ensures cfg.Subnet(n) == Cidr(cfg.network.addr + at * 64, 26)
  {
    TenBits();
  }

  lemma FirstSubnets(cfg: SubnetNumbering.Config)
    requires cfg.Valid() && cfg.network.len == 16 && cfg.hostBits == 6
    ensures cfg.Count() > 1
    ensures cfg.Subnet(0) == Cidr(cfg.network.addr, 26) && cfg.Subnet(1) == Cidr(cfg.network.addr + 256, 26)
  {
    FirstPositions(cfg);
    SubnetAt(cfg, 0, 0);
    SubnetAt(cfg, 1, 4);
  }

  lemma SecondIsAllocated(subnets: seq<Cidr>)
    requires |subnets| > 1 && subnets[0] == SUBNET1 && subnets[1] == SUBNET2
    ensures SubnetAllocator.Allocate(subnets, POOL1) == (POOL2, Some(SUBNET2))
  {
    assert SubnetAllocator.Probe(subnets, POOL1, 0) == 0 && SubnetAllocator.Probe(subnets, POOL1, 1) == 1;
    assert SubnetAllocator.FirstFree(subnets, POOL1, 1) == Some(1);
    assert SubnetAllocator.FirstFree(subnets, POOL1, 0) == Some(1);
    assert POOL1.taken + {SUBNET2} == POOL2.taken;
  }

  ghost const READING := START.(nodes := MS.Reading(NameOf(NODE2), NODE2))
  ghost const ALLOCATING := START.(nodes := MS.Allocating(NameOf(NODE2), NODE2))
  ghost const ACQUIRING := At(ONE, [], POOL2, MS.Acquiring(HOST2))

  lemma Reads(setup: MS.Setup)
    requires setup.cfg.Valid()
    ensures MS.Do(setup, START, MS.AddNode(NameOf(NODE2), NODE2)) == READING
    ensures MS.Do(setup, READING, MS.NodeStep(true)) == ALLOCATING
  {
    assert NODE2 !in ONE;
  }

  lemma HandsOutSecond(cfg: SubnetNumbering.Config)
    requires cfg.Valid() && cfg.network == CLUSTER && cfg.hostBits == 6
    ensures SubnetAllocator.Allocate(SubnetAllocator.Numbered(cfg), POOL1) == (POOL2, Some(SUBNET2))
  {
    FirstSubnets(cfg);
    SecondIsAllocated(SubnetAllocator.Numbered(cfg));
  }

  lemma Allocates(setup: MS.Setup, s: MS.State, name: string, ip: uint32, pool: SubnetAllocator.Pool, subnet: Cidr)
    requires setup.cfg.Valid() && s.nodes == MS.Allocating(name, ip)
    requires SubnetAllocator.Allocate(SubnetAllocator.Numbered(setup.cfg), s.pool) == (pool, Some(subnet))
    ensures MS.Do(setup, s, MS.NodeStep(true))
         == s.(pool := pool, nodes := MS.Acquiring(Record(name, HostInfo(ip, Some(subnet), false))))
  {
  }

  lemma LastStep(setup: MS.Setup)
    requires setup.cfg.Valid()
    ensures MS.Do(setup, ACQUIRING, MS.NodeStep(true)) == FINISH
  {
    assert ONE[NODE2 := HOST2] == BOTH;
    assert NODE2 !in ONE;
  }

  lemma NodeIsAdded(setup: MS.Setup)
    requires setup.cfg.Valid() && setup.cfg.network == CLUSTER && setup.cfg.hostBits == 6
    ensures MS.RunOf(setup, START, Actions()) == Some(FINISH)
  {
    Reads(setup);
    HandsOutSecond(setup.cfg);
    Allocates(setup, ALLOCATING, NameOf(NODE2), NODE2, POOL2, SUBNET2);
    LastStep(setup);
    var add, step := MS.AddNode(NameOf(NODE2), NODE2), MS.NodeStep(true);
    SubnetRename.OneAction(setup, START, add);
    SubnetRename.ThreeActions(setup, READING, step, ALLOCATING, step, ACQUIRING, step);
    SubnetRename.RunOfConcat(setup, START, [add], [step, step, step]);
  }

  // ---------------------------------------------------------------- the VNID master assigns a namespace

  const RED := Record("red", NetnsInfo(10, "", ""))
  const BLUE := NetnsInfo(11, "", "")

  const BEFORE: map<string, NetnsInfo> := map["red" := RED.value]
  const AFTER: map<string, NetnsInfo> := map["red" := RED.value, "blue" := BLUE]

  ghost const MASTER := MV.Master(MV.Vnids(map["red" := 10], {10}), BEFORE)
  ghost const ASSIGN := MV.Assign("blue", Some(11), true)

  lemma BlueIsAssigned()
    ensures MV.RunOf(MASTER, [ASSIGN]).etcd == AFTER
    ensures PlainRun(MASTER, [ASSIGN]) && GoodMaster(MASTER)
    ensures ChangesOf(MASTER, [ASSIGN]) == [NV.Put("blue", BLUE)]
  {
    assert "red"[0] != "blue"[0];
    assert '/' !in "red" && '/' !in "blue";
    assert [ASSIGN][1..] == [];
    var m := MV.After(MASTER, ASSIGN);
    assert MV.RunOf(m, []) == m && ChangesOf(m, []) == [] && MV.FairRun(m, []);
    assert BEFORE["blue" := BLUE] == AFTER;
  }

  // ---------------------------------------------------------------- the cluster

  ghost const C := Cluster(SETUP, NameOf, At(ONE, [], SubnetAllocator.Pool(0, {}), MS.Idle), Actions(),
                           MASTER, [ASSIGN], SERVICE, "netns")

  lemma NamesDistinct()
    ensures MS.OneToOne(NameOf)
  {
    forall x: uint32, y: uint32 | NameOf(x) == NameOf(y)
      ensures x == y
    {
      assert |NameOf(x)| == x && |NameOf(y)| == y;
    }
  }

  lemma EtcdReady()
    ensures SubnetAllocator.EXAMPLE.Valid() && MS.Initial(SETUP, NameOf, ONE)
    ensures MS.Started(SubnetAllocator.EXAMPLE, C.subnets) == START
  {
    Sizes();
    NamesDistinct();
    assert CLUSTER.Contains(SUBNET1.addr);
    assert ONE.Keys == {NODE1};
    assert NODE1 in ONE && ONE[NODE1].value.subnet.value == SUBNET1;
    assert MS.Recorded(SubnetAllocator.EXAMPLE, ONE) == {SUBNET1};
  }

  lemma ClusterIsValid()
    ensures C.Valid()
  {
    Sizes();
    EtcdReady();
    NodeIsAdded(SETUP);
    BlueIsAssigned();
  }

  /** What the masters had written when, and at the end. */
  lemma MastersWrote()
    requires C.Valid()
    ensures C.SubnetsAt(0) == Some(START) && C.SubnetsAt(|C.actions|) == Some(FINISH)
    ensures C.VnidsAt(0) == MASTER && C.steps[0..] == [ASSIGN] && Recorded(C) == AFTER
  {
    EtcdReady();
    NodeIsAdded(SETUP);
    BlueIsAssigned();
    assert C.actions[..0] == [] && C.actions[..|C.actions|] == C.actions && C.steps[..0] == [];
  }

  // ---------------------------------------------------------------- the lives of the nodes

  function NoPods(): string -> seq<LocalPod> { _ => [] }

  function NoServices(): string -> seq<Service> { _ => [] }

  ghost function News(news: NetnsNews): Happening { NetnsCame(news, NoPods(), NoServices()) }

  ghost function Opening(hosts: seq<HostSubnet>): seq<Happening> {
    [NetnsListed([RED])] + ([News(NetnsSnapshot([RED]))] + [HostsCame(HostSnapshot(hosts))])
  }

  ghost function BlueCame(): Happening { News(NetnsChange(NV.Put("blue", BLUE))) }

  ghost function Life1(): Life {
    Life(NF.Net(CLUSTER, SERVICE, SUBNET1, true), 0, 0, [RED], [HOST1],
         Opening([HOST1]) + ([PodUp(RED1, 3, 1, "red")] + ([HostsCame(HostWrite(MS.Wrote(HOST2)))] + [BlueCame()])))
  }

  ghost function Life2(): Life {
    Life(NF.Net(CLUSTER, SERVICE, SUBNET2, true), 0, |Actions()|, [RED], [HOST1, HOST2],
         Opening([HOST1, HOST2]) + ([PodUp(RED2, 3, 2, "red")] + ([BlueCame()] + [PodUp(BLUE2, 4, 3, "blue")])))
  }

  /** What matters of a node here: the VNIDs it knows, its pods, and their namespaces. */
  ghost predicate Looks(a: Agent, ids: map<string, uint32>, pods: map<uint32, NF.Pod>) {
    && a.vnids.ids == ids && a.st.pods == pods && a.st.services == map[]
    && a.owned.lostPods == {} && a.owned.lostServices == {}
    && forall ip :: ip in pods ==> a.owned.podNs(ip) == if ip == BLUE2 then "blue" else "red"
  }

  /** Happenings that are orderly and lead from `a` to `b`. */
  ghost predicate Passes(site: Site, a: Agent, hs: seq<Happening>, b: Agent) {
    AllOrderly(site, a, hs) && AgentAfter(site, a, hs) == b
  }

  lemma OnePasses(site: Site, a: Agent, h: Happening)
    requires Orderly(site, a, h)
    ensures Passes(site, a, [h], Next(site, a, h))
  {
    assert [h][1..] == [];
    var b := Next(site, a, h);
    assert AgentAfter(site, b, []) == b && AllOrderly(site, b, []);
  }

  lemma {:induction false} PassesOn(site: Site, a: Agent, g: seq<Happening>, b: Agent, h: seq<Happening>, c: Agent)
    requires Passes(site, a, g, b) && Passes(site, b, h, c)
    ensures Passes(site, a, g + h, c)
    decreases |g|
  {
    if g == [] {
      assert g + h == h;
    } else {
      assert (g + h)[1..] == g[1..] + h;
      PassesOn(site, Next(site, a, g[0]), g[1..], b, h, c);
    }
  }

  lemma NewsOf(h: Happening)
    ensures NetnsIn([h]) == if h.NetnsCame? then [h.news] else []
    ensures HostsIn([h]) == if h.HostsCame? then [h.hostNews] else []
  {
    assert [h][1..] == [];
    assert NetnsIn([]) == [] && HostsIn([]) == [];
  }

  lemma {:induction false} NetnsOn(g: seq<Happening>, h: seq<Happening>)
    ensures NetnsIn(g + h) == NetnsIn(g) + NetnsIn(h)
    decreases |g|
  {
    if g == [] {
      assert g + h == h;
    } else {
      assert (g + h)[1..] == g[1..] + h;
      NetnsOn(g[1..], h);
      var first := if g[0].NetnsCame? then [g[0].news] else [];
      assert first + (NetnsIn(g[1..]) + NetnsIn(h)) == (first + NetnsIn(g[1..])) + NetnsIn(h);
    }
  }

  lemma {:induction false} HostsOn(g: seq<Happening>, h: seq<Happening>)
    ensures HostsIn(g + h) == HostsIn(g) + HostsIn(h)
    decreases |g|
  {
    if g == [] {
      assert g + h == h;
    } else {
      assert (g + h)[1..] == g[1..] + h;
      HostsOn(g[1..], h);
      var first := if g[0].HostsCame? then [g[0].hostNews] else [];
      assert first + (HostsIn(g[1..]) + HostsIn(h)) == (first + HostsIn(g[1..])) + HostsIn(h);
    }
  }

  lemma NewsOn(g: seq<Happening>, h: seq<Happening>)
    ensures NetnsIn(g + h) == NetnsIn(g) + NetnsIn(h) && HostsIn(g + h) == HostsIn(g) + HostsIn(h)
  {
    NetnsOn(g, h);
    HostsOn(g, h);
  }

  lemma NewsOfThree(f: Happening, g: Happening, h: Happening)
    ensures NetnsIn([f] + ([g] + [h])) == NetnsIn([f]) + (NetnsIn([g]) + NetnsIn([h]))
    ensures HostsIn([f] + ([g] + [h])) == HostsIn([f]) + (HostsIn([g]) + HostsIn([h]))
  {
    NewsOn([f], [g] + [h]);
    NewsOn([g], [h]);
  }

  /** A namespace nobody on the node belongs to comes, or one the node has listed. */
  lemma NamespaceComes(net: NF.Net, t: Tenants, rec: Netns)
    requires net.multitenant && t.st.services == map[]
    requires forall ip :: ip in t.st.pods ==> t.owned.podNs(ip) != rec.name
    ensures EventOrderly(net, t, Added(rec), [], [])
    ensures var t' := OneNetnsEvent(net, t, Added(rec), NoPods(), NoServices());
      && t'.ids == t.ids[rec.name := rec.value.netID] && t'.st == t.st
      && t'.owned.lostPods <= t.owned.lostPods && t'.owned.lostServices <= t.owned.lostServices
      && forall ip :: t'.owned.podNs(ip) == t.owned.podNs(ip)
  {
  }

  lemma NewsLook(site: Site, a: Agent, news: NetnsNews, rec: Netns, ids: map<string, uint32>, pods: map<uint32, NF.Pod>)
    requires site.self.net.multitenant && Looks(a, ids, pods) && (news.NetnsSnapshot? ==> a.vnids.saved == [])
    requires BatchOf(site, a, news) == [Added(rec)] && forall ip :: ip in pods ==> a.owned.podNs(ip) != rec.name
    requires VnidsAfter(site, a, news).ids == ids[rec.name := rec.value.netID]
    ensures Orderly(site, a, News(news))
    ensures Looks(Next(site, a, News(news)), ids[rec.name := rec.value.netID], pods)
    ensures Next(site, a, News(news)).records == a.records
  {
    var batch, t := BatchOf(site, a, news), TenantsOf(a);
    assert batch[..0] == [];
    assert AllNetnsEvents(site.self.net, t, [], NoPods(), NoServices()) == t;
    NamespaceComes(site.self.net, t, rec);
  }

  lemma SnapshotLooks(site: Site, a: Agent)
    requires site.self.net.multitenant && Looks(a, map["red" := 10], map[]) && a.vnids.saved == []
    ensures Orderly(site, a, News(NetnsSnapshot([RED])))
    ensures Looks(Next(site, a, News(NetnsSnapshot([RED]))), map["red" := 10], map[])
    ensures Next(site, a, News(NetnsSnapshot([RED]))).records == a.records
  {
    FirstResetAdds([RED]);
    var batch := BatchOf(site, a, NetnsSnapshot([RED]));
    assert batch == [Added(RED)] && batch[..0] == [];
    assert NV.HandleAll(a.vnids.ids, batch) == NV.Handle(a.vnids.ids, Added(RED));
    assert map["red" := 10]["red" := 10] == map["red" := 10];
    NewsLook(site, a, NetnsSnapshot([RED]), RED, map["red" := 10], map[]);
  }

  lemma BlueLooks(site: Site, a: Agent, pods: map<uint32, NF.Pod>)
    requires site.self.net.multitenant && Looks(a, map["red" := 10], pods) && BLUE2 !in pods
    ensures Orderly(site, a, BlueCame())
    ensures Looks(Next(site, a, BlueCame()), map["red" := 10, "blue" := 11], pods)
  {
    assert "red"[0] != "blue"[0];
    assert map["red" := 10]["blue" := 11] == map["red" := 10, "blue" := 11];
    NewsLook(site, a, NetnsChange(NV.Put("blue", BLUE)), Record("blue", BLUE), map["red" := 10], pods);
  }

  lemma HostsLook(site: Site, a: Agent, news: HostNews, ids: map<string, uint32>, pods: map<uint32, NF.Pod>)
    requires Looks(a, ids, pods) && (news.HostSnapshot? ==> a.records == [])
    ensures Orderly(site, a, HostsCame(news)) && Looks(Next(site, a, HostsCame(news)), ids, pods)
  {
    match news {
      case HostSnapshot(hosts) => BatchLeavesPods(site.self, a.st, ResetBatch(a.records, hosts));
      case HostWrite(w) => BatchLeavesPods(site.self, a.st, [AfterEvent(a.records, MS.EventOf(site.setup, w)).1]);
    }
  }

  lemma PodLooks(site: Site, a: Agent, ip: uint32, port: nat, mac: nat, name: string, ids: map<string, uint32>, pods: map<uint32, NF.Pod>)
    requires Looks(a, ids, pods) && ip !in pods && GoodPlace(site.self.net, ip, port)
    requires forall other :: other in pods ==> pods[other].port != port
    requires name in ids && name == if ip == BLUE2 then "blue" else "red"
    ensures Orderly(site, a, PodUp(ip, port, mac, name))
    ensures Looks(Next(site, a, PodUp(ip, port, mac, name)), ids, pods[ip := NF.Pod(port, mac, ids[name])])
  {
  }

  lemma Opens(site: Site, hosts: seq<HostSubnet>) returns (a: Agent)
    requires site.self.net.multitenant
    ensures Passes(site, Blank(), Opening(hosts), a) && Looks(a, map["red" := 10], map[])
  {
    var list, news, came := NetnsListed([RED]), News(NetnsSnapshot([RED])), HostsCame(HostSnapshot(hosts));
    var a1 := Next(site, Blank(), list);
    assert [RED][..0] == [];
    assert Listed(map[], [RED]) == map["red" := 10];
    SnapshotLooks(site, a1);
    HostsLook(site, Next(site, a1, news), HostSnapshot(hosts), map["red" := 10], map[]);
    a := ThreePass(site, Blank(), list, news, came);
  }

  lemma OpeningNews(hosts: seq<HostSubnet>)
    ensures NetnsIn(Opening(hosts)) == [NetnsSnapshot([RED])] && HostsIn(Opening(hosts)) == [HostSnapshot(hosts)]
  {
    var list, news, came := NetnsListed([RED]), News(NetnsSnapshot([RED])), HostsCame(HostSnapshot(hosts));
    NewsOfThree(list, news, came);
    NewsOf(list);
    NewsOf(news);
    NewsOf(came);
  }

  lemma InSubnets()
    ensures OpenFlow.InCidr(Some(SUBNET1), RED1) && OpenFlow.InCidr(Some(SUBNET2), RED2) && OpenFlow.InCidr(Some(SUBNET2), BLUE2)
  {
    Sizes();
  }

  lemma ThreePass(site: Site, a: Agent, f: Happening, g: Happening, h: Happening) returns (b: Agent)
    requires Orderly(site, a, f) && Orderly(site, Next(site, a, f), g) && Orderly(site, Next(site, Next(site, a, f), g), h)
    ensures b == Next(site, Next(site, Next(site, a, f), g), h) && Passes(site, a, [f] + ([g] + [h]), b)
  {
    var a1 := Next(site, a, f);
    var a2 := Next(site, a1, g);
    b := Next(site, a2, h);
    OnePasses(site, a, f);
    OnePasses(site, a1, g);
    OnePasses(site, a2, h);
    PassesOn(site, a1, [g], a2, [h], b);
    PassesOn(site, a, [f], a1, [g] + [h], b);
  }

  const IDS: map<string, uint32> := map["red" := 10, "blue" := 11]

  lemma FirstNode(site: Site)
    requires site.self == Self(NODE1, Life1().net)
    ensures AllOrderly(site, Blank(), Life1().happenings)
    ensures Looks(AgentAfter(site, Blank(), Life1().happenings), IDS, map[RED1 := NF.Pod(3, 1, 10)])
  {
    var red, pods := map["red" := 10], map[RED1 := NF.Pod(3, 1, 10)];
    var up, write := PodUp(RED1, 3, 1, "red"), HostsCame(HostWrite(MS.Wrote(HOST2)));
    var a := Opens(site, [HOST1]);
    InSubnets();
    PodLooks(site, a, RED1, 3, 1, "red", red, map[]);
    HostsLook(site, Next(site, a, up), HostWrite(MS.Wrote(HOST2)), red, pods);
    BlueLooks(site, Next(site, Next(site, a, up), write), pods);
    var b := ThreePass(site, a, up, write, BlueCame());
    PassesOn(site, Blank(), Opening([HOST1]), a, [up] + ([write] + [BlueCame()]), b);
  }

  lemma FirstNews()
    ensures NetnsIn(Life1().happenings) == [NetnsSnapshot([RED]), NetnsChange(NV.Put("blue", BLUE))]
    ensures HostsIn(Life1().happenings) == [HostSnapshot([HOST1]), HostWrite(MS.Wrote(HOST2))]
  {
    var up, write := PodUp(RED1, 3, 1, "red"), HostsCame(HostWrite(MS.Wrote(HOST2)));
    OpeningNews([HOST1]);
    NewsOn(Opening([HOST1]), [up] + ([write] + [BlueCame()]));
    NewsOfThree(up, write, BlueCame());
    NewsOf(up);
    NewsOf(write);
    NewsOf(BlueCame());
  }

  lemma SecondNode(site: Site)
    requires site.self == Self(NODE2, Life2().net)
    ensures AllOrderly(site, Blank(), Life2().happenings)
    ensures Looks(AgentAfter(site, Blank(), Life2().happenings), IDS, map[RED2 := NF.Pod(3, 2, 10), BLUE2 := NF.Pod(4, 3, 11)])
  {
    var red, pods := map["red" := 10], map[RED2 := NF.Pod(3, 2, 10)];
    var up, blueUp := PodUp(RED2, 3, 2, "red"), PodUp(BLUE2, 4, 3, "blue");
    var a := Opens(site, [HOST1, HOST2]);
    InSubnets();
    PodLooks(site, a, RED2, 3, 2, "red", red, map[]);
    BlueLooks(site, Next(site, a, up), pods);
    PodLooks(site, Next(site, Next(site, a, up), BlueCame()), BLUE2, 4, 3, "blue", IDS, pods);
    var b := ThreePass(site, a, up, BlueCame(), blueUp);
    PassesOn(site, Blank(), Opening([HOST1, HOST2]), a, [up] + ([BlueCame()] + [blueUp]), b);
  }

  lemma SecondNews()
    ensures NetnsIn(Life2().happenings) == [NetnsSnapshot([RED]), NetnsChange(NV.Put("blue", BLUE))]
    ensures HostsIn(Life2().happenings) == [HostSnapshot([HOST1, HOST2])]
  {
    var up, blueUp := PodUp(RED2, 3, 2, "red"), PodUp(BLUE2, 4, 3, "blue");
    OpeningNews([HOST1, HOST2]);
    NewsOn(Opening([HOST1, HOST2]), [up] + ([BlueCame()] + [blueUp]));
    NewsOfThree(up, BlueCame(), blueUp);
    NewsOf(up);
    NewsOf(BlueCame());
    NewsOf(blueUp);
  }

  // ---------------------------------------------------------------- the premises

  lemma RedListed()
    ensures NV.Lists([RED], BEFORE)
  {
    ViewIs([RED], BEFORE);
  }

  lemma FirstListed(s: MS.State)
    requires s.etcd == ONE
    ensures MS.IsSnapshot(s, [HOST1])
  {
    assert [HOST1][0] in [HOST1];
  }

  lemma BothListed(s: MS.State)
    requires s.etcd == BOTH
    ensures MS.IsSnapshot(s, [HOST1, HOST2])
  {
    assert [HOST1, HOST2][0] == HOST1 && [HOST1, HOST2][1] == HOST2;
    assert HOST1 in [HOST1, HOST2] && HOST2 in [HOST1, HOST2];
  }

  lemma NodesAccepted(h: uint32, subnet: Cidr)
    requires h == NODE1 || h == NODE2
    ensures Accepts(Self(h, NF.Net(CLUSTER, SERVICE, subnet, true)), h)
  {
    Sizes();
    assert NODE1 / 0x1_0000 == 0xC0A8 && NODE2 / 0x1_0000 == 0xC0A8;
  }

  lemma NetnsWasLived(c: Cluster, life: Life)
    requires c.Valid() && life.netnsFrom == 0 && life.netns == [RED]
    requires c.VnidsAt(0).etcd == BEFORE && ChangesOf(c.VnidsAt(0), c.steps[0..]) == [NV.Put("blue", BLUE)]
    requires NetnsIn(life.happenings) == [NetnsSnapshot([RED]), NetnsChange(NV.Put("blue", BLUE))]
    requires forall h :: h in life.happenings && h.NetnsListed? ==> h.list == [RED]
    ensures NetnsLived(c, life)
  {
    RedListed();
    assert NetnsNewsOf([RED], [NV.Put("blue", BLUE)]) == [NetnsSnapshot([RED]), NetnsChange(NV.Put("blue", BLUE))];
  }

  lemma FirstSubnetsLived(c: Cluster)
    requires c.Valid() && c.SubnetsAt(0) == Some(START) && c.SubnetsAt(|c.actions|) == Some(FINISH)
    ensures SubnetsLived(c, NODE1, Life1())
  {
    FirstNews();
    FirstListed(START);
    assert FINISH.history[|START.history|..] == [MS.Wrote(HOST2)];
    assert HostNewsOf([HOST1], [MS.Wrote(HOST2)]) == [HostSnapshot([HOST1]), HostWrite(MS.Wrote(HOST2))];
  }

  lemma SecondSubnetsLived(c: Cluster)
    requires c.Valid() && |c.actions| == |Actions()| && c.SubnetsAt(|c.actions|) == Some(FINISH)
    ensures SubnetsLived(c, NODE2, Life2())
  {
    SecondNews();
    SnapshotAtEnd(c, NODE2, Life2(), FINISH);
  }

  /** A node that starts to watch at the end is delivered the snapshot only. */
  lemma SnapshotAtEnd(c: Cluster, h: uint32, life: Life, end: MS.State)
    requires c.Valid() && life.subnetsFrom == |c.actions| && c.SubnetsAt(|c.actions|) == Some(end)
    requires HostsIn(life.happenings) == [HostSnapshot(life.hosts)]
    requires life.hosts == [HOST1, HOST2] && end.etcd == BOTH
    requires h in end.etcd && end.etcd[h].value.subnet == Some(life.net.local)
    ensures SubnetsLived(c, h, life)
  {
    BothListed(end);
    assert end.history[|end.history|..] == [];
    assert HostNewsOf(life.hosts, []) == [HostSnapshot(life.hosts)];
  }

  /** The cluster's masters wrote what the nodes were told. */
  ghost predicate Written(c: Cluster) {
    && c.Valid() && c.setup.cfg.network == CLUSTER && c.service == SERVICE && |c.actions| == |Actions()|
    && c.SubnetsAt(0) == Some(START) && c.SubnetsAt(|c.actions|) == Some(FINISH)
    && c.VnidsAt(0).etcd == BEFORE && ChangesOf(c.VnidsAt(0), c.steps[0..]) == [NV.Put("blue", BLUE)]
    && Recorded(c) == AFTER
  }

  lemma ClusterIsWritten()
    ensures Written(C)
  {
    ClusterIsValid();
    MastersWrote();
    BlueIsAssigned();
  }

  lemma Met(c: Cluster, h: uint32, life: Life, subnet: Cidr)
    requires Written(c) && (h == NODE1 || h == NODE2) && life.net == NF.Net(CLUSTER, SERVICE, subnet, true)
    requires AllOrderly(SiteOf(c, h, life), Blank(), life.happenings)
    requires NetnsLived(c, life) && SubnetsLived(c, h, life)
    ensures Lived(c, h, life)
  {
    NodesAccepted(h, subnet);
  }

  /** A life lists the namespaces where it opens and nowhere else. */
  lemma ListsRed(hosts: seq<HostSubnet>, f: Happening, g: Happening, h: Happening)
    requires !f.NetnsListed? && !g.NetnsListed? && !h.NetnsListed?
    ensures forall x :: x in Opening(hosts) + ([f] + ([g] + [h])) && x.NetnsListed? ==> x.list == [RED]
  {
  }

  lemma FirstNetnsLived(c: Cluster)
    requires Written(c)
    ensures NetnsLived(c, Life1())
  {
    FirstNews();
    ListsRed([HOST1], PodUp(RED1, 3, 1, "red"), HostsCame(HostWrite(MS.Wrote(HOST2))), BlueCame());
    NetnsWasLived(c, Life1());
  }

  lemma FirstLife(c: Cluster)
    requires Written(c)
    ensures Lived(c, NODE1, Life1())
    ensures Looks(End(c, NODE1, Life1()), IDS, map[RED1 := NF.Pod(3, 1, 10)])
  {
    FirstNode(SiteOf(c, NODE1, Life1()));
    FirstNetnsLived(c);
    FirstSubnetsLived(c);
    Met(c, NODE1, Life1(), SUBNET1);
  }

  lemma SecondNetnsLived(c: Cluster)
    requires Written(c)
    ensures NetnsLived(c, Life2())
  {
    SecondNews();
    ListsRed([HOST1, HOST2], PodUp(RED2, 3, 2, "red"), BlueCame(), PodUp(BLUE2, 4, 3, "blue"));
    NetnsWasLived(c, Life2());
  }

  lemma SecondLife(c: Cluster)
    requires Written(c)
    ensures Lived(c, NODE2, Life2())
    ensures Looks(End(c, NODE2, Life2()), IDS, map[RED2 := NF.Pod(3, 2, 10), BLUE2 := NF.Pod(4, 3, 11)])
  {
    SecondNode(SiteOf(c, NODE2, Life2()));
    SecondNetnsLived(c);
    SecondSubnetsLived(c);
    Met(c, NODE2, Life2(), SUBNET2);
  }

  // ---------------------------------------------------------------- the theorem at work

  ghost function TwoLives(): map<uint32, Life> { map[NODE1 := Life1(), NODE2 := Life2()] }

  lemma PairLives(c: Cluster, h: uint32, one: Life, g: uint32, two: Life)
    requires c.Valid() && h != g && Lived(c, h, one) && Lived(c, g, two)
    ensures var lives := map[h := one, g := two];
      Lives(c, lives) && h in lives && g in lives && lives[h] == one && lives[g] == two
  {
  }

  /** The cluster and the lives of its nodes are ones the end-to-end theorem is about. */
  lemma PremisesHold()
    ensures C.Valid() && Lives(C, TwoLives()) && NODE1 in TwoLives() && NODE2 in TwoLives()
  {
    ClusterIsWritten();
    FirstLife(C);
    SecondLife(C);
    PairLives(C, NODE1, Life1(), NODE2, Life2());
  }

  lemma LooksLive(c: Cluster, h: uint32, life: Life, pods: map<uint32, NF.Pod>, ip: uint32)
    requires Recorded(c) == AFTER && Looks(End(c, h, life), IDS, pods) && ip in pods
    ensures LivePod(c, h, life, ip) && TenantOf(c, h, life, ip) == if ip == BLUE2 then 11 else 10
  {
    assert "red"[0] != "blue"[0];
  }

  /** At the end its nodes have a red pod, and a red and a blue one, all live, with the recorded VNIDs. */
  lemma PodsInPlace()
    ensures End(C, NODE1, Life1()).st.pods == map[RED1 := NF.Pod(3, 1, 10)]
    ensures End(C, NODE2, Life2()).st.pods == map[RED2 := NF.Pod(3, 2, 10), BLUE2 := NF.Pod(4, 3, 11)]
    ensures LivePod(C, NODE1, Life1(), RED1) && TenantOf(C, NODE1, Life1(), RED1) == 10
    ensures LivePod(C, NODE2, Life2(), RED2) && TenantOf(C, NODE2, Life2(), RED2) == 10
    ensures LivePod(C, NODE2, Life2(), BLUE2) && TenantOf(C, NODE2, Life2(), BLUE2) == 11
  {
    ClusterIsWritten();
    FirstLife(C);
    SecondLife(C);
    LooksLive(C, NODE1, Life1(), map[RED1 := NF.Pod(3, 1, 10)], RED1);
    LooksLive(C, NODE2, Life2(), map[RED2 := NF.Pod(3, 2, 10), BLUE2 := NF.Pod(4, 3, 11)], RED2);
    LooksLive(C, NODE2, Life2(), map[RED2 := NF.Pod(3, 2, 10), BLUE2 := NF.Pod(4, 3, 11)], BLUE2);
  }

  ghost function Ended(): World { WorldOf(C, TwoLives()) }

  /** A packet of the first node's red pod to a pod of the second arrives exactly if that one is red. */
  lemma RedReachesRed(b: uint32, p: OpenFlow.Packet, end: Arrival)
    requires SentBy(map[RED1 := NF.Pod(3, 1, 10)], RED1, p) && (b == RED2 || b == BLUE2) && p.dst == b
    ensures Arrives(Ended(), 1, NODE1, p, end) <==> b == RED2 && end == Arrival(NODE2, 3)
  {
    PremisesHold();
    PodsInPlace();
    NamespacesAreIsolated(C, TwoLives(), 1, NODE1, NODE2, RED1, b, p, end);
  }
}
