/** The flows a node installs (ksdn/controller.go, rootfs/usr/sbin/k8s-sdn-ovs), as a compilation
    of what the node knows: its pods, the other nodes and the services. */
module NodeFlows {
  import opened Prelude
  import opened Word32
  import opened Cidrs
  import opened OpenFlow

  // ---------------------------------------------------------------- what a node knows

  const VXLAN := 1
  const TUN := 2
  const VERSION := 1

  /** The networks of the cluster and of this node. */
  datatype Net = Net(cluster: Cidr, service: Cidr, local: Cidr, multitenant: bool) {
    ghost predicate Valid() {
      && cluster.Valid() && service.Valid() && local.Valid()
      && cluster.len < 32 && service.len < 32 && local.len < 32
      && !Overlap(cluster, service)
      && CidrWithin(local, cluster)
    }
  }

  /** `GenerateDefaultGateway`: the network's address with its lowest bit set. */
  function Gateway(local: Cidr): uint32 {
    if local.addr % 2 == 0 then local.addr + 1 else local.addr
  }

  datatype Pod = Pod(port: nat, mac: nat, vnid: uint32)

  datatype SvcProto = TCP | UDP

  datatype SvcKey = SvcKey(ip: uint32, proto: SvcProto, port: nat)

  datatype Node = Node(
    pods: map<uint32, Pod>,              // by pod address
    tunnels: set<uint32>,                // hosts whose tunnel traffic is accepted
    routes: map<Cidr, uint32>,           // the host behind each remote subnet
    services: map<SvcKey, set<uint32>>)  // the tenants each service port is open to

  const NOTHING := Node(map[], {}, map[], map[])

  // ---------------------------------------------------------------- the fixed flows (SetupSDN)

  function To(kind: Kind, dst: Cidr): Match { ALL.(kind := kind, dst := Some(dst)) }

  function OfKind(kind: Kind): Match { ALL.(kind := kind) }

  function FromTunnel(net: Net, kind: Kind): Match {
    To(kind, net.local).(inPort := Some(VXLAN), src := Some(net.cluster))
  }

  /** Dispatch on the port a packet came in on. */
  function Table0(net: Net): seq<Rule> {
    [ Rule(0, 200, FromTunnel(net, ArpKind), [MoveTunToReg, Goto(1)]),
      Rule(0, 200, FromTunnel(net, IpKind), [MoveTunToReg, Goto(1)]),
      Rule(0, 150, ALL.(inPort := Some(VXLAN)), []),
      Rule(0, 200, To(ArpKind, net.cluster).(inPort := Some(TUN), src := Some(Host(Gateway(net.local)))), [Goto(5)]),
      Rule(0, 200, OfKind(IpKind).(inPort := Some(TUN)), [Goto(5)]),
      Rule(0, 150, ALL.(inPort := Some(TUN)), []),
      Rule(0, 100, OfKind(ArpKind), [Goto(2)]),
      Rule(0, 100, OfKind(IpKind), [Goto(2)]),
      Rule(0, 0, ALL, []) ]
  }

  function DropIn(table: nat): Rule { Rule(table, 0, ALL, []) }

  /** Is a container addressing a service? */
  function Table3(net: Net): seq<Rule> {
    [ Rule(3, 100, To(IpKind, net.service), [Goto(4)]),
      Rule(3, 0, ALL, [Goto(5)]) ]
  }

  function Table4(): seq<Rule> {
    [ Rule(4, 200, ALL.(reg0 := Some(0)), [Output(TUN)]), DropIn(4) ]
  }

  /** Routing. */
  function Table5(net: Net): seq<Rule> {
    [ Rule(5, 300, To(ArpKind, Host(Gateway(net.local))), [Output(TUN)]),
      Rule(5, 300, To(IpKind, Host(Gateway(net.local))), [Output(TUN)]),
      Rule(5, 200, To(ArpKind, net.local), [Goto(6)]),
      Rule(5, 200, To(IpKind, net.local), [Goto(7)]),
      Rule(5, 100, To(ArpKind, net.cluster), [Goto(8)]),
      Rule(5, 100, To(IpKind, net.cluster), [Goto(8)]),
      Rule(5, 0, OfKind(IpKind), [Goto(9)]),
      Rule(5, 0, OfKind(ArpKind), []) ]
  }

  function Table9(): Rule { Rule(9, 0, ALL, [Output(TUN)]) }

  function VersionNote(net: Net): Rule {
    Rule(253, DEFAULT_PRIORITY, ALL, [Note(if net.multitenant then 1 else 0, VERSION)])
  }

  /** What `ovs-ofctl` uses when a flow names no priority. */
  const DEFAULT_PRIORITY := 32768

  /** The flows of SetupSDN, in its order. */
  function Fixed(net: Net): seq<Rule> {
    Table0(net) + [DropIn(1), DropIn(2)] + Table3(net) + Table4() + Table5(net)
    + [DropIn(6), DropIn(7), DropIn(8), Table9(), VersionNote(net)]
  }

  // ---------------------------------------------------------------- the flows of a pod

  /** Table 2 ties a pod's port to its address and loads its tenant. */
  function PodArpOut(ip: uint32, pod: Pod): Rule {
    Rule(2, 100,
         OfKind(ArpKind).(inPort := Some(pod.port), src := Some(Host(ip)), sha := Some(pod.mac)),
         [LoadReg(pod.vnid), Goto(5)])
  }

  function PodIpOut(ip: uint32, pod: Pod): Rule {
    Rule(2, 100, OfKind(IpKind).(inPort := Some(pod.port), src := Some(Host(ip))), [LoadReg(pod.vnid), Goto(3)])
  }

  function PodArpIn(ip: uint32, pod: Pod): Rule {
    Rule(6, 100, To(ArpKind, Host(ip)), [Output(pod.port)])
  }

  function PodIpIn(ip: uint32, pod: Pod, tenant: Option<uint32>): Rule {
    Rule(7, 100, To(IpKind, Host(ip)).(reg0 := tenant), [Output(pod.port)])
  }

  /** `add_ovs_flows`. */
  function PodRules(ip: uint32, pod: Pod): seq<Rule> {
    [PodArpOut(ip, pod), PodIpOut(ip, pod), PodArpIn(ip, pod)]
    + if pod.vnid == 0 then [PodIpIn(ip, pod, None)]
      else [PodIpIn(ip, pod, Some(0)), PodIpIn(ip, pod, Some(pod.vnid))]
  }

  /** `del_ovs_flows`, over all tables. */
  function PodCovers(ip: uint32): seq<Cover> {
    [ Cover(None, To(IpKind, Host(ip))),
      Cover(None, OfKind(IpKind).(src := Some(Host(ip)))),
      Cover(None, To(ArpKind, Host(ip))),
      Cover(None, OfKind(ArpKind).(src := Some(Host(ip)))) ]
  }

  // ---------------------------------------------------------------- the flows of another node

  function TunnelRule(host: uint32): Rule {
    Rule(1, 100, ALL.(tunSrc := Some(host)), [Goto(5)])
  }

  function RouteRule(kind: Kind, subnet: Cidr, host: uint32): Rule {
    Rule(8, 100, To(kind, subnet), [MoveRegToTun, SetTunDst(host), Output(VXLAN)])
  }

  function HostRules(subnet: Cidr, host: uint32): seq<Rule> {
    [TunnelRule(host), RouteRule(ArpKind, subnet, host), RouteRule(IpKind, subnet, host)]
  }

  function HostCovers(subnet: Cidr, host: uint32): seq<Cover> {
    [ Cover(Some(1), ALL.(tunSrc := Some(host))),
      Cover(Some(8), To(IpKind, subnet)),
      Cover(Some(8), To(ArpKind, subnet)) ]
  }

  // ---------------------------------------------------------------- the flows of a service

  /** `generateBaseServiceRule`. */
  function ServiceMatch(key: SvcKey): Match {
    To(if key.proto == TCP then TcpKind else UdpKind, Host(key.ip)).(tpDst := Some(key.port))
  }

  /** `generateAddServiceRule`: a service of tenant 0 is open to all. */
  function ServiceRule(key: SvcKey, tenant: uint32): Rule {
    Rule(4, 100, ServiceMatch(key).(reg0 := if tenant == 0 then None else Some(tenant)), [Output(TUN)])
  }

  /** `generateDeleteServiceRule` names no tenant. */
  function ServiceCover(key: SvcKey): Cover { Cover(Some(4), ServiceMatch(key)) }

  // ---------------------------------------------------------------- the compilation

  ghost function FixedSet(net: Net): set<Rule> { set r | r in Fixed(net) }

  ghost function PodSet(pods: map<uint32, Pod>): set<Rule> {
    set ip, r | ip in pods && r in PodRules(ip, pods[ip]) :: r
  }

  ghost function TunnelSet(tunnels: set<uint32>): set<Rule> {
    set host | host in tunnels :: TunnelRule(host)
  }

  ghost function RouteSet(routes: map<Cidr, uint32>): set<Rule> {
    (set c | c in routes :: RouteRule(ArpKind, c, routes[c]))
    + (set c | c in routes :: RouteRule(IpKind, c, routes[c]))
  }

  ghost function ServiceSet(services: map<SvcKey, set<uint32>>): set<Rule> {
    set key, v | key in services && v in services[key] :: ServiceRule(key, v)
  }

  /** The flows of a node that knows `st`. */
  ghost function Compile(net: Net, st: Node): set<Rule> {
    FixedSet(net) + PodSet(st.pods) + TunnelSet(st.tunnels) + RouteSet(st.routes) + ServiceSet(st.services)
  }

  // ---------------------------------------------------------------- what is in each table

  /** Where each kind of flow lives. */
  lemma TablesOf(net: Net, st: Node, r: Rule)
    requires r in Compile(net, st)
    ensures r.table in {0, 3, 5, 9, 253} ==> r in FixedSet(net)
    ensures r.table == 1 ==> r in FixedSet(net) || r in TunnelSet(st.tunnels)
    ensures r.table in {2, 6, 7} ==> r in FixedSet(net) || r in PodSet(st.pods)
    ensures r.table == 4 ==> r in FixedSet(net) || r in ServiceSet(st.services)
    ensures r.table == 8 ==> r in FixedSet(net) || r in RouteSet(st.routes)
  {
    KindsOfFlow(st, r);
  }

  /** Which tables each kind of flow is in. */
  lemma KindsOfFlow(st: Node, r: Rule)
    ensures r in RouteSet(st.routes) ==> r.table == 8 && r.priority == 100
    ensures r in TunnelSet(st.tunnels) ==> r.table == 1 && r.priority == 100
    ensures r in PodSet(st.pods) ==> r.table in {2, 6, 7}
    ensures r in ServiceSet(st.services) ==> r.table == 4 && r.priority == 100
  {
    if r in PodSet(st.pods) {
      PodByTable(st.pods, r);
    }
  }

  lemma FixedByTable(net: Net, r: Rule)
    requires r in FixedSet(net)
    ensures r.table == 0 ==> r in Table0(net)
    ensures r.table == 3 ==> r in Table3(net)
    ensures r.table == 4 ==> r in Table4()
    ensures r.table == 5 ==> r in Table5(net)
    ensures r.table in {1, 2, 6, 7, 8} ==> r == DropIn(r.table)
    ensures r.table == 9 ==> r == Table9()
    ensures r.table in {0, 1, 2, 3, 4, 5, 6, 7, 8, 9, 253}
  {
    FixedParts(net, r);
  }

  /** The flows of SetupSDN, by group. */
  lemma FixedParts(net: Net, r: Rule)
    requires r in FixedSet(net)
    ensures || r in Table0(net) || r in Table3(net) || r in Table4() || r in Table5(net)
            || r in [DropIn(1), DropIn(2)] || r in [DropIn(6), DropIn(7), DropIn(8), Table9(), VersionNote(net)]
    ensures r in Table0(net) ==> r.table == 0
    ensures r in Table3(net) ==> r.table == 3
    ensures r in Table4() ==> r.table == 4
    ensures r in Table5(net) ==> r.table == 5
  {
    GroupTables(net, r);
    assert r in Fixed(net);
    InParts(r, Table0(net), [DropIn(1), DropIn(2)], Table3(net), Table4(), Table5(net),
            [DropIn(6), DropIn(7), DropIn(8), Table9(), VersionNote(net)]);
  }

  lemma InParts(r: Rule, a: seq<Rule>, b: seq<Rule>, c: seq<Rule>, d: seq<Rule>, e: seq<Rule>, f: seq<Rule>)
    ensures r in a + b + c + d + e + f <==> r in a || r in b || r in c || r in d || r in e || r in f
  {
  }

  lemma GroupTables(net: Net, r: Rule)
    ensures r in Table0(net) ==> r.table == 0
    ensures r in Table3(net) ==> r.table == 3
    ensures r in Table4() ==> r.table == 4
    ensures r in Table5(net) ==> r.table == 5
  {
  }

  lemma FixedHas(net: Net)
    ensures forall r :: r in Table0(net) + Table3(net) + Table4() + Table5(net) ==> r in FixedSet(net)
    ensures forall t :: t in {1, 2, 6, 7, 8} ==> DropIn(t) in FixedSet(net)
    ensures Table9() in FixedSet(net)
  {
  }

  /** The tenants a pod's table-7 flows are for: all (`None`), or 0 and its own. */
  predicate AdmitsTenant(pod: Pod, tenant: Option<uint32>) {
    if pod.vnid == 0 then tenant == None else tenant == Some(0) || tenant == Some(pod.vnid)
  }

  ghost predicate IsPodIpIn(pods: map<uint32, Pod>, r: Rule, ip: uint32, tenant: Option<uint32>) {
    ip in pods && AdmitsTenant(pods[ip], tenant) && r == PodIpIn(ip, pods[ip], tenant)
  }

  lemma PodByTable(pods: map<uint32, Pod>, r: Rule)
    requires r in PodSet(pods)
    ensures r.table == 2 ==> exists ip :: ip in pods && (r == PodArpOut(ip, pods[ip]) || r == PodIpOut(ip, pods[ip]))
    ensures r.table == 6 ==> exists ip :: ip in pods && r == PodArpIn(ip, pods[ip])
    ensures r.table == 7 ==> exists ip, tenant :: IsPodIpIn(pods, r, ip, tenant)
    ensures r.table in {2, 6, 7}
  {
    var ip :| ip in pods && r in PodRules(ip, pods[ip]);
    if r.table == 7 {
      assert IsPodIpIn(pods, r, ip, r.match_.reg0);
    }
  }

  lemma PodHas(pods: map<uint32, Pod>, ip: uint32)
    requires ip in pods
    ensures PodArpOut(ip, pods[ip]) in PodSet(pods) && PodIpOut(ip, pods[ip]) in PodSet(pods)
    ensures PodArpIn(ip, pods[ip]) in PodSet(pods)
    ensures forall tenant :: AdmitsTenant(pods[ip], tenant) ==> PodIpIn(ip, pods[ip], tenant) in PodSet(pods)
  {
    var pod := pods[ip];
    var rules := PodRules(ip, pod);
    assert rules[0] == PodArpOut(ip, pod) && rules[1] == PodIpOut(ip, pod) && rules[2] == PodArpIn(ip, pod);
    assert rules[0] in rules && rules[1] in rules && rules[2] in rules;
    forall tenant | AdmitsTenant(pod, tenant)
      ensures PodIpIn(ip, pod, tenant) in rules
    {
      assert PodIpIn(ip, pod, tenant) == rules[3] || PodIpIn(ip, pod, tenant) == rules[4];
    }
  }
}
