/** The operations on a node's flows, and why the flows always are the compilation of what the node
    knows (ksdn/controller.go:327-415, rootfs/usr/sbin/k8s-sdn-ovs:33-106). */
module NodeOps {
  import opened Prelude
  import opened Word32
  import opened Cidrs
  import opened OpenFlow
  import opened NodeFlows

  // ---------------------------------------------------------------- set-up

  lemma JoinKeys(a: seq<Rule>, b: seq<Rule>)
    requires DistinctKeys(a) && DistinctKeys(b)
    requires forall i, j :: 0 <= i < |a| && 0 <= j < |b| ==> a[i].table != b[j].table
    ensures DistinctKeys(a + b)
  {
  }

  lemma Keys0(net: Net)
    ensures DistinctKeys(Table0(net)) && forall i :: 0 <= i < |Table0(net)| ==> Table0(net)[i].table == 0
  {
  }

  lemma Keys34(net: Net)
    ensures DistinctKeys(Table3(net) + Table4())
    ensures forall i :: 0 <= i < 4 ==> (Table3(net) + Table4())[i].table in {3, 4}
  {
  }

  lemma Keys5(net: Net)
    ensures DistinctKeys(Table5(net)) && forall i :: 0 <= i < |Table5(net)| ==> Table5(net)[i].table == 5
  {
  }

  lemma FixedKeys(net: Net)
    ensures DistinctKeys(Fixed(net))
  {
    var last := [DropIn(6), DropIn(7), DropIn(8), Table9(), VersionNote(net)];
    Keys0(net);
    Keys34(net);
    Keys5(net);
    KeysOfParts(Table0(net), [DropIn(1), DropIn(2)], Table3(net) + Table4(), Table5(net), last);
    assert Fixed(net) == Table0(net) + [DropIn(1), DropIn(2)] + (Table3(net) + Table4()) + Table5(net) + last;
  }

  lemma KeysOfParts(a: seq<Rule>, b: seq<Rule>, c: seq<Rule>, d: seq<Rule>, e: seq<Rule>)
    requires DistinctKeys(a) && DistinctKeys(b) && DistinctKeys(c) && DistinctKeys(d) && DistinctKeys(e)
    requires forall i :: 0 <= i < |a| ==> a[i].table == 0
    requires forall i :: 0 <= i < |b| ==> b[i].table in {1, 2}
    requires forall i :: 0 <= i < |c| ==> c[i].table in {3, 4}
    requires forall i :: 0 <= i < |d| ==> d[i].table == 5
    requires forall i :: 0 <= i < |e| ==> e[i].table > 5
    ensures DistinctKeys(a + b + c + d + e)
  {
    JoinKeys(a, b);
    JoinKeys(a + b, c);
    JoinKeys(a + b + c, d);
    JoinKeys(a + b + c + d, e);
  }

  /** On a new bridge the fixed flows are the compilation of a node that knows nothing. */
  lemma SetupCompiles(net: Net)
    ensures AddFlows({}, Fixed(net)) == Compile(net, NOTHING)
  {
    FixedKeys(net);
    AddFlowsReplace({}, Fixed(net));
  }

  // ---------------------------------------------------------------- pods

  function SetupPod(rules: set<Rule>, ip: uint32, pod: Pod): set<Rule> {
    AddFlows(rules, PodRules(ip, pod))
  }

  function TeardownPod(rules: set<Rule>, ip: uint32): set<Rule> {
    DeleteAll(rules, PodCovers(ip))
  }

  lemma PodRuleShape(ip: uint32, pod: Pod, r: Rule)
    requires r in PodRules(ip, pod)
    ensures r.table in {2, 6, 7} && r.priority == 100 && r.match_.kind in {ArpKind, IpKind}
    ensures r.table == 2 ==> r.match_.src == Some(Host(ip)) && r.match_.dst == None
    ensures r.table != 2 ==> r.match_.src == None && r.match_.dst == Some(Host(ip))
  {
  }

  /** A pod's flows have the keys of no flow but those of the same address. */
  lemma PodKeys(net: Net, st: Node, ip: uint32, pod: Pod, r: Rule, added: Rule)
    requires r in Compile(net, st) && added in PodRules(ip, pod) && SameKey(r, added)
    ensures ip in st.pods && r in PodRules(ip, st.pods[ip])
  {
    PodRuleShape(ip, pod, added);
    TablesOf(net, st, r);
    if r in FixedSet(net) {
      FixedByTable(net, r);
      assert false;
    } else {
      var other :| other in st.pods && r in PodRules(other, st.pods[other]);
      PodRuleShape(other, st.pods[other], r);
    }
  }

  lemma PodSetGrows(pods: map<uint32, Pod>, ip: uint32, pod: Pod)
    requires ip !in pods
    ensures PodSet(pods[ip := pod]) == PodSet(pods) + (set r | r in PodRules(ip, pod))
  {
    var pods' := pods[ip := pod];
    forall r
      ensures r in PodSet(pods') <==> r in PodSet(pods) || r in PodRules(ip, pod)
    {
      if r in PodSet(pods) {
        var o :| o in pods && r in PodRules(o, pods[o]);
        assert o in pods' && r in PodRules(o, pods'[o]);
      }
      if r in PodRules(ip, pod) {
        assert ip in pods' && pods'[ip] == pod;
      }
    }
  }

  lemma SetupPodCompiles(net: Net, st: Node, ip: uint32, pod: Pod)
    requires ip !in st.pods
    ensures SetupPod(Compile(net, st), ip, pod) == Compile(net, WithPod(st, ip, pod))
  {
    PodKeysFresh(net, st, ip, pod);
    PodKeysDistinct(ip, pod);
    AddFlowsReplace(Compile(net, st), PodRules(ip, pod));
    PodSetGrows(st.pods, ip, pod);
  }

  lemma PodKeysDistinct(ip: uint32, pod: Pod)
    ensures DistinctKeys(PodRules(ip, pod))
  {
  }

  lemma PodKeysFresh(net: Net, st: Node, ip: uint32, pod: Pod)
    requires ip !in st.pods
    ensures forall r :: r in Compile(net, st) ==> !KeyIn(r, PodRules(ip, pod))
  {
    var rs := PodRules(ip, pod);
    forall r | r in Compile(net, st)
      ensures !KeyIn(r, rs)
    {
      if i :| 0 <= i < |rs| && SameKey(r, rs[i]) {
        PodKeys(net, st, ip, pod, r, rs[i]);
      }
    }
  }

  ghost function WithPod(st: Node, ip: uint32, pod: Pod): Node { st.(pods := st.pods[ip := pod]) }

  ghost function WithoutPod(st: Node, ip: uint32): Node { st.(pods := st.pods - {ip}) }

  /** What a pod's covers cover: ARP and IP flows to or from exactly its address. */
  predicate Touches(m: Match, ip: uint32) {
    m.kind != Any && (m.dst == Some(Host(ip)) || m.src == Some(Host(ip)))
  }

  lemma WithinHost(c: Cidr, ip: uint32)
    ensures CidrWithin(c, Host(ip)) <==> c == Host(ip)
  {
    HostContains(ip, c.addr);
  }

  lemma CoversTouch(r: Rule, ip: uint32)
    ensures (exists i :: 0 <= i < 4 && Covered(r, PodCovers(ip)[i])) <==> Touches(r.match_, ip)
  {
    var cs := PodCovers(ip);
    if r.match_.src.Some? {
      WithinHost(r.match_.src.value, ip);
    }
    if r.match_.dst.Some? {
      WithinHost(r.match_.dst.value, ip);
    }
    assert Covered(r, cs[0]) <==> r.match_.kind !in {Any, ArpKind} && r.match_.dst == Some(Host(ip));
    assert Covered(r, cs[1]) <==> r.match_.kind !in {Any, ArpKind} && r.match_.src == Some(Host(ip));
    assert Covered(r, cs[2]) <==> r.match_.kind == ArpKind && r.match_.dst == Some(Host(ip));
    assert Covered(r, cs[3]) <==> r.match_.kind == ArpKind && r.match_.src == Some(Host(ip));
  }

  lemma TeardownKeepsUntouched(rules: set<Rule>, ip: uint32)
    ensures TeardownPod(rules, ip) == set r | r in rules && !Touches(r.match_, ip)
  {
    DeleteAllRemovesCovered(rules, PodCovers(ip));
    forall r | r in rules
      ensures (exists i :: 0 <= i < |PodCovers(ip)| && Covered(r, PodCovers(ip)[i])) <==> Touches(r.match_, ip)
    {
      CoversTouch(r, ip);
    }
  }

  /** An address a pod may have without its removal taking other flows along: not the gateway's, not
      a one-address route, not a service's. */
  ghost predicate Removable(net: Net, st: Node, ip: uint32) {
    && ip != Gateway(net.local)
    && Host(ip) !in st.routes
    && forall key :: key in st.services && st.services[key] != {} ==> key.ip != ip
  }

  lemma TouchesPods(pods: map<uint32, Pod>, ip: uint32, r: Rule)
    requires r in PodSet(pods)
    ensures !Touches(r.match_, ip) <==> r in PodSet(pods - {ip})
  {
    var o :| o in pods && r in PodRules(o, pods[o]);
    PodRuleShape(o, pods[o], r);
    if o != ip {
      assert o in (pods - {ip}) && r in PodRules(o, (pods - {ip})[o]);
    }
    if r in PodSet(pods - {ip}) {
      var o' :| o' in (pods - {ip}) && r in PodRules(o', (pods - {ip})[o']);
      PodRuleShape(o', pods[o'], r);
    }
  }

  lemma TouchesFixed(net: Net, ip: uint32)
    requires net.cluster.len < 32 && net.service.len < 32 && net.local.len < 32
    ensures (exists r :: r in FixedSet(net) && Touches(r.match_, ip)) <==> ip == Gateway(net.local)
  {
    if ip == Gateway(net.local) {
      FixedHas(net);
      assert Table5(net)[0] in Table5(net);
      assert Touches(Table5(net)[0].match_, ip);
    }
    forall r | r in FixedSet(net) && Touches(r.match_, ip)
      ensures ip == Gateway(net.local)
    {
      FixedParts(net, r);
      FixedTouched(net, ip, r);
    }
  }

  lemma FixedTouched(net: Net, ip: uint32, r: Rule)
    requires net.cluster.len < 32 && net.service.len < 32 && net.local.len < 32
    requires r in Table0(net) || r in Table3(net) || r in Table4() || r in Table5(net)
    requires Touches(r.match_, ip)
    ensures ip == Gateway(net.local)
  {
  }

  lemma TouchesOthers(st: Node, ip: uint32, r: Rule)
    requires r in TunnelSet(st.tunnels) + RouteSet(st.routes) + ServiceSet(st.services) && Touches(r.match_, ip)
    ensures Host(ip) in st.routes || exists key :: key in st.services && st.services[key] != {} && key.ip == ip
  {
    if r in ServiceSet(st.services) {
      var key, v :| key in st.services && v in st.services[key] && r == ServiceRule(key, v);
      assert key.ip == ip && st.services[key] != {};
    }
  }

  lemma RemovablePodCompiles(net: Net, st: Node, ip: uint32)
    requires net.Valid() && Removable(net, st, ip)
    ensures TeardownPod(Compile(net, st), ip) == Compile(net, WithoutPod(st, ip))
  {
    TeardownKeepsUntouched(Compile(net, st), ip);
    TouchesFixed(net, ip);
    forall r
      ensures r in Compile(net, st) && !Touches(r.match_, ip) <==> r in Compile(net, WithoutPod(st, ip))
    {
      if r in PodSet(st.pods) {
        TouchesPods(st.pods, ip, r);
      }
      if r in PodSet(st.pods - {ip}) {
        PodSetShrinks(st.pods, ip, r);
        TouchesPods(st.pods, ip, r);
      }
      if r in TunnelSet(st.tunnels) + RouteSet(st.routes) + ServiceSet(st.services) && Touches(r.match_, ip) {
        TouchesOthers(st, ip, r);
        assert false;
      }
    }
  }

  lemma PodSetShrinks(pods: map<uint32, Pod>, ip: uint32, r: Rule)
    requires r in PodSet(pods - {ip})
    ensures r in PodSet(pods)
  {
    var o :| o in (pods - {ip}) && r in PodRules(o, (pods - {ip})[o]);
    assert o in pods && r in PodRules(o, pods[o]);
  }

  lemma UnremovablePodLoses(net: Net, st: Node, ip: uint32) returns (lost: Rule)
    requires net.Valid() && !Removable(net, st, ip)
    ensures lost in FixedSet(net) + RouteSet(st.routes) + ServiceSet(st.services) && Touches(lost.match_, ip)
  {
    if ip == Gateway(net.local) {
      TouchesFixed(net, ip);
      lost :| lost in FixedSet(net) && Touches(lost.match_, ip);
    } else if Host(ip) in st.routes {
      lost := RouteRule(IpKind, Host(ip), st.routes[Host(ip)]);
      assert lost in RouteSet(st.routes);
    } else {
      var key :| key in st.services && st.services[key] != {} && key.ip == ip;
      var v :| v in st.services[key];
      lost := ServiceRule(key, v);
      assert lost in ServiceSet(st.services);
    }
  }

  /** Tearing a pod down removes exactly its flows, over all tables, if and only if its address is
      not used by another kind of flow. */
  lemma TeardownCompilesIff(net: Net, st: Node, ip: uint32)
    requires net.Valid()
    ensures TeardownPod(Compile(net, st), ip) == Compile(net, WithoutPod(st, ip)) <==> Removable(net, st, ip)
  {
    if Removable(net, st, ip) {
      RemovablePodCompiles(net, st, ip);
    } else {
      var lost := UnremovablePodLoses(net, st, ip);
      TeardownKeepsUntouched(Compile(net, st), ip);
      assert lost in Compile(net, WithoutPod(st, ip)) && lost !in TeardownPod(Compile(net, st), ip);
    }
  }

  // ---------------------------------------------------------------- setting up over an old pod

  /** A flow of the old pod that setting up another pod at the same address leaves behind. */
  lemma StaleFlow(ip: uint32, was: Pod, pod: Pod) returns (stale: Rule)
    requires was != pod
    ensures stale in PodRules(ip, was) && !KeyIn(stale, PodRules(ip, pod)) && stale !in PodRules(ip, pod)
  {
    var v := if was.vnid == 0 then None else Some(was.vnid);
    stale := if was.port != pod.port || was.mac != pod.mac then PodArpOut(ip, was) else PodIpIn(ip, was, v);
    var rs := PodRules(ip, was);
    assert stale == rs[0] || stale == rs[3] || stale == rs[4];
    assert stale in rs;
  }

  lemma InPodSetAt(pods: map<uint32, Pod>, ip: uint32, pod: Pod, r: Rule)
    requires ip in pods && r in PodSet(pods) && r in PodRules(ip, pod)
    ensures r in PodRules(ip, pods[ip])
  {
    var o :| o in pods && r in PodRules(o, pods[o]);
    PodRuleShape(o, pods[o], r);
    PodRuleShape(ip, pod, r);
  }

  /** Adding the same flows twice is adding them once. */
  lemma AddAgain(rules: set<Rule>, rs: seq<Rule>)
    requires DistinctKeys(rs)
    ensures AddFlows(AddFlows(rules, rs), rs) == AddFlows(rules, rs)
  {
    AddFlowsReplace(rules, rs);
    AddFlowsReplace(AddFlows(rules, rs), rs);
    forall r | r in rs
      ensures KeyIn(r, rs)
    {
      var i :| 0 <= i < |rs| && rs[i] == r;
      assert SameKey(r, rs[i]);
    }
  }

  lemma SetupAgainCompiles(net: Net, st: Node, ip: uint32)
    requires ip in st.pods
    ensures SetupPod(Compile(net, st), ip, st.pods[ip]) == Compile(net, st)
  {
    ReplacePod(st, ip, st.pods[ip]);
    PodKeysDistinct(ip, st.pods[ip]);
    SetupPodCompiles(net, WithoutPod(st, ip), ip, st.pods[ip]);
    AddAgain(Compile(net, WithoutPod(st, ip)), PodRules(ip, st.pods[ip]));
  }

  /** Setting a pod up records it, if and only if its address is new or nothing changes: the flows of
      another pod at that address would stay. */
  lemma SetupPodCompilesIff(net: Net, st: Node, ip: uint32, pod: Pod)
    ensures SetupPod(Compile(net, st), ip, pod) == Compile(net, WithPod(st, ip, pod))
       <==> (ip !in st.pods || st.pods[ip] == pod)
  {
    if ip !in st.pods {
      SetupPodCompiles(net, st, ip, pod);
    } else if st.pods[ip] == pod {
      assert WithPod(st, ip, pod) == st;
      SetupAgainCompiles(net, st, ip);
    } else {
      var stale := StaleFlow(ip, st.pods[ip], pod);
      StaleStays(net, st, ip, pod, stale);
    }
  }

  lemma FlowKept(rules: set<Rule>, rs: seq<Rule>, r: Rule)
    requires DistinctKeys(rs) && r in rules && !KeyIn(r, rs)
    ensures r in AddFlows(rules, rs)
  {
    AddFlowsReplace(rules, rs);
  }

  lemma StaleStays(net: Net, st: Node, ip: uint32, pod: Pod, stale: Rule)
    requires ip in st.pods && stale in PodRules(ip, st.pods[ip])
    requires !KeyIn(stale, PodRules(ip, pod)) && stale !in PodRules(ip, pod)
    ensures stale in SetupPod(Compile(net, st), ip, pod) && stale !in Compile(net, WithPod(st, ip, pod))
  {
    assert stale in PodSet(st.pods);
    PodKeysDistinct(ip, pod);
    FlowKept(Compile(net, st), PodRules(ip, pod), stale);
    if stale in Compile(net, WithPod(st, ip, pod)) {
      NotStale(net, WithPod(st, ip, pod), ip, st.pods[ip], stale);
    }
  }

  /** A pod's flow that is installed belongs to the pod now known at its address. */
  lemma NotStale(net: Net, st: Node, ip: uint32, was: Pod, r: Rule)
    requires ip in st.pods && r in Compile(net, st) && r in PodRules(ip, was)
    ensures r in PodRules(ip, st.pods[ip])
  {
    PodRuleShape(ip, was, r);
    TablesOf(net, st, r);
    if r in FixedSet(net) {
      FixedByTable(net, r);
    } else {
      InPodSetAt(st.pods, ip, was, r);
    }
  }

  lemma ReplacePod(st: Node, ip: uint32, pod: Pod)
    ensures WithPod(WithoutPod(st, ip), ip, pod) == WithPod(st, ip, pod)
    ensures ip in st.pods && st.pods[ip] == pod ==> WithPod(st, ip, pod) == st
  {
    assert (st.pods - {ip})[ip := pod] == st.pods[ip := pod];
  }

  /** An update leaves no flow of the old tenant. */
  lemma UpdatePodCompiles(net: Net, st: Node, ip: uint32, pod: Pod)
    requires net.Valid() && Removable(net, st, ip)
    ensures SetupPod(TeardownPod(Compile(net, st), ip), ip, pod) == Compile(net, WithPod(st, ip, pod))
  {
    RemovablePodCompiles(net, st, ip);
    SetupPodCompiles(net, WithoutPod(st, ip), ip, pod);
    ReplacePod(st, ip, pod);
  }

  // ---------------------------------------------------------------- other nodes

  ghost function WithHost(st: Node, subnet: Cidr, host: uint32): Node {
    st.(tunnels := st.tunnels + {host}, routes := st.routes[subnet := host])
  }

  /** Removing a subnet removes every route inside it. */
  ghost function WithoutHost(st: Node, subnet: Cidr, host: uint32): Node {
    st.(tunnels := st.tunnels - {host}, routes := RoutesOutside(st.routes, subnet))
  }

  predicate IsRouteTo(r: Rule, c: Cidr, host: uint32) {
    r == RouteRule(ArpKind, c, host) || r == RouteRule(IpKind, c, host)
  }

  lemma InRouteSet(routes: map<Cidr, uint32>, r: Rule)
    ensures r in RouteSet(routes) <==> exists c :: c in routes && IsRouteTo(r, c, routes[c])
  {
  }

  /** A route's flow tells the subnet and the host. */
  lemma RouteOfRule(r: Rule, c: Cidr, host: uint32, c': Cidr, host': uint32)
    requires IsRouteTo(r, c, host) && IsRouteTo(r, c', host')
    ensures c == c' && host == host'
  {
    assert r.actions[1] == SetTunDst(host) && r.actions[1] == SetTunDst(host');
  }

  lemma HostKeys(net: Net, st: Node, subnet: Cidr, host: uint32, r: Rule)
    requires r in Compile(net, st)
    ensures KeyIn(r, HostRules(subnet, host)) <==>
            r == TunnelRule(host) || (subnet in st.routes && IsRouteTo(r, subnet, st.routes[subnet]))
  {
    var rs := HostRules(subnet, host);
    assert KeyIn(r, rs) <==> SameKey(r, rs[0]) || SameKey(r, rs[1]) || SameKey(r, rs[2]);
    TablesOf(net, st, r);
    if r in FixedSet(net) {
      FixedByTable(net, r);
    }
    InRouteSet(st.routes, r);
  }

  lemma AddHostKeeps(net: Net, st: Node, subnet: Cidr, host: uint32, r: Rule)
    requires r in Compile(net, st) && !KeyIn(r, HostRules(subnet, host))
    ensures r in Compile(net, WithHost(st, subnet, host))
  {
    var st' := WithHost(st, subnet, host);
    HostKeys(net, st, subnet, host, r);
    if r in RouteSet(st.routes) {
      InRouteSet(st.routes, r);
      var c :| c in st.routes && IsRouteTo(r, c, st.routes[c]);
      assert c in st'.routes && IsRouteTo(r, c, st'.routes[c]);
      InRouteSet(st'.routes, r);
    }
  }

  lemma AddHostAdds(net: Net, st: Node, subnet: Cidr, host: uint32, r: Rule)
    requires r in Compile(net, WithHost(st, subnet, host)) && r !in HostRules(subnet, host)
    ensures r in Compile(net, st) && !KeyIn(r, HostRules(subnet, host))
  {
    var st' := WithHost(st, subnet, host);
    assert TunnelRule(host) == HostRules(subnet, host)[0];
    assert RouteRule(ArpKind, subnet, host) == HostRules(subnet, host)[1];
    assert RouteRule(IpKind, subnet, host) == HostRules(subnet, host)[2];
    HostKeys(net, st', subnet, host, r);
    if r in RouteSet(st'.routes) {
      InRouteSet(st'.routes, r);
      var c :| c in st'.routes && IsRouteTo(r, c, st'.routes[c]);
      assert c in st.routes && IsRouteTo(r, c, st.routes[c]);
      InRouteSet(st.routes, r);
    }
  }

  lemma AddHostCompiles(net: Net, st: Node, subnet: Cidr, host: uint32)
    ensures AddFlows(Compile(net, st), HostRules(subnet, host)) == Compile(net, WithHost(st, subnet, host))
  {
    var rs := HostRules(subnet, host);
    var st' := WithHost(st, subnet, host);
    AddFlowsReplace(Compile(net, st), rs);
    forall r
      ensures (r in Compile(net, st) && !KeyIn(r, rs)) || r in rs <==> r in Compile(net, st')
    {
      if r in Compile(net, st) && !KeyIn(r, rs) {
        AddHostKeeps(net, st, subnet, host, r);
      }
      if r in rs {
        assert r == TunnelRule(host) || IsRouteTo(r, subnet, st'.routes[subnet]);
        InRouteSet(st'.routes, r);
      } else if r in Compile(net, st') {
        AddHostAdds(net, st, subnet, host, r);
      }
    }
  }

  lemma HostCovered(net: Net, st: Node, subnet: Cidr, host: uint32, r: Rule)
    requires r in Compile(net, st) && subnet.len <= 32
    ensures (exists i :: 0 <= i < 3 && Covered(r, HostCovers(subnet, host)[i])) <==>
            r == TunnelRule(host) || RouteInside(st.routes, subnet, r)
  {
    var cs := HostCovers(subnet, host);
    assert (exists i :: 0 <= i < 3 && Covered(r, cs[i])) <==> Covered(r, cs[0]) || Covered(r, cs[1]) || Covered(r, cs[2]);
    InsideIsRoute(st.routes, subnet, r);
    if r in RouteSet(st.routes) {
      RouteCovered(st.routes, subnet, host, r);
    } else if r in FixedSet(net) {
      FixedByTable(net, r);
    } else {
      KindsOfFlow(st, r);
    }
  }

  lemma InsideIsRoute(routes: map<Cidr, uint32>, subnet: Cidr, r: Rule)
    ensures RouteInside(routes, subnet, r) ==> r in RouteSet(routes) && r.table == 8
  {
    InRouteSet(routes, r);
  }

  lemma RouteCovered(routes: map<Cidr, uint32>, subnet: Cidr, host: uint32, r: Rule)
    requires r in RouteSet(routes) && subnet.len <= 32
    ensures !Covered(r, HostCovers(subnet, host)[0])
    ensures Covered(r, HostCovers(subnet, host)[1]) || Covered(r, HostCovers(subnet, host)[2])
       <==> RouteInside(routes, subnet, r)
  {
    InRouteSet(routes, r);
    var c :| c in routes && IsRouteTo(r, c, routes[c]);
    if RouteInside(routes, subnet, r) {
      var d :| d in routes && IsRouteTo(r, d, routes[d]) && CidrWithin(d, subnet);
      RouteOfRule(r, c, routes[c], d, routes[d]);
    }
  }

  lemma DeleteHostCompiles(net: Net, st: Node, subnet: Cidr, host: uint32)
    requires subnet.len <= 32
    ensures DeleteAll(Compile(net, st), HostCovers(subnet, host)) == Compile(net, WithoutHost(st, subnet, host))
  {
    var st' := WithoutHost(st, subnet, host);
    DeleteAllRemovesCovered(Compile(net, st), HostCovers(subnet, host));
    forall r
      ensures r in Compile(net, st) && !(exists i :: 0 <= i < 3 && Covered(r, HostCovers(subnet, host)[i]))
         <==> r in Compile(net, st')
    {
      if r in Compile(net, st) {
        HostCovered(net, st, subnet, host, r);
        HostRemains(net, st, subnet, host, r);
      } else if r in Compile(net, st') {
        NothingNew(net, st, subnet, host, r);
        assert false;
      }
    }
  }

  lemma NothingNew(net: Net, st: Node, subnet: Cidr, host: uint32, r: Rule)
    requires subnet.len <= 32 && r in Compile(net, WithoutHost(st, subnet, host))
    ensures r in Compile(net, st)
  {
    var routes' := WithoutHost(st, subnet, host).routes;
    if r in RouteSet(routes') {
      InRouteSet(routes', r);
      var c :| c in routes' && IsRouteTo(r, c, routes'[c]);
      assert c in st.routes && IsRouteTo(r, c, st.routes[c]);
      InRouteSet(st.routes, r);
    }
  }

  /** A flow of a route inside the subnet. */
  ghost predicate RouteInside(routes: map<Cidr, uint32>, subnet: Cidr, r: Rule) {
    exists c :: c in routes && IsRouteTo(r, c, routes[c]) && CidrWithin(c, subnet)
  }

  ghost function RoutesOutside(routes: map<Cidr, uint32>, subnet: Cidr): map<Cidr, uint32> {
    map c | c in routes && !CidrWithin(c, subnet) :: routes[c]
  }

  lemma RouteRemains(routes: map<Cidr, uint32>, subnet: Cidr, r: Rule)
    requires r in RouteSet(routes)
    ensures r in RouteSet(RoutesOutside(routes, subnet)) <==> !RouteInside(routes, subnet, r)
  {
    var routes' := RoutesOutside(routes, subnet);
    InRouteSet(routes, r);
    InRouteSet(routes', r);
    var c :| c in routes && IsRouteTo(r, c, routes[c]);
    forall d | d in routes && IsRouteTo(r, d, routes[d])
      ensures d == c
    {
      RouteOfRule(r, c, routes[c], d, routes[d]);
    }
    assert c in routes' <==> !CidrWithin(c, subnet);
  }

  lemma HostRemains(net: Net, st: Node, subnet: Cidr, host: uint32, r: Rule)
    requires r in Compile(net, st)
    ensures r in Compile(net, WithoutHost(st, subnet, host)) <==>
            !(r == TunnelRule(host) || RouteInside(st.routes, subnet, r))
  {
    KindsOfFlow(st, r);
    InsideIsRoute(st.routes, subnet, r);
    if r in FixedSet(net) {
      FixedByTable(net, r);
    } else if r in RouteSet(st.routes) {
      RouteRemains(st.routes, subnet, r);
    }
  }

  // ---------------------------------------------------------------- services

  ghost function Owners(st: Node, key: SvcKey): set<uint32> {
    if key in st.services then st.services[key] else {}
  }

  ghost function WithService(st: Node, key: SvcKey, tenant: uint32): Node {
    st.(services := st.services[key := Owners(st, key) + {tenant}])
  }

  ghost function WithoutService(st: Node, key: SvcKey): Node { st.(services := st.services - {key}) }

  lemma ServiceOfRule(key: SvcKey, v: uint32, key': SvcKey, v': uint32)
    requires SameKey(ServiceRule(key, v), ServiceRule(key', v'))
    ensures key == key' && v == v'
  {
  }

  /** Only the flow itself has a service flow's key. */
  lemma ServiceKeys(net: Net, st: Node, key: SvcKey, tenant: uint32, r: Rule)
    requires r in Compile(net, st) && SameKey(r, ServiceRule(key, tenant))
    ensures r == ServiceRule(key, tenant)
  {
    TablesOf(net, st, r);
    if r in FixedSet(net) {
      FixedByTable(net, r);
    } else {
      var k, v :| k in st.services && v in st.services[k] && r == ServiceRule(k, v);
      ServiceOfRule(k, v, key, tenant);
    }
  }

  lemma ServiceSetGrows(st: Node, key: SvcKey, tenant: uint32)
    ensures ServiceSet(WithService(st, key, tenant).services) == ServiceSet(st.services) + {ServiceRule(key, tenant)}
  {
    var services, services' := st.services, WithService(st, key, tenant).services;
    assert key in services' && tenant in services'[key];
    forall k, v | k in services && v in services[k]
      ensures k in services' && v in services'[k]
    {
    }
    forall r | r in ServiceSet(services') && r != ServiceRule(key, tenant)
      ensures r in ServiceSet(services)
    {
      var k, v :| k in services' && v in services'[k] && r == ServiceRule(k, v);
      assert k in services && v in services[k];
    }
  }

  lemma AddServiceCompiles(net: Net, st: Node, key: SvcKey, tenant: uint32)
    ensures AddFlow(Compile(net, st), ServiceRule(key, tenant)) == Compile(net, WithService(st, key, tenant))
  {
    ServiceSetGrows(st, key, tenant);
    forall r | r in Compile(net, st) && SameKey(r, ServiceRule(key, tenant))
      ensures r == ServiceRule(key, tenant)
    {
      ServiceKeys(net, st, key, tenant, r);
    }
  }

  lemma CoveredService(key: SvcKey, key': SvcKey, v: uint32)
    ensures Covered(ServiceRule(key', v), ServiceCover(key)) <==> key == key'
  {
    WithinHost(Host(key'.ip), key.ip);
  }

  /** No other kind of flow is covered. */
  lemma OthersUncovered(net: Net, st: Node, key: SvcKey, r: Rule)
    requires r in Compile(net, st) && Covered(r, ServiceCover(key))
    ensures r in ServiceSet(st.services)
    ensures r !in FixedSet(net) + PodSet(st.pods) + TunnelSet(st.tunnels) + RouteSet(st.routes)
  {
    KindsOfFlow(st, r);
    if r in FixedSet(net) {
      FixedByTable(net, r);
    }
  }

  lemma ServiceSetShrinks(services: map<SvcKey, set<uint32>>, key: SvcKey, r: Rule)
    ensures r in ServiceSet(services - {key}) <==> r in ServiceSet(services) && !Covered(r, ServiceCover(key))
  {
    if r in ServiceSet(services) {
      var k, v :| k in services && v in services[k] && r == ServiceRule(k, v);
      CoveredService(key, k, v);
      assert k != key ==> k in (services - {key}) && v in (services - {key})[k];
    }
    if r in ServiceSet(services - {key}) {
      var k, v :| k in (services - {key}) && v in (services - {key})[k] && r == ServiceRule(k, v);
      CoveredService(key, k, v);
      assert k in services && v in services[k];
    }
  }

  lemma DeleteServiceCompiles(net: Net, st: Node, key: SvcKey)
    ensures DeleteFlows(Compile(net, st), ServiceCover(key)) == Compile(net, WithoutService(st, key))
  {
    forall r
      ensures r in ServiceSet(st.services - {key}) <==> r in ServiceSet(st.services) && !Covered(r, ServiceCover(key))
      ensures r in Compile(net, st) && Covered(r, ServiceCover(key)) ==>
                r !in FixedSet(net) + PodSet(st.pods) + TunnelSet(st.tunnels) + RouteSet(st.routes)
    {
      ServiceSetShrinks(st.services, key, r);
      if r in Compile(net, st) && Covered(r, ServiceCover(key)) {
        OthersUncovered(net, st, key, r);
      }
    }
  }
}
