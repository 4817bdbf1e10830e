/** The flow tables implement a policy: what the compiled flows do with any packet is what
    `Verdict` says, table by table and then for the whole pipeline. */
module Pipeline {
  import opened Prelude
  import opened Word32
  import opened Cidrs
  import opened OpenFlow
  import opened NodeFlows

  // ---------------------------------------------------------------- the policy

  /** Tenants 0 and equal tenants may talk. */
  predicate Permitted(a: uint32, b: uint32) { a == b || a == 0 || b == 0 }

  ghost predicate Routed(st: Node, dst: uint32) {
    exists c :: c in st.routes && InCidr(Some(c), dst)
  }

  ghost function RouteTo(st: Node, dst: uint32): uint32
    requires Routed(st, dst)
  {
    var c :| c in st.routes && InCidr(Some(c), dst);
    st.routes[c]
  }

  /** A node's routes give every address at most one host. */
  ghost predicate Unambiguous(st: Node) {
    forall c, d, ip: uint32 :: c in st.routes && d in st.routes && InCidr(Some(c), ip) && InCidr(Some(d), ip) ==>
      st.routes[c] == st.routes[d]
  }

  /** To a pod of this node: ARP reaches every pod, IP only from a permitted tenant. */
  ghost function ToPod(st: Node, p: Packet): seq<Emit> {
    if p.dst in st.pods && (p.proto.Arp? || Permitted(p.reg0, st.pods[p.dst].vnid))
    then Send(st.pods[p.dst].port, p) else []
  }

  /** To another node, with the tenant as tunnel key. */
  ghost function ToHost(st: Node, p: Packet): seq<Emit> {
    if Routed(st, p.dst) then Send(VXLAN, p.(tunId := p.reg0, tunDst := RouteTo(st, p.dst))) else []
  }

  /** Where a packet with a known tenant goes. */
  ghost function Route(net: Net, st: Node, p: Packet): seq<Emit> {
    if p.dst == Gateway(net.local) then Send(TUN, p)
    else if InCidr(Some(net.local), p.dst) then ToPod(st, p)
    else if InCidr(Some(net.cluster), p.dst) then ToHost(st, p)
    else if p.IsIp() then Send(TUN, p)
    else []
  }

  predicate Addresses(p: Packet, key: SvcKey) {
    key.ip == p.dst && key.port == p.tpDst && (if key.proto == TCP then p.proto.Tcp? else p.proto.Udp?)
  }

  ghost predicate ServiceOpen(st: Node, p: Packet) {
    exists key, v :: key in st.services && Addresses(p, key) && v in st.services[key] && (v == p.reg0 || v == 0)
  }

  /** Services answer their own tenants and tenant 0, and everyone when they belong to tenant 0. */
  ghost function ToService(st: Node, p: Packet): seq<Emit> {
    if p.reg0 == 0 || ServiceOpen(st, p) then Send(TUN, p) else []
  }

  /** A container's packet goes out only under the container's own address (and, for ARP, MAC). */
  predicate Genuine(st: Node, p: Packet) {
    && p.src in st.pods && st.pods[p.src].port == p.inPort
    && (p.IsIp() || (p.proto.Arp? && st.pods[p.src].mac == p.sha))
  }

  ghost function FromPod(net: Net, st: Node, p: Packet): seq<Emit> {
    if !Genuine(st, p) then []
    else
      var q := p.(reg0 := st.pods[p.src].vnid);
      if q.IsIp() && InCidr(Some(net.service), q.dst) then ToService(st, q) else Route(net, st, q)
  }

  /** Tunnel traffic this node takes. */
  ghost predicate Inbound(net: Net, p: Packet) {
    (p.IsIp() || p.proto.Arp?) && InCidr(Some(net.cluster), p.src) && InCidr(Some(net.local), p.dst)
  }

  /** Traffic from the node itself. */
  ghost predicate Outbound(net: Net, p: Packet) {
    p.IsIp() || (p.proto.Arp? && p.src == Gateway(net.local) && InCidr(Some(net.cluster), p.dst))
  }

  /** Tunnel traffic is taken from known hosts; its key is the tenant. */
  ghost function FromHost(net: Net, st: Node, p: Packet): seq<Emit> {
    if Inbound(net, p) && p.tunSrc in st.tunnels then Route(net, st, p.(reg0 := p.tunId)) else []
  }

  ghost function FromNode(net: Net, st: Node, p: Packet): seq<Emit> {
    if Outbound(net, p) then Route(net, st, p) else []
  }

  ghost function Verdict(net: Net, st: Node, p: Packet): seq<Emit> {
    if p.inPort == VXLAN then FromHost(net, st, p)
    else if p.inPort == TUN then FromNode(net, st, p)
    else FromPod(net, st, p)
  }

  // ---------------------------------------------------------------- executing a flow's actions

  lemma ExecuteOne(a: Action, p: Packet)
    ensures a.Goto? ==> Execute([a], p) == Effect(p, [], Some(a.to))
    ensures a.Output? ==> Execute([a], p) == Effect(p, Send(a.port, p), None)
  {
    assert [a][1..] == [];
    assert Execute([], p) == Effect(p, [], None);
  }

  lemma ExecuteThenGoto(a: Action, to: nat, p: Packet)
    requires a.MoveTunToReg? || a.LoadReg?
    ensures Execute([a, Goto(to)], p) ==
            Effect(p.(reg0 := if a.LoadReg? then a.v else p.tunId), [], Some(to))
  {
    assert [a, Goto(to)][1..] == [Goto(to)];
    ExecuteOne(Goto(to), p.(reg0 := if a.LoadReg? then a.v else p.tunId));
  }

  lemma ExecuteTunnel(host: uint32, p: Packet)
    ensures Execute([MoveRegToTun, SetTunDst(host), Output(VXLAN)], p) ==
            var q := p.(tunId := p.reg0, tunDst := host); Effect(q, Send(VXLAN, q), None)
  {
    var q := p.(tunId := p.reg0, tunDst := host);
    assert [MoveRegToTun, SetTunDst(host), Output(VXLAN)][1..] == [SetTunDst(host), Output(VXLAN)];
    assert [SetTunDst(host), Output(VXLAN)][1..] == [Output(VXLAN)];
    ExecuteOne(Output(VXLAN), q);
    assert Execute([SetTunDst(host), Output(VXLAN)], p.(tunId := p.reg0)) == Effect(q, Send(VXLAN, q), None);
  }

  // ---------------------------------------------------------------- table by table

  /** `r` is a flow of table `t` that beats every other matching one, or agrees with it. */
  ghost predicate Fires(rules: set<Rule>, t: nat, p: Packet, r: Rule) {
    && r in rules && r.table == t && Matches(r.match_, p)
    && forall other :: other in rules && other.table == t && Matches(other.match_, p) ==>
         other.priority < r.priority || (other.priority == r.priority && other.actions == r.actions)
  }

  /** What then happens, by what the actions are. */
  lemma Decides(rules: set<Rule>, t: nat, p: Packet, r: Rule, outs: seq<Emit>)
    requires Fires(rules, t, p, r)
    ensures Forwards(rules, t, p, outs) <==> Follows(rules, t, Execute(r.actions, p), outs)
    ensures r.actions == [] ==> (Forwards(rules, t, p, outs) <==> outs == [])
    ensures forall port: nat :: r.actions == [Output(port)] ==> (Forwards(rules, t, p, outs) <==> outs == Send(port, p))
    ensures forall to: nat :: r.actions == [Goto(to)] && t < to <= LAST_TABLE ==>
              (Forwards(rules, t, p, outs) <==> Forwards(rules, to, p, outs))
  {
    assert Selects(rules, t, p, r);
    OneChoice(rules, t, p, r, outs);
    assert outs[0..] == outs;
    forall port: nat | r.actions == [Output(port)]
      ensures Forwards(rules, t, p, outs) <==> outs == Send(port, p)
    {
      ExecuteOne(Output(port), p);
    }
    forall to: nat | r.actions == [Goto(to)] && t < to <= LAST_TABLE
      ensures Forwards(rules, t, p, outs) <==> Forwards(rules, to, p, outs)
    {
      ExecuteOne(Goto(to), p);
    }
  }

  lemma DecidesLoad(rules: set<Rule>, t: nat, p: Packet, r: Rule, load: Action, to: nat, outs: seq<Emit>)
    requires Fires(rules, t, p, r) && r.actions == [load, Goto(to)] && t < to <= LAST_TABLE
    requires load.MoveTunToReg? || load.LoadReg?
    ensures Forwards(rules, t, p, outs)
       <==> Forwards(rules, to, p.(reg0 := if load.LoadReg? then load.v else p.tunId), outs)
  {
    Decides(rules, t, p, r, outs);
    ExecuteThenGoto(load, to, p);
    assert outs[0..] == outs;
  }

  lemma DecidesTunnel(rules: set<Rule>, t: nat, p: Packet, r: Rule, host: uint32, outs: seq<Emit>)
    requires Fires(rules, t, p, r) && r.actions == [MoveRegToTun, SetTunDst(host), Output(VXLAN)]
    ensures Forwards(rules, t, p, outs) <==> outs == Send(VXLAN, p.(tunId := p.reg0, tunDst := host))
  {
    Decides(rules, t, p, r, outs);
    ExecuteTunnel(host, p);
  }

  /** The flows of table 8 are one drop and two for each route. */
  ghost predicate Is8(R: set<Rule>, st: Node) {
    && DropIn(8) in R
    && (forall c :: c in st.routes ==>
          RouteRule(ArpKind, c, st.routes[c]) in R && RouteRule(IpKind, c, st.routes[c]) in R)
    && (forall r :: r in R && r.table == 8 ==> r == DropIn(8) || IsRoute(st.routes, r))
  }

  ghost predicate IsRoute(routes: map<Cidr, uint32>, r: Rule) {
    exists c :: c in routes && (r == RouteRule(ArpKind, c, routes[c]) || r == RouteRule(IpKind, c, routes[c]))
  }

  lemma CompiledIs8(net: Net, st: Node)
    ensures Is8(Compile(net, st), st)
  {
    var R := Compile(net, st);
    FixedHas(net);
    forall r | r in R && r.table == 8
      ensures r == DropIn(8) || IsRoute(st.routes, r)
    {
      TablesOf(net, st, r);
      if r in FixedSet(net) {
        FixedByTable(net, r);
      } else {
        var c :| c in st.routes && (r == RouteRule(ArpKind, c, st.routes[c]) || r == RouteRule(IpKind, c, st.routes[c]));
      }
    }
  }

  lemma MatchesTo(kind: Kind, dst: Cidr, p: Packet)
    ensures Matches(To(kind, dst), p) <==> KindMatches(kind, p.proto) && InCidr(Some(dst), p.dst)
  {
  }

  lemma Pick8(R: set<Rule>, st: Node, p: Packet) returns (r: Rule)
    requires Is8(R, st) && Unambiguous(st) && (p.IsIp() || p.proto.Arp?)
    ensures Fires(R, 8, p, r)
    ensures r.actions ==
            if Routed(st, p.dst) then [MoveRegToTun, SetTunDst(RouteTo(st, p.dst)), Output(VXLAN)] else []
  {
    r := DropIn(8);
    if Routed(st, p.dst) {
      var c :| c in st.routes && InCidr(Some(c), p.dst);
      assert st.routes[c] == RouteTo(st, p.dst);
      r := RouteRule(if p.proto.Arp? then ArpKind else IpKind, c, st.routes[c]);
      MatchesTo(r.match_.kind, c, p);
    }
    forall other | other in R && other.table == 8 && Matches(other.match_, p) && other != DropIn(8)
      ensures Routed(st, p.dst) && other.priority == 100 && other.actions == r.actions
    {
      MatchedRoute(st, p, other);
    }
  }

  lemma MatchedRoute(st: Node, p: Packet, r: Rule)
    requires IsRoute(st.routes, r) && Matches(r.match_, p) && Unambiguous(st)
    ensures Routed(st, p.dst) && r.priority == 100
    ensures r.actions == [MoveRegToTun, SetTunDst(RouteTo(st, p.dst)), Output(VXLAN)]
  {
    var c :| c in st.routes && (r == RouteRule(ArpKind, c, st.routes[c]) || r == RouteRule(IpKind, c, st.routes[c]));
    MatchesTo(r.match_.kind, c, p);
  }

  /** To the other nodes. */
  lemma At8(R: set<Rule>, st: Node, p: Packet, outs: seq<Emit>)
    requires Is8(R, st) && Unambiguous(st) && (p.IsIp() || p.proto.Arp?)
    ensures Forwards(R, 8, p, outs) <==> outs == ToHost(st, p)
  {
    var r := Pick8(R, st, p);
    if Routed(st, p.dst) {
      DecidesTunnel(R, 8, p, r, RouteTo(st, p.dst), outs);
    } else {
      Decides(R, 8, p, r, outs);
    }
  }

  ghost predicate Is7(R: set<Rule>, st: Node) {
    && DropIn(7) in R
    && (forall ip, tenant :: ip in st.pods && AdmitsTenant(st.pods[ip], tenant) ==> PodIpIn(ip, st.pods[ip], tenant) in R)
    && (forall r :: r in R && r.table == 7 ==> r == DropIn(7) || IsPodFlow7(st.pods, r))
  }

  ghost predicate IsPodFlow7(pods: map<uint32, Pod>, r: Rule) {
    exists ip, tenant :: IsPodIpIn(pods, r, ip, tenant)
  }

  lemma CompiledIs7(net: Net, st: Node)
    ensures Is7(Compile(net, st), st)
  {
    var R := Compile(net, st);
    FixedHas(net);
    forall ip, tenant | ip in st.pods && AdmitsTenant(st.pods[ip], tenant)
      ensures PodIpIn(ip, st.pods[ip], tenant) in R
    {
      PodHas(st.pods, ip);
    }
    forall r | r in R && r.table == 7
      ensures r == DropIn(7) || IsPodFlow7(st.pods, r)
    {
      TablesOf(net, st, r);
      if r in FixedSet(net) {
        FixedByTable(net, r);
      } else {
        PodByTable(st.pods, r);
      }
    }
  }

  lemma MatchesPodIpIn(ip: uint32, pod: Pod, tenant: Option<uint32>, p: Packet)
    ensures Matches(PodIpIn(ip, pod, tenant).match_, p) <==> p.IsIp() && p.dst == ip && Is(tenant, p.reg0)
  {
    HostContains(ip, p.dst);
    MatchesTo(IpKind, Host(ip), p);
  }

  lemma Pick7(R: set<Rule>, st: Node, p: Packet) returns (r: Rule)
    requires Is7(R, st) && p.IsIp()
    ensures Fires(R, 7, p, r)
    ensures r.actions ==
            if p.dst in st.pods && Permitted(p.reg0, st.pods[p.dst].vnid) then [Output(st.pods[p.dst].port)] else []
  {
    r := DropIn(7);
    if p.dst in st.pods && Permitted(p.reg0, st.pods[p.dst].vnid) {
      var pod := st.pods[p.dst];
      var tenant := if pod.vnid == 0 then None else Some(p.reg0);
      r := PodIpIn(p.dst, pod, tenant);
      MatchesPodIpIn(p.dst, pod, tenant, p);
    }
    forall other | other in R && other.table == 7 && Matches(other.match_, p) && other != DropIn(7)
      ensures p.dst in st.pods && Permitted(p.reg0, st.pods[p.dst].vnid)
      ensures other.priority == 100 && other.actions == [Output(st.pods[p.dst].port)]
    {
      var ip, tenant :| IsPodIpIn(st.pods, other, ip, tenant);
      MatchesPodIpIn(ip, st.pods[ip], tenant, p);
    }
  }

  /** IP to the node's pods. */
  lemma At7(R: set<Rule>, st: Node, p: Packet, outs: seq<Emit>)
    requires Is7(R, st) && p.IsIp()
    ensures Forwards(R, 7, p, outs) <==> outs == ToPod(st, p)
  {
    var r := Pick7(R, st, p);
    Decides(R, 7, p, r, outs);
  }

  ghost predicate Is6(R: set<Rule>, st: Node) {
    && DropIn(6) in R
    && (forall ip :: ip in st.pods ==> PodArpIn(ip, st.pods[ip]) in R)
    && (forall r :: r in R && r.table == 6 ==>
          r == DropIn(6) || exists ip :: ip in st.pods && r == PodArpIn(ip, st.pods[ip]))
  }

  lemma CompiledIs6(net: Net, st: Node)
    ensures Is6(Compile(net, st), st)
  {
    var R := Compile(net, st);
    FixedHas(net);
    forall ip | ip in st.pods
      ensures PodArpIn(ip, st.pods[ip]) in R
    {
      PodHas(st.pods, ip);
    }
    forall r | r in R && r.table == 6
      ensures r == DropIn(6) || exists ip :: ip in st.pods && r == PodArpIn(ip, st.pods[ip])
    {
      TablesOf(net, st, r);
      if r in FixedSet(net) {
        FixedByTable(net, r);
      } else {
        PodByTable(st.pods, r);
      }
    }
  }

  lemma Pick6(R: set<Rule>, st: Node, p: Packet) returns (r: Rule)
    requires Is6(R, st) && p.proto.Arp?
    ensures Fires(R, 6, p, r)
    ensures r.actions == if p.dst in st.pods then [Output(st.pods[p.dst].port)] else []
  {
    r := DropIn(6);
    if p.dst in st.pods {
      r := PodArpIn(p.dst, st.pods[p.dst]);
      HostContains(p.dst, p.dst);
      MatchesTo(ArpKind, Host(p.dst), p);
    }
    forall other | other in R && other.table == 6 && Matches(other.match_, p) && other != DropIn(6)
      ensures p.dst in st.pods && other == PodArpIn(p.dst, st.pods[p.dst])
    {
      var ip :| ip in st.pods && other == PodArpIn(ip, st.pods[ip]);
      HostContains(ip, p.dst);
      MatchesTo(ArpKind, Host(ip), p);
    }
  }

  /** ARP to the node's pods. */
  lemma At6(R: set<Rule>, st: Node, p: Packet, outs: seq<Emit>)
    requires Is6(R, st) && p.proto.Arp?
    ensures Forwards(R, 6, p, outs) <==> outs == ToPod(st, p)
  {
    var r := Pick6(R, st, p);
    Decides(R, 6, p, r, outs);
  }

  /** Table `t` holds the rows `T` and nothing else. */
  ghost predicate IsRows(R: set<Rule>, t: nat, T: seq<Rule>) {
    && (forall k :: 0 <= k < |T| ==> T[k] in R && T[k].table == t)
    && (forall r :: r in R && r.table == t ==> exists k :: 0 <= k < |T| && r == T[k])
  }

  /** In such a table the matching row of the highest priority decides. */
  lemma PickRow(R: set<Rule>, t: nat, T: seq<Rule>, p: Packet, k: nat)
    requires IsRows(R, t, T) && k < |T| && Matches(T[k].match_, p)
    requires forall j :: 0 <= j < |T| && Matches(T[j].match_, p) ==> j == k || T[j].priority < T[k].priority
    ensures Fires(R, t, p, T[k])
  {
  }

  /** The tables that hold fixed flows only. */
  function Rows(net: Net, t: nat): seq<Rule> {
    if t == 0 then Table0(net) else if t == 3 then Table3(net) else if t == 5 then Table5(net) else [Table9()]
  }

  lemma RowsAreFixed(net: Net, t: nat, r: Rule)
    requires t in {0, 3, 5, 9}
    ensures r in Rows(net, t) <==> r in FixedSet(net) && r.table == t
  {
    if r in FixedSet(net) {
      FixedByTable(net, r);
    }
    if r in Rows(net, t) {
      RowsTable(net, t, r);
    }
  }

  lemma RowsTable(net: Net, t: nat, r: Rule)
    requires t in {0, 3, 5, 9} && r in Rows(net, t)
    ensures r.table == t && r in FixedSet(net)
  {
    FixedHas(net);
  }

  lemma CompiledRows(net: Net, st: Node, t: nat)
    requires t in {0, 3, 5, 9}
    ensures IsRows(Compile(net, st), t, Rows(net, t))
  {
    forall r | r in Compile(net, st) && r.table == t
      ensures r in Rows(net, t)
    {
      TablesOf(net, st, r);
      RowsAreFixed(net, t, r);
    }
    forall r | r in Rows(net, t)
      ensures r in Compile(net, st) && r.table == t
    {
      RowsAreFixed(net, t, r);
    }
    RowsFromMembers(Compile(net, st), t, Rows(net, t));
  }

  lemma RowsFromMembers(R: set<Rule>, t: nat, T: seq<Rule>)
    requires forall r :: r in T ==> r in R && r.table == t
    requires forall r :: r in R && r.table == t ==> r in T
    ensures IsRows(R, t, T)
  {
  }

  lemma At9(R: set<Rule>, p: Packet, outs: seq<Emit>)
    requires IsRows(R, 9, [Table9()])
    ensures Forwards(R, 9, p, outs) <==> outs == Send(TUN, p)
  {
    PickRow(R, 9, [Table9()], p, 0);
    Decides(R, 9, p, Table9(), outs);
  }

  /** Which packets the routing rows match. */
  lemma Rows5(net: Net, p: Packet, k: nat)
    requires k < 8
    ensures Matches(Table5(net)[k].match_, p) <==>
            && KindMatches(if k == 6 || (k < 6 && k % 2 == 1) then IpKind else ArpKind, p.proto)
            && (k < 2 ==> p.dst == Gateway(net.local))
            && (2 <= k < 4 ==> InCidr(Some(net.local), p.dst))
            && (4 <= k < 6 ==> InCidr(Some(net.cluster), p.dst))
    ensures Table5(net)[k].priority == if k < 2 then 300 else if k < 4 then 200 else if k < 6 then 100 else 0
    ensures Table5(net)[k].actions ==
            if k < 2 then [Output(TUN)] else if k == 7 then [] else [Goto(if k < 4 then 4 + k else if k < 6 then 8 else 9)]
  {
    HostContains(Gateway(net.local), p.dst);
    var kind := if k == 6 || (k < 6 && k % 2 == 1) then IpKind else ArpKind;
    MatchesTo(kind, if k < 2 then Host(Gateway(net.local)) else if k < 4 then net.local else net.cluster, p);
  }

  /** The row that decides, by the packet's destination. */
  function Row5(net: Net, p: Packet): nat {
    if p.dst == Gateway(net.local) then (if p.IsIp() then 1 else 0)
    else if InCidr(Some(net.local), p.dst) then (if p.IsIp() then 3 else 2)
    else if InCidr(Some(net.cluster), p.dst) then (if p.IsIp() then 5 else 4)
    else (if p.IsIp() then 6 else 7)
  }

  lemma Beats5(net: Net, p: Packet, j: nat)
    requires (p.IsIp() || p.proto.Arp?) && j < 8 && Matches(Table5(net)[j].match_, p)
    ensures j == Row5(net, p) || Table5(net)[j].priority < Table5(net)[Row5(net, p)].priority
  {
    Rows5(net, p, j);
    Rows5(net, p, Row5(net, p));
  }

  /** The routing table picks by destination, the gateway before the networks it lies in. */
  lemma Pick5(R: set<Rule>, net: Net, p: Packet) returns (r: Rule)
    requires IsRows(R, 5, Table5(net)) && (p.IsIp() || p.proto.Arp?)
    ensures Fires(R, 5, p, r)
    ensures r.actions ==
            if p.dst == Gateway(net.local) then [Output(TUN)]
            else if InCidr(Some(net.local), p.dst) then [Goto(if p.IsIp() then 7 else 6)]
            else if InCidr(Some(net.cluster), p.dst) then [Goto(8)]
            else if p.IsIp() then [Goto(9)] else []
  {
    var k := Row5(net, p);
    Rows5(net, p, k);
    forall j | 0 <= j < 8 && Matches(Table5(net)[j].match_, p)
      ensures j == k || Table5(net)[j].priority < Table5(net)[k].priority
    {
      Beats5(net, p, j);
    }
    PickRow(R, 5, Table5(net), p, k);
    r := Table5(net)[k];
  }

  lemma At5(R: set<Rule>, net: Net, st: Node, p: Packet, outs: seq<Emit>)
    requires IsRows(R, 5, Table5(net)) && IsRows(R, 9, [Table9()]) && Is6(R, st) && Is7(R, st) && Is8(R, st) && Unambiguous(st)
    requires p.IsIp() || p.proto.Arp?
    ensures Forwards(R, 5, p, outs) <==> outs == Route(net, st, p)
  {
    var r := Pick5(R, net, p);
    Decides(R, 5, p, r, outs);
    if p.IsIp() {
      At7(R, st, p, outs);
      At9(R, p, outs);
    } else {
      At6(R, st, p, outs);
    }
    At8(R, st, p, outs);
  }

  ghost predicate IsService(services: map<SvcKey, set<uint32>>, r: Rule) {
    exists key, v :: key in services && v in services[key] && r == ServiceRule(key, v)
  }

  ghost predicate Is4(R: set<Rule>, st: Node) {
    && Table4()[0] in R && DropIn(4) in R
    && (forall key, v :: key in st.services && v in st.services[key] ==> ServiceRule(key, v) in R)
    && (forall r :: r in R && r.table == 4 ==> r == Table4()[0] || r == DropIn(4) || IsService(st.services, r))
  }

  lemma CompiledIs4(net: Net, st: Node)
    ensures Is4(Compile(net, st), st)
  {
    FixedHas(net);
    assert Table4()[0] in Table4() && Table4()[1] in Table4();
    forall r | r in Compile(net, st) && r.table == 4
      ensures r == Table4()[0] || r == DropIn(4) || IsService(st.services, r)
    {
      TablesOf(net, st, r);
      if r in FixedSet(net) {
        FixedByTable(net, r);
      }
    }
  }

  lemma MatchesService(key: SvcKey, v: uint32, p: Packet)
    ensures Matches(ServiceRule(key, v).match_, p) <==> Addresses(p, key) && (v == 0 || v == p.reg0)
  {
    HostContains(key.ip, p.dst);
    MatchesTo(if key.proto == TCP then TcpKind else UdpKind, Host(key.ip), p);
  }

  lemma Pick4(R: set<Rule>, st: Node, p: Packet) returns (r: Rule)
    requires Is4(R, st)
    ensures Fires(R, 4, p, r)
    ensures r.actions == if p.reg0 == 0 || ServiceOpen(st, p) then [Output(TUN)] else []
  {
    r := DropIn(4);
    if p.reg0 == 0 {
      r := Table4()[0];
    } else if ServiceOpen(st, p) {
      var key, v :| key in st.services && Addresses(p, key) && v in st.services[key] && (v == p.reg0 || v == 0);
      r := ServiceRule(key, v);
      MatchesService(key, v, p);
    }
    forall other | other in R && other.table == 4 && Matches(other.match_, p) && other != DropIn(4)
      ensures p.reg0 == 0 || ServiceOpen(st, p)
      ensures other.actions == [Output(TUN)] && other.priority == (if other == Table4()[0] then 200 else 100)
      ensures other == Table4()[0] ==> p.reg0 == 0
    {
      if other != Table4()[0] {
        var key, v :| key in st.services && v in st.services[key] && other == ServiceRule(key, v);
        MatchesService(key, v, p);
      }
    }
  }

  /** To a service. */
  lemma At4(R: set<Rule>, st: Node, p: Packet, outs: seq<Emit>)
    requires Is4(R, st)
    ensures Forwards(R, 4, p, outs) <==> outs == ToService(st, p)
  {
    var r := Pick4(R, st, p);
    Decides(R, 4, p, r, outs);
  }

  /** Services and the rest. */
  lemma Pick3(R: set<Rule>, net: Net, p: Packet) returns (r: Rule)
    requires IsRows(R, 3, Table3(net)) && p.IsIp()
    ensures Fires(R, 3, p, r)
    ensures r.actions == [Goto(if InCidr(Some(net.service), p.dst) then 4 else 5)]
  {
    MatchesTo(IpKind, net.service, p);
    var k := if InCidr(Some(net.service), p.dst) then 0 else 1;
    PickRow(R, 3, Table3(net), p, k);
    r := Table3(net)[k];
  }

  /** The tables a container's packet may visit after table 2. */
  ghost predicate Inner(R: set<Rule>, net: Net, st: Node) {
    && IsRows(R, 3, Table3(net)) && IsRows(R, 5, Table5(net)) && IsRows(R, 9, [Table9()])
    && Is4(R, st) && Is6(R, st) && Is7(R, st) && Is8(R, st)
  }

  lemma At3(R: set<Rule>, net: Net, st: Node, p: Packet, outs: seq<Emit>)
    requires Inner(R, net, st) && Unambiguous(st) && p.IsIp()
    ensures Forwards(R, 3, p, outs) <==>
            outs == if InCidr(Some(net.service), p.dst) then ToService(st, p) else Route(net, st, p)
  {
    var r := Pick3(R, net, p);
    Decides(R, 3, p, r, outs);
    At4(R, st, p, outs);
    At5(R, net, st, p, outs);
  }

  ghost predicate IsPodOut(pods: map<uint32, Pod>, r: Rule) {
    exists ip :: ip in pods && (r == PodArpOut(ip, pods[ip]) || r == PodIpOut(ip, pods[ip]))
  }

  ghost predicate Is2(R: set<Rule>, st: Node) {
    && DropIn(2) in R
    && (forall ip :: ip in st.pods ==> PodArpOut(ip, st.pods[ip]) in R && PodIpOut(ip, st.pods[ip]) in R)
    && (forall r :: r in R && r.table == 2 ==> r == DropIn(2) || IsPodOut(st.pods, r))
  }

  lemma CompiledIs2(net: Net, st: Node)
    ensures Is2(Compile(net, st), st)
  {
    FixedHas(net);
    forall ip | ip in st.pods
      ensures PodArpOut(ip, st.pods[ip]) in Compile(net, st) && PodIpOut(ip, st.pods[ip]) in Compile(net, st)
    {
      PodHas(st.pods, ip);
    }
    forall r | r in Compile(net, st) && r.table == 2
      ensures r == DropIn(2) || IsPodOut(st.pods, r)
    {
      TablesOf(net, st, r);
      if r in FixedSet(net) {
        FixedByTable(net, r);
      } else {
        PodByTable(st.pods, r);
      }
    }
  }

  lemma MatchesPodOut(ip: uint32, pod: Pod, p: Packet)
    ensures Matches(PodArpOut(ip, pod).match_, p) <==>
            p.proto.Arp? && p.inPort == pod.port && p.src == ip && p.sha == pod.mac
    ensures Matches(PodIpOut(ip, pod).match_, p) <==> p.IsIp() && p.inPort == pod.port && p.src == ip
  {
    HostContains(ip, p.src);
  }

  lemma Pick2(R: set<Rule>, st: Node, p: Packet) returns (r: Rule)
    requires Is2(R, st)
    ensures Fires(R, 2, p, r)
    ensures r.actions == if Genuine(st, p) then [LoadReg(st.pods[p.src].vnid), Goto(if p.IsIp() then 3 else 5)] else []
  {
    r := DropIn(2);
    if Genuine(st, p) {
      var pod := st.pods[p.src];
      r := if p.IsIp() then PodIpOut(p.src, pod) else PodArpOut(p.src, pod);
      MatchesPodOut(p.src, pod, p);
    }
    forall other | other in R && other.table == 2 && Matches(other.match_, p) && other != DropIn(2)
      ensures Genuine(st, p)
      ensures other == if p.IsIp() then PodIpOut(p.src, st.pods[p.src]) else PodArpOut(p.src, st.pods[p.src])
    {
      var ip :| ip in st.pods && (other == PodArpOut(ip, st.pods[ip]) || other == PodIpOut(ip, st.pods[ip]));
      MatchesPodOut(ip, st.pods[ip], p);
    }
  }

  lemma GenuineIp(R: set<Rule>, net: Net, st: Node, p: Packet, r: Rule, outs: seq<Emit>)
    requires Inner(R, net, st) && Unambiguous(st) && Genuine(st, p) && p.IsIp()
    requires Fires(R, 2, p, r) && r.actions == [LoadReg(st.pods[p.src].vnid), Goto(3)]
    ensures Forwards(R, 2, p, outs) <==> outs == FromPod(net, st, p)
  {
    DecidesLoad(R, 2, p, r, LoadReg(st.pods[p.src].vnid), 3, outs);
    At3(R, net, st, p.(reg0 := st.pods[p.src].vnid), outs);
  }

  lemma GenuineArp(R: set<Rule>, net: Net, st: Node, p: Packet, r: Rule, outs: seq<Emit>)
    requires Inner(R, net, st) && Unambiguous(st) && Genuine(st, p) && p.proto.Arp?
    requires Fires(R, 2, p, r) && r.actions == [LoadReg(st.pods[p.src].vnid), Goto(5)]
    ensures Forwards(R, 2, p, outs) <==> outs == FromPod(net, st, p)
  {
    DecidesLoad(R, 2, p, r, LoadReg(st.pods[p.src].vnid), 5, outs);
    At5(R, net, st, p.(reg0 := st.pods[p.src].vnid), outs);
  }

  /** From a container. */
  lemma At2(R: set<Rule>, net: Net, st: Node, p: Packet, outs: seq<Emit>)
    requires Is2(R, st) && Inner(R, net, st) && Unambiguous(st)
    ensures Forwards(R, 2, p, outs) <==> outs == FromPod(net, st, p)
  {
    var r := Pick2(R, st, p);
    if !Genuine(st, p) {
      Decides(R, 2, p, r, outs);
    } else if p.IsIp() {
      GenuineIp(R, net, st, p, r, outs);
    } else {
      GenuineArp(R, net, st, p, r, outs);
    }
  }

  ghost predicate Is1(R: set<Rule>, st: Node) {
    && DropIn(1) in R
    && (forall host :: host in st.tunnels ==> TunnelRule(host) in R)
    && (forall r :: r in R && r.table == 1 ==> r == DropIn(1) || exists host :: host in st.tunnels && r == TunnelRule(host))
  }

  lemma CompiledIs1(net: Net, st: Node)
    ensures Is1(Compile(net, st), st)
  {
    FixedHas(net);
    forall r | r in Compile(net, st) && r.table == 1
      ensures r == DropIn(1) || exists host :: host in st.tunnels && r == TunnelRule(host)
    {
      TablesOf(net, st, r);
      if r in FixedSet(net) {
        FixedByTable(net, r);
      }
    }
  }

  lemma Pick1(R: set<Rule>, st: Node, p: Packet) returns (r: Rule)
    requires Is1(R, st)
    ensures Fires(R, 1, p, r)
    ensures r.actions == if p.tunSrc in st.tunnels then [Goto(5)] else []
  {
    r := if p.tunSrc in st.tunnels then TunnelRule(p.tunSrc) else DropIn(1);
  }

  /** From a tunnel, once the tenant is read from the tunnel key. */
  lemma At1(R: set<Rule>, net: Net, st: Node, p: Packet, outs: seq<Emit>)
    requires Is1(R, st) && Inner(R, net, st) && Unambiguous(st) && (p.IsIp() || p.proto.Arp?)
    ensures Forwards(R, 1, p, outs) <==> outs == if p.tunSrc in st.tunnels then Route(net, st, p) else []
  {
    var r := Pick1(R, st, p);
    Decides(R, 1, p, r, outs);
    At5(R, net, st, p, outs);
  }

  /** Which packets the dispatch rows match. */
  ghost predicate Dispatched(net: Net, p: Packet, k: nat) {
    match k
    case 0 => p.inPort == VXLAN && p.proto.Arp? && Inbound(net, p)
    case 1 => p.inPort == VXLAN && p.IsIp() && Inbound(net, p)
    case 2 => p.inPort == VXLAN
    case 3 => p.inPort == TUN && p.proto.Arp? && Outbound(net, p)
    case 4 => p.inPort == TUN && p.IsIp()
    case 5 => p.inPort == TUN
    case 6 => p.proto.Arp?
    case 7 => p.IsIp()
    case _ => true
  }

  lemma Rows0(net: Net, p: Packet, k: nat)
    requires k < 9
    ensures Matches(Table0(net)[k].match_, p) <==> Dispatched(net, p, k)
    ensures Table0(net)[k].priority ==
            match k case 2 => 150 case 5 => 150 case 6 => 100 case 7 => 100 case 8 => 0 case _ => 200
    ensures Table0(net)[k].actions ==
            if k <= 1 then [MoveTunToReg, Goto(1)] else if 3 <= k <= 4 then [Goto(5)]
            else if 6 <= k <= 7 then [Goto(2)] else []
  {
    HostContains(Gateway(net.local), p.src);
  }

  /** The row that decides. */
  ghost function Row0(net: Net, p: Packet): nat {
    if p.inPort == VXLAN then (if !Inbound(net, p) then 2 else if p.IsIp() then 1 else 0)
    else if p.inPort == TUN then (if !Outbound(net, p) then 5 else if p.IsIp() then 4 else 3)
    else if p.proto.Arp? then 6 else if p.IsIp() then 7 else 8
  }

  lemma Pick0(R: set<Rule>, net: Net, p: Packet) returns (r: Rule)
    requires IsRows(R, 0, Table0(net))
    ensures Fires(R, 0, p, r)
    ensures r.actions ==
            if p.inPort == VXLAN then (if Inbound(net, p) then [MoveTunToReg, Goto(1)] else [])
            else if p.inPort == TUN then (if Outbound(net, p) then [Goto(5)] else [])
            else if p.IsIp() || p.proto.Arp? then [Goto(2)] else []
  {
    var k := Row0(net, p);
    Rows0(net, p, k);
    forall j | 0 <= j < 9 && Matches(Table0(net)[j].match_, p)
      ensures j == k || Table0(net)[j].priority < Table0(net)[k].priority
    {
      Beats0(net, p, j);
    }
    PickRow(R, 0, Table0(net), p, k);
    r := Table0(net)[k];
  }

  lemma Beats0(net: Net, p: Packet, j: nat)
    requires j < 9 && Matches(Table0(net)[j].match_, p)
    ensures j == Row0(net, p) || Table0(net)[j].priority < Table0(net)[Row0(net, p)].priority
  {
    Rows0(net, p, j);
    Rows0(net, p, Row0(net, p));
  }

  ghost predicate Tables(R: set<Rule>, net: Net, st: Node) {
    IsRows(R, 0, Table0(net)) && Is1(R, st) && Is2(R, st) && Inner(R, net, st)
  }

  lemma CompiledTables(net: Net, st: Node)
    ensures Tables(Compile(net, st), net, st)
  {
    CompiledRows(net, st, 0);
    CompiledRows(net, st, 3);
    CompiledRows(net, st, 5);
    CompiledRows(net, st, 9);
    CompiledIs1(net, st);
    CompiledIs2(net, st);
    CompiledIs4(net, st);
    CompiledIs6(net, st);
    CompiledIs7(net, st);
    CompiledIs8(net, st);
  }

  lemma At0(R: set<Rule>, net: Net, st: Node, p: Packet, outs: seq<Emit>)
    requires Tables(R, net, st) && Unambiguous(st)
    ensures Forwards(R, 0, p, outs) <==> outs == Verdict(net, st, p)
  {
    var r := Pick0(R, net, p);
    Decides(R, 0, p, r, outs);
    if p.inPort == VXLAN {
      if Inbound(net, p) {
        DecidesLoad(R, 0, p, r, MoveTunToReg, 1, outs);
        At1(R, net, st, p.(reg0 := p.tunId), outs);
      }
    } else if p.inPort == TUN {
      if Outbound(net, p) {
        At5(R, net, st, p, outs);
      }
    } else {
      At2(R, net, st, p, outs);
    }
  }

  /** The pipeline theorem: whatever flow the switch picks where several match, a packet meets
      exactly the fate the policy gives it. */
  lemma FlowsImplementPolicy(net: Net, st: Node, p: Packet, outs: seq<Emit>)
    requires Unambiguous(st)
    ensures Forwards(Compile(net, st), 0, p, outs) <==> outs == Verdict(net, st, p)
  {
    CompiledTables(net, st);
    At0(Compile(net, st), net, st, p, outs);
  }

  // ---------------------------------------------------------------- shape of the flows

  predicate GoesForward(r: Rule) {
    forall i :: 0 <= i < |r.actions| && r.actions[i].Goto? ==> r.table < r.actions[i].to <= 9
  }

  lemma FixedGoForward(net: Net, r: Rule)
    requires r in FixedSet(net)
    ensures GoesForward(r)
  {
    FixedByTable(net, r);
    if r.table == 0 {
      var k :| 0 <= k < 9 && r == Table0(net)[k];
      Rows0(net, Packet(0, Arp, 0, 0, 0, 0, 0, 0, 0, 0), k);
    } else if r.table == 5 {
      var k :| 0 <= k < 8 && r == Table5(net)[k];
      Rows5(net, Packet(0, Arp, 0, 0, 0, 0, 0, 0, 0, 0), k);
    } else if r.table != 3 && r.table != 4 {
      assert r == Table9() || r == DropIn(r.table) || r.table == 253;
      if r.table == 253 {
        NoteOnly(net, r);
      }
    }
  }

  lemma NoteOnly(net: Net, r: Rule)
    requires r in FixedSet(net) && r.table == 253
    ensures r == VersionNote(net)
  {
  }

  lemma PodsGoForward(pods: map<uint32, Pod>, r: Rule)
    requires r in PodSet(pods)
    ensures GoesForward(r)
  {
    PodByTable(pods, r);
  }

  /** Every goto leads to a later table, so no packet loops. */
  lemma GotosIncrease(net: Net, st: Node, r: Rule)
    requires r in Compile(net, st)
    ensures GoesForward(r)
  {
    if r in FixedSet(net) {
      FixedGoForward(net, r);
    } else if r in PodSet(st.pods) {
      PodsGoForward(st.pods, r);
    } else if r in RouteSet(st.routes) {
      var c :| c in st.routes && (r == RouteRule(ArpKind, c, st.routes[c]) || r == RouteRule(IpKind, c, st.routes[c]));
    } else if r in TunnelSet(st.tunnels) {
      var host :| host in st.tunnels && r == TunnelRule(host);
    } else {
      var key, v :| key in st.services && v in st.services[key] && r == ServiceRule(key, v);
    }
  }

  /** Two routes to different hosts for one address: the switch may send the packet to either. */
  lemma OverlapIsAmbiguous(net: Net, st: Node, c: Cidr, p: Packet)
    requires c in st.routes && InCidr(Some(c), p.dst) && p.IsIp() && p.inPort != VXLAN
    ensures Forwards(Compile(net, st), 8, p, [Emit(VXLAN, p.(tunId := p.reg0, tunDst := st.routes[c]))])
  {
    var R := Compile(net, st);
    CompiledIs8(net, st);
    var r := RouteRule(IpKind, c, st.routes[c]);
    MatchesTo(IpKind, c, p);
    forall other | other in R && other.table == 8
      ensures other.priority <= 100
    {
      if other != DropIn(8) {
        assert IsRoute(st.routes, other);
      }
    }
    assert Selects(R, 8, p, r);
    ExecuteTunnel(st.routes[c], p);
    assert Follows(R, 8, Execute(r.actions, p), [Emit(VXLAN, p.(tunId := p.reg0, tunDst := st.routes[c]))]);
  }

  lemma OverlapDiverges(net: Net, st: Node, c: Cidr, d: Cidr, ip: uint32) returns (p: Packet, a: seq<Emit>, b: seq<Emit>)
    requires c in st.routes && d in st.routes && st.routes[c] != st.routes[d]
    requires InCidr(Some(c), ip) && InCidr(Some(d), ip)
    ensures p.IsIp() && a != b
    ensures Forwards(Compile(net, st), 8, p, a) && Forwards(Compile(net, st), 8, p, b)
  {
    p := Packet(TUN, OtherIp, 0, ip, 0, 0, 0, 0, 0, 0);
    a := [Emit(VXLAN, p.(tunId := p.reg0, tunDst := st.routes[c]))];
    b := [Emit(VXLAN, p.(tunId := p.reg0, tunDst := st.routes[d]))];
    assert a[0].packet.tunDst != b[0].packet.tunDst;
    OverlapIsAmbiguous(net, st, c, p);
    OverlapIsAmbiguous(net, st, d, p);
  }

  lemma OneRouting(net: Net, st: Node, p: Packet, a: seq<Emit>, b: seq<Emit>)
    requires Unambiguous(st) && p.IsIp()
    requires Forwards(Compile(net, st), 8, p, a) && Forwards(Compile(net, st), 8, p, b)
    ensures a == b
  {
    CompiledIs8(net, st);
    At8(Compile(net, st), st, p, a);
    At8(Compile(net, st), st, p, b);
  }

  /** Table 8 may do two things with the packet. */
  ghost predicate Diverges(R: set<Rule>, p: Packet) {
    exists a, b :: Forwards(R, 8, p, a) && Forwards(R, 8, p, b) && a != b
  }

  /** Routing to other nodes has one outcome for every packet if and only if no address has routes to
      two hosts. */
  lemma DeterministicIff(net: Net, st: Node)
    ensures Unambiguous(st) <==> forall p: Packet :: p.IsIp() ==> !Diverges(Compile(net, st), p)
  {
    if Unambiguous(st) {
      forall p: Packet | p.IsIp()
        ensures !Diverges(Compile(net, st), p)
      {
        forall a, b | Forwards(Compile(net, st), 8, p, a) && Forwards(Compile(net, st), 8, p, b)
          ensures a == b
        {
          OneRouting(net, st, p, a, b);
        }
      }
    } else {
      var c, d, ip: uint32 :| c in st.routes && d in st.routes && InCidr(Some(c), ip) && InCidr(Some(d), ip)
        && st.routes[c] != st.routes[d];
      var p, a, b := OverlapDiverges(net, st, c, d, ip);
      assert Diverges(Compile(net, st), p);
    }
  }
}
