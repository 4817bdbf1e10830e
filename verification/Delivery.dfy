/** Packets between pods: over one bridge, and over two joined by VXLAN. */
module Delivery {
  import opened Prelude
  import opened Word32
  import opened Cidrs
  import opened OpenFlow
  import opened NodeFlows
  import opened Pipeline

  // ---------------------------------------------------------------- addresses

  lemma GatewayInside(local: Cidr)
    requires local.Valid() && local.len < 32
    ensures InCidr(Some(local), Gateway(local))
    ensures Gateway(local) == local.addr + 1
  {
    var half := Pow2(31 - local.len);
    var blocks := local.addr / (2 * half);
    DivModIdentity(local.addr, 2 * half);
    assert local.addr == 2 * (half * blocks);
    ContainsIsRange(local, Gateway(local));
  }

  lemma InsideWider(c: Cidr, wider: Cidr, ip: uint32)
    requires CidrWithin(c, wider) && InCidr(Some(c), ip)
    ensures InCidr(Some(wider), ip)
  {
    CidrWithinIsSubset(c, wider, ip);
  }

  lemma NotBoth(net: Net, ip: uint32)
    requires net.Valid() && InCidr(Some(net.cluster), ip)
    ensures !InCidr(Some(net.service), ip)
  {
  }

  // ---------------------------------------------------------------- one bridge

  /** Addresses and ports of a node's pods. */
  ghost predicate PodsOk(net: Net, st: Node) {
    && (forall ip :: ip in st.pods ==>
          && InCidr(Some(net.local), ip) && ip != Gateway(net.local)
          && st.pods[ip].port != VXLAN && st.pods[ip].port != TUN)
    && (forall a, b :: a in st.pods && b in st.pods && st.pods[a].port == st.pods[b].port ==> a == b)
  }

  /** A pod sends an IP packet under its own address. */
  predicate SentBy(pods: map<uint32, Pod>, a: uint32, p: Packet) {
    a in pods && p.inPort == pods[a].port && p.src == a && p.IsIp()
  }

  /** Between two pods of one node: exactly to the receiver's port, exactly when their tenants may
      talk. */
  lemma LocalDelivery(net: Net, st: Node, a: uint32, b: uint32, p: Packet, outs: seq<Emit>)
    requires net.Valid() && PodsOk(net, st) && Unambiguous(st)
    requires SentBy(st.pods, a, p) && b in st.pods && a != b && p.dst == b
    ensures Forwards(Compile(net, st), 0, p, outs) <==>
            outs == if Permitted(st.pods[a].vnid, st.pods[b].vnid)
                    then [Emit(st.pods[b].port, p.(reg0 := st.pods[a].vnid))] else []
  {
    FlowsImplementPolicy(net, st, p, outs);
    InsideWider(net.local, net.cluster, b);
    NotBoth(net, b);
  }

  /** A packet from a container port under another address, ARP under another MAC, or anything but IP and
      ARP is dropped. */
  lemma SpoofingIsDropped(net: Net, st: Node, p: Packet, outs: seq<Emit>)
    requires Unambiguous(st) && p.inPort != VXLAN && p.inPort != TUN
    requires || p.src !in st.pods || st.pods[p.src].port != p.inPort || (p.proto.Arp? && st.pods[p.src].mac != p.sha)
             || (!p.IsIp() && !p.proto.Arp?)
    ensures Forwards(Compile(net, st), 0, p, outs) <==> outs == []
  {
    FlowsImplementPolicy(net, st, p, outs);
  }

  /** Tunnel traffic ends here: on the node itself or at the pod addressed, never at another node. What is
      not from the cluster, for this node's subnet and from a known host is dropped. */
  lemma TunnelTrafficEndsHere(net: Net, st: Node, p: Packet, outs: seq<Emit>)
    requires net.Valid() && Unambiguous(st) && p.inPort == VXLAN
    ensures Forwards(Compile(net, st), 0, p, outs) <==>
            outs == if !(p.IsIp() || p.proto.Arp?) || !InCidr(Some(net.cluster), p.src)
                       || !InCidr(Some(net.local), p.dst) || p.tunSrc !in st.tunnels then []
                    else if p.dst == Gateway(net.local) then [Emit(TUN, p.(reg0 := p.tunId))]
                    else if p.dst in st.pods && (p.proto.Arp? || Permitted(p.tunId, st.pods[p.dst].vnid))
                    then Send(st.pods[p.dst].port, p.(reg0 := p.tunId)) else []
    ensures Forwards(Compile(net, st), 0, p, outs) ==> forall i :: 0 <= i < |outs| ==> outs[i].port != VXLAN
  {
    FlowsImplementPolicy(net, st, p, outs);
  }

  /** Of the node's own packets that are not IP only ARP from the gateway's address into the cluster goes
      anywhere. */
  lemma OtherNodeTrafficIsDropped(net: Net, st: Node, p: Packet, outs: seq<Emit>)
    requires Unambiguous(st) && p.inPort == TUN && !p.IsIp()
    requires !p.proto.Arp? || p.src != Gateway(net.local) || !InCidr(Some(net.cluster), p.dst)
    ensures Forwards(Compile(net, st), 0, p, outs) <==> outs == []
  {
    FlowsImplementPolicy(net, st, p, outs);
  }

  /** A pod's packet to an address of the cluster that is neither the gateway's, nor a pod's of this node,
      nor in another node's subnet is dropped. */
  lemma NobodyThere(net: Net, st: Node, a: uint32, p: Packet, outs: seq<Emit>)
    requires net.Valid() && PodsOk(net, st) && Unambiguous(st) && SentBy(st.pods, a, p)
    requires InCidr(Some(net.cluster), p.dst) && p.dst != Gateway(net.local) && p.dst !in st.pods
    requires forall c :: c in st.routes ==> !InCidr(Some(c), p.dst)
    ensures Forwards(Compile(net, st), 0, p, outs) <==> outs == []
  {
    FlowsImplementPolicy(net, st, p, outs);
    NotBoth(net, p.dst);
    var q := p.(reg0 := st.pods[a].vnid);
    assert !Routed(st, q.dst) && Route(net, st, q) == [];
  }

  /** A pod's packet into the service network goes to the node if the pod is of tenant 0 or the port is open
      to its tenant or to all, and is dropped otherwise, for unknown ports too. */
  lemma ServicePorts(net: Net, st: Node, a: uint32, p: Packet, outs: seq<Emit>)
    requires net.Valid() && PodsOk(net, st) && Unambiguous(st)
    requires SentBy(st.pods, a, p) && InCidr(Some(net.service), p.dst)
    ensures var v := st.pods[a].vnid;
      Forwards(Compile(net, st), 0, p, outs) <==>
      outs == if v == 0 || (exists key :: key in st.services && Addresses(p, key) && (v in st.services[key] || 0 in st.services[key]))
              then [Emit(TUN, p.(reg0 := v))] else []
  {
    FlowsImplementPolicy(net, st, p, outs);
    var q := p.(reg0 := st.pods[a].vnid);
    assert forall k :: Addresses(q, k) <==> Addresses(p, k);
  }

  /** A pod reaches a service exactly when one of them is of tenant 0 or they are of one tenant. */
  lemma ServiceReachability(net: Net, st: Node, a: uint32, key: SvcKey, owner: uint32, p: Packet, outs: seq<Emit>)
    requires net.Valid() && PodsOk(net, st) && Unambiguous(st)
    requires SentBy(st.pods, a, p) && InCidr(Some(net.service), p.dst)
    requires Addresses(p, key) && key in st.services && st.services[key] == {owner}
    ensures Forwards(Compile(net, st), 0, p, outs) <==>
            outs == if Permitted(st.pods[a].vnid, owner) then [Emit(TUN, p.(reg0 := st.pods[a].vnid))] else []
  {
    FlowsImplementPolicy(net, st, p, outs);
    var q := p.(reg0 := st.pods[a].vnid);
    assert Addresses(q, key);
    assert forall k :: Addresses(q, k) ==> k == key;
    if ServiceOpen(st, q) {
      var k, v :| k in st.services && Addresses(q, k) && v in st.services[k] && (v == q.reg0 || v == 0);
      assert v == owner;
    } else {
      assert owner in st.services[key];
    }
  }

  /** A pod sends ARP under its own address and hardware address. */
  predicate AsksFrom(pods: map<uint32, Pod>, a: uint32, p: Packet) {
    a in pods && p.inPort == pods[a].port && p.src == a && p.proto.Arp? && p.sha == pods[a].mac
  }

  /** A pod's packet to the gateway goes to the node. */
  lemma GatewayReachability(net: Net, st: Node, a: uint32, p: Packet, outs: seq<Emit>)
    requires net.Valid() && PodsOk(net, st) && Unambiguous(st)
    requires (SentBy(st.pods, a, p) || AsksFrom(st.pods, a, p)) && p.dst == Gateway(net.local)
    ensures Forwards(Compile(net, st), 0, p, outs) <==> outs == [Emit(TUN, p.(reg0 := st.pods[a].vnid))]
  {
    FlowsImplementPolicy(net, st, p, outs);
    GatewayInside(net.local);
    InsideWider(net.local, net.cluster, p.dst);
    NotBoth(net, p.dst);
  }

  /** What a pod sends out of the cluster leaves through the node; its ARP does not. */
  lemma OutsideReachability(net: Net, st: Node, a: uint32, p: Packet, outs: seq<Emit>)
    requires net.Valid() && PodsOk(net, st) && Unambiguous(st)
    requires SentBy(st.pods, a, p) || AsksFrom(st.pods, a, p)
    requires !InCidr(Some(net.cluster), p.dst) && !InCidr(Some(net.service), p.dst)
    ensures Forwards(Compile(net, st), 0, p, outs) <==>
            outs == if p.IsIp() then [Emit(TUN, p.(reg0 := st.pods[a].vnid))] else []
  {
    FlowsImplementPolicy(net, st, p, outs);
    GatewayInside(net.local);
    forall ip: uint32 | InCidr(Some(net.local), ip)
      ensures InCidr(Some(net.cluster), ip)
    {
      InsideWider(net.local, net.cluster, ip);
    }
  }

  /** The node itself, which has no tenant, reaches every pod on it, with ARP from the gateway's address ... */
  lemma NodeReachesPods(net: Net, st: Node, b: uint32, p: Packet, outs: seq<Emit>)
    requires net.Valid() && PodsOk(net, st) && Unambiguous(st)
    requires p.inPort == TUN && p.reg0 == 0 && b in st.pods && p.dst == b
    requires p.IsIp() || (p.proto.Arp? && p.src == Gateway(net.local))
    ensures Forwards(Compile(net, st), 0, p, outs) <==> outs == [Emit(st.pods[b].port, p)]
  {
    FlowsImplementPolicy(net, st, p, outs);
    InsideWider(net.local, net.cluster, b);
  }

  /** ... and sends what is for another node's subnet into the tunnel to that node, under key 0. */
  lemma NodeReachesNodes(net: Net, st: Node, c: Cidr, p: Packet, outs: seq<Emit>)
    requires net.Valid() && Unambiguous(st)
    requires p.inPort == TUN && p.IsIp() && p.reg0 == 0
    requires c in st.routes && InCidr(Some(c), p.dst) && InCidr(Some(net.cluster), p.dst) && !InCidr(Some(net.local), p.dst)
    ensures Forwards(Compile(net, st), 0, p, outs) <==>
            outs == [Emit(VXLAN, p.(tunId := 0, tunDst := st.routes[c]))]
  {
    FlowsImplementPolicy(net, st, p, outs);
    GatewayInside(net.local);
  }

  /** ARP between pods is not isolated: on one node it reaches the pod asked for, whatever the tenants. */
  lemma ArpReachesPods(net: Net, st: Node, a: uint32, b: uint32, p: Packet, outs: seq<Emit>)
    requires net.Valid() && PodsOk(net, st) && Unambiguous(st)
    requires AsksFrom(st.pods, a, p) && b in st.pods && a != b && p.dst == b
    ensures Forwards(Compile(net, st), 0, p, outs) <==> outs == [Emit(st.pods[b].port, p.(reg0 := st.pods[a].vnid))]
  {
    FlowsImplementPolicy(net, st, p, outs);
  }

  // ---------------------------------------------------------------- two bridges

  /** A VXLAN network identifier has 24 bits (section 5 of RFC 7348). */
  const VNI_VALUES := 0x100_0000

  datatype Host = Host(net: Net, node: Node)

  /** The nodes by host address. */
  type World = map<uint32, Host>

  /** The packet as the tunnel's far end receives it. */
  function Wire(sender: uint32, p: Packet): Packet {
    p.(inPort := VXLAN, tunSrc := sender, tunId := p.tunId % VNI_VALUES, reg0 := 0)
  }

  datatype Arrival = Arrival(host: uint32, port: nat)

  /** Entering host `h` as `p`, the packet may leave the SDN at `end` after at most `hops` tunnels. */
  ghost predicate Arrives(world: World, hops: nat, h: uint32, p: Packet, end: Arrival)
    decreases hops
  {
    exists outs, i :: Outcome(world, h, p, outs) && 0 <= i < |outs| && Continues(world, hops, h, outs[i], end)
  }

  /** Host `h` may turn `p` into `outs`. */
  ghost predicate Outcome(world: World, h: uint32, p: Packet, outs: seq<Emit>) {
    h in world && Forwards(Compile(world[h].net, world[h].node), 0, p, outs)
  }

  ghost predicate Continues(world: World, hops: nat, h: uint32, e: Emit, end: Arrival)
    decreases hops, 0
  {
    if e.port == VXLAN
    then hops > 0 && Arrives(world, hops - 1, e.packet.tunDst, Wire(h, e.packet), end)
    else end == Arrival(h, e.port)
  }

  /** Every node is set up for the same cluster; subnets are disjoint; tenants fit the tunnel key; and
      every node has the tunnel and the route of every other. */
  ghost predicate HostOk(h: Host) {
    && h.net.Valid() && PodsOk(h.net, h.node) && Unambiguous(h.node)
    && forall ip :: ip in h.node.pods ==> h.node.pods[ip].vnid < VNI_VALUES
  }

  ghost predicate Linked(world: World, a: uint32, b: uint32)
    requires a in world && b in world
  {
    && world[a].net.cluster == world[b].net.cluster
    && world[b].net.local in world[a].node.routes && world[a].node.routes[world[b].net.local] == b
    && b in world[a].node.tunnels
    && forall ip: uint32 :: !(InCidr(Some(world[a].net.local), ip) && InCidr(Some(world[b].net.local), ip))
  }

  ghost predicate WorldOk(world: World) {
    && (forall h :: h in world ==> HostOk(world[h]))
    && (forall a, b :: a in world && b in world && a != b ==> Linked(world, a, b))
  }

  lemma FateDecides(world: World, hops: nat, h: uint32, p: Packet, fate: seq<Emit>, end: Arrival)
    requires |fate| <= 1 && Arrives(world, hops, h, p, end)
    requires forall outs :: Outcome(world, h, p, outs) ==> outs == fate
    ensures fate != [] && Continues(world, hops, h, fate[0], end)
  {
    var outs, i :| Outcome(world, h, p, outs) && 0 <= i < |outs| && Continues(world, hops, h, outs[i], end);
    assert outs == fate && i == 0;
  }

  lemma FateArrives(world: World, hops: nat, h: uint32, p: Packet, fate: seq<Emit>, end: Arrival)
    requires Outcome(world, h, p, fate) && fate != [] && Continues(world, hops, h, fate[0], end)
    ensures Arrives(world, hops, h, p, end)
  {
  }

  /** When a packet has one fate, that fate decides where it may arrive. */
  lemma OneFate(world: World, hops: nat, h: uint32, p: Packet, fate: seq<Emit>, end: Arrival)
    requires |fate| <= 1
    requires forall outs :: Outcome(world, h, p, outs) <==> outs == fate
    ensures Arrives(world, hops, h, p, end) <==> fate != [] && Continues(world, hops, h, fate[0], end)
  {
    if Arrives(world, hops, h, p, end) {
      FateDecides(world, hops, h, p, fate, end);
    } else if fate != [] && Continues(world, hops, h, fate[0], end) {
      FateArrives(world, hops, h, p, fate, end);
    }
  }

  lemma SameHost(world: World, hops: nat, h: uint32, a: uint32, b: uint32, p: Packet, end: Arrival)
    requires WorldOk(world) && h in world
    requires SentBy(world[h].node.pods, a, p) && b in world[h].node.pods && a != b && p.dst == b
    ensures Arrives(world, hops, h, p, end) <==>
            Permitted(world[h].node.pods[a].vnid, world[h].node.pods[b].vnid)
            && end == Arrival(h, world[h].node.pods[b].port)
  {
    var net, st := world[h].net, world[h].node;
    var fate := if Permitted(st.pods[a].vnid, st.pods[b].vnid)
                then [Emit(st.pods[b].port, p.(reg0 := st.pods[a].vnid))] else [];
    forall outs
      ensures Outcome(world, h, p, outs) <==> outs == fate
    {
      LocalDelivery(net, st, a, b, p, outs);
    }
    OneFate(world, hops, h, p, fate, end);
  }

  /** The sender's half: one packet into the tunnel to the receiver's node, keyed with its tenant. */
  lemma SenderHalf(world: World, ha: uint32, hb: uint32, a: uint32, b: uint32, p: Packet, outs: seq<Emit>)
    requires WorldOk(world) && ha in world && hb in world && ha != hb
    requires SentBy(world[ha].node.pods, a, p) && b in world[hb].node.pods && p.dst == b
    ensures var v := world[ha].node.pods[a].vnid;
      Forwards(Compile(world[ha].net, world[ha].node), 0, p, outs) <==>
      outs == [Emit(VXLAN, p.(reg0 := v, tunId := v, tunDst := hb))]
  {
    var net, st := world[ha].net, world[ha].node;
    var far := world[hb].net;
    assert HostOk(world[ha]) && HostOk(world[hb]) && Linked(world, ha, hb);
    FlowsImplementPolicy(net, st, p, outs);
    GatewayInside(net.local);
    InsideWider(far.local, far.cluster, b);
    NotBoth(net, b);
    assert far.local in st.routes && InCidr(Some(far.local), b);
    assert Routed(st, b) && RouteTo(st, b) == hb;
  }

  /** The receiver's half: from the tunnel to the pod's port, if the key's tenant may talk to it. */
  lemma ReceiverHalf(world: World, ha: uint32, hb: uint32, a: uint32, b: uint32, p: Packet, outs: seq<Emit>)
    requires WorldOk(world) && ha in world && hb in world && ha != hb
    requires a in world[ha].node.pods && b in world[hb].node.pods
    requires p.IsIp() && p.inPort == VXLAN && p.src == a && p.dst == b && p.tunSrc == ha
    ensures Forwards(Compile(world[hb].net, world[hb].node), 0, p, outs) <==>
            outs == if Permitted(p.tunId, world[hb].node.pods[b].vnid)
                    then [Emit(world[hb].node.pods[b].port, p.(reg0 := p.tunId))] else []
  {
    var net, st := world[hb].net, world[hb].node;
    assert HostOk(world[ha]) && HostOk(world[hb]) && Linked(world, hb, ha);
    FlowsImplementPolicy(net, st, p, outs);
    InsideWider(world[ha].net.local, net.cluster, a);
  }

  lemma Departs(world: World, hops: nat, ha: uint32, hb: uint32, a: uint32, b: uint32, p: Packet, end: Arrival)
    requires WorldOk(world) && ha in world && hb in world && ha != hb && hops > 0
    requires SentBy(world[ha].node.pods, a, p) && b in world[hb].node.pods && p.dst == b
    ensures var v := world[ha].node.pods[a].vnid;
      Arrives(world, hops, ha, p, end) <==>
      Arrives(world, hops - 1, hb, Wire(ha, p.(reg0 := v, tunId := v, tunDst := hb)), end)
  {
    var v := world[ha].node.pods[a].vnid;
    var sent := p.(reg0 := v, tunId := v, tunDst := hb);
    forall outs
      ensures Outcome(world, ha, p, outs) <==> outs == [Emit(VXLAN, sent)]
    {
      SenderHalf(world, ha, hb, a, b, p, outs);
    }
    OneFate(world, hops, ha, p, [Emit(VXLAN, sent)], end);
  }

  lemma Lands(world: World, hops: nat, ha: uint32, hb: uint32, a: uint32, b: uint32, p: Packet, end: Arrival)
    requires WorldOk(world) && ha in world && hb in world && ha != hb
    requires a in world[ha].node.pods && b in world[hb].node.pods
    requires p.IsIp() && p.inPort == VXLAN && p.src == a && p.dst == b && p.tunSrc == ha
    ensures Arrives(world, hops, hb, p, end) <==>
            Permitted(p.tunId, world[hb].node.pods[b].vnid) && end == Arrival(hb, world[hb].node.pods[b].port)
  {
    var pod := world[hb].node.pods[b];
    var fate := if Permitted(p.tunId, pod.vnid) then [Emit(pod.port, p.(reg0 := p.tunId))] else [];
    forall outs
      ensures Outcome(world, hb, p, outs) <==> outs == fate
    {
      ReceiverHalf(world, ha, hb, a, b, p, outs);
    }
    OneFate(world, hops, hb, p, fate, end);
    assert HostOk(world[hb]);
  }

  lemma OtherHost(world: World, hops: nat, ha: uint32, hb: uint32, a: uint32, b: uint32, p: Packet, end: Arrival)
    requires WorldOk(world) && ha in world && hb in world && ha != hb && hops > 0
    requires SentBy(world[ha].node.pods, a, p) && b in world[hb].node.pods && p.dst == b
    ensures Arrives(world, hops, ha, p, end) <==>
            Permitted(world[ha].node.pods[a].vnid, world[hb].node.pods[b].vnid)
            && end == Arrival(hb, world[hb].node.pods[b].port)
  {
    var v := world[ha].node.pods[a].vnid;
    var received := Wire(ha, p.(reg0 := v, tunId := v, tunDst := hb));
    Departs(world, hops, ha, hb, a, b, p, end);
    assert HostOk(world[ha]);
    assert received.tunId == v;
    Lands(world, hops - 1, ha, hb, a, b, received, end);
  }

  /** The policy, end to end: an IP packet a pod sends under its own address to another pod comes out
      at that pod's port and nowhere else when their tenants are equal or one is 0, and nowhere at all
      otherwise. */
  lemma TenantDelivery(world: World, hops: nat, ha: uint32, hb: uint32, a: uint32, b: uint32, p: Packet, end: Arrival)
    requires WorldOk(world) && ha in world && hb in world && hops > 0
    requires SentBy(world[ha].node.pods, a, p) && b in world[hb].node.pods && a != b && p.dst == b
    ensures Arrives(world, hops, ha, p, end) <==>
            Permitted(world[ha].node.pods[a].vnid, world[hb].node.pods[b].vnid)
            && end == Arrival(hb, world[hb].node.pods[b].port)
  {
    if ha == hb {
      SameHost(world, hops, ha, a, b, p, end);
    } else {
      OtherHost(world, hops, ha, hb, a, b, p, end);
    }
  }
}
