/** How a node follows the subnets of the others (ksdn/subnets.go): its tunnels and routes agree
    with etcd because the master never lets two hosts hold one subnet. */
module HostRoutes {
  import opened Prelude
  import opened Word32
  import opened Cidrs
  import opened SubnetNumbering
  import opened Watch
  import opened Records
  import opened MasterSubnets
  import opened SubnetMaster
  import OpenFlow
  import NF = NodeFlows
  import NodeOps
  import Bridge
  import Pipeline

  type SubnetEvent = Event<HostInfo>

  /** The node's address and networks. */
  datatype Self = Self(ip: uint32, net: NF.Net)

  // ---------------------------------------------------------------- the handler

  predicate Accepts(self: Self, ip: uint32) {
    self.net.cluster.len <= 32 && self.net.service.len <= 32 && ValidNodeIP(self.net.cluster, self.net.service, ip)
  }

  ghost function WithTunnel(st: NF.Node, host: uint32): NF.Node { st.(tunnels := st.tunnels + {host}) }

  ghost function WithoutTunnel(st: NF.Node, host: uint32): NF.Node { st.(tunnels := st.tunnels - {host}) }

  /** One event of a batch in which the hosts `seen` were added before. An unparsable subnet stops the
      flow transaction after its first flow; an empty host address stops it before. */
  ghost function OnEvent(self: Self, st: NF.Node, seen: set<uint32>, e: SubnetEvent): (NF.Node, set<uint32>) {
    var ip, subnet := e.rec.value.hostIP, e.rec.value.subnet;
    if ip == self.ip then (st, seen)
    else if e.Added? then
      if ip in seen || !Accepts(self, ip) then (st, seen)
      else if subnet.None? then (WithTunnel(st, ip), seen)
      else (NodeOps.WithHost(st, subnet.value, ip), seen + {ip})
    else if ip == 0 then (st, seen - {ip})
    else if subnet.None? then (WithoutTunnel(st, ip), seen - {ip})
    else (NodeOps.WithoutHost(st, subnet.value, ip), seen - {ip})
  }

  ghost function OnBatch(self: Self, st: NF.Node, batch: seq<SubnetEvent>): (NF.Node, set<uint32>)
    decreases |batch|
  {
    if batch == [] then (st, {}) else
      var (st', seen) := OnBatch(self, st, batch[..|batch| - 1]);
      OnEvent(self, st', seen, batch[|batch| - 1])
  }

  lemma TunnelCompiles(net: NF.Net, st: NF.Node, host: uint32)
    ensures OpenFlow.AddFlow(NF.Compile(net, st), NF.TunnelRule(host)) == NF.Compile(net, WithTunnel(st, host))
  {
    forall r | r in NF.Compile(net, st)
      ensures OpenFlow.SameKey(r, NF.TunnelRule(host)) ==> r == NF.TunnelRule(host)
    {
      TunnelRuleAlone(net, st, host, r);
    }
    TunnelSets(st.tunnels, host);
  }

  lemma NoTunnelCompiles(net: NF.Net, st: NF.Node, host: uint32)
    ensures OpenFlow.DeleteFlows(NF.Compile(net, st), NF.HostCovers(net.local, host)[0])
         == NF.Compile(net, WithoutTunnel(st, host))
  {
    forall r | r in NF.Compile(net, st)
      ensures OpenFlow.Covered(r, NF.HostCovers(net.local, host)[0]) <==> r == NF.TunnelRule(host)
      ensures r == NF.TunnelRule(host) ==>
                r !in NF.FixedSet(net) + NF.PodSet(st.pods) + NF.RouteSet(st.routes) + NF.ServiceSet(st.services)
    {
      TunnelRuleAlone(net, st, host, r);
    }
    TunnelSets(st.tunnels, host);
  }

  lemma TunnelSets(tunnels: set<uint32>, host: uint32)
    ensures NF.TunnelSet(tunnels + {host}) == NF.TunnelSet(tunnels) + {NF.TunnelRule(host)}
    ensures NF.TunnelSet(tunnels - {host}) == NF.TunnelSet(tunnels) - {NF.TunnelRule(host)}
  {
  }

  /** The flow of a tunnel is the only one of its key, and of no other kind. */
  lemma TunnelRuleAlone(net: NF.Net, st: NF.Node, host: uint32, r: OpenFlow.Rule)
    requires r in NF.Compile(net, st)
    ensures OpenFlow.SameKey(r, NF.TunnelRule(host)) <==> r == NF.TunnelRule(host)
    ensures OpenFlow.Covered(r, NF.HostCovers(net.local, host)[0]) <==> r == NF.TunnelRule(host)
    ensures r == NF.TunnelRule(host) ==>
              r !in NF.FixedSet(net) + NF.PodSet(st.pods) + NF.RouteSet(st.routes) + NF.ServiceSet(st.services)
  {
    NF.TablesOf(net, st, r);
    NF.KindsOfFlow(st, r);
    if r in NF.FixedSet(net) {
      NF.FixedByTable(net, r);
    }
  }

  /** A tunnel's flow is there exactly if the host is a tunnel. */
  lemma TunnelFlowIff(net: NF.Net, st: NF.Node, host: uint32)
    ensures NF.TunnelRule(host) in NF.Compile(net, st) <==> host in st.tunnels
  {
    if NF.TunnelRule(host) in NF.Compile(net, st) {
      TunnelRuleAlone(net, st, host, NF.TunnelRule(host));
    }
  }

  lemma AddHostOpCompiles(net: NF.Net, st: NF.Node, subnet: Cidr, host: uint32)
    ensures Bridge.Apply(net, NF.Compile(net, st), Bridge.AddHostOp(subnet, host))
         == NF.Compile(net, NodeOps.WithHost(st, subnet, host))
  {
    NodeOps.AddHostCompiles(net, st, subnet, host);
  }

  lemma DeleteHostOpCompiles(net: NF.Net, st: NF.Node, subnet: Cidr, host: uint32)
    requires subnet.len <= 32
    ensures Bridge.Apply(net, NF.Compile(net, st), Bridge.DeleteHostOp(subnet, host))
         == NF.Compile(net, NodeOps.WithoutHost(st, subnet, host))
  {
    NodeOps.DeleteHostCompiles(net, st, subnet, host);
  }

  predicate Parsed(e: SubnetEvent) { e.rec.value.subnet.Some? ==> e.rec.value.subnet.value.len <= 32 }

  class SubnetHandler {
    const self: Self
    const bridge: Bridge.Switch
    var seen: set<uint32>

    constructor (self: Self, bridge: Bridge.Switch)
      ensures this.self == self && this.bridge == bridge
    {
      this.self, this.bridge, this.seen := self, bridge, {};
    }

    /** `nodeHandleSubnetEvent` keeps the flows compiled from what the node knows. */
    method HandleBatch(batch: seq<SubnetEvent>, ghost st: NF.Node)
      requires bridge.rules == NF.Compile(self.net, st)
      requires forall e :: e in batch ==> Parsed(e)
      modifies this, bridge
      ensures bridge.rules == NF.Compile(self.net, OnBatch(self, st, batch).0)
    {
      seen := {};
      for i := 0 to |batch|
        invariant bridge.rules == NF.Compile(self.net, OnBatch(self, st, batch[..i]).0)
        invariant seen == OnBatch(self, st, batch[..i]).1
      {
        assert batch[..i + 1][..i] == batch[..i];
        assert batch[i] in batch;
        HandleEvent(batch[i], OnBatch(self, st, batch[..i]).0);
      }
      assert batch[..|batch|] == batch;
    }

    method HandleEvent(e: SubnetEvent, ghost st: NF.Node)
      requires bridge.rules == NF.Compile(self.net, st) && Parsed(e)
      modifies this, bridge
      ensures bridge.rules == NF.Compile(self.net, OnEvent(self, st, old(seen), e).0)
      ensures seen == OnEvent(self, st, old(seen), e).1
      ensures e.Removed? && e.rec.value.hostIP != self.ip && e.rec.value.hostIP != 0 ==>
                NF.TunnelRule(e.rec.value.hostIP) !in bridge.rules
    {
      TunnelFlowIff(self.net, OnEvent(self, st, seen, e).0, e.rec.value.hostIP);
      var ip, subnet := e.rec.value.hostIP, e.rec.value.subnet;
      if ip == self.ip {
        return;
      }
      match e {
        case Added(_) =>
          if ip in seen || !Accepts(self, ip) {
            return;
          }
          Install(ip, subnet, st);
          if subnet.Some? {
            seen := seen + {ip};
          }
        case Removed(_) =>
          seen := seen - {ip};
          if ip != 0 {
            Uninstall(ip, subnet, st);
          }
      }
    }

    method Install(ip: uint32, subnet: Option<Cidr>, ghost st: NF.Node)
      requires bridge.rules == NF.Compile(self.net, st)
      modifies bridge
      ensures bridge.rules == NF.Compile(self.net, match subnet
                                case None => WithTunnel(st, ip)
                                case Some(c) => NodeOps.WithHost(st, c, ip))
    {
      match subnet {
        case None =>
          TunnelCompiles(self.net, st, ip);
          bridge.AddFlow(NF.TunnelRule(ip));
        case Some(c) =>
          AddHostOpCompiles(self.net, st, c, ip);
          bridge.AddHostSubnetRules(self.net, c, ip);
      }
    }

    method Uninstall(ip: uint32, subnet: Option<Cidr>, ghost st: NF.Node)
      requires bridge.rules == NF.Compile(self.net, st) && (subnet.Some? ==> subnet.value.len <= 32)
      modifies bridge
      ensures bridge.rules == NF.Compile(self.net, match subnet
                                case None => WithoutTunnel(st, ip)
                                case Some(c) => NodeOps.WithoutHost(st, c, ip))
    {
      match subnet {
        case None =>
          NoTunnelCompiles(self.net, st, ip);
          bridge.DeleteFlows(NF.HostCovers(self.net.local, ip)[0]);
        case Some(c) =>
          DeleteHostOpCompiles(self.net, st, c, ip);
          bridge.DeleteHostSubnetRules(self.net, c, ip);
      }
    }
  }

  // ---------------------------------------------------------------- agreement with etcd

  /** The node has the tunnel and the route of a host as recorded. */
  ghost predicate Follows(self: Self, st: NF.Node, ip: uint32, subnet: Option<Cidr>) {
    subnet.Some? && ip != self.ip && Accepts(self, ip) ==>
      ip in st.tunnels && subnet.value in st.routes && st.routes[subnet.value] == ip
  }

  ghost predicate FollowsEtcd(self: Self, st: NF.Node, etcd: map<uint32, HostSubnet>) {
    forall ip :: ip in etcd ==> Follows(self, st, ip, etcd[ip].value.subnet)
  }

  /** All routes are to subnets of the allocator's size. */
  ghost predicate SizedRoutes(cfg: Config, st: NF.Node) {
    forall c :: c in st.routes ==> c.Valid() && c.len + cfg.hostBits == 32
  }

  /** Subnets of one size are disjoint, so no address has two routes. */
  lemma SizedRoutesUnambiguous(cfg: Config, st: NF.Node)
    requires SizedRoutes(cfg, st)
    ensures Pipeline.Unambiguous(st)
  {
    forall c, d, ip: uint32 | c in st.routes && d in st.routes
                              && OpenFlow.InCidr(Some(c), ip) && OpenFlow.InCidr(Some(d), ip)
      ensures c == d
    {
      assert Overlap(c, d);
      SameSizeOverlap(c, d);
    }
  }

  /** No subnet is recorded for two hosts. */
  ghost predicate OneHolder(etcd: map<uint32, HostSubnet>) {
    forall a, b :: a in etcd && b in etcd && a != b && etcd[a].value.subnet.Some? ==>
      etcd[a].value.subnet != etcd[b].value.subnet
  }

  ghost predicate SizedRecords(cfg: Config, etcd: map<uint32, HostSubnet>) {
    forall ip :: ip in etcd && etcd[ip].value.subnet.Some? ==>
      etcd[ip].value.subnet.value.Valid() && etcd[ip].value.subnet.value.len + cfg.hostBits == 32
  }

  function AfterWrite(etcd: map<uint32, HostSubnet>, w: Write): map<uint32, HostSubnet> {
    match w
    case Wrote(rec) => etcd[rec.value.hostIP := rec]
    case Erased(ip) => etcd - {ip}
  }

  /** A node's watcher records and its flows' knowledge. */
  datatype Watching = Watching(saved: seq<HostSubnet>, st: NF.Node)

  ghost predicate PlainRecords(saved: seq<HostSubnet>) {
    UniqueNames(saved) && forall i :: 0 <= i < |saved| ==> PlainName(saved[i].name)
  }

  /** The watcher delivers one write. */
  ghost function OnWrite(setup: Setup, self: Self, n: Watching, w: Write): Watching {
    var (saved', e) := AfterEvent(n.saved, EventOf(setup, w));
    Watching(saved', OnBatch(self, n.st, [e]).0)
  }

  lemma OneEventBatch(self: Self, st: NF.Node, e: SubnetEvent)
    ensures OnBatch(self, st, [e]) == OnEvent(self, st, {}, e)
  {
    assert [e][..0] == [];
    assert OnBatch(self, st, []) == (st, {});
  }

  /** A deletion tells the node nothing: its event names a key and no host. */
  lemma DeletionUnnoticed(setup: Setup, self: Self, n: Watching, ip: uint32)
    requires PlainRecords(n.saved)
    ensures OnWrite(setup, self, n, Erased(ip)) == n
  {
    var e := EventOf(setup, Erased(ip));
    forall i | 0 <= i < |n.saved|
      ensures n.saved[i].name != e.rec.name
    {
      KeyIsNoName(setup.dir, setup.keyOf(ip), n.saved[i].name);
    }
    assert Find(n.saved, e.rec.name).None?;
    OneEventBatch(self, n.st, e);
  }

  /** A write keeps a node that follows etcd following it, because the subnet written is no other
      host's. */
  lemma WriteKeepsFollowing(setup: Setup, self: Self, n: Watching, etcd: map<uint32, HostSubnet>, w: Write)
    requires PlainRecords(n.saved) && (w.Wrote? ==> PlainName(w.rec.name))
    requires FollowsEtcd(self, n.st, etcd) && SizedRoutes(setup.cfg, n.st)
    requires OneHolder(AfterWrite(etcd, w)) && SizedRecords(setup.cfg, AfterWrite(etcd, w))
    ensures var n' := OnWrite(setup, self, n, w);
      PlainRecords(n'.saved) && FollowsEtcd(self, n'.st, AfterWrite(etcd, w)) && SizedRoutes(setup.cfg, n'.st)
  {
    match w {
      case Erased(ip) =>
        DeletionUnnoticed(setup, self, n, ip);
      case Wrote(rec) =>
        SavedStayPlain(n.saved, rec);
        OneEventBatch(self, n.st, Added(rec));
        AdditionFollowed(setup.cfg, self, n.st, etcd, rec);
    }
  }

  lemma SavedStayPlain(saved: seq<HostSubnet>, rec: HostSubnet)
    requires PlainRecords(saved) && PlainName(rec.name)
    ensures PlainRecords(AfterAdd(saved, rec))
  {
    AddedRecords(saved, rec);
    var saved' := AfterAdd(saved, rec);
    forall i | 0 <= i < |saved'|
      ensures PlainName(saved'[i].name)
    {
      assert saved'[i] in saved';
    }
  }

  lemma AdditionFollowed(cfg: Config, self: Self, st: NF.Node, etcd: map<uint32, HostSubnet>, rec: HostSubnet)
    requires FollowsEtcd(self, st, etcd) && SizedRoutes(cfg, st)
    requires OneHolder(AfterWrite(etcd, Wrote(rec))) && SizedRecords(cfg, AfterWrite(etcd, Wrote(rec)))
    ensures var st' := OnEvent(self, st, {}, Added(rec)).0;
      FollowsEtcd(self, st', AfterWrite(etcd, Wrote(rec))) && SizedRoutes(cfg, st')
  {
    assert AfterWrite(etcd, Wrote(rec))[rec.value.hostIP] == rec;
  }

  // ---------------------------------------------------------------- agreement over runs

  ghost function OnWrites(setup: Setup, self: Self, n: Watching, writes: seq<Write>): Watching
    decreases |writes|
  {
    if writes == [] then n else OnWrites(setup, self, OnWrite(setup, self, n, writes[0]), writes[1..])
  }

  /** Nothing was written between `s` and `s'`, or one record, which is in etcd now. */
  ghost predicate WritesOne(s: State, s': State) {
    || (s'.history == s.history && s'.etcd == s.etcd)
    || (exists w :: s'.history == s.history + [w] && s'.etcd == AfterWrite(s.etcd, w))
  }

  lemma RecordWrites(s: State, rec: HostSubnet, ip: uint32)
    ensures WritesOne(s, WriteRec(s, rec)) && WritesOne(s, DeleteRec(s, ip))
  {
    assert WriteRec(s, rec).history == s.history + [Wrote(rec)];
    assert DeleteRec(s, ip).history == s.history + [Erased(ip)];
  }

  lemma AdvanceWrites(cfg: Config, s: State, t: Task, ok: bool)
    requires cfg.Valid()
    ensures WritesOne(s, Advance(cfg, s, t, ok).0)
  {
    if t.Renewing? || t.Acquiring? {
      RecordWrites(s, t.rec, 0);
    }
  }

  lemma DispatchWrites(cfg: Config, s: State, e: SubnetEvent, ok: bool, accepted: bool)
    requires cfg.Valid()
    ensures WritesOne(s, Dispatch(cfg, s, e, ok, accepted))
  {
    RecordWrites(s, e.rec, e.rec.value.hostIP);
  }

  /** A step of the protocol writes at most one record, and etcd is what was written. */
  lemma StepWrites(setup: Setup, s: State, a: Action)
    requires setup.cfg.Valid() && Enabled(s, a)
    ensures WritesOne(s, Do(setup, s, a))
  {
    match a {
      case DeleteNode(ip, ok) => RecordWrites(s, Record("", HostInfo(0, None, false)), ip);
      case NodeStep(ok) => AdvanceWrites(setup.cfg, s, s.nodes, ok);
      case SubnetStep(ok) => AdvanceWrites(setup.cfg, s, s.subnets, ok);
      case TakeEvent(ok, accepted) => DispatchWrites(setup.cfg, s.(queue := s.queue[1..]), s.queue[0], ok, accepted);
      case Request(name, ip) => RecordWrites(s, Record(name, HostInfo(ip, None, true)), 0);
      case _ =>
    }
  }

  lemma InvRecords(setup: Setup, host: uint32 -> string, s: State)
    requires setup.cfg.Valid() && Inv(setup, host, s)
    ensures OneHolder(s.etcd) && SizedRecords(setup.cfg, s.etcd)
    ensures forall ip :: ip in s.etcd ==> s.etcd[ip].value.hostIP == ip && PlainName(s.etcd[ip].name)
  {
    var owner :| InvWith(setup, host, s, owner);
    forall ip | ip in s.etcd
      ensures s.etcd[ip].value.hostIP == ip && RecOk(host, s.etcd[ip])
      ensures s.etcd[ip].value.subnet.Some? ==>
                s.etcd[ip].value.subnet.value in owner && owner[s.etcd[ip].value.subnet.value] == For(ip)
    {
      assert RecStaged(host, owner, s.etcd[ip]);
    }
  }

  /** The node is up to date with etcd. */
  ghost predicate UpToDate(setup: Setup, self: Self, n: Watching, etcd: map<uint32, HostSubnet>) {
    PlainRecords(n.saved) && FollowsEtcd(self, n.st, etcd) && SizedRoutes(setup.cfg, n.st)
  }

  lemma StepKeepsFollowing(setup: Setup, host: uint32 -> string, self: Self, n: Watching, s: State, a: Action)
    requires setup.cfg.Valid() && Inv(setup, host, s) && Enabled(s, a) && MasterSubnets.Fixed(host, a)
    requires UpToDate(setup, self, n, s.etcd)
    ensures var s' := Do(setup, s, a);
      && Inv(setup, host, s') && s.history <= s'.history
      && UpToDate(setup, self, OnWrites(setup, self, n, s'.history[|s.history|..]), s'.etcd)
  {
    var s' := Do(setup, s, a);
    StepKeepsInv(setup, host, s, a);
    StepWrites(setup, s, a);
    InvRecords(setup, host, s');
    WritesKeepFollowing(setup, self, n, s, s');
  }

  lemma WritesKeepFollowing(setup: Setup, self: Self, n: Watching, s: State, s': State)
    requires UpToDate(setup, self, n, s.etcd) && WritesOne(s, s')
    requires OneHolder(s'.etcd) && SizedRecords(setup.cfg, s'.etcd)
    requires forall ip :: ip in s'.etcd ==> PlainName(s'.etcd[ip].name)
    ensures s.history <= s'.history
    ensures UpToDate(setup, self, OnWrites(setup, self, n, s'.history[|s.history|..]), s'.etcd)
  {
    if s'.history == s.history && s'.etcd == s.etcd {
      assert s'.history[|s.history|..] == [];
    } else {
      var w :| s'.history == s.history + [w] && s'.etcd == AfterWrite(s.etcd, w);
      assert s'.history[|s.history|..] == [w];
      assert w.Wrote? ==> s'.etcd[w.rec.value.hostIP] == w.rec;
      WriteKeepsFollowing(setup, self, n, s.etcd, w);
      assert OnWrites(setup, self, n, [w]) == OnWrite(setup, self, n, w);
    }
  }

  lemma {:induction false} OnWritesSplit(setup: Setup, self: Self, n: Watching, a: seq<Write>, b: seq<Write>)
    ensures OnWrites(setup, self, n, a + b) == OnWrites(setup, self, OnWrites(setup, self, n, a), b)
    decreases |a|
  {
    if a == [] {
      assert a + b == b;
    } else {
      assert (a + b)[1..] == a[1..] + b;
      OnWritesSplit(setup, self, OnWrite(setup, self, n, a[0]), a[1..], b);
    }
  }

  lemma SuffixSplit(a: seq<Write>, b: seq<Write>, c: seq<Write>)
    requires a <= b <= c
    ensures a <= c && c[|a|..] == b[|a|..] + c[|b|..]
  {
  }

  /** Whatever the two goroutines, administrators and failovers do, a node that was up to date and
      has handled all later writes is up to date. */
  lemma {:induction false} NodeFollowsProtocol(setup: Setup, host: uint32 -> string, self: Self, n: Watching,
                                               s: State, actions: seq<Action>)
    requires setup.cfg.Valid() && Inv(setup, host, s) && UpToDate(setup, self, n, s.etcd)
    requires forall a :: a in actions ==> MasterSubnets.Fixed(host, a)
    requires RunOf(setup, s, actions).Some?
    ensures var end := RunOf(setup, s, actions).value;
      && s.history <= end.history
      && UpToDate(setup, self, OnWrites(setup, self, n, end.history[|s.history|..]), end.etcd)
    decreases |actions|
  {
    var end := RunOf(setup, s, actions).value;
    if actions == [] {
      assert end.history[|s.history|..] == [];
    } else {
      var s' := Do(setup, s, actions[0]);
      var first := s'.history[|s.history|..];
      StepKeepsFollowing(setup, host, self, n, s, actions[0]);
      NodeFollowsProtocol(setup, host, self, OnWrites(setup, self, n, first), s', actions[1..]);
      SuffixSplit(s.history, s'.history, end.history);
      OnWritesSplit(setup, self, n, first, end.history[|s'.history|..]);
    }
  }

  // ---------------------------------------------------------------- the first snapshot

  ghost predicate DistinctHosts(list: seq<HostSubnet>) {
    forall i, j :: 0 <= i < j < |list| ==>
      && list[i].value.hostIP != list[j].value.hostIP
      && (list[i].value.subnet.Some? ==> list[i].value.subnet != list[j].value.subnet)
  }

  lemma {:induction false} AdditionsFollow(cfg: Config, self: Self, st: NF.Node, list: seq<HostSubnet>)
    requires DistinctHosts(list) && SizedRoutes(cfg, st)
    requires forall i :: 0 <= i < |list| && list[i].value.subnet.Some? ==>
               list[i].value.subnet.value.Valid() && list[i].value.subnet.value.len + cfg.hostBits == 32
    ensures var (st', seen) := OnBatch(self, st, Additions(list));
      && SizedRoutes(cfg, st')
      && (forall i :: 0 <= i < |list| ==> Follows(self, st', list[i].value.hostIP, list[i].value.subnet))
      && (forall ip :: ip in seen ==> exists i :: 0 <= i < |list| && list[i].value.hostIP == ip)
    decreases |list|
  {
    if list == [] {
      assert OnBatch(self, st, []) == (st, {});
    } else {
      var init, last := list[..|list| - 1], list[|list| - 1];
      AdditionsFollow(cfg, self, st, init);
      assert Additions(list)[..|list| - 1] == Additions(init);
      var (st1, seen1) := OnBatch(self, st, Additions(init));
      assert OnBatch(self, st, Additions(list)) == OnEvent(self, st1, seen1, Added(last));
      assert last.value.hostIP !in seen1;
      AdditionAdds(cfg, self, st1, seen1, last);
      forall i | 0 <= i < |init|
        ensures Follows(self, OnEvent(self, st1, seen1, Added(last)).0, list[i].value.hostIP, list[i].value.subnet)
      {
        AdditionKeeps(self, st1, seen1, last, init[i].value.hostIP, init[i].value.subnet);
      }
    }
  }

  /** One new host of a batch is followed. */
  lemma AdditionAdds(cfg: Config, self: Self, st: NF.Node, seen: set<uint32>, rec: HostSubnet)
    requires SizedRoutes(cfg, st) && rec.value.hostIP !in seen
    requires rec.value.subnet.Some? ==> rec.value.subnet.value.Valid() && rec.value.subnet.value.len + cfg.hostBits == 32
    ensures var (st', seen') := OnEvent(self, st, seen, Added(rec));
      SizedRoutes(cfg, st') && seen' <= seen + {rec.value.hostIP} && Follows(self, st', rec.value.hostIP, rec.value.subnet)
  {
  }

  /** ... and the others stay followed, as it has none of their subnets. */
  lemma AdditionKeeps(self: Self, st: NF.Node, seen: set<uint32>, rec: HostSubnet, ip: uint32, subnet: Option<Cidr>)
    requires Follows(self, st, ip, subnet) && (subnet.Some? ==> rec.value.subnet != subnet)
    ensures Follows(self, OnEvent(self, st, seen, Added(rec)).0, ip, subnet)
  {
  }

  /** A node that starts watching from a snapshot is up to date with it. */
  lemma SnapshotFollows(setup: Setup, host: uint32 -> string, self: Self, st: NF.Node, s: State,
                        snapshot: seq<HostSubnet>)
    requires setup.cfg.Valid() && Inv(setup, host, s) && IsSnapshot(s, snapshot) && SizedRoutes(setup.cfg, st)
    ensures UpToDate(setup, self, Watching(snapshot, OnBatch(self, st, ResetBatch([], snapshot)).0), s.etcd)
  {
    InvRecords(setup, host, s);
    FirstResetAdds(snapshot);
    forall i | 0 <= i < |snapshot|
      ensures snapshot[i].value.hostIP in s.etcd && s.etcd[snapshot[i].value.hostIP] == snapshot[i]
    {
      assert snapshot[i] in snapshot;
    }
    AdditionsFollow(setup.cfg, self, st, snapshot);
    forall ip | ip in s.etcd
      ensures Follows(self, OnBatch(self, st, ResetBatch([], snapshot)).0, ip, s.etcd[ip].value.subnet)
    {
      var i :| 0 <= i < |snapshot| && snapshot[i] == s.etcd[ip];
    }
  }
}
