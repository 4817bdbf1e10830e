/** The life of a node: its watchers deliver what the masters write, pods and services come and go, and
    each happening is a list of commands to the bridge. */
module NodeRuns {
  import opened Prelude
  import opened Word32
  import opened Watch
  import opened Records
  import MS = MasterSubnets
  import NV = NodeVnids
  import OpenFlow
  import NF = NodeFlows
  import opened NodeOps
  import opened Bridge
  import Delivery
  import opened HostRoutes
  import opened Retenanting

  // ---------------------------------------------------------------- happenings

  /** What never changes on a node: its networks and the names of the etcd directories. */
  datatype Site = Site(setup: MS.Setup, self: Self, netnsDir: string)

  /** The records and the index of the netns watcher, the records of the subnet watcher, what the node's
      flows are compiled from, and which namespaces its pods and services are of. */
  datatype Agent = Agent(vnids: NV.Node, records: seq<HostSubnet>, st: NF.Node, owned: Belonging)

  /** What a watcher delivers: the whole directory or one write. */
  datatype NetnsNews = NetnsSnapshot(list: seq<Netns>) | NetnsChange(change: NV.Change)
  datatype HostNews = HostSnapshot(hosts: seq<HostSubnet>) | HostWrite(w: MS.Write)

  datatype Happening =
    | NetnsListed(list: seq<Netns>)                       // populateVNIDs, before the watch starts
    | NetnsCame(news: NetnsNews,                          // and what Kubernetes lists for each namespace
                locals: string -> seq<LocalPod>, services: string -> seq<Service>)
    | HostsCame(hostNews: HostNews)
    | PodUp(ip: uint32, port: nat, mac: nat, name: string)
    | PodDown(ip: uint32)
    | ServiceUp(name: string, keys: seq<NF.SvcKey>)
    | ServiceDown(keys: seq<NF.SvcKey>)

  /** The part of a node that namespace events change. */
  datatype Tenants = Tenants(ids: map<string, uint32>, st: NF.Node, owned: Belonging)

  ghost function OneNetnsEvent(net: NF.Net, t: Tenants, e: Event<NetnsInfo>,
                               locals: string -> seq<LocalPod>, services: string -> seq<Service>): Tenants {
    var ls, ss := locals(e.rec.name), services(e.rec.name);
    Tenants(NV.Handle(t.ids, e), OnNetnsEvent(net, t.st, t.ids, e, ls, ss),
            BelongingAfter(t.owned, t.st, t.ids, e, ls, ss))
  }

  ghost function AllNetnsEvents(net: NF.Net, t: Tenants, batch: seq<Event<NetnsInfo>>,
                                locals: string -> seq<LocalPod>, services: string -> seq<Service>): Tenants
    decreases |batch|
  {
    if batch == [] then t else
      OneNetnsEvent(net, AllNetnsEvents(net, t, batch[..|batch| - 1], locals, services), batch[|batch| - 1], locals, services)
  }

  ghost function BatchOf(site: Site, a: Agent, news: NetnsNews): seq<Event<NetnsInfo>> {
    match news
    case NetnsSnapshot(list) => ResetBatch(a.vnids.saved, list)
    case NetnsChange(change) => [AfterEvent(a.vnids.saved, NV.EventFor(site.netnsDir, change)).1]
  }

  ghost function VnidsAfter(site: Site, a: Agent, news: NetnsNews): NV.Node {
    match news
    case NetnsSnapshot(list) => NV.OnSnapshot(a.vnids, list)
    case NetnsChange(change) => NV.OnChange(site.netnsDir, a.vnids, change)
  }

  function TenantsOf(a: Agent): Tenants { Tenants(a.vnids.ids, a.st, a.owned) }

  ghost function Next(site: Site, a: Agent, h: Happening): Agent {
    var ids := a.vnids.ids;
    match h
    case NetnsListed(list) => a.(vnids := a.vnids.(ids := Listed(ids, list)))
    case NetnsCame(news, locals, services) =>
      var t := AllNetnsEvents(site.self.net, TenantsOf(a), BatchOf(site, a, news), locals, services);
      Agent(VnidsAfter(site, a, news), a.records, t.st, t.owned)
    case HostsCame(HostSnapshot(hosts)) =>
      a.(records := hosts, st := OnBatch(site.self, a.st, ResetBatch(a.records, hosts)).0)
    case HostsCame(HostWrite(w)) =>
      var n := OnWrite(site.setup, site.self, Watching(a.records, a.st), w);
      a.(records := n.saved, st := n.st)
    case PodUp(ip, port, mac, name) =>
      // without a VNID for its namespace the pod is not set up
      if name !in ids then a else
        a.(st := WithPod(a.st, ip, NF.Pod(port, mac, ids[name])),
           owned := a.owned.(podNs := (x: uint32) => if x == ip then name else a.owned.podNs(x),
                             lostPods := a.owned.lostPods - {ip}))
    case PodDown(ip) =>
      a.(st := WithoutPod(a.st, ip), owned := a.owned.(lostPods := a.owned.lostPods - {ip}))
    case ServiceUp(name, keys) =>
      // without one the service has to wait until Kubernetes lists it for the namespace
      if name !in ids then a else
        a.(st := WithServices(a.st, keys, ids[name]),
           owned := a.owned.(svcNs := (k: NF.SvcKey) => if k in keys then name else a.owned.svcNs(k)))
    case ServiceDown(keys) =>
      a.(st := WithoutServices(a.st, keys),
         owned := a.owned.(lostServices := set k | k in a.owned.lostServices && k !in keys))
  }

  /** A pod of a namespace with a VNID is set up under its address; torn down it is gone. Nothing else
      changes. */
  lemma PodsComeAndGo(site: Site, a: Agent, ip: uint32, port: nat, mac: nat, name: string)
    ensures name in a.vnids.ids ==>
              Next(site, a, PodUp(ip, port, mac, name)).st == a.st.(pods := a.st.pods[ip := NF.Pod(port, mac, a.vnids.ids[name])])
    ensures Next(site, a, PodDown(ip)).st == a.st.(pods := a.st.pods - {ip})
  {
  }

  /** The ports of a service of a namespace with a VNID are opened to it, those of a deleted service are
      closed; no others change. */
  lemma ServicesComeAndGo(site: Site, a: Agent, name: string, keys: seq<NF.SvcKey>)
    ensures var st' := Next(site, a, ServiceUp(name, keys)).st;
      name in a.vnids.ids ==>
        && st' == a.st.(services := st'.services)
        && (forall k :: k in st'.services <==> k in a.st.services || k in keys)
        && forall k :: k in st'.services ==>
             st'.services[k] == (if k in a.st.services then a.st.services[k] else {}) + if k in keys then {a.vnids.ids[name]} else {}
    ensures var st' := Next(site, a, ServiceDown(keys)).st;
      && st' == a.st.(services := st'.services)
      && (forall k :: k in st'.services <==> k in a.st.services && k !in keys)
      && forall k :: k in st'.services ==> st'.services[k] == a.st.services[k]
  {
    if name in a.vnids.ids {
      ServicesWith(a.st, keys, a.vnids.ids[name]);
    }
    ServicesWithout(a.st, keys);
  }

  // ---------------------------------------------------------------- the directories

  /** The two directories of etcd, as far as the node's watchers have got. */
  datatype Dirs = Dirs(netns: map<string, NetnsInfo>, subnets: map<uint32, HostSubnet>)

  function AfterChange(netns: map<string, NetnsInfo>, c: NV.Change): map<string, NetnsInfo> {
    match c
    case Put(name, info) => netns[name := info]
    case Delete(name) => netns - {name}
  }

  function ByAddress(hosts: seq<HostSubnet>): map<uint32, HostSubnet>
    decreases |hosts|
  {
    if hosts == [] then map[] else ByAddress(hosts[..|hosts| - 1])[hosts[|hosts| - 1].value.hostIP := hosts[|hosts| - 1]]
  }

  ghost function AfterNetns(netns: map<string, NetnsInfo>, news: NetnsNews): map<string, NetnsInfo> {
    match news
    case NetnsSnapshot(list) => View(list)
    case NetnsChange(change) => AfterChange(netns, change)
  }

  function AfterHosts(subnets: map<uint32, HostSubnet>, news: HostNews): map<uint32, HostSubnet> {
    match news
    case HostSnapshot(hosts) => ByAddress(hosts)
    case HostWrite(w) => AfterWrite(subnets, w)
  }

  ghost function Seen(d: Dirs, h: Happening): Dirs {
    match h
    case NetnsCame(news, _, _) => d.(netns := AfterNetns(d.netns, news))
    case HostsCame(news) => d.(subnets := AfterHosts(d.subnets, news))
    case _ => d
  }

  // ---------------------------------------------------------------- what may happen

  /** Namespaces in etcd have plain names and VNIDs that fit a tunnel key. */
  ghost predicate GoodNetns(netns: map<string, NetnsInfo>) {
    forall n :: n in netns ==> PlainName(n) && netns[n].netID < Delivery.VNI_VALUES
  }

  ghost predicate GoodList(list: seq<Netns>) { UniqueNames(list) && GoodNetns(View(list)) }

  /** What a write to the netns directory may be. */
  ghost predicate GoodChange(c: NV.Change) {
    PlainName(c.name) && (c.Put? ==> c.info.netID < Delivery.VNI_VALUES)
  }

  ghost predicate GoodNetnsNews(news: NetnsNews) {
    match news
    case NetnsSnapshot(list) => GoodList(list)
    case NetnsChange(change) => GoodChange(change)
  }

  /** The subnets directory: no subnet for two hosts, all of one size. */
  ghost predicate GoodSubnets(site: Site, subnets: map<uint32, HostSubnet>) {
    OneHolder(subnets) && SizedRecords(site.setup.cfg, subnets)
  }

  ghost predicate GoodHostNews(site: Site, subnets: map<uint32, HostSubnet>, news: HostNews) {
    && GoodSubnets(site, AfterHosts(subnets, news))
    && match news
       case HostSnapshot(hosts) => PlainRecords(hosts) && MS.DistinctAddresses(hosts)
       case HostWrite(w) => w.Wrote? ==> PlainName(w.rec.name)
  }

  /** Listed pods and services that are retagged have proper addresses and ports; an event for what is no
      namespace's name finds nothing listed. */
  ghost predicate EventOrderly(net: NF.Net, t: Tenants, e: Event<NetnsInfo>,
                               locals: seq<LocalPod>, services: seq<Service>) {
    if e.Removed? then locals == [] && services == [] else
      Skipped(t.ids, e.rec) ||
      (GoodLocals(net, t.st, locals) && forall k :: Mentions(services, k) ==> OpenFlow.InCidr(Some(net.service), k.ip))
  }

  ghost predicate BatchOrderly(net: NF.Net, t: Tenants, batch: seq<Event<NetnsInfo>>,
                               locals: string -> seq<LocalPod>, services: string -> seq<Service>)
    decreases |batch|
  {
    batch != [] ==>
      var init, last := batch[..|batch| - 1], batch[|batch| - 1];
      && BatchOrderly(net, t, init, locals, services)
      && EventOrderly(net, AllNetnsEvents(net, t, init, locals, services), last, locals(last.rec.name), services(last.rec.name))
  }

  /** What the surroundings of the node guarantee: the namespaces are listed once, at the start, a watcher
      delivers the whole directory only when it has nothing saved, pods come with addresses and ports of
      their own, and services with ports that are not another service's. */
  ghost predicate Orderly(site: Site, a: Agent, h: Happening) {
    var net := site.self.net;
    match h
    case NetnsListed(_) => a.vnids.ids == map[]
    case NetnsCame(news, locals, services) =>
      && (news.NetnsSnapshot? ==> a.vnids.saved == [])
      && BatchOrderly(net, TenantsOf(a), BatchOf(site, a, news), locals, services)
    case HostsCame(news) => news.HostSnapshot? ==> a.records == []
    case PodUp(ip, port, _, _) =>
      && ip !in a.st.pods && GoodPlace(net, ip, port)
      && forall other :: other in a.st.pods ==> a.st.pods[other].port != port
    case PodDown(ip) => OpenFlow.InCidr(Some(net.local), ip) && ip != NF.Gateway(net.local)
    case ServiceUp(name, keys) =>
      forall k :: k in keys ==>
        && OpenFlow.InCidr(Some(net.service), k.ip)
        && (k in a.st.services ==> k !in a.owned.lostServices && a.owned.svcNs(k) == name)
    case ServiceDown(_) => true
  }

  ghost predicate Admissible(site: Site, a: Agent, d: Dirs, h: Happening) {
    && Orderly(site, a, h)
    && (h.NetnsListed? ==> GoodList(h.list))
    && (h.NetnsCame? ==> GoodNetnsNews(h.news))
    && (h.HostsCame? ==> GoodHostNews(site, d.subnets, h.hostNews))
  }

  // ---------------------------------------------------------------- readiness

  ghost predicate GoodIds(ids: map<string, uint32>) {
    forall n :: n in ids ==> PlainName(n) && ids[n] < Delivery.VNI_VALUES
  }

  /** Pods and services that are not lost carry the VNIDs the node knows for their namespaces. */
  ghost predicate TenantsReady(net: NF.Net, t: Tenants) {
    && GoodIds(t.ids)
    && (forall ip :: ip in t.st.pods ==> t.st.pods[ip].vnid < Delivery.VNI_VALUES)
    && TenantsFollow(t.ids, t.owned, t.st)
    && Delivery.PodsOk(net, t.st)
  }

  /** The node is in step with both directories, and its pods and services with the node. */
  ghost predicate Ready(site: Site, a: Agent, d: Dirs) {
    && NV.GoodNode(a.vnids) && NV.InSync(a.vnids.ids, d.netns)
    && TenantsReady(site.self.net, TenantsOf(a))
    && UpToDate(site.setup, site.self, Watching(a.records, a.st), d.subnets)
  }

  /** Being up to date with the subnets is about tunnels and routes alone. */
  lemma RoutesDecide(site: Site, records: seq<HostSubnet>, st: NF.Node, st': NF.Node, subnets: map<uint32, HostSubnet>)
    requires UpToDate(site.setup, site.self, Watching(records, st), subnets)
    requires st'.tunnels == st.tunnels && st'.routes == st.routes
    ensures UpToDate(site.setup, site.self, Watching(records, st'), subnets)
  {
    forall ip | ip in subnets
      ensures Follows(site.self, st', ip, subnets[ip].value.subnet)
    {
      assert Follows(site.self, st, ip, subnets[ip].value.subnet);
    }
  }

  // ---------------------------------------------------------------- namespace news

  /** An addition has a plain name and a VNID that fits; a removal names no namespace. */
  ghost predicate GoodEvent(e: Event<NetnsInfo>) {
    if e.Added? then PlainName(e.rec.name) && e.rec.value.netID < Delivery.VNI_VALUES else !PlainName(e.rec.name)
  }

  lemma EventKeepsTenants(net: NF.Net, t: Tenants, e: Event<NetnsInfo>,
                          locals: string -> seq<LocalPod>, services: string -> seq<Service>)
    requires net.multitenant && TenantsReady(net, t) && GoodEvent(e)
    requires EventOrderly(net, t, e, locals(e.rec.name), services(e.rec.name))
    ensures var t' := OneNetnsEvent(net, t, e, locals, services);
      TenantsReady(net, t') && t'.st == t.st.(pods := t'.st.pods, services := t'.st.services)
  {
    var ls, ss := locals(e.rec.name), services(e.rec.name);
    match e {
      case Removed(rec) => assert t.ids - {rec.name} == t.ids;
      case Added(rec) =>
        NewVnidReachesAll(net, t.st, t.ids, t.owned, rec, ls, ss);
        if !Skipped(t.ids, rec) {
          EventMeaning(net, t.st, t.ids, rec, ls, ss);
          TaggedPodsOk(net, t.st, ls, rec.value.netID);
          TaggedServices(net, TagPods(t.st, ls, rec.value.netID), ss, rec.value.netID);
        }
    }
  }

  lemma {:induction false} BatchKeepsTenants(net: NF.Net, t: Tenants, batch: seq<Event<NetnsInfo>>,
                                             locals: string -> seq<LocalPod>, services: string -> seq<Service>)
    requires net.multitenant && TenantsReady(net, t) && BatchOrderly(net, t, batch, locals, services)
    requires forall i :: 0 <= i < |batch| ==> GoodEvent(batch[i])
    ensures var t' := AllNetnsEvents(net, t, batch, locals, services);
      && TenantsReady(net, t') && t'.st == t.st.(pods := t'.st.pods, services := t'.st.services)
      && t'.ids == NV.HandleAll(t.ids, batch)
    decreases |batch|
  {
    if batch != [] {
      var init, last := batch[..|batch| - 1], batch[|batch| - 1];
      BatchKeepsTenants(net, t, init, locals, services);
      EventKeepsTenants(net, AllNetnsEvents(net, t, init, locals, services), last, locals, services);
    }
  }

  /** A deletion names a key no watcher has saved and no node knows. */
  lemma DeletionIsKey(site: Site, a: Agent, name: string)
    requires NV.GoodNode(a.vnids)
    ensures var key := EtcdKey(site.netnsDir, name);
      && !PlainName(key) && NV.OnChange(site.netnsDir, a.vnids, NV.Delete(name)) == a.vnids
      && BatchOf(site, a, NetnsChange(NV.Delete(name))) == [Removed(Record(key, NetnsInfo(0, "", "")))]
  {
    var key := EtcdKey(site.netnsDir, name);
    assert key[|site.netnsDir|] == '/';
    forall r | r in a.vnids.saved
      ensures r.name != key
    {
      assert PlainName(r.name);
    }
    assert Find(a.vnids.saved, key).None?;
    assert a.vnids.ids - {key} == a.vnids.ids;
  }

  lemma NewsAreGood(site: Site, a: Agent, news: NetnsNews)
    requires NV.GoodNode(a.vnids) && GoodNetnsNews(news) && (news.NetnsSnapshot? ==> a.vnids.saved == [])
    ensures forall i :: 0 <= i < |BatchOf(site, a, news)| ==> GoodEvent(BatchOf(site, a, news)[i])
    ensures VnidsAfter(site, a, news).ids == NV.HandleAll(a.vnids.ids, BatchOf(site, a, news))
  {
    match news {
      case NetnsSnapshot(list) =>
        FirstResetAdds(list);
        forall i | 0 <= i < |list|
          ensures GoodEvent(Added(list[i]))
        {
          assert list[i] in list && View(list)[list[i].name] == list[i].value;
        }
      case NetnsChange(change) =>
        if change.Delete? {
          DeletionIsKey(site, a, change.name);
        }
        var batch := BatchOf(site, a, news);
        assert batch[..0] == [];
        assert NV.HandleAll(a.vnids.ids, batch) == NV.Handle(a.vnids.ids, batch[0]);
    }
  }

  lemma NewsKeepSync(site: Site, a: Agent, d: Dirs, news: NetnsNews)
    requires NV.GoodNode(a.vnids) && NV.InSync(a.vnids.ids, d.netns)
    requires GoodNetnsNews(news) && (news.NetnsSnapshot? ==> a.vnids.saved == [])
    ensures NV.GoodNode(VnidsAfter(site, a, news)) && NV.InSync(VnidsAfter(site, a, news).ids, AfterNetns(d.netns, news))
  {
    match news {
      case NetnsSnapshot(list) => NV.FirstSnapshotSyncs(a.vnids.ids, list, View(list));
      case NetnsChange(change) => NV.ChangeKeepsSync(site.netnsDir, a.vnids, change, d.netns);
    }
  }

  lemma NetnsKeepsReady(site: Site, a: Agent, d: Dirs, h: Happening)
    requires site.self.net.multitenant && Ready(site, a, d) && Admissible(site, a, d, h) && h.NetnsCame?
    ensures Ready(site, Next(site, a, h), Seen(d, h))
  {
    NewsAreGood(site, a, h.news);
    NewsKeepSync(site, a, d, h.news);
    BatchKeepsTenants(site.self.net, TenantsOf(a), BatchOf(site, a, h.news), h.locals, h.services);
    RoutesDecide(site, a.records, a.st, Next(site, a, h).st, d.subnets);
  }

  lemma ListedAreGood(list: seq<Netns>)
    requires GoodList(list)
    ensures GoodIds(Listed(map[], list))
  {
    ListedIds(map[], list);
    forall n | n in Listed(map[], list)
      ensures PlainName(n) && Listed(map[], list)[n] < Delivery.VNI_VALUES
    {
      assert n in View(list);
    }
  }

  /** Before the namespaces are listed every pod and every service is lost. */
  lemma FirstIdsKeepTenants(net: NF.Net, t: Tenants, ids: map<string, uint32>)
    requires TenantsReady(net, t) && t.ids == map[] && GoodIds(ids)
    ensures TenantsReady(net, t.(ids := ids))
  {
  }

  lemma ListKeepsReady(site: Site, a: Agent, d: Dirs, list: seq<Netns>)
    requires Ready(site, a, d) && Admissible(site, a, d, NetnsListed(list))
    ensures Ready(site, Next(site, a, NetnsListed(list)), d)
  {
    ListedIds(map[], list);
    ListedAreGood(list);
    FirstIdsKeepTenants(site.self.net, TenantsOf(a), Listed(map[], list));
  }

  // ---------------------------------------------------------------- host news

  lemma {:induction false} ByAddressHolds(hosts: seq<HostSubnet>)
    requires MS.DistinctAddresses(hosts)
    ensures forall i :: 0 <= i < |hosts| ==> hosts[i].value.hostIP in ByAddress(hosts) && ByAddress(hosts)[hosts[i].value.hostIP] == hosts[i]
    ensures forall ip :: ip in ByAddress(hosts) ==> exists i :: 0 <= i < |hosts| && hosts[i] == ByAddress(hosts)[ip] && hosts[i].value.hostIP == ip
    decreases |hosts|
  {
    if hosts != [] {
      ByAddressHolds(hosts[..|hosts| - 1]);
    }
  }

  lemma SnapshotDistinctHosts(site: Site, hosts: seq<HostSubnet>)
    requires MS.DistinctAddresses(hosts) && GoodSubnets(site, ByAddress(hosts))
    ensures DistinctHosts(hosts)
    ensures forall i :: 0 <= i < |hosts| && hosts[i].value.subnet.Some? ==>
              hosts[i].value.subnet.value.Valid() && hosts[i].value.subnet.value.len + site.setup.cfg.hostBits == 32
  {
    ByAddressHolds(hosts);
  }

  /** A first snapshot of the hosts. */
  lemma HostsKeepFollowing(site: Site, st: NF.Node, hosts: seq<HostSubnet>)
    requires GoodHostNews(site, map[], HostSnapshot(hosts)) && SizedRoutes(site.setup.cfg, st)
    ensures UpToDate(site.setup, site.self, Watching(hosts, OnBatch(site.self, st, ResetBatch([], hosts)).0), ByAddress(hosts))
  {
    SnapshotDistinctHosts(site, hosts);
    ByAddressHolds(hosts);
    FirstResetAdds(hosts);
    AdditionsFollow(site.setup.cfg, site.self, st, hosts);
    var st' := OnBatch(site.self, st, ResetBatch([], hosts)).0;
    forall ip | ip in ByAddress(hosts)
      ensures Follows(site.self, st', ip, ByAddress(hosts)[ip].value.subnet)
    {
      var i :| 0 <= i < |hosts| && hosts[i] == ByAddress(hosts)[ip] && hosts[i].value.hostIP == ip;
      assert Follows(site.self, st', hosts[i].value.hostIP, hosts[i].value.subnet);
    }
  }

  lemma {:induction false} BatchLeavesPods(self: Self, st: NF.Node, batch: seq<SubnetEvent>)
    ensures OnBatch(self, st, batch).0.pods == st.pods && OnBatch(self, st, batch).0.services == st.services
    decreases |batch|
  {
    if batch != [] {
      BatchLeavesPods(self, st, batch[..|batch| - 1]);
    }
  }

  lemma HostsKeepReady(site: Site, a: Agent, d: Dirs, news: HostNews)
    requires Ready(site, a, d) && Admissible(site, a, d, HostsCame(news))
    ensures Ready(site, Next(site, a, HostsCame(news)), Seen(d, HostsCame(news)))
  {
    match news {
      case HostSnapshot(hosts) =>
        HostsKeepFollowing(site, a.st, hosts);
        BatchLeavesPods(site.self, a.st, ResetBatch([], hosts));
      case HostWrite(w) =>
        WriteKeepsFollowing(site.setup, site.self, Watching(a.records, a.st), d.subnets, w);
        BatchLeavesPods(site.self, a.st, [AfterEvent(a.records, MS.EventOf(site.setup, w)).1]);
    }
  }

  // ---------------------------------------------------------------- pods and services

  lemma PodsKeepReady(site: Site, a: Agent, d: Dirs, h: Happening)
    requires Ready(site, a, d) && Admissible(site, a, d, h) && (h.PodUp? || h.PodDown?)
    ensures Ready(site, Next(site, a, h), d)
  {
    RoutesDecide(site, a.records, a.st, Next(site, a, h).st, d.subnets);
  }

  lemma ServiceUpKeepsReady(site: Site, a: Agent, d: Dirs, name: string, keys: seq<NF.SvcKey>)
    requires Ready(site, a, d) && Admissible(site, a, d, ServiceUp(name, keys))
    ensures Ready(site, Next(site, a, ServiceUp(name, keys)), d)
  {
    if name in a.vnids.ids {
      ServicesWith(a.st, keys, a.vnids.ids[name]);
    }
    RoutesDecide(site, a.records, a.st, Next(site, a, ServiceUp(name, keys)).st, d.subnets);
  }

  lemma ServiceDownKeepsReady(site: Site, a: Agent, d: Dirs, keys: seq<NF.SvcKey>)
    requires Ready(site, a, d)
    ensures Ready(site, Next(site, a, ServiceDown(keys)), d)
  {
    ServicesWithout(a.st, keys);
    RoutesDecide(site, a.records, a.st, Next(site, a, ServiceDown(keys)).st, d.subnets);
  }

  lemma StepKeepsReady(site: Site, a: Agent, d: Dirs, h: Happening)
    requires site.self.net.multitenant && Ready(site, a, d) && Admissible(site, a, d, h)
    ensures Ready(site, Next(site, a, h), Seen(d, h))
  {
    match h {
      case NetnsListed(list) => ListKeepsReady(site, a, d, list);
      case NetnsCame(_, _, _) => NetnsKeepsReady(site, a, d, h);
      case HostsCame(news) => HostsKeepReady(site, a, d, news);
      case PodUp(_, _, _, _) => PodsKeepReady(site, a, d, h);
      case PodDown(_) => PodsKeepReady(site, a, d, h);
      case ServiceUp(name, keys) => ServiceUpKeepsReady(site, a, d, name, keys);
      case ServiceDown(keys) => ServiceDownKeepsReady(site, a, d, keys);
    }
  }

  // ---------------------------------------------------------------- runs

  ghost function AgentAfter(site: Site, a: Agent, hs: seq<Happening>): Agent
    decreases |hs|
  {
    if hs == [] then a else AgentAfter(site, Next(site, a, hs[0]), hs[1..])
  }

  ghost function SeenAll(d: Dirs, hs: seq<Happening>): Dirs
    decreases |hs|
  {
    if hs == [] then d else SeenAll(Seen(d, hs[0]), hs[1..])
  }

  ghost predicate AllAdmissible(site: Site, a: Agent, d: Dirs, hs: seq<Happening>)
    decreases |hs|
  {
    hs != [] ==> Admissible(site, a, d, hs[0]) && AllAdmissible(site, Next(site, a, hs[0]), Seen(d, hs[0]), hs[1..])
  }

  /** However its happenings interleave, a node stays in step with what its watchers have delivered. */
  lemma {:induction false} RunKeepsReady(site: Site, a: Agent, d: Dirs, hs: seq<Happening>)
    requires site.self.net.multitenant && Ready(site, a, d) && AllAdmissible(site, a, d, hs)
    ensures Ready(site, AgentAfter(site, a, hs), SeenAll(d, hs))
    decreases |hs|
  {
    if hs != [] {
      StepKeepsReady(site, a, d, hs[0]);
      RunKeepsReady(site, Next(site, a, hs[0]), Seen(d, hs[0]), hs[1..]);
    }
  }

  ghost predicate AllOrderly(site: Site, a: Agent, hs: seq<Happening>)
    decreases |hs|
  {
    hs != [] ==> Orderly(site, a, hs[0]) && AllOrderly(site, Next(site, a, hs[0]), hs[1..])
  }

  // ---------------------------------------------------------------- what the watchers deliver

  ghost function NetnsIn(hs: seq<Happening>): seq<NetnsNews>
    decreases |hs|
  {
    if hs == [] then []
    else (if hs[0].NetnsCame? then [hs[0].news] else []) + NetnsIn(hs[1..])
  }

  ghost function HostsIn(hs: seq<Happening>): seq<HostNews>
    decreases |hs|
  {
    if hs == [] then []
    else (if hs[0].HostsCame? then [hs[0].hostNews] else []) + HostsIn(hs[1..])
  }

  ghost function AfterAllNetns(netns: map<string, NetnsInfo>, news: seq<NetnsNews>): map<string, NetnsInfo>
    decreases |news|
  {
    if news == [] then netns else AfterAllNetns(AfterNetns(netns, news[0]), news[1..])
  }

  function AfterAllHosts(subnets: map<uint32, HostSubnet>, news: seq<HostNews>): map<uint32, HostSubnet>
    decreases |news|
  {
    if news == [] then subnets else AfterAllHosts(AfterHosts(subnets, news[0]), news[1..])
  }

  ghost predicate AllGoodNetns(news: seq<NetnsNews>) {
    forall i :: 0 <= i < |news| ==> GoodNetnsNews(news[i])
  }

  ghost predicate AllGoodHosts(site: Site, subnets: map<uint32, HostSubnet>, news: seq<HostNews>)
    decreases |news|
  {
    news != [] ==> GoodHostNews(site, subnets, news[0]) && AllGoodHosts(site, AfterHosts(subnets, news[0]), news[1..])
  }

  ghost predicate GoodListings(hs: seq<Happening>) {
    forall h :: h in hs && h.NetnsListed? ==> GoodList(h.list)
  }

  /** Whatever the first happening delivers comes before what the others deliver. */
  lemma FirstDelivered(hs: seq<Happening>)
    requires hs != []
    ensures if hs[0].NetnsCame? then NetnsIn(hs) != [] && NetnsIn(hs)[0] == hs[0].news && NetnsIn(hs)[1..] == NetnsIn(hs[1..])
            else NetnsIn(hs) == NetnsIn(hs[1..])
    ensures if hs[0].HostsCame? then HostsIn(hs) != [] && HostsIn(hs)[0] == hs[0].hostNews && HostsIn(hs)[1..] == HostsIn(hs[1..])
            else HostsIn(hs) == HostsIn(hs[1..])
  {
    assert [] + NetnsIn(hs[1..]) == NetnsIn(hs[1..]) && [] + HostsIn(hs[1..]) == HostsIn(hs[1..]);
  }

  lemma {:induction false} SeenIsDelivered(d: Dirs, hs: seq<Happening>)
    ensures SeenAll(d, hs) == Dirs(AfterAllNetns(d.netns, NetnsIn(hs)), AfterAllHosts(d.subnets, HostsIn(hs)))
    decreases |hs|
  {
    if hs != [] {
      SeenIsDelivered(Seen(d, hs[0]), hs[1..]);
      FirstDelivered(hs);
    }
  }

  lemma FirstIsAdmissible(site: Site, a: Agent, d: Dirs, hs: seq<Happening>)
    requires hs != [] && AllOrderly(site, a, hs) && GoodListings(hs)
    requires AllGoodNetns(NetnsIn(hs)) && AllGoodHosts(site, d.subnets, HostsIn(hs))
    ensures Admissible(site, a, d, hs[0])
    ensures AllGoodNetns(NetnsIn(hs[1..])) && AllGoodHosts(site, Seen(d, hs[0]).subnets, HostsIn(hs[1..]))
  {
    FirstDelivered(hs);
    if hs[0].NetnsCame? {
      assert forall i :: 0 <= i < |NetnsIn(hs[1..])| ==> NetnsIn(hs[1..])[i] == NetnsIn(hs)[i + 1];
    }
  }

  /** Orderly surroundings and good news make every happening admissible. */
  lemma {:induction false} GoodIsAdmissible(site: Site, a: Agent, d: Dirs, hs: seq<Happening>)
    requires AllOrderly(site, a, hs) && GoodListings(hs)
    requires AllGoodNetns(NetnsIn(hs)) && AllGoodHosts(site, d.subnets, HostsIn(hs))
    ensures AllAdmissible(site, a, d, hs)
    decreases |hs|
  {
    if hs != [] {
      FirstIsAdmissible(site, a, d, hs);
      GoodIsAdmissible(site, Next(site, a, hs[0]), Seen(d, hs[0]), hs[1..]);
    }
  }

  /** A node that has been delivered good news is in step with the directories after them. */
  lemma DeliveredIsReady(site: Site, a: Agent, d: Dirs, hs: seq<Happening>)
    requires site.self.net.multitenant && Ready(site, a, d) && AllOrderly(site, a, hs) && GoodListings(hs)
    requires AllGoodNetns(NetnsIn(hs)) && AllGoodHosts(site, d.subnets, HostsIn(hs))
    ensures Ready(site, AgentAfter(site, a, hs),
                  Dirs(AfterAllNetns(d.netns, NetnsIn(hs)), AfterAllHosts(d.subnets, HostsIn(hs))))
  {
    GoodIsAdmissible(site, a, d, hs);
    RunKeepsReady(site, a, d, hs);
    SeenIsDelivered(d, hs);
  }

  // ---------------------------------------------------------------- starting

  /** A node that has set up its bridge and done nothing else. */
  ghost function Blank(): Agent {
    Agent(NV.Node([], map[]), [], NF.NOTHING, Belonging(_ => "", _ => "", {}, {}))
  }

  lemma BlankIsReady(site: Site)
    ensures Ready(site, Blank(), Dirs(map[], map[]))
  {
  }
}
