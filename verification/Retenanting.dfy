/** A namespace's VNID changes on a node: its pods and services move to the new tenant
    (`updatePodNetwork`, `nodeHandleNetnsEvent` in ksdn/vnids_node.go). */
module Retenanting {
  import opened Prelude
  import opened Word32
  import opened Watch
  import opened Records
  import opened NetIds
  import opened NodeVnids
  import OpenFlow
  import NF = NodeFlows
  import opened NodeOps
  import opened Bridge
  import Delivery

  /** A running pod of the namespace, as the script finds it. */
  datatype LocalPod = LocalPod(ip: uint32, port: nat, mac: nat)

  /** A service of the namespace; `None` is a headless one. */
  datatype Service = Service(clusterIP: Option<uint32>, ports: seq<(NF.SvcProto, nat)>)

  function KeysOf(s: Service): seq<NF.SvcKey> {
    if s.clusterIP.None? then [] else
      seq(|s.ports|, i requires 0 <= i < |s.ports| => NF.SvcKey(s.clusterIP.value, s.ports[i].0, s.ports[i].1))
  }

  // ---------------------------------------------------------------- what changes

  ghost function TagPods(st: NF.Node, locals: seq<LocalPod>, vnid: uint32): NF.Node
    decreases |locals|
  {
    if locals == [] then st else
      TagPods(WithPod(st, locals[0].ip, NF.Pod(locals[0].port, locals[0].mac, vnid)), locals[1..], vnid)
  }

  /** A pod whose namespace has no VNID on the node is not updated. */
  ghost function TagKnown(st: NF.Node, ids: map<string, uint32>, name: string, locals: seq<LocalPod>): NF.Node {
    if name in ids then TagPods(st, locals, ids[name]) else st
  }

  ghost function TagServices(net: NF.Net, st: NF.Node, services: seq<Service>, vnid: uint32): NF.Node
    decreases |services|
  {
    if services == [] then st else
      TagServices(net, MoveService(net, st, services[0], vnid), services[1..], vnid)
  }

  ghost function MoveService(net: NF.Net, st: NF.Node, s: Service, vnid: uint32): NF.Node {
    Learn(net, Learn(net, st, DeleteServiceOp(KeysOf(s))), AddServiceOp(KeysOf(s), vnid))
  }

  /** What the cluster guarantees of the addresses the lists name. */
  ghost predicate GoodLists(net: NF.Net, locals: seq<LocalPod>, services: seq<Service>) {
    && (forall l :: l in locals ==> PodAddress(net, l.ip))
    && (forall s :: s in services ==> forall k :: k in KeysOf(s) ==>
          net.service.len <= 32 && net.service.Contains(k.ip))
  }

  class NodeTenants {
    const net: NF.Net
    const vnids: NodeVnidMap
    const bridge: Switch

    constructor (net: NF.Net, vnids: NodeVnidMap, bridge: Switch)
      ensures this.net == net && this.vnids == vnids && this.bridge == bridge
    {
      this.net, this.vnids, this.bridge := net, vnids, bridge;
    }

    /** The pods of the namespace, each brought to the VNID its node has for the namespace. */
    method UpdatePods(name: string, locals: seq<LocalPod>, ghost st: NF.Node)
      requires net.Valid() && Sane(net, st) && bridge.rules == NF.Compile(net, st)
      requires forall l :: l in locals ==> PodAddress(net, l.ip)
      modifies bridge
      ensures var st' := TagKnown(st, vnids.ids, name, locals);
        Sane(net, st') && bridge.rules == NF.Compile(net, st')
    {
      var vnid := vnids.GetVNID(name);
      if vnid.None? {
        return;
      }
      ghost var now := st;
      for i := 0 to |locals|
        invariant Sane(net, now) && bridge.rules == NF.Compile(net, now)
        invariant TagPods(st, locals, vnid.value) == TagPods(now, locals[i..], vnid.value)
      {
        assert locals[i] in locals && locals[i..][1..] == locals[i + 1..];
        var pod := NF.Pod(locals[i].port, locals[i].mac, vnid.value);
        UpdatePod(locals[i].ip, pod, now);
        now := WithPod(now, locals[i].ip, pod);
      }
    }

    method UpdatePod(ip: uint32, pod: NF.Pod, ghost st: NF.Node)
      requires net.Valid() && Sane(net, st) && bridge.rules == NF.Compile(net, st) && PodAddress(net, ip)
      modifies bridge
      ensures Sane(net, WithPod(st, ip, pod)) && bridge.rules == NF.Compile(net, WithPod(st, ip, pod))
    {
      OpCompiles(net, st, UpdatePodOp(ip, pod));
      var ok := bridge.RunScript(net, "update", ip, pod);
    }

    method UpdateServices(services: seq<Service>, vnid: uint32, ghost st: NF.Node)
      requires net.Valid() && Sane(net, st) && bridge.rules == NF.Compile(net, st)
      requires GoodLists(net, [], services)
      modifies bridge
      ensures var st' := TagServices(net, st, services, vnid);
        Sane(net, st') && bridge.rules == NF.Compile(net, st')
    {
      ghost var now := st;
      for i := 0 to |services|
        invariant Sane(net, now) && bridge.rules == NF.Compile(net, now)
        invariant TagServices(net, st, services, vnid) == TagServices(net, now, services[i..], vnid)
      {
        assert services[i] in services && services[i..][1..] == services[i + 1..];
        UpdateService(services[i], vnid, now);
        now := MoveService(net, now, services[i], vnid);
      }
    }

    /** Delete, then add; headless services have no flows. */
    method UpdateService(s: Service, vnid: uint32, ghost st: NF.Node)
      requires net.Valid() && Sane(net, st) && bridge.rules == NF.Compile(net, st)
      requires GoodLists(net, [], [s])
      modifies bridge
      ensures Sane(net, MoveService(net, st, s, vnid))
      ensures bridge.rules == NF.Compile(net, MoveService(net, st, s, vnid))
    {
      var keys := KeysOf(s);
      assert s in [s];
      OpCompiles(net, st, DeleteServiceOp(keys));
      OpCompiles(net, Learn(net, st, DeleteServiceOp(keys)), AddServiceOp(keys, vnid));
      if s.clusterIP.Some? {
        bridge.DeleteServiceRules(net, keys);
        bridge.AddServiceRules(net, keys, vnid);
      }
    }

    /** `updatePodNetwork`. */
    method UpdatePodNetwork(name: string, locals: seq<LocalPod>, services: seq<Service>, vnid: uint32, ghost st: NF.Node)
      requires net.Valid() && Sane(net, st) && bridge.rules == NF.Compile(net, st)
      requires GoodLists(net, locals, services)
      modifies bridge
      ensures var st' := Moved(net, st, vnids.ids, name, locals, services, vnid);
        Sane(net, st') && bridge.rules == NF.Compile(net, st')
    {
      UpdatePods(name, locals, st);
      UpdateServices(services, vnid, TagKnown(st, vnids.ids, name, locals));
    }

    /** `nodeHandleNetnsEvent` on one event; `locals` and `services` are what Kubernetes lists for the
        namespace. A removed namespace's services become global; its pods keep their VNID. */
    method HandleNetnsEvent(e: Event<NetnsInfo>, locals: seq<LocalPod>, services: seq<Service>, ghost st: NF.Node)
      requires net.Valid() && Sane(net, st) && bridge.rules == NF.Compile(net, st)
      requires GoodLists(net, locals, services) && vnids.Valid()
      modifies bridge, vnids
      ensures vnids.Valid() && vnids.ids == Handle(old(vnids.ids), e)
      ensures var st' := OnNetnsEvent(net, st, old(vnids.ids), e, locals, services);
        Sane(net, st') && bridge.rules == NF.Compile(net, st')
    {
      match e {
        case Added(rec) =>
          var known := vnids.GetVNID(rec.name);
          if known == Some(rec.value.netID) {
            assert vnids.ids == vnids.ids[rec.name := rec.value.netID];
            return;
          }
          vnids.SetVNID(rec.name, rec.value.netID);
          UpdatePodNetwork(rec.name, locals, services, rec.value.netID, st);
        case Removed(rec) =>
          UpdatePodNetwork(rec.name, locals, services, GLOBAL_VNID, st);
          var was := vnids.UnsetVNID(rec.name);
      }
    }
  }

  // ---------------------------------------------------------------- what an event does

  ghost predicate IsLocal(locals: seq<LocalPod>, ip: uint32) {
    exists l :: l in locals && l.ip == ip
  }

  /** The script finds no other pod of the list at the address later on. */
  ghost predicate LastAt(locals: seq<LocalPod>, i: int) {
    0 <= i < |locals| && forall j :: i < j < |locals| ==> locals[j].ip != locals[i].ip
  }

  /** A listed pod has the port and the hardware address that the script finds, and the VNID. */
  lemma {:induction false} TaggedAsFound(st: NF.Node, locals: seq<LocalPod>, vnid: uint32, i: nat)
    requires LastAt(locals, i)
    ensures locals[i].ip in TagPods(st, locals, vnid).pods
    ensures TagPods(st, locals, vnid).pods[locals[i].ip] == NF.Pod(locals[i].port, locals[i].mac, vnid)
    decreases |locals|
  {
    var rest, st1 := locals[1..], WithPod(st, locals[0].ip, NF.Pod(locals[0].port, locals[0].mac, vnid));
    if i == 0 {
      TaggedPods(st1, rest, vnid);
      assert !IsLocal(rest, locals[0].ip);
    } else {
      assert LastAt(rest, i - 1);
      TaggedAsFound(st1, rest, vnid, i - 1);
    }
  }

  lemma {:induction false} TaggedPods(st: NF.Node, locals: seq<LocalPod>, vnid: uint32)
    ensures var st' := TagPods(st, locals, vnid);
      && st' == st.(pods := st'.pods)
      && (forall ip :: ip in st'.pods <==> ip in st.pods || IsLocal(locals, ip))
      && (forall ip :: ip in st'.pods ==>
            if IsLocal(locals, ip) then st'.pods[ip].vnid == vnid else st'.pods[ip] == st.pods[ip])
    decreases |locals|
  {
    if locals != [] {
      var rest := locals[1..];
      TaggedPods(WithPod(st, locals[0].ip, NF.Pod(locals[0].port, locals[0].mac, vnid)), rest, vnid);
      forall ip
        ensures IsLocal(locals, ip) <==> ip == locals[0].ip || IsLocal(rest, ip)
      {
        assert forall l :: l in locals <==> l == locals[0] || l in rest;
      }
    }
  }

  lemma {:induction false} ServicesWithout(st: NF.Node, keys: seq<NF.SvcKey>)
    ensures WithoutServices(st, keys) == st.(services := WithoutServices(st, keys).services)
    ensures forall k :: k in WithoutServices(st, keys).services <==> k in st.services && k !in keys
    ensures forall k :: k in WithoutServices(st, keys).services ==> WithoutServices(st, keys).services[k] == st.services[k]
    decreases |keys|
  {
    if keys != [] {
      ServicesWithout(WithoutService(st, keys[0]), keys[1..]);
    }
  }

  lemma {:induction false} ServicesWith(st: NF.Node, keys: seq<NF.SvcKey>, vnid: uint32)
    ensures WithServices(st, keys, vnid) == st.(services := WithServices(st, keys, vnid).services)
    ensures forall k :: k in WithServices(st, keys, vnid).services <==> k in st.services || k in keys
    ensures forall k :: k in WithServices(st, keys, vnid).services ==>
              WithServices(st, keys, vnid).services[k] == if k in keys then Owners(st, k) + {vnid} else st.services[k]
    decreases |keys|
  {
    if keys != [] {
      ServicesWith(WithService(st, keys[0], vnid), keys[1..], vnid);
    }
  }

  /** Deleting a service without knowing its tenant and adding it under another leaves only the other. */
  lemma ServiceMoved(net: NF.Net, st: NF.Node, keys: seq<NF.SvcKey>, vnid: uint32)
    requires net.multitenant
    ensures var st' := Learn(net, Learn(net, st, DeleteServiceOp(keys)), AddServiceOp(keys, vnid));
      && st' == st.(services := st'.services)
      && (forall k :: k in st'.services <==> k in st.services || k in keys)
      && (forall k :: k in st'.services ==> st'.services[k] == if k in keys then {vnid} else st.services[k])
  {
    ServicesWithout(st, keys);
    ServicesWith(WithoutServices(st, keys), keys, vnid);
  }

  ghost predicate Mentions(services: seq<Service>, k: NF.SvcKey) {
    exists s :: s in services && k in KeysOf(s)
  }

  lemma {:induction false} TaggedServices(net: NF.Net, st: NF.Node, services: seq<Service>, vnid: uint32)
    requires net.multitenant
    ensures var st' := TagServices(net, st, services, vnid);
      && st' == st.(services := st'.services)
      && (forall k :: k in st'.services <==> k in st.services || Mentions(services, k))
      && (forall k :: k in st'.services ==> st'.services[k] == if Mentions(services, k) then {vnid} else st.services[k])
    decreases |services|
  {
    if services != [] {
      var keys, rest := KeysOf(services[0]), services[1..];
      ServiceMoved(net, st, keys, vnid);
      TaggedServices(net, MoveService(net, st, services[0], vnid), rest, vnid);
      forall k
        ensures Mentions(services, k) <==> k in keys || Mentions(rest, k)
      {
        assert forall s :: s in services <==> s == services[0] || s in rest;
      }
    }
  }

  ghost function Moved(net: NF.Net, st: NF.Node, ids: map<string, uint32>, name: string,
                       locals: seq<LocalPod>, services: seq<Service>, vnid: uint32): NF.Node {
    TagServices(net, TagKnown(st, ids, name, locals), services, vnid)
  }

  ghost function OnNetnsEvent(net: NF.Net, st: NF.Node, ids: map<string, uint32>, e: Event<NetnsInfo>,
                              locals: seq<LocalPod>, services: seq<Service>): NF.Node {
    match e
    case Added(rec) =>
      if rec.name in ids && ids[rec.name] == rec.value.netID then st
      else Moved(net, st, ids[rec.name := rec.value.netID], rec.name, locals, services, rec.value.netID)
    case Removed(rec) => Moved(net, st, ids, rec.name, locals, services, GLOBAL_VNID)
  }

  predicate Skipped(ids: map<string, uint32>, rec: Netns) { rec.name in ids && ids[rec.name] == rec.value.netID }

  /** What an event with a new VNID does: the pods and service ports listed for the namespace have it,
      whatever they had, and all others have what they had. */
  lemma EventMeaning(net: NF.Net, st: NF.Node, ids: map<string, uint32>, rec: Netns,
                     locals: seq<LocalPod>, services: seq<Service>)
    requires net.multitenant && !Skipped(ids, rec)
    ensures var st' := OnNetnsEvent(net, st, ids, Added(rec), locals, services);
      && st' == st.(pods := st'.pods, services := st'.services)
      && (forall ip :: ip in st'.pods <==> ip in st.pods || IsLocal(locals, ip))
      && (forall ip :: ip in st'.pods ==>
            if IsLocal(locals, ip) then st'.pods[ip].vnid == rec.value.netID else st'.pods[ip] == st.pods[ip])
      && (forall i :: LastAt(locals, i) ==>
            locals[i].ip in st'.pods && st'.pods[locals[i].ip] == NF.Pod(locals[i].port, locals[i].mac, rec.value.netID))
      && (forall k :: k in st'.services <==> k in st.services || Mentions(services, k))
      && (forall k :: k in st'.services ==>
            st'.services[k] == if Mentions(services, k) then {rec.value.netID} else st.services[k])
  {
    TaggedPods(st, locals, rec.value.netID);
    TaggedServices(net, TagPods(st, locals, rec.value.netID), services, rec.value.netID);
    forall i | LastAt(locals, i)
      ensures locals[i].ip in TagPods(st, locals, rec.value.netID).pods
      ensures TagPods(st, locals, rec.value.netID).pods[locals[i].ip] == NF.Pod(locals[i].port, locals[i].mac, rec.value.netID)
    {
      TaggedAsFound(st, locals, rec.value.netID, i);
    }
  }

  /** A service with an address is mentioned with every one of its ports, under the port's own protocol and
      number, and with nothing else; a headless one not at all. */
  lemma MentionedPorts(services: seq<Service>, k: NF.SvcKey)
    ensures Mentions(services, k) <==>
            exists s :: s in services && s.clusterIP == Some(k.ip) && (k.proto, k.port) in s.ports
  {
    forall s
      ensures k in KeysOf(s) <==> s.clusterIP == Some(k.ip) && (k.proto, k.port) in s.ports
    {
      if s.clusterIP == Some(k.ip) && (k.proto, k.port) in s.ports {
        var i :| 0 <= i < |s.ports| && s.ports[i] == (k.proto, k.port);
        assert KeysOf(s)[i] == k;
      }
    }
  }

  // ---------------------------------------------------------------- who has which tenant

  /** Which namespace a pod's address and a service port are of, and those that the last list of their
      namespace did not name: Kubernetes has deleted them and their flows are about to go. */
  datatype Belonging = Belonging(podNs: uint32 -> string, svcNs: NF.SvcKey -> string,
                           lostPods: set<uint32>, lostServices: set<NF.SvcKey>)

  /** All pods carry the VNIDs of their namespaces, all service ports admit exactly those tenants (and 0). */
  ghost predicate Carry(ids: map<string, uint32>, podNs: uint32 -> string, svcNs: NF.SvcKey -> string, st: NF.Node) {
    && (forall ip :: ip in st.pods ==> podNs(ip) in ids && st.pods[ip].vnid == ids[podNs(ip)])
    && (forall k :: k in st.services ==> svcNs(k) in ids && st.services[k] == {ids[svcNs(k)]})
  }

  /** All pods and service ports that are not lost do. */
  ghost predicate TenantsFollow(ids: map<string, uint32>, o: Belonging, st: NF.Node) {
    && (forall ip :: ip in st.pods && ip !in o.lostPods ==>
          o.podNs(ip) in ids && st.pods[ip].vnid == ids[o.podNs(ip)])
    && (forall k :: k in st.services && k !in o.lostServices ==>
          o.svcNs(k) in ids && st.services[k] == {ids[o.svcNs(k)]})
  }

  ghost function BelongingAfter(o: Belonging, st: NF.Node, ids: map<string, uint32>, e: Event<NetnsInfo>,
                             locals: seq<LocalPod>, services: seq<Service>): Belonging {
    if e.Removed? || Skipped(ids, e.rec) then o else
      var name := e.rec.name;
      Belonging((ip: uint32) => if IsLocal(locals, ip) then name else o.podNs(ip),
             (k: NF.SvcKey) => if Mentions(services, k) then name else o.svcNs(k),
             set ip | ip in st.pods && !IsLocal(locals, ip) && (ip in o.lostPods || o.podNs(ip) == name),
             set k | k in st.services && !Mentions(services, k) && (k in o.lostServices || o.svcNs(k) == name))
  }

  /** A namespace's new VNID reaches all its pods and service ports that Kubernetes lists, those that had
      no flows yet or belonged to another namespace included, and no others change. */
  lemma NewVnidReachesAll(net: NF.Net, st: NF.Node, ids: map<string, uint32>, o: Belonging, rec: Netns,
                          locals: seq<LocalPod>, services: seq<Service>)
    requires net.multitenant && TenantsFollow(ids, o, st)
    ensures TenantsFollow(Handle(ids, Added(rec)), BelongingAfter(o, st, ids, Added(rec), locals, services),
                          OnNetnsEvent(net, st, ids, Added(rec), locals, services))
  {
    if Skipped(ids, rec) {
      assert ids[rec.name := rec.value.netID] == ids;
    } else {
      EventMeaning(net, st, ids, rec, locals, services);
    }
  }

  /** The lists name all the namespace's pods and service ports on the node, and only the namespace's. */
  ghost predicate Complete(st: NF.Node, name: string, podNs: uint32 -> string, svcNs: NF.SvcKey -> string,
                           locals: seq<LocalPod>, services: seq<Service>) {
    && (forall l :: l in locals ==> podNs(l.ip) == name)
    && (forall ip :: ip in st.pods && podNs(ip) == name ==> IsLocal(locals, ip))
    && (forall k :: Mentions(services, k) ==> svcNs(k) == name)
    && (forall k :: k in st.services && svcNs(k) == name ==> Mentions(services, k))
  }

  /** Complete lists lose no pod and no service. */
  lemma CompleteLosesNone(st: NF.Node, ids: map<string, uint32>, o: Belonging, rec: Netns,
                          locals: seq<LocalPod>, services: seq<Service>)
    requires Complete(st, rec.name, o.podNs, o.svcNs, locals, services)
    ensures var o' := BelongingAfter(o, st, ids, Added(rec), locals, services);
      o'.lostPods <= o.lostPods && o'.lostServices <= o.lostServices
  {
  }

  /** Removing a namespace opens its service ports to every tenant, while its pods keep their VNID. */
  lemma RemovalOpensServices(net: NF.Net, st: NF.Node, ids: map<string, uint32>, rec: Netns,
                             podNs: uint32 -> string, svcNs: NF.SvcKey -> string,
                             locals: seq<LocalPod>, services: seq<Service>)
    requires net.multitenant && Carry(ids, podNs, svcNs, st)
    requires Complete(st, rec.name, podNs, svcNs, locals, services)
    ensures var st' := OnNetnsEvent(net, st, ids, Removed(rec), locals, services);
      && (forall k :: k in st.services ==>
            k in st'.services && st'.services[k] == if svcNs(k) == rec.name then {GLOBAL_VNID} else st.services[k])
      && (forall ip :: ip in st.pods ==> ip in st'.pods && st'.pods[ip].vnid == st.pods[ip].vnid)
  {
    if rec.name in ids {
      TaggedPods(st, locals, ids[rec.name]);
    }
    TaggedServices(net, TagKnown(st, ids, rec.name, locals), services, GLOBAL_VNID);
  }

  // ---------------------------------------------------------------- addresses and ports of listed pods

  /** The pods of a list have addresses of the node and ports of their own. */
  ghost predicate GoodLocals(net: NF.Net, st: NF.Node, locals: seq<LocalPod>) {
    && (forall l :: l in locals ==> GoodPlace(net, l.ip, l.port))
    && (forall l, ip :: l in locals && ip in st.pods && !IsLocal(locals, ip) ==> st.pods[ip].port != l.port)
    && (forall l, l' :: l in locals && l' in locals && l.port == l'.port ==> l.ip == l'.ip)
  }

  ghost predicate GoodPlace(net: NF.Net, ip: uint32, port: nat) {
    OpenFlow.InCidr(Some(net.local), ip) && ip != NF.Gateway(net.local) && port != NF.VXLAN && port != NF.TUN
  }

  lemma {:induction false} TaggedPorts(st: NF.Node, locals: seq<LocalPod>, vnid: uint32)
    ensures forall ip :: IsLocal(locals, ip) ==>
              ip in TagPods(st, locals, vnid).pods
              && exists l :: l in locals && l.ip == ip && l.port == TagPods(st, locals, vnid).pods[ip].port
    decreases |locals|
  {
    if locals != [] {
      var first, rest := locals[0], locals[1..];
      var st1 := WithPod(st, first.ip, NF.Pod(first.port, first.mac, vnid));
      TaggedPorts(st1, rest, vnid);
      TaggedPods(st1, rest, vnid);
      assert forall l :: l in locals <==> l == first || l in rest;
      forall ip | IsLocal(locals, ip)
        ensures ip in TagPods(st, locals, vnid).pods
        ensures exists l :: l in locals && l.ip == ip && l.port == TagPods(st, locals, vnid).pods[ip].port
      {
        if !IsLocal(rest, ip) {
          assert ip == first.ip && TagPods(st1, rest, vnid).pods[ip] == st1.pods[ip];
        }
      }
    }
  }

  lemma TaggedPodsOk(net: NF.Net, st: NF.Node, locals: seq<LocalPod>, vnid: uint32)
    requires Delivery.PodsOk(net, st) && GoodLocals(net, st, locals)
    ensures Delivery.PodsOk(net, TagPods(st, locals, vnid))
  {
    TaggedPods(st, locals, vnid);
    TaggedPorts(st, locals, vnid);
  }

  // ---------------------------------------------------------------- restarts

  /** A restarted node that kept its flows has listed `ids` and handles the first snapshot; `locals` and
      `services` are what Kubernetes lists for each namespace. */
  ghost function Reconciled(net: NF.Net, st: NF.Node, ids: map<string, uint32>, snapshot: seq<Netns>,
                            locals: string -> seq<LocalPod>, services: string -> seq<Service>): NF.Node
    decreases |snapshot|
  {
    if snapshot == [] then st else
      var init, last := snapshot[..|snapshot| - 1], snapshot[|snapshot| - 1];
      OnNetnsEvent(net, Reconciled(net, st, ids, init, locals, services), Listed(ids, init), Added(last),
                   locals(last.name), services(last.name))
  }

  ghost predicate AllComplete(st: NF.Node, podNs: uint32 -> string, svcNs: NF.SvcKey -> string,
                              locals: string -> seq<LocalPod>, services: string -> seq<Service>) {
    forall name :: Complete(st, name, podNs, svcNs, locals(name), services(name))
  }

  /** The snapshot has another NetID than the node listed, so the namespace is retagged. */
  ghost predicate Retagged(ids: map<string, uint32>, snapshot: seq<Netns>, name: string) {
    name in View(snapshot) && !(name in ids && ids[name] == View(snapshot)[name].netID)
  }

  /** The VNID a retagged namespace gets. */
  ghost function Target(ids: map<string, uint32>, snapshot: seq<Netns>, name: string): Option<uint32> {
    if Retagged(ids, snapshot, name) then Some(View(snapshot)[name].netID) else None
  }

  ghost predicate PodTagIs(st: NF.Node, st': NF.Node, target: Option<uint32>, ip: uint32) {
    match target
    case Some(v) => ip in st'.pods ==> st'.pods[ip].vnid == v
    case None => ip in st'.pods ==> ip in st.pods && st'.pods[ip] == st.pods[ip]
  }

  ghost predicate ServiceTagIs(st: NF.Node, st': NF.Node, target: Option<uint32>, k: NF.SvcKey) {
    match target
    case Some(v) => k in st'.services ==> st'.services[k] == {v}
    case None => k in st'.services ==> k in st.services && st'.services[k] == st.services[k]
  }

  /** Retagged pods and service ports have the target, also those that had no flows; the others have what
      they had. */
  ghost predicate TagsAre(st: NF.Node, st': NF.Node, podNs: uint32 -> string, svcNs: NF.SvcKey -> string,
                          ids: map<string, uint32>, snapshot: seq<Netns>) {
    && st.pods.Keys <= st'.pods.Keys && st.services.Keys <= st'.services.Keys
    && (forall ip :: ip in st'.pods ==> PodTagIs(st, st', Target(ids, snapshot, podNs(ip)), ip))
    && (forall k :: k in st'.services ==> ServiceTagIs(st, st', Target(ids, snapshot, svcNs(k)), k))
  }

  /** What retagging added belongs to retagged namespaces, so the lists for another are still complete. */
  lemma CompleteStays(st: NF.Node, st': NF.Node, podNs: uint32 -> string, svcNs: NF.SvcKey -> string,
                      ids: map<string, uint32>, init: seq<Netns>, name: string,
                      locals: seq<LocalPod>, services: seq<Service>)
    requires TagsAre(st, st', podNs, svcNs, ids, init) && name !in View(init)
    requires Complete(st, name, podNs, svcNs, locals, services)
    ensures Complete(st', name, podNs, svcNs, locals, services)
  {
  }

  lemma {:induction false} ReconciledTags(net: NF.Net, st: NF.Node, ids: map<string, uint32>, snapshot: seq<Netns>,
                                          podNs: uint32 -> string, svcNs: NF.SvcKey -> string,
                                          locals: string -> seq<LocalPod>, services: string -> seq<Service>)
    requires net.multitenant && UniqueNames(snapshot) && AllComplete(st, podNs, svcNs, locals, services)
    ensures TagsAre(st, Reconciled(net, st, ids, snapshot, locals, services), podNs, svcNs, ids, snapshot)
    decreases |snapshot|
  {
    if snapshot != [] {
      var init, last := snapshot[..|snapshot| - 1], snapshot[|snapshot| - 1];
      assert snapshot == init + [last];
      ReconciledTags(net, st, ids, init, podNs, svcNs, locals, services);
      ViewOneMore(init, last);
      var st1 := Reconciled(net, st, ids, init, locals, services);
      CompleteStays(st, st1, podNs, svcNs, ids, init, last.name, locals(last.name), services(last.name));
      TagsOneMore(net, st, st1, podNs, svcNs, ids, init, last, locals(last.name), services(last.name));
    }
  }

  lemma TagsOneMore(net: NF.Net, st: NF.Node, st1: NF.Node, podNs: uint32 -> string, svcNs: NF.SvcKey -> string,
                    ids: map<string, uint32>, init: seq<Netns>, last: Netns,
                    locals: seq<LocalPod>, services: seq<Service>)
    requires net.multitenant && UniqueNames(init + [last]) && UniqueNames(init)
    requires TagsAre(st, st1, podNs, svcNs, ids, init)
    requires Complete(st1, last.name, podNs, svcNs, locals, services)
    ensures TagsAre(st, OnNetnsEvent(net, st1, Listed(ids, init), Added(last), locals, services),
                    podNs, svcNs, ids, init + [last])
  {
    var st2 := OnNetnsEvent(net, st1, Listed(ids, init), Added(last), locals, services);
    if !Skipped(Listed(ids, init), last) {
      EventMeaning(net, st1, Listed(ids, init), last, locals, services);
    }
    forall ip | ip in st2.pods
      ensures PodTagIs(st, st2, Target(ids, init + [last], podNs(ip)), ip)
    {
      TargetOneMore(ids, init, last, podNs(ip));
      assert ip in st1.pods ==> PodTagIs(st, st1, Target(ids, init, podNs(ip)), ip);
    }
    forall k | k in st2.services
      ensures ServiceTagIs(st, st2, Target(ids, init + [last], svcNs(k)), k)
    {
      TargetOneMore(ids, init, last, svcNs(k));
      assert k in st1.services ==> ServiceTagIs(st, st1, Target(ids, init, svcNs(k)), k);
    }
  }

  lemma TargetOneMore(ids: map<string, uint32>, init: seq<Netns>, last: Netns, n: string)
    requires UniqueNames(init + [last]) && UniqueNames(init)
    ensures Target(ids, init + [last], n)
         == if n == last.name && !Skipped(Listed(ids, init), last) then Some(last.value.netID) else Target(ids, init, n)
  {
    ListedIds(ids, init);
    ViewOneMore(init, last);
  }

  lemma ViewOneMore(init: seq<Netns>, last: Netns)
    requires UniqueNames(init + [last])
    ensures View(init + [last]) == View(init)[last.name := last.value] && last.name !in View(init)
  {
    assert (init + [last])[..|init|] == init;
    assert (init + [last])[|init|] == last;
    forall i | 0 <= i < |init|
      ensures init[i].name != last.name
    {
      assert (init + [last])[i] == init[i];
    }
  }

  ghost predicate Present(st: NF.Node, podNs: uint32 -> string, svcNs: NF.SvcKey -> string, name: string) {
    (exists ip :: ip in st.pods && podNs(ip) == name) || (exists k :: k in st.services && svcNs(k) == name)
  }

  /** The namespace is known, and retagged by the first snapshot or unchanged since before the restart. */
  ghost predicate Caught(before: map<string, uint32>, ids: map<string, uint32>, snapshot: seq<Netns>, n: string) {
    && n in Listed(ids, snapshot)
    && (Retagged(ids, snapshot, n) || (n in before && before[n] == Listed(ids, snapshot)[n]))
  }

  lemma PodsCaught(st: NF.Node, st': NF.Node, before: map<string, uint32>, ids: map<string, uint32>,
                   snapshot: seq<Netns>, podNs: uint32 -> string, svcNs: NF.SvcKey -> string, ip: uint32)
    requires UniqueNames(snapshot) && TagsAre(st, st', podNs, svcNs, ids, snapshot)
    requires Carry(before, podNs, svcNs, st) && ip in st'.pods
    ensures var now := Listed(ids, snapshot);
      (podNs(ip) in now && st'.pods[ip].vnid == now[podNs(ip)]) <==> Caught(before, ids, snapshot, podNs(ip))
  {
    ListedIds(ids, snapshot);
  }

  lemma ServicesCaught(st: NF.Node, st': NF.Node, before: map<string, uint32>, ids: map<string, uint32>,
                       snapshot: seq<Netns>, podNs: uint32 -> string, svcNs: NF.SvcKey -> string, k: NF.SvcKey)
    requires UniqueNames(snapshot) && TagsAre(st, st', podNs, svcNs, ids, snapshot)
    requires Carry(before, podNs, svcNs, st) && k in st'.services
    ensures var now := Listed(ids, snapshot);
      (svcNs(k) in now && st'.services[k] == {now[svcNs(k)]}) <==> Caught(before, ids, snapshot, svcNs(k))
  {
    ListedIds(ids, snapshot);
    var n, now := svcNs(k), Listed(ids, snapshot);
    if n in now && !Retagged(ids, snapshot, n) {
      assert st'.services[k] == {before[n]};
      assert {before[n]} == {now[n]} ==> before[n] == now[n] by {
        if {before[n]} == {now[n]} { assert before[n] in {now[n]}; }
      }
    }
  }

  /** After a restart over kept flows, pods and services have their namespaces' VNIDs if and only if every
      namespace they are of is known and was retagged by the first snapshot or has the VNID it had. */
  lemma RestartFollowsIff(net: NF.Net, st: NF.Node, before: map<string, uint32>, ids: map<string, uint32>,
                          snapshot: seq<Netns>, podNs: uint32 -> string, svcNs: NF.SvcKey -> string,
                          locals: string -> seq<LocalPod>, services: string -> seq<Service>)
    requires net.multitenant && UniqueNames(snapshot) && Carry(before, podNs, svcNs, st)
    requires AllComplete(st, podNs, svcNs, locals, services)
    ensures Carry(Listed(ids, snapshot), podNs, svcNs, Reconciled(net, st, ids, snapshot, locals, services))
       <==> forall n :: Present(st, podNs, svcNs, n) ==> Caught(before, ids, snapshot, n)
  {
    ReconciledTags(net, st, ids, snapshot, podNs, svcNs, locals, services);
    CarryIffCaught(st, Reconciled(net, st, ids, snapshot, locals, services), before, ids, snapshot, podNs, svcNs);
  }

  /** What was added is caught, being retagged. */
  lemma AddedCaught(ids: map<string, uint32>, snapshot: seq<Netns>, before: map<string, uint32>, n: string)
    requires UniqueNames(snapshot) && Target(ids, snapshot, n).Some?
    ensures Caught(before, ids, snapshot, n)
  {
    ListedIds(ids, snapshot);
  }

  lemma CarryIffCaught(st: NF.Node, st': NF.Node, before: map<string, uint32>, ids: map<string, uint32>,
                       snapshot: seq<Netns>, podNs: uint32 -> string, svcNs: NF.SvcKey -> string)
    requires UniqueNames(snapshot) && TagsAre(st, st', podNs, svcNs, ids, snapshot)
    requires Carry(before, podNs, svcNs, st)
    ensures Carry(Listed(ids, snapshot), podNs, svcNs, st')
       <==> forall n :: Present(st, podNs, svcNs, n) ==> Caught(before, ids, snapshot, n)
  {
    if Carry(Listed(ids, snapshot), podNs, svcNs, st') {
      forall n | Present(st, podNs, svcNs, n)
        ensures Caught(before, ids, snapshot, n)
      {
        if ip :| ip in st.pods && podNs(ip) == n {
          PodsCaught(st, st', before, ids, snapshot, podNs, svcNs, ip);
        } else {
          var k :| k in st.services && svcNs(k) == n;
          ServicesCaught(st, st', before, ids, snapshot, podNs, svcNs, k);
        }
      }
    }
    if forall n :: Present(st, podNs, svcNs, n) ==> Caught(before, ids, snapshot, n) {
      CaughtCarry(st, st', before, ids, snapshot, podNs, svcNs);
    }
  }

  lemma CaughtCarry(st: NF.Node, st': NF.Node, before: map<string, uint32>, ids: map<string, uint32>,
                    snapshot: seq<Netns>, podNs: uint32 -> string, svcNs: NF.SvcKey -> string)
    requires UniqueNames(snapshot) && TagsAre(st, st', podNs, svcNs, ids, snapshot)
    requires Carry(before, podNs, svcNs, st)
    requires forall n :: Present(st, podNs, svcNs, n) ==> Caught(before, ids, snapshot, n)
    ensures Carry(Listed(ids, snapshot), podNs, svcNs, st')
  {
    forall ip | ip in st'.pods
      ensures podNs(ip) in Listed(ids, snapshot) && st'.pods[ip].vnid == Listed(ids, snapshot)[podNs(ip)]
    {
      PodsCaught(st, st', before, ids, snapshot, podNs, svcNs, ip);
      if Target(ids, snapshot, podNs(ip)).Some? {
        AddedCaught(ids, snapshot, before, podNs(ip));
      } else {
        assert Present(st, podNs, svcNs, podNs(ip));
      }
    }
    forall k | k in st'.services
      ensures svcNs(k) in Listed(ids, snapshot) && st'.services[k] == {Listed(ids, snapshot)[svcNs(k)]}
    {
      ServicesCaught(st, st', before, ids, snapshot, podNs, svcNs, k);
      if Target(ids, snapshot, svcNs(k)).Some? {
        AddedCaught(ids, snapshot, before, svcNs(k));
      } else {
        assert Present(st, podNs, svcNs, svcNs(k));
      }
    }
  }

  /** When nothing was written between the list and the first snapshot: if and only if no namespace with
      pods or services on the node was deleted or got another VNID while the node was down. */
  lemma RestartMissesChangesIff(net: NF.Net, st: NF.Node, before: map<string, uint32>, list: seq<Netns>,
                                podNs: uint32 -> string, svcNs: NF.SvcKey -> string,
                                locals: string -> seq<LocalPod>, services: string -> seq<Service>)
    requires net.multitenant && UniqueNames(list) && Carry(before, podNs, svcNs, st)
    requires AllComplete(st, podNs, svcNs, locals, services)
    ensures var ids := Listed(map[], list);
      Carry(Listed(ids, list), podNs, svcNs, Reconciled(net, st, ids, list, locals, services))
      <==> forall n :: Present(st, podNs, svcNs, n) ==> n in View(list) && before[n] == View(list)[n].netID
  {
    var ids := Listed(map[], list);
    RestartFollowsIff(net, st, before, ids, list, podNs, svcNs, locals, services);
    ListedIds(map[], list);
    ListedIds(ids, list);
    forall n | Present(st, podNs, svcNs, n)
      ensures n in before
      ensures Caught(before, ids, list, n) <==> n in View(list) && before[n] == View(list)[n].netID
    {
    }
  }

  /** A pod set up with VNID 10, whose namespace got 11 while the node was down, keeps 10: the node lists
      11 first, so the snapshot brings nothing new, whatever Kubernetes lists. */
  lemma RestartKeepsOldVnid(net: NF.Net, ip: uint32, port: nat, mac: nat,
                            locals: string -> seq<LocalPod>, services: string -> seq<Service>)
    ensures var st := NF.NOTHING.(pods := map[ip := NF.Pod(port, mac, 10)]);
      var list := [Record("red", NetnsInfo(11, "", ""))];
      && Listed(map[], list) == map["red" := 11]
      && Reconciled(net, st, Listed(map[], list), list, locals, services) == st
  {
    var st := NF.NOTHING.(pods := map[ip := NF.Pod(port, mac, 10)]);
    var list := [Record("red", NetnsInfo(11, "", ""))];
    assert list[..0] == [];
    assert Listed(map[], []) == map[];
    assert Listed(map[], list) == map["red" := 11];
    assert Reconciled(net, st, Listed(map[], list), [], locals, services) == st;
  }
}
