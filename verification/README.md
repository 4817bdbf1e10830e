# k8s-ovs: a verified model of the multi-tenant SDN

k8s-ovs gives every node of a cluster a subnet and every namespace a VNID, replicates both through
etcd, and has every node compile what it knows into OpenFlow rules. This project models that chain
and proves that it forwards exactly the traffic the tenants are allowed.

- **Forwarding.** `OpenFlow` is a switch: flows with priorities and matches, `add-flow` that
  overwrites, non-strict `del-flows`, and a pipeline that may pick any of several equal flows.
  `NodeFlows` compiles a node's knowledge (pods, tunnels, routes, services) into the flow tables.
  `Pipeline` proves the tables equal to a declarative policy, `NodeOps` and `Bridge` prove that every
  command sequence keeps the flows equal to that compilation, and `Delivery` composes two bridges over
  VXLAN.
- **Subnets.** `Word32`, `Cidrs` and `Addresses` are 32-bit arithmetic, networks and address bytes.
  `SubnetNumbering` is the bit-rotated numbering, `SubnetAllocator` the allocator. `MasterSubnets` is
  the master's protocol as a state machine whose two goroutines, watcher, administrators and failovers
  interleave at every etcd and allocator call; `SubnetMaster` ties the methods to it, `SubnetRequests`
  proves that requests are served, `HostRoutes` that nodes follow it, `HostResets` when they still do
  after a reset, and `SubnetRename` says exactly for which host names it is safe.
- **VNIDs.** `NetIds` is the ID pool, `MasterVnids` the master's map with assignment, revocation,
  join, isolate, global, rollback and failover, `VnidRequests` says what each of these comes to, and
  `VnidSharing` when namespaces come to share an ID. `NodeVnids` is the node's two-way index, and
  `Retenanting` moves a namespace's pods and services to another VNID and restarts nodes.
- **Events.** `Watch` is the snapshot and update differ, `EventQueue` the delta compressor.
- **All of it.** `NodeRuns` is the life of a node, in which writes to both directories are delivered
  while pods and services come and go, and `NodeCommands` the commands it gives its bridge.
  `TenantNetwork` builds the network from runs of both masters and the lives of the nodes: two pods can
  talk, and a pod and a service, if and only if etcd records equal VNIDs for their namespaces or one of
  them is 0. `Example` is a cluster that grows while its nodes run and meets all the assumptions.

A class stands for each object the program updates in place. Its methods are proved equal to
specification functions, and the theorems are about those functions.

## Where the code does not do what one expects

Each is stated with its exact condition.

- Joining a namespace that alone holds its VNID to itself frees an ID in use
  (`MasterVnids.UpdateKeepsInvIff`, `MasterVnids.PoolAlwaysExactIff`, `MasterVnids.SelfJoinBreaksPool`).
- Isolating the only namespace with VNID 0 leaves it global (`MasterVnids.IsolateLeavesGlobalIff`,
  `MasterVnids.SoleGlobalStaysGlobal`).
- After a failed renewal memory keeps the new VNID (`MasterVnids.FailedRenewAgreesIff`). If the
  namespace held the old one alone, the pool may hand that out although etcd still records it
  (`VnidSharing.FailedRenewalLeavesStaleIff`), and after a failover two namespaces share it without a
  join (`VnidSharing.RefusedUpdateLeadsToSharing`), until the update is made again. Only joins make
  namespaces share an ID if and only if no step frees one that etcd goes on recording
  (`VnidSharing.OnlyJoinsShareIff`).
- The range check of the ID pool wraps (`NetIds.RangeAcceptedIff`).
- A watcher's reset never reports changed values (`Watch.ResetCompleteIff`, `NodeVnids.ResyncIff`), and
  a node that restarts keeps the flows of namespaces whose VNID changed meanwhile
  (`Retenanting.RestartFollowsIff`, `Retenanting.RestartKeepsOldVnid`).
- A node whose watcher starts over loses the route to a new host that got the subnet of a deleted one,
  since the removal is announced last (`HostResets.ResetIsCompleteIff`,
  `HostResets.PassedOnSubnetIsUnrouted`).
- Networks in use of another prefix length make the allocator hand out overlapping ones
  (`SubnetAllocator.DisjointForeverIffUniform`).
- A host that may be written under two names can lose a subnet that is recorded, and so can one whose
  name is also recorded for another address (`SubnetRename.SafeIffOneToOne`).
- The delta compressor panics on some sequences, such as a relist while an update is queued
  (`EventQueue.AcceptedIffSequenced`, `EventQueue.RelistAfterUpdatePanics`).
- Setting up a pod on an address that another pod left behind keeps the old tenant's flows
  (`NodeOps.SetupPodCompilesIff`), and tearing down a pod at the gateway's address removes the
  gateway's flows (`NodeOps.TeardownCompilesIff`).
- Removing a namespace opens its services to all tenants (`Retenanting.RemovalOpensServices`) when a
  reset reports the removal; a deletion that the watch itself reports names an etcd key instead of the
  namespace and changes nothing on the node (`Records.KeyIsNoName`, `NodeVnids.ChangesKeepSync`).

## What is assumed

- One master is active. An etcd operation that fails has no effect; which ones fail is a parameter.
- Administrators write a subnet record only to ask for an assignment, and a namespace record only to
  ask for an action. Host names and addresses correspond one to one; names contain no slash.
- The pods of a node have distinct addresses inside its subnet, none the gateway's, and distinct ports
  other than 1 and 2; an address may pass from one namespace's pod to another's, and a pod is torn down
  before its address is set up again. Service ports are in the service network and of one service at a
  time. The cluster and service networks share no address.
- The lists Kubernetes returns may leave out pods and services that are being deleted and name ones
  without flows. What a namespace's list leaves out is about to be deleted, and the theorems say nothing
  about it until then.

## Model

| member | source | states |
|---|---|---|
| `TenantNetwork.NamespacesAreIsolated` | README.md:20-23 | after any runs of both masters and any lives of the nodes, from their set-up over all writes delivered to them: an IP packet a pod sends under its own address to another pod, on the same or another node, arrives at that pod's port and nowhere else iff the VNIDs etcd records for the namespaces the two pods have at the end are equal or one is 0; otherwise it arrives nowhere |
| `TenantNetwork.ServicesAreIsolated` | README.md:20-23 | after the same runs and lives: a pod's packet to a service port goes to tun0 and nowhere else iff the VNIDs etcd records for the namespaces of the pod and of the service are equal or one is 0; otherwise it is dropped |
| `TenantNetwork.StrangersNeverTalk` | README.md:20-23 | over runs without joins and moves to the global network, whatever etcd answers and whoever starts over, a packet between pods of two ordinary namespaces arrives nowhere |
| `TenantNetwork.SystemPodsReachAll` | ksdn/vnids_master.go:112-113 | over runs in which nobody joins "kube-system" to another namespace or isolates it, its pods and every other pod reach each other |
| `TenantNetwork.SystemServicesReachAll` | ksdn/vnids_master.go:112-113 | over the same runs its pods reach every service and every pod reaches its services |
| `TenantNetwork.LivedWorldOk` | ksdn/controller.go:52-79 | what the masters and the nodes keep is exactly what forwarding needs: valid networks, disjoint node subnets, unambiguous routes, VNIDs that fit a tunnel key |
| `TenantNetwork.LivedLinked` | ksdn/subnets.go:203-239 | every node has the tunnel and the route of every other, and no address is in both their subnets |
| `TenantNetwork.EndIsReady` | ksdn/vnids_node.go:142-152 | a node to which all writes have been delivered, amid pods and services that come and go, is in step with both masters, and its pods and services with it, except those Kubernetes no longer lists |
| `TenantNetwork.InstalledFlows` | ksdn/controller.go:223-286 | the flows installed command by command since the bridge was set up are those the theorem is about |
| `TenantNetwork.MasterWritesGood` | ksdn/vnids_master.go:203-262 | etcd is what the VNID master wrote, with plain names and VNIDs in range, over every fair run |
| `TenantNetwork.ProtocolWritesGood` | ksdn/subnets.go:20-99 | the writes of every run of the subnet protocol never record one subnet for two hosts, and etcd is what was written |
| `NodeRuns.RunKeepsReady` | ksdn/vnids_node.go:200-220 | however namespace writes, host writes, pods and services interleave, a node stays in step with what was delivered |
| `NodeRuns.DeliveredIsReady` | ksdn/vnids_node.go:142-152 | from set-up on, whenever the list, the first snapshots and the later writes come, the node is in step with the two directories as delivered |
| `NodeRuns.PodsComeAndGo` | rootfs/usr/sbin/k8s-sdn-ovs:84-107 | a pod of a known namespace is there with its port, MAC and VNID once set up, and gone once torn down; nothing else changes |
| `NodeRuns.ServicesComeAndGo` | ksdn/vnids_node.go:259-275 | the ports of a new service are open to its namespace as well, those of a deleted one to nobody; no others change |
| `NodeCommands.FlowsFollowRun` | rootfs/usr/sbin/k8s-sdn-ovs:84-107 | through all happenings the commands given to the bridge keep its flows the compilation of what the node knows |
| `NodeCommands.CommandsLead` | ksdn/vnids_node.go:154-198 | the commands of a happening are ones the bridge may be given, and bring the node's knowledge to where its handlers bring it |
| `NodeCommands.FlowsFromSetup` | ksdn/controller.go:180-325 | from the fixed flows of set-up on, the flows are the compilation of what the node knows |
| `Example.PremisesHold` | README.md:20-23 | a two-node cluster, whose second node is added and whose second namespace is assigned while the first node runs, meets every assumption of the end-to-end theorem |
| `Example.PodsInPlace` | README.md:20-23 | in that cluster the nodes end with the pods of two tenants, each with the VNID recorded for its namespace |
| `Example.RedReachesRed` | README.md:20-23 | in that cluster a packet of the first node's pod to a pod of the second arrives iff the two are of one tenant |
| `Pipeline.FlowsImplementPolicy` | ksdn/controller.go:223-286 | for every packet and every choice the switch may make between equal flows, the compiled tables 0 to 9 emit exactly what the declarative policy `Verdict` says |
| `Pipeline.At0` | ksdn/controller.go:225-236 | table 0: tunnel, node and container traffic are told apart; each has exactly the fate of its policy function |
| `Pipeline.At1` | ksdn/controller.go:238-240 | table 1: tunnel traffic is routed iff it comes from a known host |
| `Pipeline.At2` | ksdn/controller.go:242-246 | table 2: container traffic goes on, with the tenant loaded, iff port and address (and MAC for ARP) are those of one pod |
| `Pipeline.At3` | ksdn/controller.go:248-250 | table 3: IP to the service network meets the service policy, the rest is routed |
| `Pipeline.At4` | ksdn/controller.go:252-255 | table 4: to tun0 iff the tenant is 0 or the addressed service port is open to it |
| `Pipeline.At5` | ksdn/controller.go:257-265 | table 5: gateway before local subnet before cluster network before the outside; ARP never leaves the cluster |
| `Pipeline.At6` | ksdn/controller.go:267-269 | table 6: ARP reaches every pod of the node |
| `Pipeline.At7` | ksdn/controller.go:271-274 | table 7: IP reaches the pod addressed iff its tenant is permitted |
| `Pipeline.At8` | ksdn/controller.go:276-279 | table 8: into the tunnel with the tenant as key, to the one host whose subnet holds the address |
| `Pipeline.GotosIncrease` | ksdn/controller.go:223-286 | in every compiled rule set a goto leads to a later table, so no packet loops |
| `Pipeline.DeterministicIff` | ksdn/controller.go:341-342 | routing between nodes has one outcome for every packet iff no address has routes to two hosts |
| `Delivery.TenantDelivery` | README.md:20-23 | over bridges joined by VXLAN, with the 24-bit key of section 5 of RFC 7348: delivery to exactly the addressed pod iff same VNID or either is 0 |
| `Delivery.LocalDelivery` | rootfs/usr/sbin/k8s-sdn-ovs:44-53 | between two pods of one node: exactly the receiver's port, iff the tenants may talk |
| `Delivery.SenderHalf` | ksdn/controller.go:341-342 | towards a pod of another node: exactly one packet, into the tunnel to that node, keyed with the sender's VNID |
| `Delivery.ReceiverHalf` | ksdn/controller.go:327-330 | from the tunnel: to exactly the addressed pod iff the key's tenant may talk to it |
| `Delivery.SpoofingIsDropped` | rootfs/usr/sbin/k8s-sdn-ovs:40-42 | a packet from a container port under another pod's address, ARP with another MAC, or anything but IP and ARP is dropped |
| `Delivery.TunnelTrafficEndsHere` | ksdn/controller.go:225-228 | a packet from the VXLAN port goes to the node itself or the pod addressed if it is from the cluster, for this node and from a known host, and otherwise nowhere; never out of the VXLAN port |
| `Delivery.ServiceReachability` | ksdn/controller.go:404-411 | a pod's packet to a service owned by VNID s goes to tun0 iff the pod's VNID is s, or one of them is 0; otherwise it is dropped |
| `Delivery.ServicePorts` | ksdn/controller.go:252-255 | with any number of tenants to a port, and for unknown ports: to tun0 iff the pod's VNID is 0 or the port is open to it or to all |
| `Delivery.GatewayReachability` | ksdn/controller.go:258-259 | a pod's IP and ARP to the gateway go to the node, whatever its tenant |
| `Delivery.OutsideReachability` | ksdn/controller.go:264-265 | a pod's IP out of the cluster goes to the node; its ARP is dropped |
| `Delivery.NodeReachesPods` | ksdn/controller.go:230-233 | the node reaches every pod on it, with IP and with ARP from the gateway's address |
| `Delivery.NodeReachesNodes` | ksdn/controller.go:276-279 | what the node sends to another node's subnet goes into the tunnel there under key 0 |
| `Delivery.OtherNodeTrafficIsDropped` | ksdn/controller.go:230-233 | whatever else the node sends is dropped |
| `Delivery.ArpReachesPods` | rootfs/usr/sbin/k8s-sdn-ovs:44-45 | ARP between pods of one node reaches the pod asked for, whatever the tenants |
| `Delivery.NobodyThere` | ksdn/controller.go:267-279 | a packet to a cluster address nobody has is dropped |
| `Delivery.GatewayInside` | pkg/utils/common.go:27-30 | the gateway of a node subnet is its second address and lies inside it |
| `NodeOps.SetupCompiles` | ksdn/controller.go:223-286 | on a new bridge the fixed flows are the compilation of a node that knows nothing; no flow overwrites another |
| `NodeOps.SetupPodCompilesIff` | rootfs/usr/sbin/k8s-sdn-ovs:33-53 | setting a pod up turns the compilation of the pods before into that of the pods after iff the address is new or nothing changes; otherwise flows of the old pod stay |
| `NodeOps.TeardownCompilesIff` | rootfs/usr/sbin/k8s-sdn-ovs:69-73 | the four non-strict deletions over all tables remove exactly the pod's flows iff its address is not the gateway's, a one-address route's or a service's |
| `NodeOps.UpdatePodCompiles` | rootfs/usr/sbin/k8s-sdn-ovs:92-96 | an update leaves exactly the flows of the new tenant |
| `NodeOps.AddHostCompiles` | ksdn/controller.go:327-348 | adding host rules records the tunnel and makes the host the one behind the subnet, replacing a former one |
| `NodeOps.DeleteHostCompiles` | ksdn/controller.go:350-362 | deleting host rules forgets the tunnel and every route inside the subnet, and nothing else |
| `NodeOps.AddServiceCompiles` | ksdn/controller.go:404-411 | adding a service rule opens the port to one more tenant |
| `NodeOps.DeleteServiceCompiles` | ksdn/controller.go:413-415 | deleting without naming a tenant removes the rules of every tenant for that port and no other flow |
| `Bridge.RunCompiles` | rootfs/usr/sbin/k8s-sdn-ovs:84-107 | after any run of pod, host and service operations the flows are exactly the compilation of what the node then knows |
| `Bridge.OpCompiles` | ksdn/controller.go:327-398 | each single operation refines the operation on the node's knowledge |
| `Bridge.Switch.RunScript` | rootfs/usr/sbin/k8s-sdn-ovs:84-107 | the script's dispatch: setup, update, teardown, and an error that changes nothing |
| `Bridge.Switch.AddHostSubnetRules` | ksdn/controller.go:327-348 | the three flows of another node |
| `Bridge.Switch.DeleteHostSubnetRules` | ksdn/controller.go:350-362 | the three deletions |
| `Bridge.Switch.AddServiceRules` | ksdn/controller.go:364-380 | one flow for each port; nothing in single-tenant mode |
| `Bridge.Switch.DeleteServiceRules` | ksdn/controller.go:382-398 | one deletion for each port; nothing in single-tenant mode |
| `OpenFlow.WithinIsSubset` | rootfs/usr/sbin/k8s-sdn-ovs:69-73 | a flow covered by a non-strict deletion matches only packets the description matches |
| `OpenFlow.AddFlowsReplace` | ksdn/controller.go:332-342 | adding flows replaces those with the same table, priority and match and no others |
| `Bridge.RestartKeepsFlows` | ksdn/controller.go:119-147 | the version flow alone: a restarted node recognises its flows iff the mode (multi- or single-tenant) is unchanged, whatever was added since |
| `Bridge.Switch.SetupSDN` | ksdn/controller.go:180-325 | the flows alone: leaves those of an up-to-date bridge and otherwise exactly the fixed ones |
| `Retenanting.EventMeaning` | ksdn/vnids_node.go:154-198 | after an event with a new VNID exactly the listed pods and service ports have it, whatever they had, and no others change |
| `Retenanting.MentionedPorts` | ksdn/controller.go:371-378 | the ports concerned are exactly those of the listed services with an address, each under its own protocol and number |
| `Retenanting.TaggedAsFound` | rootfs/usr/sbin/k8s-sdn-ovs:33-53 | a retagged pod has the port and MAC the script finds |
| `Retenanting.NewVnidReachesAll` | ksdn/vnids_node.go:154-198 | whatever lists Kubernetes returns, all pods and service ports keep the VNIDs of the namespaces they are of, those that had no flows yet or were another namespace's included, except those of the namespace that are not listed |
| `Retenanting.CompleteLosesNone` | ksdn/vnids_node.go:164-184 | when the lists name all the namespace's pods and services there are no such exceptions |
| `Retenanting.ServiceMoved` | ksdn/vnids_node.go:185-197 | delete and re-add leaves the port open to exactly the new tenant |
| `Retenanting.NodeTenants.HandleNetnsEvent` | ksdn/vnids_node.go:200-220 | index and flows after one event are those of the abstract event; an unchanged VNID touches nothing |
| `Retenanting.NodeTenants.UpdatePods` | ksdn/vnids_node.go:171-176 | every listed pod is updated to the VNID the node holds for the namespace, or none when it holds none |
| `Retenanting.NodeTenants.UpdateServices` | ksdn/vnids_node.go:185-197 | every listed service with an address is deleted and re-added under the VNID |
| `Retenanting.RemovalOpensServices` | ksdn/vnids_node.go:212-215 | an event that removes a namespace by its name makes its services global while its pods keep their VNID |
| `Retenanting.NodeTenants.UpdatePodNetwork` | ksdn/vnids_node.go:171-197 | the flows become the compilation of the node with running pods retagged and services moved |
| `Retenanting.RestartFollowsIff` | ksdn/vnids_node.go:142-146 | after a restart over kept flows, pods and services have their namespaces' VNIDs iff each such namespace is known and was retagged by the first snapshot or has the VNID from before |
| `Retenanting.RestartMissesChangesIff` | ksdn/vnids_node.go:205-207 | with nothing written between list and snapshot: iff no namespace present on the node was deleted or changed its VNID while the node was down |
| `Retenanting.RestartKeepsOldVnid` | ksdn/vnids_node.go:205-207 | a pod whose namespace got another VNID while the node was down keeps the old one |
| `HostRoutes.NodeFollowsProtocol` | ksdn/subnets.go:203-239 | whatever the two master goroutines, administrators and failovers do, a node that was up to date and has handled all later writes has the tunnel and route of every recorded host |
| `HostRoutes.SnapshotFollows` | pkg/etcdmanager/watch.go:65-94 | a node that starts watching from a snapshot is up to date with it |
| `HostRoutes.WriteKeepsFollowing` | ksdn/subnets.go:203-239 | one write keeps a node up to date because the subnet written is no other host's |
| `HostRoutes.DeletionUnnoticed` | pkg/etcdmanager/etcdv2/registry.go:411-419 | a deletion event, which names a key and no host, changes nothing on the node |
| `HostRoutes.SizedRoutesUnambiguous` | pkg/snalloc/subnet_allocator.go:103-110 | routes to subnets of the allocator's size give every address at most one host |
| `HostRoutes.SubnetHandler.HandleBatch` | ksdn/subnets.go:203-239 | the handler keeps the bridge equal to the compilation of the abstract batch, including own, repeated, invalid and unparsable hosts |
| `HostRoutes.SubnetHandler.HandleEvent` | ksdn/subnets.go:206-237 | one event; after the removal of another host no flow lets its tunnel traffic in |
| `HostResets.AdditionInstalls` | ksdn/subnets.go:210-226 | an added host with a proper address that is another one and new to the batch gets its tunnel, and its route if the subnet parses; any other gets nothing |
| `HostResets.RemovalForgets` | ksdn/subnets.go:227-233 | a removed host's tunnel goes, and every route inside its subnet, and nothing else |
| `HostResets.RemovedHostIsForgotten` | ksdn/subnets.go:203-239 | after a batch that removes a host and does not add it again its address is no tunnel, and its subnet no route unless another host is added with it |
| `HostResets.ResetForgetsMissing` | pkg/etcdmanager/watch.go:65-94 | if tunnels and routes were to hosts of the saved records, after a reset none is to a host that the snapshot does not have |
| `HostResets.ResetIsCompleteIff` | pkg/etcdmanager/watch.go:65-94 | if they were exactly those of the saved records, after a reset they are exactly those of the snapshot iff no host that stays got a subnet, none left one to nobody, and no new host has the subnet of one that is gone |
| `HostResets.PassedOnSubnetIsUnrouted` | pkg/etcdmanager/watch.go:65-94 | a reset after which a new host that got a deleted one's subnet has a tunnel and no route |
| `MasterSubnets.SubnetProtocolSafe` | ksdn/subnets.go:20-99 | under every interleaving of addNode, deleteNode, event handling, watching, administrators' requests and failover, every subnet in etcd stays marked allocated and no two hosts hold overlapping subnets |
| `MasterSubnets.StepKeepsInv` | ksdn/subnets.go:157-196 | every single step keeps the invariant: each subnet in use is recorded for one host, held by one goroutine, or about to be released |
| `SubnetRequests.RequestIsServed` | ksdn/subnets.go:157-194 | an administrator's request that is taken ends, after three steps of the goroutine that etcd answers and however others step in between, with a record of that name and address that has a subnet and asks for nothing |
| `SubnetRequests.RequestGetsFreeSubnet` | ksdn/subnets.go:157-194 | from the request on, without others: the host's record is the only change, with a subnet that was free and now is in use |
| `SubnetRequests.NothingAskedNothingDone` | ksdn/subnets.go:164-177 | an added record that asks for nothing changes neither etcd nor allocator |
| `SubnetMaster.Master.HandleSubnetEvent` | ksdn/subnets.go:157-194 | the handler does the steps of the machine: a request it may revoke for a valid address gets a free subnet if there is one and etcd takes it; any other added record changes nothing |
| `SubnetMaster.Master.HandleSubnetEvents` | ksdn/subnets.go:157-194 | a batch is handled event by event |
| `SubnetMaster.SubnetStartMaster` | ksdn/subnets.go:20-45 | a new master's allocator has exactly the recorded subnets inside the cluster network in use, as the machine starts |
| `SubnetMaster.RecordedIsNotHandedOut` | ksdn/subnets.go:20-45 | no run of the allocator hands out a recorded host's subnet before it is released |
| `MasterSubnets.WatchResetKeeps` | pkg/etcdmanager/watch.go:65-94 | the subnets a reset announces as removed are recorded for nobody |
| `MasterSubnets.LostIsUnrecorded` | ksdn/subnets.go:157-196 | a subnet a reset releases belongs to a host that is gone, and to no other |
| `MasterSubnets.StartIsInv` | ksdn/subnets.go:20-45 | a master started from etcd marks exactly the recorded subnets |
| `SubnetMaster.Master.DeleteNode` | ksdn/subnets.go:91-99 | removes the record, or reports the failure and changes nothing |
| `SubnetMaster.Master.AllocateFor` | ksdn/subnets.go:74-88 | allocates and records, or gives the subnet back when etcd refuses |
| `SubnetMaster.FinishMissing` | ksdn/subnets.go:74-88 | without a record: one allocation, recorded or given back |
| `SubnetMaster.FinishFound` | ksdn/subnets.go:58-72 | with a record: kept, or renewed under the present name |
| `SubnetRename.SafeIffOneToOne` | ksdn/subnets.go:47-99 | for every configuration and every naming with plain names: all runs from every good etcd are safe iff no address may be written under two names and no name for two addresses |
| `SubnetRename.RenameReleasesUsedSubnet` | ksdn/subnets.go:64-72 | for every host, every two names and every subnet of the network, a run in which renaming the host releases its recorded subnet |
| `SubnetRename.SharedNameReleasesUsedSubnet` | pkg/etcdmanager/watch.go:65-94 | for every name and two addresses it is known at, a run in which deleting the one address releases the subnet recorded for the other |
| `SubnetMaster.Master.AddNode` | ksdn/subnets.go:47-89 | run to its end, addNode performs exactly the steps of the protocol and returns the error of the step that failed |
| `SubnetNumbering.NumberingBijective` | pkg/snalloc/subnet_allocator.go:97-108 | subnet numbers and places in the network correspond one to one, for every accepted mask and host size |
| `SubnetNumbering.CandidateIsSubnet` | pkg/snalloc/subnet_allocator.go:103-107 | the shifts and masks on 32-bit words compute exactly the numbered subnet: nothing needed overflows |
| `SubnetNumbering.WholeOctetsFirst` | pkg/snalloc/subnet_allocator.go:43-50 | when subnets end inside an octet, the first numbers count in whole octets, and only then the next subnets inside them |
| `SubnetNumbering.SubnetsPartitionNetwork` | pkg/snalloc/subnet_allocator.go:103-107 | each address of the network lies in exactly one numbered subnet |
| `SubnetNumbering.SubnetsDisjoint` | pkg/snalloc/subnet_allocator.go:103-107 | different numbers give subnets without a common address |
| `SubnetAllocator.ProbeIsModulo` | pkg/snalloc/subnet_allocator.go:102-104 | `i + next` on 32-bit words does not wrap, and modulo the count it is the cyclic order |
| `SubnetAllocator.SearchIsExhaustive` | pkg/snalloc/subnet_allocator.go:102-116 | the search returns the first free number in cyclic order from the cursor and passes no free one |
| `SubnetAllocator.SearchGoesOn` | pkg/snalloc/subnet_allocator.go:103-117 | the next search begins behind the subnet handed out last, and at the first once none was free |
| `SubnetAllocator.InUseIsNotHandedOut` | pkg/snalloc/subnet_allocator.go:111-115 | a network in use is not handed out before it is released |
| `SubnetAllocator.FailsIffExhausted` | pkg/snalloc/subnet_allocator.go:89-118 | allocation fails iff all 2^subnetBits subnets are taken |
| `SubnetAllocator.RunKeepsDisjoint` | pkg/snalloc/subnet_allocator.go:89-135 | over any run of allocations and releases the subnets in use are pairwise disjoint, inside the network, and the cursor stays in range |
| `SubnetAllocator.DisjointForeverIffUniform` | pkg/snalloc/subnet_allocator.go:64-76 | every run stays disjoint iff all networks in use at the start have the allocator's prefix length |
| `SubnetAllocator.WrongPrefixOverlaps` | pkg/snalloc/subnet_allocator.go:64-76 | one existing /24 in a network handed out as /26 is enough for an overlap |
| `SubnetAllocator.NewSubnetAllocator` | pkg/snalloc/subnet_allocator.go:23-87 | accepts exactly the valid configurations, with the error of the failing check; in use are exactly the listed networks that start inside the range |
| `SubnetAllocator.Allocator.GetNetwork` | pkg/snalloc/subnet_allocator.go:89-118 | state and result are those of the cyclic first-free search |
| `SubnetAllocator.Allocator.ReleaseNetwork` | pkg/snalloc/subnet_allocator.go:120-135 | frees exactly the given network; refuses foreign and free ones |
| `SubnetAllocator.CountFitsWord` | pkg/snalloc/subnet_allocator.go:97-100 | 2^subnetBits fits a word with a bit to spare |
| `MasterVnids.PoolAlwaysExactIff` | ksdn/vnids_master.go:75-200 | all along every run of assignments, revocations, requests, updates and failovers, whatever etcd answers, the pool's IDs are exactly the nonzero IDs in use, each in range, iff no sole holder joins itself |
| `MasterVnids.RunKeepsPool` | ksdn/vnids_master.go:75-200 | the same at the end of a run |
| `MasterVnids.RunKeepsRange` | ksdn/vnids_master.go:75-200 | over every fair run all IDs in memory and etcd are 0 or in range |
| `MasterVnids.RunKeepsAgreement` | ksdn/vnids_master.go:203-262 | memory and etcd agree over every run, failovers included, whose updates etcd takes |
| `MasterVnids.FailoverRestores` | ksdn/vnids_master.go:75-99 | a new master agrees with etcd and has an exact pool, whatever the old one's memory held |
| `MasterVnids.FailoverHeals` | ksdn/vnids_master.go:234-244 | after any fair run, failed updates and self-joins included, a failover and then updates etcd takes: pool, memory and etcd are consistent |
| `MasterVnids.FailoverRoundTrip` | ksdn/vnids_master.go:75-99 | a master started from etcd equals the agreeing one it replaces, IDs and pool |
| `MasterVnids.StepKeepsPoolIff` | ksdn/vnids_master.go:101-246 | one step keeps the pool exact, whatever etcd answers, iff it is not a sole holder's join to itself |
| `MasterVnids.PopulatedIsInv` | ksdn/vnids_master.go:75-99 | whatever unique records with IDs in range a master lists, its pool is exact |
| `MasterVnids.SeparateWithoutJoins` | ksdn/vnids_master.go:101-200 | over runs without joins and moves to the global network, ordinary namespaces hold pairwise different nonzero IDs |
| `VnidSharing.OnlyJoinsShareIff` | ksdn/vnids_master.go:101-262 | from a consistent master: at every point of the run, and whatever is created and whichever masters start after it, namespaces that share a nonzero ID are linked by joins, iff no step of the run frees an ID that etcd goes on recording |
| `VnidSharing.SharingNeedsJoins` | ksdn/vnids_master.go:152-200 | in runs without such a step, failed updates included, two namespaces share a nonzero ID only through a chain of joins |
| `VnidSharing.StepKeepsNoneStaleIff` | ksdn/vnids_master.go:127-200 | one step leaves a recorded ID free in the pool iff it revokes or moves the ID's only holder while etcd keeps recording it |
| `VnidSharing.FailedRenewalLeavesStaleIff` | ksdn/vnids_master.go:234-244 | from a consistent master iff etcd refuses the update of a namespace that held its nonzero ID alone and was made global or joined |
| `VnidSharing.NeverStaleIff` | ksdn/vnids_master.go:127-200 | the same all along a run |
| `VnidSharing.AnsweredStrandsNone` | ksdn/vnids_master.go:203-262 | in runs whose updates etcd takes there is no such step |
| `VnidSharing.PicksAreFreshIff` | ksdn/vnids_master.go:114-121 | every ID the pool may hand out is new to etcd iff no recorded ID is free |
| `VnidSharing.StaleIsShared` | ksdn/vnids_master.go:234-244 | a recorded ID that is free may be handed out to a new namespace and is shared when the next master starts |
| `VnidSharing.RefusedUpdateLeadsToSharing` | ksdn/vnids_master.go:234-244 | a concrete run from a consistent master in which nothing is joined and two namespaces end with one ID |
| `MasterVnids.LateUpdateIgnored` | ksdn/vnids_master.go:152-161 | a revoked namespace stays revoked over every run that does not assign it, and no update for it, however late, changes or writes anything |
| `MasterVnids.FreeAndUsedFillRange` | ksdn/vnids_master.go:30-41 | free IDs and distinct nonzero IDs in use make up the whole range |
| `MasterVnids.UpdateKeepsInvIff` | ksdn/vnids_master.go:152-200 | an update keeps the pool equal to the IDs in use iff it is not a sole holder joining itself |
| `MasterVnids.SelfJoinBreaksPool` | ksdn/vnids_master.go:166-197 | a concrete self-join: the ID stays in use but is free in the pool |
| `MasterVnids.UpdateMeaning` | ksdn/vnids_master.go:152-200 | global gives 0, join makes both IDs equal, isolate leaves an ID held by that namespace alone; nobody else changes |
| `MasterVnids.IsolateLeavesGlobalIff` | ksdn/vnids_master.go:172-176 | isolate yields a nonzero ID iff the namespace is not the only one with 0 |
| `MasterVnids.SoleGlobalStaysGlobal` | ksdn/vnids_master.go:172-176 | a concrete namespace that is isolated and stays global |
| `MasterVnids.AssignRollsBack` | ksdn/vnids_master.go:217-223 | undoing an assignment restores IDs and pool exactly |
| `MasterVnids.NewNamespaceAlone` | ksdn/vnids_master.go:101-125 | a new ordinary namespace gets a nonzero ID nobody else holds |
| `MasterVnids.FailedRenewAgreesIff` | ksdn/vnids_master.go:234-244 | after a failed renewal memory and etcd agree iff the update did not change the ID |
| `MasterVnids.ReleaseKeepsInv` | ksdn/vnids_master.go:127-150 | an ID goes back to the pool with its last holder |
| `MasterVnids.VnidMap.GetVNIDCount` | ksdn/vnids_master.go:58-66 | the number of namespaces with the ID |
| `MasterVnids.VnidMap.UpdateNetID` | ksdn/vnids_master.go:152-200 | state, result and errors of the abstract update |
| `MasterVnids.VnidMap.HandleNetnsEvents` | ksdn/vnids_master.go:297-314 | a batch is one step for each event, in order |
| `MasterVnids.VnidMap.HandleNetnsEvent` | ksdn/vnids_master.go:297-314 | one event; a removed record and one without an action change nothing |
| `VnidRequests.RequestIsMet` | ksdn/vnids_master.go:230-246 | a request that can be met gives the namespace 0, the other's ID or one that nobody else has, in memory and, if etcd takes it, in a record that asks for nothing more; any other changes nothing |
| `VnidRequests.OtherEventsChangeNothing` | ksdn/vnids_master.go:297-314 | removed records and those without an action change neither memory nor etcd |
| `VnidRequests.AssignmentIsRecorded` | ksdn/vnids_master.go:203-228 | an unknown namespace gets an ID in memory and etcd, 0 if it is "kube-system", whatever is free, and otherwise a free one if there is one; nothing has changed when etcd refuses |
| `VnidRequests.RevocationForgets` | ksdn/vnids_master.go:248-262 | a revoked namespace is in neither, and its ID is free iff it was a nonzero one nobody else holds |
| `VnidRequests.SystemStaysGlobal` | ksdn/vnids_master.go:112-113 | "kube-system" keeps 0 in memory and etcd over every run that does not join or isolate it |
| `NetIds.RangeAcceptedIff` | pkg/vnid/netid/netid.go:29-52 | which bounds are accepted, and that the accepted range is [min, max] iff min <= max: the size wraps for others |
| `NetIds.Allocator.Allocate` | pkg/vnid/netid/allocator.go:55-71 | takes exactly the ID, or says it is outside the range or taken |
| `NetIds.Allocator.AllocateNext` | pkg/vnid/netid/allocator.go:73-85 | takes some free ID of the range; fails iff there is none |
| `NetIds.Allocator.Release` | pkg/vnid/netid/allocator.go:87-95 | gives exactly the ID back; ignores IDs outside the range |
| `NetIds.Allocator.Free` | pkg/vnid/netid/allocator.go:48-50 | the number of free IDs |
| `MasterVnids.VnidMap.AssignVNID` | ksdn/vnids_master.go:203-228 | memory, etcd and result of the abstract assignment, rolled back when etcd refuses |
| `MasterVnids.VnidMap.UpdateVNID` | ksdn/vnids_master.go:230-246 | memory, etcd and result of the abstract update, not rolled back |
| `MasterVnids.VnidMap.RevokeVNID` | ksdn/vnids_master.go:248-262 | etcd first, then memory; the error of the part that failed |
| `MasterVnids.VnidMap.PopulateVNIDs` | ksdn/vnids_master.go:75-99 | lists all records into IDs and pool, or stops at the first ID outside the range, which memory then already has |
| `NetIds.Allocator.Has` | pkg/vnid/netid/allocator.go:97-103 | whether exactly this ID is taken; false outside the range |
| `MasterVnids.VnidMap.AllocateNetID` | ksdn/vnids_master.go:101-125 | the ID there is, 0 for an administrative namespace, or a free one; fails iff the pool is full |
| `MasterVnids.VnidMap.ReleaseNetID` | ksdn/vnids_master.go:127-150 | forgets the name and frees the ID with its last holder |
| `EventQueue.CompressionIsHomomorphic` | ksdn/eventqueue.go:213-257 | compressing what is already compressed with more is compressing everything at once; compressing twice changes nothing |
| `EventQueue.EnqueueingCompresses` | ksdn/eventqueue.go:49-58 | compressing after every enqueue equals compressing once |
| `EventQueue.CompressesKeyByKey` | ksdn/eventqueue.go:213-257 | each key of an accepted list compresses on its own, to what its own deltas compress to |
| `EventQueue.AcceptedIffSequenced` | ksdn/eventqueue.go:157-176 | the compressor panics iff a delta has no key or one object has a delta that may not follow those before it: Added while it is there; Updated or Deleted after Deleted, or Sync after Updated or Added, of an object known before (Sync is allowed where its deltas since the last deletion began with a Sync) |
| `EventQueue.RelistAfterUpdatePanics` | ksdn/eventqueue.go:232-235 | a relist that reports an object whose update is still queued panics |
| `EventQueue.CompressionPreservesMeaningIff` | ksdn/eventqueue.go:60-75 | applying the compressed list to the store gives the same store iff no stored object had all its deltas dropped |
| `EventQueue.CompressionPreservesMeaning` | ksdn/eventqueue.go:60-75 | in particular when objects first Added were absent |
| `EventQueue.OrderedByLast` | ksdn/eventqueue.go:178-211 | the output is in the order of each key's last occurrence |
| `EventQueue.CompressedIsDistinct` | ksdn/eventqueue.go:213-257 | at most one delta for each key |
| `EventQueue.CarriesLastObject` | ksdn/eventqueue.go:242-250 | each delta carries the last object of its key |
| `EventQueue.NetChangeTheorem` | ksdn/eventqueue.go:157-176 | a well-formed stream is never refused and each key compresses to its net change |
| `EventQueue.DeltaCompressor` | ksdn/eventqueue.go:213-257 | the loop computes the fold the theorems are about, and fails exactly where it does |
| `EventQueue.RemoveDeltasWithKey` | ksdn/eventqueue.go:178-194 | the list without the key's deltas, in order |
| `EventQueue.Queue.UpdateKnownObjects` | ksdn/eventqueue.go:60-75 | the store after one delta |
| `EventQueue.Queue.Pop` | ksdn/eventqueue.go:88-119 | the store has every delta of the popped item up to and including the first one the handler refuses; the rest is dropped |
| `EventQueue.OneKeyCompressesToOne` | ksdn/eventqueue.go:213-257 | the list queued under one key has at most one delta, so a refusing handler never keeps a delta from the store |
| `Watch.WatcherAgreement` | pkg/etcdmanager/watch.go:202-280 | over any mix of updates and unique-name resets, saved names stay unique and a subscriber knows exactly them |
| `Watch.UpdatesPublishValues` | pkg/etcdmanager/watch.go:96-123 | over updates alone the subscriber also has every value |
| `Watch.ResetPublishes` | pkg/etcdmanager/watch.go:206-235 | what a subscriber knows after a reset: the snapshot's names, with old values for names kept |
| `Watch.ResetCompleteIff` | pkg/etcdmanager/watch.go:206-235 | a reset brings a subscriber up to date iff no name it knew has a new value |
| `Watch.SwapDeleteRemovesOne` | pkg/etcdmanager/watch.go:137-140 | swap-delete removes that record and no other |
| `Watch.AddReplacesOrAppends` | pkg/etcdmanager/watch.go:112-123 | adding replaces the record of that name or appends |
| `Watch.Watcher.Reset` | pkg/etcdmanager/watch.go:65-94 | the loops publish the abstract reset and leave the snapshot |
| `Watch.Watcher.Update` | pkg/etcdmanager/watch.go:96-110 | the loop publishes the abstract update |
| `Watch.Watcher.Add` | pkg/etcdmanager/watch.go:112-123 | overwrites in place or appends |
| `Watch.Watcher.Remove` | pkg/etcdmanager/watch.go:125-135 | swap-deletes and reports the saved record, or reports the event's own |
| `Watch.Watcher.OnResult` | pkg/etcdmanager/watch.go:38-57 | events are an update, no events a reset |
| `NodeVnids.NodeReplicates` | ksdn/vnids_node.go:142-152 | a node that lists, then watches, and has handled all events up to an index has the recorded NetID of every namespace recorded there |
| `NodeVnids.ChangesKeepSync` | ksdn/vnids_node.go:200-220 | handling every change keeps a node in step, deletions included |
| `NodeVnids.ResyncIff` | pkg/etcdmanager/watch.go:206-235 | after truncated history a node is in step iff the names its watcher had kept their NetID |
| `NodeVnids.TruncationHidesChange` | pkg/etcdmanager/watch.go:206-235 | a concrete change a reset does not report |
| `NodeVnids.NodeVnidMap.SetVNID` | ksdn/vnids_node.go:98-109 | sets the ID and keeps `namespaces` the exact inverse of `ids`, without empty sets |
| `NodeVnids.NodeVnidMap.UnsetVNID` | ksdn/vnids_node.go:111-123 | forgets the name and keeps the inverse |
| `NodeVnids.NodeVnidMap.HandleNetnsEvents` | ksdn/vnids_node.go:200-220 | the index after a batch |
| `NodeVnids.NodeVnidMap.PopulateVNIDs` | ksdn/vnids_node.go:125-138 | the index after listing |
| `NodeVnids.NodeVnidMap.GetNamespaces` | ksdn/vnids_node.go:52-61 | exactly the namespaces with the VNID |
| `Addresses.Uint32ToIP` | pkg/utils/common.go:20-24 | a new buffer whose number is the given one |
| `Addresses.IPToUint32Injective` | pkg/utils/common.go:16-18 | different addresses have different numbers |
| `Addresses.NumbersInByteOrder` | pkg/utils/common.go:16-18 | numbers are ordered as the addresses are byte by byte, the first byte counting most |
| `Addresses.GatewayOfBytes` | pkg/utils/common.go:27-30 | setting the lowest bit of the last byte is the gateway the flows use |
| `Records.KeyIsNoName` | pkg/etcdmanager/etcdv2/registry.go:438-446 | an etcd key is never the name of a record |

## Left out

- Running `ovs-vsctl`, `ovs-ofctl`, `ip` and `sysctl`: commands are atomic changes of a set of flows, and flows are data, not text.
- CNI requests, IPAM, Docker, bandwidth limits, iptables and egress policy flows (table 9 is fixed in the source).
- Leader election, timers, retries, contexts and back-off.
- The Kubernetes bitmap allocator: a finite set with an arbitrary pick of a free offset.
- DeltaFIFO and the store: a list of deltas for each key, and a map. A panic of the compressor is an error result.
- etcd and JSON: an atomic map with create-if-absent, overwrite and delete, and a history of writes. Text that does not parse as a network is `None`, an empty host address is 0.
- Reclaiming the subnet of a deleted host from its watch event: the event names a key and no subnet, so nothing is released before a reset or a failover.
- Tenant isolation of ARP between pods: the source does not isolate it.
- The order of flow changes while a namespace changes its VNID, which the source says is racy: states between two commands are those of `Bridge.RunCompiles`.
- Watch.Watcher: one generic class stands for `subnetWatcher` and `netnamespaceWatcher`, which differ in the record type only.
- MasterSubnets.SubnetProtocolSafe: network errors in the middle of an etcd write, after which the outcome is unknown to the caller, are not modelled; a call either fails without effect or succeeds.
- SubnetMaster.Master.AddNode: states the uninterrupted run; the interleavings are those of the state machine.
- Bridge.Switch.SetupSDN: the checks of the tunnel device's address and route are one flag, and the link, address, route and sysctl steps after the flows, with their errors, are not modelled.
- Bridge.RestartKeepsFlows: is about the version flow; the address and route that are checked with it belong to the tunnel device.
- Retenanting.NodeTenants.UpdatePodNetwork: does not model that the namespace's pods that do not run are deleted through the Kubernetes API.
- HostRoutes.NodeFollowsProtocol: is about nodes whose watch was not truncated; `HostResets.ResetIsCompleteIff` gives the condition after a reset.
- SubnetRequests.RequestIsServed: is about requests whose etcd calls are answered by a master that goes on; what becomes of one that etcd refuses is not followed.
- NodeVnids.NodeReplicates: is about histories that were not truncated; `NodeVnids.ResyncIff` gives the condition after a truncation.
- TenantNetwork.NamespacesAreIsolated: is about nodes that set up a new bridge, whose watches were not truncated since, at moments at which all writes have been delivered, and about pods that Kubernetes still lists.
- TenantNetwork.ServicesAreIsolated: likewise.
- Delivery.TenantDelivery: traffic that leaves through tun0 and comes back through the host's own routing is not followed.
- The service watch of a node and its per-object cache (ksdn/vnids_node.go:240-282); its two flow operations are modelled.
- Watching nodes and namespaces, DNS and interface look-ups, and command-line wiring.
- IPv6.
