/** The bridge of a node: the commands that change its flows, one at a time, and runs of them. */
module Bridge {
  import opened Prelude
  import opened Word32
  import opened Cidrs
  import opened OpenFlow
  import opened NodeFlows
  import opened NodeOps

  // ---------------------------------------------------------------- operations

  datatype Op =
    | SetupPodOp(ip: uint32, pod: Pod)
    | UpdatePodOp(ip: uint32, pod: Pod)
    | TeardownPodOp(ip: uint32)
    | AddHostOp(subnet: Cidr, host: uint32)
    | DeleteHostOp(subnet: Cidr, host: uint32)
    | AddServiceOp(keys: seq<SvcKey>, tenant: uint32)   // the ports of one service
    | DeleteServiceOp(keys: seq<SvcKey>)

  function AddServices(rules: set<Rule>, keys: seq<SvcKey>, tenant: uint32): set<Rule>
    decreases |keys|
  {
    if keys == [] then rules else AddServices(AddFlow(rules, ServiceRule(keys[0], tenant)), keys[1..], tenant)
  }

  function DeleteServices(rules: set<Rule>, keys: seq<SvcKey>): set<Rule>
    decreases |keys|
  {
    if keys == [] then rules else DeleteServices(DeleteFlows(rules, ServiceCover(keys[0])), keys[1..])
  }

  /** What an operation does to the flows. */
  function Apply(net: Net, rules: set<Rule>, op: Op): set<Rule> {
    match op
    case SetupPodOp(ip, pod) => SetupPod(rules, ip, pod)
    case UpdatePodOp(ip, pod) => SetupPod(TeardownPod(rules, ip), ip, pod)
    case TeardownPodOp(ip) => TeardownPod(rules, ip)
    case AddHostOp(subnet, host) => AddFlows(rules, HostRules(subnet, host))
    case DeleteHostOp(subnet, host) => DeleteAll(rules, HostCovers(subnet, host))
    case AddServiceOp(keys, tenant) => if net.multitenant then AddServices(rules, keys, tenant) else rules
    case DeleteServiceOp(keys) => if net.multitenant then DeleteServices(rules, keys) else rules
  }

  ghost function WithServices(st: Node, keys: seq<SvcKey>, tenant: uint32): Node
    decreases |keys|
  {
    if keys == [] then st else WithServices(WithService(st, keys[0], tenant), keys[1..], tenant)
  }

  ghost function WithoutServices(st: Node, keys: seq<SvcKey>): Node
    decreases |keys|
  {
    if keys == [] then st else WithoutServices(WithoutService(st, keys[0]), keys[1..])
  }

  /** What it does to the node's knowledge. */
  ghost function Learn(net: Net, st: Node, op: Op): Node {
    match op
    case SetupPodOp(ip, pod) => WithPod(st, ip, pod)
    case UpdatePodOp(ip, pod) => WithPod(st, ip, pod)
    case TeardownPodOp(ip) => WithoutPod(st, ip)
    case AddHostOp(subnet, host) => WithHost(st, subnet, host)
    case DeleteHostOp(subnet, host) => WithoutHost(st, subnet, host)
    case AddServiceOp(keys, tenant) => if net.multitenant then WithServices(st, keys, tenant) else st
    case DeleteServiceOp(keys) => if net.multitenant then WithoutServices(st, keys) else st
  }

  // ---------------------------------------------------------------- the bridge

  class Switch {
    var rules: set<Rule>

    constructor ()
      ensures rules == {}
    {
      rules := {};
    }

    method AddFlow(r: Rule)
      modifies this
      ensures rules == OpenFlow.AddFlow(old(rules), r)
    {
      rules := OpenFlow.AddFlow(rules, r);
    }

    method DeleteFlows(c: Cover)
      modifies this
      ensures rules == OpenFlow.DeleteFlows(old(rules), c)
    {
      rules := OpenFlow.DeleteFlows(rules, c);
    }

    method AddAll(rs: seq<Rule>)
      modifies this
      ensures rules == AddFlows(old(rules), rs)
    {
      for i := 0 to |rs|
        invariant AddFlows(old(rules), rs) == AddFlows(rules, rs[i..])
      {
        assert rs[i..][1..] == rs[i + 1..];
        AddFlow(rs[i]);
      }
    }

    method DeleteEach(cs: seq<Cover>)
      modifies this
      ensures rules == DeleteAll(old(rules), cs)
    {
      for i := 0 to |cs|
        invariant DeleteAll(old(rules), cs) == DeleteAll(rules, cs[i..])
      {
        assert cs[i..][1..] == cs[i + 1..];
        DeleteFlows(cs[i]);
      }
    }

    /** `alreadySetUp`: the tunnel device is configured and the version flow is this program's. */
    predicate AlreadySetUp(net: Net, tunReady: bool)
      reads this
    {
      tunReady && exists r :: r in rules && r.table == 253 && r.actions == VersionNote(net).actions
    }

    /** A full set-up destroys the bridge first. */
    method SetupSDN(net: Net, tunReady: bool) returns (changed: bool)
      modifies this
      ensures changed == !old(AlreadySetUp(net, tunReady))
      ensures rules == if changed then Compile(net, NOTHING) else old(rules)
    {
      if AlreadySetUp(net, tunReady) {
        return false;
      }
      rules := {};
      AddAll(Fixed(net));
      SetupCompiles(net);
      changed := true;
    }

    /** The script's `run`: setup, update or teardown of one pod. */
    method RunScript(net: Net, action: string, ip: uint32, pod: Pod) returns (ok: bool)
      modifies this
      ensures ok == (action in ["setup", "update", "teardown"])
      ensures rules == if action == "setup" then Apply(net, old(rules), SetupPodOp(ip, pod))
                       else if action == "update" then Apply(net, old(rules), UpdatePodOp(ip, pod))
                       else if action == "teardown" then Apply(net, old(rules), TeardownPodOp(ip))
                       else old(rules)
    {
      ok := true;
      if action == "setup" {
        AddAll(PodRules(ip, pod));
      } else if action == "update" {
        DeleteEach(PodCovers(ip));
        AddAll(PodRules(ip, pod));
      } else if action == "teardown" {
        DeleteEach(PodCovers(ip));
      } else {
        ok := false;
      }
    }

    method AddHostSubnetRules(net: Net, subnet: Cidr, host: uint32)
      modifies this
      ensures rules == Apply(net, old(rules), AddHostOp(subnet, host))
    {
      AddAll(HostRules(subnet, host));
    }

    method DeleteHostSubnetRules(net: Net, subnet: Cidr, host: uint32)
      modifies this
      ensures rules == Apply(net, old(rules), DeleteHostOp(subnet, host))
    {
      DeleteEach(HostCovers(subnet, host));
    }

    method AddServiceRules(net: Net, keys: seq<SvcKey>, tenant: uint32)
      modifies this
      ensures rules == Apply(net, old(rules), AddServiceOp(keys, tenant))
      ensures !net.multitenant ==> rules == old(rules)
    {
      if !net.multitenant {
        return;
      }
      for i := 0 to |keys|
        invariant AddServices(old(rules), keys, tenant) == AddServices(rules, keys[i..], tenant)
      {
        assert keys[i..][1..] == keys[i + 1..];
        AddFlow(ServiceRule(keys[i], tenant));
      }
    }

    method DeleteServiceRules(net: Net, keys: seq<SvcKey>)
      modifies this
      ensures rules == Apply(net, old(rules), DeleteServiceOp(keys))
      ensures !net.multitenant ==> rules == old(rules)
    {
      if !net.multitenant {
        return;
      }
      for i := 0 to |keys|
        invariant DeleteServices(old(rules), keys) == DeleteServices(rules, keys[i..])
      {
        assert keys[i..][1..] == keys[i + 1..];
        DeleteFlows(ServiceCover(keys[i]));
      }
    }
  }

  // ---------------------------------------------------------------- runs

  /** Remote subnets hold more than one address and services lie in their own network. */
  ghost predicate Sane(net: Net, st: Node) {
    && (forall c :: c in st.routes ==> c.len < 32)
    && (forall key :: key in st.services ==> InCidr(Some(net.service), key.ip))
  }

  /** A pod's address is in the cluster network and not the gateway's. */
  ghost predicate PodAddress(net: Net, ip: uint32) {
    InCidr(Some(net.cluster), ip) && ip != Gateway(net.local)
  }

  /** What the surroundings guarantee: addresses from the right networks, and a set-up only for an
      address no pod has. */
  ghost predicate Admissible(net: Net, st: Node, op: Op) {
    match op
    case SetupPodOp(ip, _) => PodAddress(net, ip) && ip !in st.pods
    case UpdatePodOp(ip, _) => PodAddress(net, ip)
    case TeardownPodOp(ip) => PodAddress(net, ip)
    case AddHostOp(subnet, _) => subnet.len < 32
    case DeleteHostOp(subnet, _) => subnet.len <= 32
    case AddServiceOp(keys, _) => forall k :: k in keys ==> InCidr(Some(net.service), k.ip)
    case DeleteServiceOp(_) => true
  }

  lemma PodAddressIsRemovable(net: Net, st: Node, ip: uint32)
    requires net.Valid() && Sane(net, st) && PodAddress(net, ip)
    ensures Removable(net, st, ip)
  {
  }

  lemma {:induction false} AddServicesCompile(net: Net, st: Node, keys: seq<SvcKey>, tenant: uint32)
    requires Sane(net, st) && forall k :: k in keys ==> InCidr(Some(net.service), k.ip)
    ensures AddServices(Compile(net, st), keys, tenant) == Compile(net, WithServices(st, keys, tenant))
    ensures Sane(net, WithServices(st, keys, tenant))
    decreases |keys|
  {
    if keys != [] {
      AddServiceCompiles(net, st, keys[0], tenant);
      AddServicesCompile(net, WithService(st, keys[0], tenant), keys[1..], tenant);
    }
  }

  lemma {:induction false} DeleteServicesCompile(net: Net, st: Node, keys: seq<SvcKey>)
    requires Sane(net, st)
    ensures DeleteServices(Compile(net, st), keys) == Compile(net, WithoutServices(st, keys))
    ensures Sane(net, WithoutServices(st, keys))
    decreases |keys|
  {
    if keys != [] {
      DeleteServiceCompiles(net, st, keys[0]);
      DeleteServicesCompile(net, WithoutService(st, keys[0]), keys[1..]);
    }
  }

  /** Every operation on the flows is the operation on the node's knowledge, compiled. */
  lemma OpCompiles(net: Net, st: Node, op: Op)
    requires net.Valid() && Sane(net, st) && Admissible(net, st, op)
    ensures Apply(net, Compile(net, st), op) == Compile(net, Learn(net, st, op))
    ensures Sane(net, Learn(net, st, op))
  {
    match op {
      case SetupPodOp(ip, pod) => SetupPodCompiles(net, st, ip, pod);
      case UpdatePodOp(ip, pod) => PodAddressIsRemovable(net, st, ip); UpdatePodCompiles(net, st, ip, pod);
      case TeardownPodOp(ip) => PodAddressIsRemovable(net, st, ip); RemovablePodCompiles(net, st, ip);
      case AddHostOp(subnet, host) => AddHostCompiles(net, st, subnet, host);
      case DeleteHostOp(subnet, host) => DeleteHostCompiles(net, st, subnet, host);
      case AddServiceOp(keys, tenant) => AddServicesCompile(net, st, keys, tenant);
      case DeleteServiceOp(keys) => DeleteServicesCompile(net, st, keys);
    }
  }

  function ApplyAll(net: Net, rules: set<Rule>, ops: seq<Op>): set<Rule>
    decreases |ops|
  {
    if ops == [] then rules else ApplyAll(net, Apply(net, rules, ops[0]), ops[1..])
  }

  ghost function LearnAll(net: Net, st: Node, ops: seq<Op>): Node
    decreases |ops|
  {
    if ops == [] then st else LearnAll(net, Learn(net, st, ops[0]), ops[1..])
  }

  ghost predicate AllAdmissible(net: Net, st: Node, ops: seq<Op>)
    decreases |ops|
  {
    ops != [] ==> Admissible(net, st, ops[0]) && AllAdmissible(net, Learn(net, st, ops[0]), ops[1..])
  }

  /** After any run from a fresh set-up, the flows are the compilation of what the node then knows. */
  lemma {:induction false} RunCompiles(net: Net, st: Node, ops: seq<Op>)
    requires net.Valid() && Sane(net, st) && AllAdmissible(net, st, ops)
    ensures ApplyAll(net, Compile(net, st), ops) == Compile(net, LearnAll(net, st, ops))
    ensures Sane(net, LearnAll(net, st, ops))
    decreases |ops|
  {
    if ops != [] {
      OpCompiles(net, st, ops[0]);
      RunCompiles(net, Learn(net, st, ops[0]), ops[1..]);
    }
  }

  /** A restarted node finds its version flow and keeps its flows, unless the mode has changed. */
  lemma RestartKeepsFlows(net: Net, st: Node, multitenant: bool)
    ensures (exists r :: r in Compile(net, st) && r.table == 253
               && r.actions == VersionNote(net.(multitenant := multitenant)).actions)
       <==> multitenant == net.multitenant
  {
    var note := VersionNote(net);
    assert Fixed(net)[|Fixed(net)| - 1] == note;
    assert note in FixedSet(net);
    forall r | r in Compile(net, st) && r.table == 253
      ensures r == note
    {
      TablesOf(net, st, r);
    }
  }
}
