/** A subnet asked for is assigned: what the subnet goroutine does with an administrator's request, amid
    the steps of all the others (ksdn/subnets.go:157-194). */
module SubnetRequests {
  import opened Prelude
  import opened Word32
  import opened Cidrs
  import opened SubnetNumbering
  import SubnetAllocator
  import SubnetRename
  import opened Watch
  import opened Records
  import opened MasterSubnets

  ghost predicate Free(cfg: Config, s: State, c: Cidr)
    requires cfg.Valid()
  {
    c in SubnetAllocator.Numbered(cfg) && c !in s.pool.taken
  }

  ghost predicate HasFree(cfg: Config, s: State)
    requires cfg.Valid()
  {
    exists c :: Free(cfg, s, c)
  }

  /** A record of the host with a subnet that asks for nothing. */
  predicate Assigned(rec: HostSubnet, name: string, ip: uint32) {
    rec.name == name && rec.value.hostIP == ip && rec.value.subnet.Some? && !rec.value.assign
  }

  // ---------------------------------------------------------------- amid other steps

  /** The goroutine goes on in `addNode` for this host. */
  predicate Concerns(t: Task, ip: uint32) {
    match t
    case Idle => false
    case Reading(_, h) => h == ip
    case Renewing(rec) => rec.value.hostIP == ip
    case Allocating(_, h) => h == ip
    case Acquiring(rec) => rec.value.hostIP == ip
    case Undoing(_) => false
  }

  /** The step is not about the host, or one of the subnet goroutine that is answered and finds a free
      subnet when it looks for one. The master goes on. */
  ghost predicate Undisturbed(setup: Setup, s: State, a: Action, ip: uint32)
    requires setup.cfg.Valid()
  {
    match a
    case AddNode(_, h) => h != ip
    case DeleteNode(h, _) => h != ip
    case Request(_, h) => h != ip
    case NodeStep(_) => !Concerns(s.nodes, ip)
    case SubnetStep(ok) => ok && (s.subnets.Allocating? ==> HasFree(setup.cfg, s))
    case TakeEvent(_, _) => false
    case Failover => false
    case _ => true
  }

  ghost predicate UndisturbedRun(setup: Setup, s: State, actions: seq<Action>, ip: uint32)
    requires setup.cfg.Valid()
    decreases |actions|
  {
    actions != [] ==>
      Enabled(s, actions[0]) && Undisturbed(setup, s, actions[0], ip) && UndisturbedRun(setup, Do(setup, s, actions[0]), actions[1..], ip)
  }

  function SubnetSteps(actions: seq<Action>): nat {
    if actions == [] then 0 else (if actions[0].SubnetStep? then 1 else 0) + SubnetSteps(actions[1..])
  }

  /** How many steps the goroutine still has to take. */
  function Left(t: Task): nat {
    match t
    case Reading(_, _) => 3
    case Allocating(_, _) => 2
    case Acquiring(_) => 1
    case _ => 0
  }

  /** The subnet goroutine is on its way to assign the host a subnet, or has done so. */
  predicate UnderWay(s: State, name: string, ip: uint32) {
    match s.subnets
    case Idle => ip in s.etcd && Assigned(s.etcd[ip], name, ip)
    case Reading(n, h) => n == name && h == ip && ip !in s.etcd
    case Allocating(n, h) => n == name && h == ip && ip !in s.etcd
    case Acquiring(rec) => Assigned(rec, name, ip) && ip !in s.etcd
    case _ => false
  }

  lemma StepIsUnderWay(setup: Setup, s: State, a: Action, name: string, ip: uint32)
    requires setup.cfg.Valid() && Enabled(s, a) && Undisturbed(setup, s, a, ip) && UnderWay(s, name, ip)
    ensures var s' := Do(setup, s, a);
      UnderWay(s', name, ip) && Left(s'.subnets) + (if a.SubnetStep? then 1 else 0) == Left(s.subnets)
  {
    if a.SubnetStep? && s.subnets.Allocating? {
      SubnetAllocator.FailsIffExhausted(SubnetAllocator.Numbered(setup.cfg), s.pool);
      var c :| Free(setup.cfg, s, c);
    }
  }

  lemma {:induction false} RunIsUnderWay(setup: Setup, s: State, actions: seq<Action>, name: string, ip: uint32)
    requires setup.cfg.Valid() && UndisturbedRun(setup, s, actions, ip) && UnderWay(s, name, ip)
    ensures RunOf(setup, s, actions).Some?
    ensures var end := RunOf(setup, s, actions).value;
      UnderWay(end, name, ip) && Left(end.subnets) + SubnetSteps(actions) == Left(s.subnets)
    decreases |actions|
  {
    if actions != [] {
      StepIsUnderWay(setup, s, actions[0], name, ip);
      RunIsUnderWay(setup, Do(setup, s, actions[0]), actions[1..], name, ip);
    }
  }

  /** A request is served: once the goroutine has taken it and made three steps, however the node
      goroutine, the watcher and administrators step in between, the host has a record of its name and
      address with a subnet, which asks for nothing more. */
  lemma RequestIsServed(setup: Setup, s: State, rec: HostSubnet, actions: seq<Action>)
    requires setup.cfg.Valid() && s.subnets == Idle && s.queue != [] && s.queue[0] == Added(rec)
    requires rec.value.assign && rec.value.hostIP in s.etcd
    requires UndisturbedRun(setup, Do(setup, s, TakeEvent(true, true)), actions, rec.value.hostIP)
    ensures RunOf(setup, s, [TakeEvent(true, true)] + actions).Some? && SubnetSteps(actions) <= 3
    ensures var end := RunOf(setup, s, [TakeEvent(true, true)] + actions).value;
      SubnetSteps(actions) == 3 ==>
        && end.subnets == Idle
        && rec.value.hostIP in end.etcd && Assigned(end.etcd[rec.value.hostIP], rec.name, rec.value.hostIP)
  {
    assert ([TakeEvent(true, true)] + actions)[1..] == actions;
    RunIsUnderWay(setup, Do(setup, s, TakeEvent(true, true)), actions, rec.name, rec.value.hostIP);
  }

  /** A record that asks for nothing is left alone. */
  lemma NothingAskedNothingDone(setup: Setup, s: State, rec: HostSubnet, ok: bool, accepted: bool)
    requires setup.cfg.Valid() && s.subnets == Idle && s.queue != [] && s.queue[0] == Added(rec) && !rec.value.assign
    ensures Do(setup, s, TakeEvent(ok, accepted)) == s.(queue := s.queue[1..])
  {
  }

  // ---------------------------------------------------------------- from the request to the subnet

  /** An administrator asks, the watcher sees it, and the goroutine serves it. */
  function Serving(name: string, ip: uint32): seq<Action> {
    [Request(name, ip), WatchNext, TakeEvent(true, true)] + [SubnetStep(true), SubnetStep(true), SubnetStep(true)]
  }

  /** The record is asked for, has been seen, and is being served. */
  ghost function Asked(s: State, name: string, ip: uint32): State { WriteRec(s, Record(name, HostInfo(ip, None, true))) }

  ghost function Noticed(s: State, name: string, ip: uint32): State {
    var rec := Record(name, HostInfo(ip, None, true));
    Asked(s, name, ip).(cursor := Some(|s.history| + 1), saved := AfterAdd(s.saved, rec), queue := [Added(rec)])
  }

  ghost function Taken(s: State, name: string, ip: uint32): State {
    DeleteRec(Noticed(s, name, ip), ip).(queue := [], subnets := Reading(name, ip))
  }

  lemma RequestIsTaken(setup: Setup, s: State, name: string, ip: uint32)
    requires setup.cfg.Valid() && s.subnets == Idle && s.queue == [] && s.cursor == Some(|s.history|)
    ensures RunOf(setup, s, [Request(name, ip), WatchNext, TakeEvent(true, true)]) == Some(Taken(s, name, ip))
  {
    var n := Noticed(s, name, ip);
    assert [] + [n.queue[0]] == n.queue && n.queue[1..] == [];
    SubnetRename.ThreeActions(setup, s, Request(name, ip), Asked(s, name, ip), WatchNext, n, TakeEvent(true, true));
  }

  lemma TakenIsServed(setup: Setup, t: State, name: string, ip: uint32)
    requires setup.cfg.Valid() && t.subnets == Reading(name, ip) && ip !in t.etcd && HasFree(setup.cfg, t)
    ensures var step := SubnetStep(true);
      var (pool, c) := SubnetAllocator.Allocate(SubnetAllocator.Numbered(setup.cfg), t.pool);
      && c.Some? && Free(setup.cfg, t, c.value)
      && RunOf(setup, t, [step, step, step])
         == Some(WriteRec(t.(pool := pool), Record(name, HostInfo(ip, c, false))).(subnets := Idle))
  {
    SubnetAllocator.FailsIffExhausted(SubnetAllocator.Numbered(setup.cfg), t.pool);
    var (pool, c) := SubnetAllocator.Allocate(SubnetAllocator.Numbered(setup.cfg), t.pool);
    var step, rec := SubnetStep(true), Record(name, HostInfo(ip, c, false));
    var t1, t2 := t.(subnets := Allocating(name, ip)), t.(pool := pool, subnets := Acquiring(rec));
    SubnetRename.ThreeActions(setup, t, step, t1, step, t2, step);
  }

  /** From a quiet master on, a request ends with a subnet that nobody had in use. */
  lemma RequestGetsFreeSubnet(setup: Setup, s: State, name: string, ip: uint32)
    requires setup.cfg.Valid() && s.subnets == Idle && s.queue == [] && s.cursor == Some(|s.history|)
    requires HasFree(setup.cfg, s)
    ensures RunOf(setup, s, Serving(name, ip)).Some?
    ensures var end := RunOf(setup, s, Serving(name, ip)).value;
      exists c :: Free(setup.cfg, s, c) && end.pool.taken == s.pool.taken + {c}
        && end.etcd == s.etcd[ip := Record(name, HostInfo(ip, Some(c), false))]
  {
    var t, step := Taken(s, name, ip), SubnetStep(true);
    RequestIsTaken(setup, s, name, ip);
    var free :| Free(setup.cfg, s, free);
    assert Free(setup.cfg, t, free);
    TakenIsServed(setup, t, name, ip);
    SubnetRename.RunOfConcat(setup, s, [Request(name, ip), WatchNext, TakeEvent(true, true)], [step, step, step]);
    var c := SubnetAllocator.Allocate(SubnetAllocator.Numbered(setup.cfg), s.pool).1;
    var rec := Record(name, HostInfo(ip, c, false));
    assert Free(setup.cfg, s, c.value);
    assert (s.etcd[ip := Record(name, HostInfo(ip, None, true))] - {ip})[ip := rec] == s.etcd[ip := rec];
  }
}
