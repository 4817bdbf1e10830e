/** The subnet master's methods run without interruption (ksdn/subnets.go, ksdn/common.go): each
    performs the steps of `MasterSubnets` to the end. */
module SubnetMaster {
  import opened Prelude
  import opened Word32
  import opened Cidrs
  import opened SubnetNumbering
  import SubnetAllocator
  import opened Watch
  import opened Records
  import opened MasterSubnets

  datatype MasterError = InvalidNodeIP | EtcdFailed | NoSubnet

  /** `validateNodeIP`: not empty (0 stands for that), not loopback, and outside the cluster and
      service networks. */
  predicate ValidNodeIP(cluster: Cidr, service: Cidr, ip: uint32)
    requires cluster.len <= 32 && service.len <= 32
  {
    ip != 0 && ip != 0x7F00_0001 && !cluster.Contains(ip) && !service.Contains(ip)
  }

  function Rank(t: Task): nat {
    match t
    case Idle => 0
    case Undoing(_) => 1
    case Acquiring(_) => 2
    case Renewing(_) => 2
    case Allocating(_, _) => 3
    case Reading(_, _) => 4
  }

  /** `addNode` from task `t` to its end, when nobody else takes a step. */
  ghost function Finish(cfg: Config, s: State, t: Task, readOk: bool, writeOk: bool): State
    requires cfg.Valid()
    decreases Rank(t)
  {
    if t.Idle? then s else
      var (s', t') := Advance(cfg, s, t, if t.Reading? then readOk else writeOk);
      Finish(cfg, s', t', readOk, writeOk)
  }

  /** A record found for the host: it is kept, or renewed if etcd takes the write. */
  lemma FinishFound(cfg: Config, s: State, name: string, ip: uint32, writeOk: bool)
    requires cfg.Valid() && ip in s.etcd
    ensures var rec := s.etcd[ip];
      var renewed := Record(name, rec.value.(assign := false));
      Finish(cfg, s, Reading(name, ip), true, writeOk) ==
      if (rec.name == name && !rec.value.assign) || !writeOk then s else WriteRec(s, renewed)
  {
    var rec := s.etcd[ip];
    if !(rec.name == name && !rec.value.assign) {
      var renewing := Renewing(Record(name, rec.value.(assign := false)));
      var (s', t) := Advance(cfg, s, renewing, writeOk);
      assert Finish(cfg, s', t, true, writeOk) == s';
      assert Finish(cfg, s, renewing, true, writeOk) == s';
    }
  }

  /** No record seen: a subnet is allocated and recorded, or given back when etcd refuses it. */
  lemma FinishMissing(cfg: Config, s: State, name: string, ip: uint32, readOk: bool, writeOk: bool)
    requires cfg.Valid() && (!readOk || ip !in s.etcd)
    ensures var (pool, c) := SubnetAllocator.Allocate(SubnetAllocator.Numbered(cfg), s.pool);
      Finish(cfg, s, Reading(name, ip), readOk, writeOk) ==
      if c.None? then s.(pool := pool)
      else if writeOk && ip !in s.etcd then WriteRec(s.(pool := pool), Record(name, HostInfo(ip, c, false)))
      else GiveBack(cfg, s.(pool := pool), c.value)
  {
    var (pool, c) := SubnetAllocator.Allocate(SubnetAllocator.Numbered(cfg), s.pool);
    var s1 := s.(pool := pool);
    if c.Some? {
      var rec := Record(name, HostInfo(ip, c, false));
      assert Finish(cfg, GiveBack(cfg, s1, c.value), Idle, readOk, writeOk) == GiveBack(cfg, s1, c.value);
      assert Finish(cfg, s1, Undoing(c.value), readOk, writeOk) == GiveBack(cfg, s1, c.value);
      assert Finish(cfg, s1, Acquiring(rec), readOk, writeOk) ==
             if writeOk && ip !in s.etcd then WriteRec(s1, rec) else GiveBack(cfg, s1, c.value);
    }
    assert Finish(cfg, s, Allocating(name, ip), readOk, writeOk)
        == Finish(cfg, s1, if c.None? then Idle else Acquiring(Record(name, HostInfo(ip, c, false))), readOk, writeOk);
  }

  // ---------------------------------------------------------------- an event handled without interruption

  /** Whether etcd answers the revocation, the read and the write that an event may lead to. */
  datatype Answers = Answers(revokeOk: bool, readOk: bool, writeOk: bool)

  ghost function AfterHandled(cfg: Config, service: Cidr, s: State, e: Event<HostInfo>, a: Answers): State
    requires cfg.Valid() && service.len <= 32
  {
    var d := Dispatch(cfg, s, e, a.revokeOk, ValidNodeIP(cfg.network, service, e.rec.value.hostIP));
    Finish(cfg, d.(subnets := Idle), d.subnets, a.readOk, a.writeOk)
  }

  ghost function AllHandled(cfg: Config, service: Cidr, s: State, batch: seq<Event<HostInfo>>, answers: seq<Answers>): State
    requires cfg.Valid() && service.len <= 32 && |answers| == |batch|
    decreases |batch|
  {
    if batch == [] then s else
      var n := |batch| - 1;
      AfterHandled(cfg, service, AllHandled(cfg, service, s, batch[..n], answers[..n]), batch[n], answers[n])
  }

  /** A host whose record is revoked gets a subnet that was free, if there is one and etcd takes the new
      record. */
  lemma ServedWhenFree(cfg: Config, s: State, name: string, ip: uint32, readOk: bool)
    requires cfg.Valid() && exists c :: c in SubnetAllocator.Numbered(cfg) && c !in s.pool.taken
    ensures var end := Finish(cfg, DeleteRec(s, ip), Reading(name, ip), readOk, true);
      exists c :: c in SubnetAllocator.Numbered(cfg) && c !in s.pool.taken
        && end.etcd == s.etcd[ip := Record(name, HostInfo(ip, Some(c), false))]
        && end.pool.taken == s.pool.taken + {c}
  {
    FinishMissing(cfg, DeleteRec(s, ip), name, ip, readOk, true);
    SubnetAllocator.FailsIffExhausted(SubnetAllocator.Numbered(cfg), s.pool);
    var rec := Record(name, HostInfo(ip, SubnetAllocator.Allocate(SubnetAllocator.Numbered(cfg), s.pool).1, false));
    assert (s.etcd - {ip})[ip := rec] == s.etcd[ip := rec];
  }

  // ---------------------------------------------------------------- starting

  /** `SubnetStartMaster`: the allocator of a new master has exactly the recorded subnets in use. */
  method SubnetStartMaster(cluster: Cidr, hostSubnetLength: uint32, subnets: seq<HostSubnet>, ghost s: State)
    returns (r: Result<SubnetAllocator.Allocator, SubnetAllocator.AllocError>)
    requires cluster.Valid() && IsSnapshot(s, subnets)
    ensures r.Ok? <==> Config(cluster, hostSubnetLength).Valid()
    ensures r.Ok? ==>
              && fresh(r.value) && r.value.Valid() && r.value.Cfg() == Config(cluster, hostSubnetLength)
              && r.value.View() == Started(r.value.Cfg(), s).pool
  {
    var subrange: seq<Option<Cidr>> := [];
    for i := 0 to |subnets|
      invariant |subrange| == i && forall j :: 0 <= j < i ==> subrange[j] == subnets[j].value.subnet
    {
      subrange := subrange + [subnets[i].value.subnet];
    }
    r := SubnetAllocator.NewSubnetAllocator(Some(cluster), hostSubnetLength, subrange);
    if r.Ok? {
      ListIsRecorded(r.value.Cfg(), s, subnets, subrange, r.value.View().taken);
    }
  }

  lemma ListIsRecorded(cfg: Config, s: State, list: seq<HostSubnet>, subrange: seq<Option<Cidr>>, taken: set<Cidr>)
    requires cfg.Valid() && IsSnapshot(s, list) && |subrange| == |list|
    requires forall i :: 0 <= i < |list| ==> subrange[i] == list[i].value.subnet
    requires forall c :: c in taken <==> Some(c) in subrange && cfg.network.Contains(c.addr)
    ensures taken == Recorded(cfg, s.etcd)
  {
    forall c | c in taken
      ensures c in Recorded(cfg, s.etcd)
    {
      var i :| 0 <= i < |list| && subrange[i] == Some(c);
      assert list[i] in list;
      assert s.etcd[list[i].value.hostIP].value.subnet == Some(c);
    }
    forall c | c in Recorded(cfg, s.etcd)
      ensures c in taken
    {
      var ip :| ip in s.etcd && s.etcd[ip].value.subnet == Some(c);
      var i :| 0 <= i < |list| && list[i] == s.etcd[ip];
      assert subrange[i] == Some(c);
    }
  }

  /** After a start the subnet of a recorded host is not handed out before it is released. */
  lemma RecordedIsNotHandedOut(cfg: Config, s: State, ip: uint32, ops: seq<SubnetAllocator.Op>)
    requires cfg.Valid() && ip in s.etcd && s.etcd[ip].value.subnet.Some?
    requires cfg.network.Contains(s.etcd[ip].value.subnet.value.addr)
    requires SubnetAllocator.Put(s.etcd[ip].value.subnet.value) !in ops
    ensures var subnets := SubnetAllocator.Numbered(cfg);
      var pool := SubnetAllocator.Run(cfg.network, subnets, Started(cfg, s).pool, ops);
      SubnetAllocator.Allocate(subnets, pool).1 != s.etcd[ip].value.subnet
  {
    var c := s.etcd[ip].value.subnet.value;
    assert c in Recorded(cfg, s.etcd);
    SubnetAllocator.InUseIsNotHandedOut(cfg.network, SubnetAllocator.Numbered(cfg), Started(cfg, s).pool, ops, c);
  }

  // ---------------------------------------------------------------- the methods

  function AllocationResult(c: Option<Cidr>, written: bool): Result<(), MasterError> {
    if c.None? then Err(NoSubnet) else if written then Ok(()) else Err(EtcdFailed)
  }

  class Master {
    var etcd: map<uint32, HostSubnet>
    ghost var history: seq<Write>
    const alloc: SubnetAllocator.Allocator
    const service: Cidr

    ghost predicate Valid()
      reads this, alloc
    {
      && alloc.Valid() && alloc.subnets == SubnetAllocator.Numbered(alloc.Cfg())
      && service.len <= 32
    }

    /** This master's etcd and allocator, with the rest of the protocol state from `base`. */
    ghost function Machine(base: State): State
      reads this, alloc
    {
      base.(etcd := etcd, history := history, pool := alloc.View())
    }

    constructor (alloc: SubnetAllocator.Allocator, service: Cidr, etcd: map<uint32, HostSubnet>)
      requires alloc.Valid() && alloc.subnets == SubnetAllocator.Numbered(alloc.Cfg()) && service.len <= 32
      ensures Valid() && this.alloc == alloc && this.etcd == etcd
    {
      this.alloc, this.service, this.etcd, this.history := alloc, service, etcd, [];
    }

    method Write(rec: HostSubnet)
      modifies this
      ensures forall base :: Machine(base) == WriteRec(old(Machine(base)), rec)
    {
      etcd := etcd[rec.value.hostIP := rec];
      history := history + [Wrote(rec)];
    }

    /** `readOk` and `writeOk` say whether etcd answers the read and the write. */
    method AddNode(name: string, ip: uint32, readOk: bool, writeOk: bool, ghost base: State)
      returns (r: Result<(), MasterError>)
      requires Valid()
      modifies this, alloc
      ensures Valid()
      ensures !ValidNodeIP(alloc.network, service, ip) ==>
                Machine(base) == old(Machine(base))
      ensures ValidNodeIP(alloc.network, service, ip) ==>
                Machine(base) == Finish(alloc.Cfg(), old(Machine(base)), Reading(name, ip), readOk, writeOk)
      ensures r == Err(InvalidNodeIP) <==>
                ip == 0 || ip == 0x7F00_0001 || alloc.network.Contains(ip) || service.Contains(ip)
      ensures r == (if !ValidNodeIP(alloc.network, service, ip) then Err(InvalidNodeIP)
                    else if readOk && ip in old(etcd) then
                      (if writeOk || (old(etcd)[ip].name == name && !old(etcd)[ip].value.assign) then Ok(()) else Err(EtcdFailed))
                    else AllocationResult(SubnetAllocator.Allocate(SubnetAllocator.Numbered(alloc.Cfg()), old(alloc.View())).1,
                                          writeOk && ip !in old(etcd)))
    {
      ghost var cfg := alloc.Cfg();
      if !ValidNodeIP(alloc.network, service, ip) {
        return Err(InvalidNodeIP);
      }
      if readOk && ip in etcd {
        FinishFound(cfg, Machine(base), name, ip, writeOk);
        var sub := etcd[ip];
        if sub.name == name && !sub.value.assign {
          return Ok(());
        }
        var rec := Record(name, sub.value.(assign := false));
        if writeOk {
          Write(rec);
          return Ok(());
        }
        return Err(EtcdFailed);
      }
      FinishMissing(cfg, Machine(base), name, ip, readOk, writeOk);
      r := AllocateFor(name, ip, writeOk, base);
    }

    /** The rest of AddNode once no record was found. */
    method AllocateFor(name: string, ip: uint32, writeOk: bool, ghost base: State)
      returns (r: Result<(), MasterError>)
      requires Valid()
      modifies this, alloc
      ensures Valid()
      ensures var (pool, c) := SubnetAllocator.Allocate(SubnetAllocator.Numbered(alloc.Cfg()), old(alloc.View()));
        && Machine(base) ==
           (if c.None? then old(Machine(base)).(pool := pool)
            else if writeOk && ip !in old(etcd)
            then WriteRec(old(Machine(base)).(pool := pool), Record(name, HostInfo(ip, c, false)))
            else GiveBack(alloc.Cfg(), old(Machine(base)).(pool := pool), c.value))
        && r == AllocationResult(c, writeOk && ip !in old(etcd))
    {
      var sn := alloc.GetNetwork();
      if sn.Err? {
        return Err(NoSubnet);
      }
      var rec := Record(name, HostInfo(ip, Some(sn.value), false));
      if writeOk && ip !in etcd {
        Write(rec);
        return Ok(());
      }
      var released := alloc.ReleaseNetwork(sn.value);
      r := Err(EtcdFailed);
    }

    method DeleteNode(ip: uint32, ok: bool, ghost base: State) returns (r: Result<(), MasterError>)
      requires Valid()
      modifies this
      ensures Valid()
      ensures Machine(base) == if ok && ip in old(etcd) then DeleteRec(old(Machine(base)), ip) else old(Machine(base))
      ensures r == if ok && ip in old(etcd) then Ok(()) else Err(EtcdFailed)
    {
      if !(ok && ip in etcd) {
        return Err(EtcdFailed);
      }
      etcd := etcd - {ip};
      history := history + [Erased(ip)];
      r := Ok(());
    }

    /** `masterHandleSubnetEvent` on one event: a request is revoked and the host added anew, a removed
        record's subnet is given back. */
    method HandleSubnetEvent(e: Event<HostInfo>, a: Answers, ghost base: State)
      requires Valid() && base.subnets == Idle
      modifies this, alloc
      ensures Valid()
      ensures Machine(base) == AfterHandled(alloc.Cfg(), service, old(Machine(base)), e, a)
      ensures e.Added? && (!e.rec.value.assign || !a.revokeOk || e.rec.value.hostIP !in old(etcd)) ==>
                Machine(base) == old(Machine(base))
      ensures e.Added? && e.rec.value.assign && a.revokeOk && e.rec.value.hostIP in old(etcd) && a.writeOk
              && ValidNodeIP(alloc.network, service, e.rec.value.hostIP)
              && (exists c :: c in alloc.subnets && c !in old(alloc.View()).taken) ==>
                exists c :: c in alloc.subnets && c !in old(alloc.View()).taken
                  && etcd == old(etcd)[e.rec.value.hostIP := Record(e.rec.name, HostInfo(e.rec.value.hostIP, Some(c), false))]
                  && alloc.View().taken == old(alloc.View()).taken + {c}
    {
      ghost var before := Machine(base);
      var ip, subnet := e.rec.value.hostIP, e.rec.value.subnet;
      match e {
        case Added(rec) =>
          if !rec.value.assign {
            return;
          }
          var revoked := DeleteNode(ip, a.revokeOk, base);
          if revoked.Err? {
            return;
          }
          if exists c :: c in alloc.subnets && c !in before.pool.taken {
            ServedWhenFree(alloc.Cfg(), before, rec.name, ip, a.readOk);
          }
          var added := AddNode(rec.name, ip, a.readOk, a.writeOk, base);
        case Removed(rec) =>
          if !rec.value.assign && subnet.Some? {
            var released := alloc.ReleaseNetwork(subnet.value);
          }
      }
    }

    method HandleSubnetEvents(batch: seq<Event<HostInfo>>, answers: seq<Answers>, ghost base: State)
      requires Valid() && base.subnets == Idle && |answers| == |batch|
      modifies this, alloc
      ensures Valid()
      ensures Machine(base) == AllHandled(alloc.Cfg(), service, old(Machine(base)), batch, answers)
    {
      ghost var before := Machine(base);
      for i := 0 to |batch|
        invariant Valid()
        invariant Machine(base) == AllHandled(alloc.Cfg(), service, before, batch[..i], answers[..i])
      {
        assert batch[..i + 1][..i] == batch[..i] && answers[..i + 1][..i] == answers[..i];
        HandleSubnetEvent(batch[i], answers[i], base);
      }
      assert batch[..|batch|] == batch && answers[..|batch|] == answers;
    }
  }
}
