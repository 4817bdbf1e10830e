/** The master's subnet protocol: two goroutines and a watcher over etcd and one allocator
    (ksdn/subnets.go). Every etcd operation and every allocator call is one step; the node
    goroutine, the subnet goroutine, the watcher and administrators interleave freely. */
module MasterSubnets {
  import opened Prelude
  import opened Word32
  import opened Cidrs
  import opened SubnetNumbering
  import opened SubnetAllocator
  import opened Watch
  import opened Records

  // ---------------------------------------------------------------- state

  datatype Write = Wrote(rec: HostSubnet) | Erased(hostIP: uint32)

  /** Where a goroutine stands inside `addNode(name, hostIP, false)`. */
  datatype Task =
    | Idle
    | Reading(name: string, hostIP: uint32)     // about to call GetSubnet
    | Renewing(rec: HostSubnet)                 // the record must change; about to call RenewSubnet
    | Allocating(name: string, hostIP: uint32)  // GetSubnet failed; about to call GetNetwork
    | Acquiring(rec: HostSubnet)                // has a network; about to call AcquireSubnet
    | Undoing(c: Cidr)                          // AcquireSubnet failed; about to call ReleaseNetwork

  datatype State = State(
    etcd: map<uint32, HostSubnet>,    // the subnets directory, by host address
    history: seq<Write>,              // every write to it
    pool: Pool,                       // the allocator
    cursor: Option<nat>,              // how much of the history the watcher has seen
    saved: seq<HostSubnet>,           // the watcher's records
    queue: seq<Event<HostInfo>>,      // events the subnet goroutine has not handled
    nodes: Task,                      // the node goroutine
    subnets: Task)                    // the subnet goroutine

  /** What never changes: the allocator's configuration and the naming of etcd keys. */
  datatype Setup = Setup(cfg: Config, dir: string, keyOf: uint32 -> string)

  // ---------------------------------------------------------------- steps

  function WriteRec(s: State, rec: HostSubnet): State {
    s.(etcd := s.etcd[rec.value.hostIP := rec], history := s.history + [Wrote(rec)])
  }

  function DeleteRec(s: State, hostIP: uint32): State {
    s.(etcd := s.etcd - {hostIP}, history := s.history + [Erased(hostIP)])
  }

  function GiveBack(cfg: Config, s: State, c: Cidr): State
    requires cfg.network.len <= 32
  {
    s.(pool := Step(cfg.network, [], s.pool, Put(c)))
  }

  /** One step inside `addNode`; `ok` says whether the call it makes succeeds. */
  ghost function Advance(cfg: Config, s: State, t: Task, ok: bool): (State, Task)
    requires cfg.Valid()
  {
    match t
    case Idle => (s, Idle)
    case Reading(name, ip) =>
      if !ok || ip !in s.etcd then (s, Allocating(name, ip))
      else if s.etcd[ip].name == name && !s.etcd[ip].value.assign then (s, Idle)
      else (s, Renewing(Record(name, s.etcd[ip].value.(assign := false))))
    case Renewing(rec) => (if ok then WriteRec(s, rec) else s, Idle)
    case Allocating(name, ip) =>
      var (pool, c) := Allocate(Numbered(cfg), s.pool);
      (s.(pool := pool), if c.None? then Idle else Acquiring(Record(name, HostInfo(ip, c, false))))
    case Acquiring(rec) =>
      if ok && rec.value.hostIP !in s.etcd then (WriteRec(s, rec), Idle)
      else if rec.value.subnet.Some? then (s, Undoing(rec.value.subnet.value))
      else (s, Idle)
    case Undoing(c) => (GiveBack(cfg, s, c), Idle)
  }

  datatype Action =
    | AddNode(name: string, hostIP: uint32)          // a node event starts addNode
    | DeleteNode(hostIP: uint32, ok: bool)           // a node event runs deleteNode
    | NodeStep(ok: bool)                             // the node goroutine goes on in addNode
    | TakeEvent(ok: bool, accepted: bool)            // the subnet goroutine handles the next event
    | SubnetStep(ok: bool)                           // ... and goes on in addNode
    | WatchNext                                      // the watcher receives the next write
    | WatchReset(snapshot: seq<HostSubnet>)          // watching starts, or history was truncated
    | Request(name: string, hostIP: uint32)          // an administrator asks for an assignment
    | Failover                                       // a new master starts from etcd

  /** A deletion is reported under the deleted key. */
  function EventOf(setup: Setup, w: Write): Event<HostInfo> {
    match w
    case Wrote(rec) => Added(rec)
    case Erased(ip) => Removed(Record(EtcdKey(setup.dir, setup.keyOf(ip)), HostInfo(0, None, false)))
  }

  /** No two records are for one host address. */
  ghost predicate DistinctAddresses(recs: seq<HostSubnet>) {
    forall i, j :: 0 <= i < j < |recs| ==> recs[i].value.hostIP != recs[j].value.hostIP
  }

  /** A quorum read of the whole directory. */
  ghost predicate IsSnapshot(s: State, snapshot: seq<HostSubnet>) {
    && DistinctAddresses(snapshot)
    && (forall r :: r in snapshot ==> r.value.hostIP in s.etcd && s.etcd[r.value.hostIP] == r)
    && (forall ip :: ip in s.etcd ==> s.etcd[ip] in snapshot)
  }

  ghost predicate Enabled(s: State, a: Action) {
    match a
    case AddNode(_, _) => s.nodes == Idle
    case DeleteNode(_, _) => s.nodes == Idle
    case NodeStep(_) => s.nodes != Idle
    case TakeEvent(_, _) => s.subnets == Idle && s.queue != []
    case SubnetStep(_) => s.subnets != Idle
    case WatchNext => s.cursor.Some? && s.cursor.value < |s.history|
    case WatchReset(snapshot) => IsSnapshot(s, snapshot)
    case Request(_, _) => true
    case Failover => true
  }

  /** `masterHandleSubnetEvent` on one event, up to the start of `addNode`: `ok` says whether the record
      is revoked, `accepted` whether `addNode` then accepts the address. */
  ghost function Dispatch(cfg: Config, s: State, e: Event<HostInfo>, ok: bool, accepted: bool): State
    requires cfg.Valid()
  {
    match e
    case Added(rec) =>
      if rec.value.assign && ok && rec.value.hostIP in s.etcd
      then DeleteRec(s, rec.value.hostIP).(subnets := if accepted then Reading(rec.name, rec.value.hostIP) else s.subnets)
      else s
    case Removed(rec) =>
      if !rec.value.assign && rec.value.subnet.Some? then GiveBack(cfg, s, rec.value.subnet.value) else s
  }

  /** What NewSubnetAllocator marks in use from the recorded subnets. */
  ghost function Recorded(cfg: Config, etcd: map<uint32, HostSubnet>): set<Cidr>
    requires cfg.Valid()
  {
    set ip | ip in etcd && etcd[ip].value.subnet.Some?
             && cfg.network.Contains(etcd[ip].value.subnet.value.addr) :: etcd[ip].value.subnet.value
  }

  ghost function Started(cfg: Config, s: State): State
    requires cfg.Valid()
  {
    s.(pool := Pool(0, Recorded(cfg, s.etcd)), cursor := None, saved := [], queue := [],
       nodes := Idle, subnets := Idle)
  }

  ghost function Do(setup: Setup, s: State, a: Action): State
    requires setup.cfg.Valid() && Enabled(s, a)
  {
    match a
    case AddNode(name, ip) => s.(nodes := Reading(name, ip))
    case DeleteNode(ip, ok) => if ok && ip in s.etcd then DeleteRec(s, ip) else s
    case NodeStep(ok) => var (s', t) := Advance(setup.cfg, s, s.nodes, ok); s'.(nodes := t)
    case SubnetStep(ok) => var (s', t) := Advance(setup.cfg, s, s.subnets, ok); s'.(subnets := t)
    case TakeEvent(ok, accepted) => Dispatch(setup.cfg, s.(queue := s.queue[1..]), s.queue[0], ok, accepted)
    case WatchNext =>
      var (saved', e) := AfterEvent(s.saved, EventOf(setup, s.history[s.cursor.value]));
      s.(cursor := Some(s.cursor.value + 1), saved := saved', queue := s.queue + [e])
    case WatchReset(snapshot) =>
      s.(cursor := Some(|s.history|), saved := snapshot, queue := s.queue + ResetBatch(s.saved, snapshot))
    case Request(name, ip) => WriteRec(s, Record(name, HostInfo(ip, None, true)))
    case Failover => Started(setup.cfg, s)
  }

  // ---------------------------------------------------------------- the invariant

  /** A one-to-one naming of hosts by names without a slash. */
  ghost predicate OneToOne(host: uint32 -> string) {
    && (forall a, b :: host(a) == host(b) ==> a == b)
    && (forall a :: PlainName(host(a)))
  }

  /** Every action names hosts as `host` does. */
  ghost predicate Fixed(host: uint32 -> string, a: Action) {
    match a
    case AddNode(name, ip) => name == host(ip)
    case Request(name, ip) => name == host(ip)
    case _ => true
  }

  /** Where a subnet in use is: recorded for a host, held by a goroutine, or about to be released. */
  datatype Stage = For(hostIP: uint32) | HeldByNodes | HeldBySubnets | Doomed

  /** A record names its host, and only one without a subnet asks for an assignment. */
  ghost predicate RecOk(host: uint32 -> string, rec: HostSubnet) {
    rec.name == host(rec.value.hostIP) && (rec.value.assign ==> rec.value.subnet.None?)
  }

  ghost predicate Staged(owner: map<Cidr, Stage>, subnet: Option<Cidr>, stage: Stage) {
    subnet.Some? ==> subnet.value in owner && owner[subnet.value] == stage
  }

  ghost predicate RecStaged(host: uint32 -> string, owner: map<Cidr, Stage>, rec: HostSubnet) {
    RecOk(host, rec) && Staged(owner, rec.value.subnet, For(rec.value.hostIP))
  }

  ghost predicate EtcdOk(host: uint32 -> string, owner: map<Cidr, Stage>, etcd: map<uint32, HostSubnet>) {
    forall ip :: ip in etcd ==> etcd[ip].value.hostIP == ip && RecStaged(host, owner, etcd[ip])
  }

  ghost predicate UnseenOk(host: uint32 -> string, owner: map<Cidr, Stage>, s: State) {
    s.cursor.Some? ==>
      && s.cursor.value <= |s.history|
      && forall j :: s.cursor.value <= j < |s.history| && s.history[j].Wrote? ==>
           RecStaged(host, owner, s.history[j].rec)
  }

  ghost predicate SavedOk(host: uint32 -> string, owner: map<Cidr, Stage>, saved: seq<HostSubnet>) {
    && UniqueNames(saved)
    && forall i :: 0 <= i < |saved| ==> RecStaged(host, owner, saved[i])
  }

  predicate Dooms(e: Event<HostInfo>) { e.Removed? && !e.rec.value.assign && e.rec.value.subnet.Some? }

  ghost predicate QueueOk(host: uint32 -> string, owner: map<Cidr, Stage>, queue: seq<Event<HostInfo>>) {
    && (forall i :: 0 <= i < |queue| && queue[i].Added? ==> queue[i].rec.name == host(queue[i].rec.value.hostIP))
    && (forall i :: 0 <= i < |queue| && Dooms(queue[i]) ==> Staged(owner, queue[i].rec.value.subnet, Doomed))
    && (forall i, j :: 0 <= i < j < |queue| && Dooms(queue[i]) && Dooms(queue[j]) ==>
          queue[i].rec.value.subnet != queue[j].rec.value.subnet)
  }

  ghost predicate TaskOk(host: uint32 -> string, owner: map<Cidr, Stage>, t: Task, held: Stage) {
    match t
    case Idle => true
    case Reading(name, ip) => name == host(ip)
    case Renewing(rec) => RecOk(host, rec) && rec.value.subnet.None?
    case Allocating(name, ip) => name == host(ip)
    case Acquiring(rec) => RecOk(host, rec) && Staged(owner, rec.value.subnet, held)
    case Undoing(c) => Staged(owner, Some(c), held)
  }

  ghost predicate InvWith(setup: Setup, host: uint32 -> string, s: State, owner: map<Cidr, Stage>)
    requires setup.cfg.Valid()
  {
    && OneToOne(host)
    && InNetwork(setup.cfg, s.pool) && Uniform(setup.cfg, s.pool)
    && owner.Keys == s.pool.taken
    && EtcdOk(host, owner, s.etcd)
    && UnseenOk(host, owner, s)
    && SavedOk(host, owner, s.saved)
    && QueueOk(host, owner, s.queue)
    && TaskOk(host, owner, s.nodes, HeldByNodes)
    && TaskOk(host, owner, s.subnets, HeldBySubnets)
  }

  ghost predicate Inv(setup: Setup, host: uint32 -> string, s: State)
    requires setup.cfg.Valid()
  {
    exists owner :: InvWith(setup, host, s, owner)
  }

  // ---------------------------------------------------------------- preservation

  /** An owner change that leaves `For` stages alone leaves records staged. */
  ghost predicate Extends(owner: map<Cidr, Stage>, owner': map<Cidr, Stage>, c: Cidr) {
    forall d :: d in owner && d != c ==> d in owner' && owner'[d] == owner[d]
  }

  /** What the data structures hold survives when only the stage of `c` changes and none of them
      holds `c`. */
  lemma OthersUnaffected(host: uint32 -> string, s: State, owner: map<Cidr, Stage>, owner': map<Cidr, Stage>, c: Cidr)
    requires EtcdOk(host, owner, s.etcd) && UnseenOk(host, owner, s)
    requires SavedOk(host, owner, s.saved) && QueueOk(host, owner, s.queue)
    requires Extends(owner, owner', c)
    requires c !in owner || owner[c] == HeldByNodes || owner[c] == HeldBySubnets
    ensures EtcdOk(host, owner', s.etcd) && UnseenOk(host, owner', s)
    ensures SavedOk(host, owner', s.saved) && QueueOk(host, owner', s.queue)
  {
  }

  lemma WriteKeeps(host: uint32 -> string, s: State, owner: map<Cidr, Stage>, rec: HostSubnet)
    requires EtcdOk(host, owner, s.etcd) && UnseenOk(host, owner, s) && RecStaged(host, owner, rec)
    ensures EtcdOk(host, owner, WriteRec(s, rec).etcd) && UnseenOk(host, owner, WriteRec(s, rec))
  {
  }

  /** A subnet held by one goroutine is not what the other holds. */
  lemma OtherTaskUnaffected(host: uint32 -> string, owner: map<Cidr, Stage>, owner': map<Cidr, Stage>,
                            c: Cidr, other: Task, otherHeld: Stage)
    requires TaskOk(host, owner, other, otherHeld) && Extends(owner, owner', c)
    requires c in owner ==> owner[c] != otherHeld
    ensures TaskOk(host, owner', other, otherHeld)
  {
  }

  lemma AllocateStep(setup: Setup, s: State)
    requires setup.cfg.Valid() && InNetwork(setup.cfg, s.pool) && Uniform(setup.cfg, s.pool)
    ensures var (pool, c) := Allocate(Numbered(setup.cfg), s.pool);
      && InNetwork(setup.cfg, pool) && Uniform(setup.cfg, pool)
      && (c.None? ==> pool.taken == s.pool.taken)
      && (c.Some? ==> c.value !in s.pool.taken && pool.taken == s.pool.taken + {c.value})
  {
    StepKeepsUniform(setup.cfg, s.pool, Get);
  }

  /** Everything is staged, with task `t` in the goroutine that holds `held`. */
  ghost predicate AllStaged(setup: Setup, host: uint32 -> string, s: State, owner: map<Cidr, Stage>,
                            t: Task, other: Task, held: Stage, otherHeld: Stage)
    requires setup.cfg.Valid()
  {
    && InNetwork(setup.cfg, s.pool) && Uniform(setup.cfg, s.pool) && owner.Keys == s.pool.taken
    && EtcdOk(host, owner, s.etcd) && UnseenOk(host, owner, s)
    && SavedOk(host, owner, s.saved) && QueueOk(host, owner, s.queue)
    && TaskOk(host, owner, t, held) && TaskOk(host, owner, other, otherHeld)
    && held != otherHeld && {held, otherHeld} == {HeldByNodes, HeldBySubnets}
  }

  lemma AllocatingKeeps(setup: Setup, host: uint32 -> string, s: State, owner: map<Cidr, Stage>,
                        t: Task, other: Task, held: Stage, otherHeld: Stage, ok: bool)
    returns (owner': map<Cidr, Stage>)
    requires setup.cfg.Valid() && t.Allocating? && AllStaged(setup, host, s, owner, t, other, held, otherHeld)
    ensures var (s', t') := Advance(setup.cfg, s, t, ok);
      AllStaged(setup, host, s', owner', t', other, held, otherHeld)
  {
    owner' := owner;
    AllocateStep(setup, s);
    var (pool, c) := Allocate(Numbered(setup.cfg), s.pool);
    if c.Some? {
      owner' := owner[c.value := held];
      OthersUnaffected(host, s, owner, owner', c.value);
      OtherTaskUnaffected(host, owner, owner', c.value, other, otherHeld);
    }
  }

  lemma AcquiringKeeps(setup: Setup, host: uint32 -> string, s: State, owner: map<Cidr, Stage>,
                       t: Task, other: Task, held: Stage, otherHeld: Stage, ok: bool)
    returns (owner': map<Cidr, Stage>)
    requires setup.cfg.Valid() && t.Acquiring? && AllStaged(setup, host, s, owner, t, other, held, otherHeld)
    ensures var (s', t') := Advance(setup.cfg, s, t, ok);
      AllStaged(setup, host, s', owner', t', other, held, otherHeld)
  {
    owner' := owner;
    var rec := t.rec;
    if ok && rec.value.hostIP !in s.etcd {
      if rec.value.subnet.Some? {
        owner' := owner[rec.value.subnet.value := For(rec.value.hostIP)];
        OthersUnaffected(host, s, owner, owner', rec.value.subnet.value);
        OtherTaskUnaffected(host, owner, owner', rec.value.subnet.value, other, otherHeld);
      }
      WriteKeeps(host, s, owner', rec);
    }
  }

  lemma UndoingKeeps(setup: Setup, host: uint32 -> string, s: State, owner: map<Cidr, Stage>,
                     t: Task, other: Task, held: Stage, otherHeld: Stage, ok: bool)
    returns (owner': map<Cidr, Stage>)
    requires setup.cfg.Valid() && t.Undoing? && AllStaged(setup, host, s, owner, t, other, held, otherHeld)
    ensures var (s', t') := Advance(setup.cfg, s, t, ok);
      AllStaged(setup, host, s', owner', t', other, held, otherHeld)
  {
    owner' := owner - {t.c};
    StepKeepsUniform(setup.cfg, s.pool, Put(t.c));
    OthersUnaffected(host, s, owner, owner', t.c);
    OtherTaskUnaffected(host, owner, owner', t.c, other, otherHeld);
  }

  /** Running one step of `addNode` in either goroutine. */
  lemma AdvanceKeeps(setup: Setup, host: uint32 -> string, s: State, owner: map<Cidr, Stage>,
                     t: Task, other: Task, held: Stage, otherHeld: Stage, ok: bool)
    returns (owner': map<Cidr, Stage>)
    requires setup.cfg.Valid() && AllStaged(setup, host, s, owner, t, other, held, otherHeld)
    ensures var (s', t') := Advance(setup.cfg, s, t, ok);
      AllStaged(setup, host, s', owner', t', other, held, otherHeld)
  {
    owner' := owner;
    match t {
      case Idle =>
      case Reading(_, _) =>
      case Renewing(rec) => WriteKeeps(host, s, owner, rec);
      case Allocating(_, _) => owner' := AllocatingKeeps(setup, host, s, owner, t, other, held, otherHeld, ok);
      case Acquiring(_) => owner' := AcquiringKeeps(setup, host, s, owner, t, other, held, otherHeld, ok);
      case Undoing(_) => owner' := UndoingKeeps(setup, host, s, owner, t, other, held, otherHeld, ok);
    }
  }

  lemma QueueHarmless(host: uint32 -> string, owner: map<Cidr, Stage>, queue: seq<Event<HostInfo>>, e: Event<HostInfo>)
    requires QueueOk(host, owner, queue) && !Dooms(e)
    requires e.Added? ==> e.rec.name == host(e.rec.value.hostIP)
    ensures QueueOk(host, owner, queue + [e])
  {
  }

  /** A deletion reported under its key matches no saved record. */
  lemma DeletionUnmatched(setup: Setup, host: uint32 -> string, owner: map<Cidr, Stage>,
                          saved: seq<HostSubnet>, ip: uint32)
    requires OneToOne(host) && SavedOk(host, owner, saved)
    ensures var e := EventOf(setup, Erased(ip)); AfterEvent(saved, e) == (saved, e)
  {
    var e := EventOf(setup, Erased(ip));
    forall i | 0 <= i < |saved|
      ensures saved[i].name != e.rec.name
    {
      assert RecStaged(host, owner, saved[i]);
      KeyIsNoName(setup.dir, setup.keyOf(ip), saved[i].name);
    }
    assert Find(saved, e.rec.name).None?;
  }

  lemma SaveKeeps(host: uint32 -> string, owner: map<Cidr, Stage>, saved: seq<HostSubnet>, rec: HostSubnet)
    requires SavedOk(host, owner, saved) && RecStaged(host, owner, rec)
    ensures SavedOk(host, owner, AfterAdd(saved, rec))
  {
    AddedRecords(saved, rec);
    var saved' := AfterAdd(saved, rec);
    forall i | 0 <= i < |saved'|
      ensures RecStaged(host, owner, saved'[i])
    {
      assert saved'[i] in saved';
    }
  }

  /** The next write reaches the watcher. */
  lemma WatchNextKeeps(setup: Setup, host: uint32 -> string, s: State, owner: map<Cidr, Stage>)
    requires setup.cfg.Valid() && InvWith(setup, host, s, owner) && Enabled(s, WatchNext)
    ensures InvWith(setup, host, Do(setup, s, WatchNext), owner)
  {
    var w := s.history[s.cursor.value];
    match w {
      case Wrote(rec) =>
        SaveKeeps(host, owner, s.saved, rec);
        QueueHarmless(host, owner, s.queue, Added(rec));
      case Erased(ip) =>
        DeletionUnmatched(setup, host, owner, s.saved, ip);
        QueueHarmless(host, owner, s.queue, EventOf(setup, w));
    }
  }

  /** The subnets a reset announces as removed: those of saved records missing from etcd. */
  ghost function Lost(saved: seq<HostSubnet>, snapshot: seq<HostSubnet>): set<Cidr> {
    set r | r in Strike(saved, snapshot).0 && Dooms(Removed(r)) :: r.value.subnet.value
  }

  ghost function Marked(owner: map<Cidr, Stage>, lost: set<Cidr>): map<Cidr, Stage> {
    map c | c in owner :: if c in lost then Doomed else owner[c]
  }

  /** No lost subnet is recorded in etcd: its host is not there, and no other host has it. */
  lemma LostIsUnrecorded(host: uint32 -> string, s: State, owner: map<Cidr, Stage>, snapshot: seq<HostSubnet>, c: Cidr)
    requires OneToOne(host) && EtcdOk(host, owner, s.etcd) && SavedOk(host, owner, s.saved)
    requires IsSnapshot(s, snapshot) && c in Lost(s.saved, snapshot)
    ensures c in owner && owner[c].For?
    ensures forall ip :: ip in s.etcd ==> s.etcd[ip].value.subnet != Some(c)
  {
    SnapshotNames(host, s, owner, snapshot);
    StrikeSplits(s.saved, snapshot);
    var r :| r in Strike(s.saved, snapshot).0 && Dooms(Removed(r)) && r.value.subnet.value == c;
    var i :| 0 <= i < |s.saved| && s.saved[i] == r;
    assert RecStaged(host, owner, s.saved[i]);
    forall ip | ip in s.etcd
      ensures s.etcd[ip].value.subnet != Some(c)
    {
      assert RecStaged(host, owner, s.etcd[ip]);
      assert s.etcd[ip] in snapshot;
      assert s.etcd[ip].name in Names(snapshot);
    }
  }

  /** Different saved records are lost with different subnets. */
  lemma LostDistinct(host: uint32 -> string, owner: map<Cidr, Stage>, left: seq<HostSubnet>, i: nat, j: nat)
    requires OneToOne(host) && SavedOk(host, owner, left) && i < j < |left|
    requires Dooms(Removed(left[i])) && Dooms(Removed(left[j]))
    ensures left[i].value.subnet != left[j].value.subnet
  {
    assert RecStaged(host, owner, left[i]) && RecStaged(host, owner, left[j]);
  }

  lemma LeftIsSaved(host: uint32 -> string, owner: map<Cidr, Stage>, saved: seq<HostSubnet>, snapshot: seq<HostSubnet>)
    requires SavedOk(host, owner, saved) && UniqueNames(snapshot)
    ensures SavedOk(host, owner, Strike(saved, snapshot).0)
  {
    StrikeSplits(saved, snapshot);
    var left := Strike(saved, snapshot).0;
    forall i | 0 <= i < |left|
      ensures RecStaged(host, owner, left[i])
    {
      assert left[i] in left;
      var k :| 0 <= k < |saved| && saved[k] == left[i];
    }
  }

  /** A saved record that a reset announces as removed dooms its subnet. */
  lemma RemovalDooms(host: uint32 -> string, owner: map<Cidr, Stage>, saved: seq<HostSubnet>,
                     snapshot: seq<HostSubnet>, r: HostSubnet)
    requires OneToOne(host) && SavedOk(host, owner, saved) && UniqueNames(snapshot)
    requires r in Strike(saved, snapshot).0 && Dooms(Removed(r))
    ensures r.value.subnet.value in Lost(saved, snapshot)
    ensures Staged(Marked(owner, Lost(saved, snapshot)), r.value.subnet, Doomed)
  {
    StrikeSplits(saved, snapshot);
    var i :| 0 <= i < |saved| && saved[i] == r;
    assert RecStaged(host, owner, saved[i]);
  }

  lemma BatchIsQueue(host: uint32 -> string, owner: map<Cidr, Stage>, added: seq<Event<HostInfo>>, left: seq<HostSubnet>)
    requires forall i :: 0 <= i < |added| ==> added[i].Added? && added[i].rec.name == host(added[i].rec.value.hostIP)
    requires forall i :: 0 <= i < |left| && Dooms(Removed(left[i])) ==> Staged(owner, left[i].value.subnet, Doomed)
    requires forall i, j :: 0 <= i < j < |left| && Dooms(Removed(left[i])) && Dooms(Removed(left[j])) ==>
               left[i].value.subnet != left[j].value.subnet
    ensures QueueOk(host, owner, added + Removals(left))
  {
    var batch := added + Removals(left);
    assert forall i :: |added| <= i < |batch| ==> batch[i] == Removed(left[i - |added|]);
  }

  /** The events of a reset: additions name recorded hosts, removals doom the lost subnets. */
  lemma ResetEvents(host: uint32 -> string, owner: map<Cidr, Stage>, saved: seq<HostSubnet>, snapshot: seq<HostSubnet>)
    requires OneToOne(host) && SavedOk(host, owner, saved)
    requires UniqueNames(snapshot) && forall r :: r in snapshot ==> RecOk(host, r)
    ensures QueueOk(host, Marked(owner, Lost(saved, snapshot)), ResetBatch(saved, snapshot))
  {
    StrikeSplits(saved, snapshot);
    LeftIsSaved(host, owner, saved, snapshot);
    var (left, added) := Strike(saved, snapshot);
    forall i | 0 <= i < |added|
      ensures added[i].Added? && added[i].rec.name == host(added[i].rec.value.hostIP)
    {
      assert added[i] in added;
    }
    forall i | 0 <= i < |left| && Dooms(Removed(left[i]))
      ensures Staged(Marked(owner, Lost(saved, snapshot)), left[i].value.subnet, Doomed)
    {
      RemovalDooms(host, owner, saved, snapshot, left[i]);
    }
    forall i, j | 0 <= i < j < |left| && Dooms(Removed(left[i])) && Dooms(Removed(left[j]))
      ensures left[i].value.subnet != left[j].value.subnet
    {
      LostDistinct(host, owner, left, i, j);
    }
    BatchIsQueue(host, Marked(owner, Lost(saved, snapshot)), added, left);
  }

  lemma RemovalsAreLost(saved: seq<HostSubnet>, snapshot: seq<HostSubnet>, i: nat)
    requires UniqueNames(saved) && UniqueNames(snapshot)
    requires i < |ResetBatch(saved, snapshot)| && Dooms(ResetBatch(saved, snapshot)[i])
    ensures ResetBatch(saved, snapshot)[i].rec.value.subnet.value in Lost(saved, snapshot)
  {
    StrikeSplits(saved, snapshot);
    var (left, added) := Strike(saved, snapshot);
    assert forall e :: e in added ==> e.Added?;
    assert i >= |added|;
    assert ResetBatch(saved, snapshot)[i] == Removed(left[i - |added|]) && left[i - |added|] in left;
  }

  lemma QueueConcat(host: uint32 -> string, owner: map<Cidr, Stage>, queue: seq<Event<HostInfo>>, batch: seq<Event<HostInfo>>)
    requires QueueOk(host, owner, queue) && QueueOk(host, owner, batch)
    requires forall i, j :: 0 <= i < |queue| && 0 <= j < |batch| && Dooms(queue[i]) && Dooms(batch[j]) ==>
               queue[i].rec.value.subnet != batch[j].rec.value.subnet
    ensures QueueOk(host, owner, queue + batch)
  {
    var all := queue + batch;
    forall i, j | 0 <= i < j < |all| && Dooms(all[i]) && Dooms(all[j])
      ensures all[i].rec.value.subnet != all[j].rec.value.subnet
    {
      if i < |queue| <= j {
        assert queue[i].rec.value.subnet != batch[j - |queue|].rec.value.subnet;
      }
    }
  }

  /** One-to-one naming makes the names of a snapshot unique. */
  lemma SnapshotNames(host: uint32 -> string, s: State, owner: map<Cidr, Stage>, snapshot: seq<HostSubnet>)
    requires OneToOne(host) && EtcdOk(host, owner, s.etcd) && IsSnapshot(s, snapshot)
    ensures UniqueNames(snapshot)
  {
    forall i, j | 0 <= i < j < |snapshot|
      ensures snapshot[i].name != snapshot[j].name
    {
      assert snapshot[i] in snapshot && snapshot[j] in snapshot;
      assert RecStaged(host, owner, s.etcd[snapshot[i].value.hostIP]);
      assert RecStaged(host, owner, s.etcd[snapshot[j].value.hostIP]);
    }
  }

  lemma SnapshotSaved(host: uint32 -> string, s: State, owner: map<Cidr, Stage>, snapshot: seq<HostSubnet>)
    requires EtcdOk(host, owner, s.etcd) && IsSnapshot(s, snapshot) && UniqueNames(snapshot)
    ensures SavedOk(host, owner, snapshot)
    ensures forall r :: r in snapshot ==> RecOk(host, r)
  {
    forall i | 0 <= i < |snapshot|
      ensures RecStaged(host, owner, snapshot[i])
    {
      assert snapshot[i] in snapshot;
    }
  }

  /** Dooming the lost subnets leaves etcd's records staged. */
  lemma MarkedEtcd(host: uint32 -> string, s: State, owner: map<Cidr, Stage>, snapshot: seq<HostSubnet>)
    requires OneToOne(host) && EtcdOk(host, owner, s.etcd) && SavedOk(host, owner, s.saved)
    requires IsSnapshot(s, snapshot)
    ensures EtcdOk(host, Marked(owner, Lost(s.saved, snapshot)), s.etcd)
    ensures forall c :: c in Lost(s.saved, snapshot) ==> c in owner && owner[c].For?
  {
    forall c | c in Lost(s.saved, snapshot)
      ensures c in owner && owner[c].For?
      ensures forall ip :: ip in s.etcd ==> s.etcd[ip].value.subnet != Some(c)
    {
      LostIsUnrecorded(host, s, owner, snapshot, c);
    }
    forall ip | ip in s.etcd
      ensures RecStaged(host, Marked(owner, Lost(s.saved, snapshot)), s.etcd[ip])
    {
      assert RecStaged(host, owner, s.etcd[ip]);
    }
  }

  /** ... and the reset's events join the queue. */
  lemma MarkedQueue(host: uint32 -> string, owner: map<Cidr, Stage>, queue: seq<Event<HostInfo>>,
                    saved: seq<HostSubnet>, snapshot: seq<HostSubnet>)
    requires OneToOne(host) && SavedOk(host, owner, saved) && QueueOk(host, owner, queue)
    requires UniqueNames(snapshot) && forall r :: r in snapshot ==> RecOk(host, r)
    requires forall c :: c in Lost(saved, snapshot) ==> c in owner && owner[c].For?
    ensures QueueOk(host, Marked(owner, Lost(saved, snapshot)), queue + ResetBatch(saved, snapshot))
  {
    var batch := ResetBatch(saved, snapshot);
    ResetEvents(host, owner, saved, snapshot);
    forall i, j | 0 <= i < |queue| && 0 <= j < |batch| && Dooms(queue[i]) && Dooms(batch[j])
      ensures queue[i].rec.value.subnet != batch[j].rec.value.subnet
    {
      RemovalsAreLost(saved, snapshot, j);
    }
    QueueConcat(host, Marked(owner, Lost(saved, snapshot)), queue, batch);
  }

  /** Watching starts over from a snapshot. */
  lemma WatchResetKeeps(setup: Setup, host: uint32 -> string, s: State, owner: map<Cidr, Stage>, snapshot: seq<HostSubnet>)
    returns (owner': map<Cidr, Stage>)
    requires setup.cfg.Valid() && InvWith(setup, host, s, owner) && Enabled(s, WatchReset(snapshot))
    ensures InvWith(setup, host, Do(setup, s, WatchReset(snapshot)), owner')
  {
    owner' := Marked(owner, Lost(s.saved, snapshot));
    SnapshotNames(host, s, owner, snapshot);
    MarkedEtcd(host, s, owner, snapshot);
    SnapshotSaved(host, s, owner', snapshot);
    MarkedQueue(host, owner, s.queue, s.saved, snapshot);
  }

  lemma DeleteKeeps(setup: Setup, host: uint32 -> string, s: State, owner: map<Cidr, Stage>, ip: uint32)
    requires setup.cfg.Valid() && InvWith(setup, host, s, owner)
    ensures InvWith(setup, host, DeleteRec(s, ip), owner)
  {
  }

  lemma QueueTail(host: uint32 -> string, owner: map<Cidr, Stage>, queue: seq<Event<HostInfo>>)
    requires QueueOk(host, owner, queue) && queue != []
    ensures QueueOk(host, owner, queue[1..])
  {
    var rest := queue[1..];
    forall i, j | 0 <= i < j < |rest| && Dooms(rest[i]) && Dooms(rest[j])
      ensures rest[i].rec.value.subnet != rest[j].rec.value.subnet
    {
      assert queue[i + 1] == rest[i] && queue[j + 1] == rest[j];
    }
  }

  /** Taking a removal off the queue: nothing else holds the subnet it gives back. */
  lemma ReleaseDoomed(setup: Setup, host: uint32 -> string, s: State, owner: map<Cidr, Stage>, c: Cidr)
    requires setup.cfg.Valid() && InvWith(setup, host, s, owner) && s.queue != []
    requires Dooms(s.queue[0]) && s.queue[0].rec.value.subnet == Some(c)
    ensures InvWith(setup, host, GiveBack(setup.cfg, s.(queue := s.queue[1..]), c), owner - {c})
  {
    QueueTail(host, owner, s.queue);
    StepKeepsUniform(setup.cfg, s.pool, Put(c));
    assert Staged(owner, Some(c), Doomed);
    var rest := s.queue[1..];
    forall i | 0 <= i < |rest| && Dooms(rest[i])
      ensures Staged(owner - {c}, rest[i].rec.value.subnet, Doomed)
    {
      assert s.queue[i + 1] == rest[i];
    }
    RecordsAvoid(host, s, owner, c);
  }

  /** Records and goroutines do not hold a doomed subnet. */
  lemma RecordsAvoid(host: uint32 -> string, s: State, owner: map<Cidr, Stage>, c: Cidr)
    requires EtcdOk(host, owner, s.etcd) && UnseenOk(host, owner, s) && SavedOk(host, owner, s.saved)
    requires TaskOk(host, owner, s.nodes, HeldByNodes) && TaskOk(host, owner, s.subnets, HeldBySubnets)
    requires Staged(owner, Some(c), Doomed)
    ensures EtcdOk(host, owner - {c}, s.etcd) && UnseenOk(host, owner - {c}, s) && SavedOk(host, owner - {c}, s.saved)
    ensures TaskOk(host, owner - {c}, s.nodes, HeldByNodes) && TaskOk(host, owner - {c}, s.subnets, HeldBySubnets)
  {
  }

  lemma TakeEventKeeps(setup: Setup, host: uint32 -> string, s: State, owner: map<Cidr, Stage>, ok: bool, accepted: bool)
    returns (owner': map<Cidr, Stage>)
    requires setup.cfg.Valid() && InvWith(setup, host, s, owner) && Enabled(s, TakeEvent(ok, accepted))
    ensures InvWith(setup, host, Do(setup, s, TakeEvent(ok, accepted)), owner')
  {
    owner' := owner;
    QueueTail(host, owner, s.queue);
    var e := s.queue[0];
    var rest := s.(queue := s.queue[1..]);
    match e {
      case Added(rec) =>
        DeleteKeeps(setup, host, rest, owner, rec.value.hostIP);
      case Removed(rec) =>
        if Dooms(e) {
          owner' := owner - {rec.value.subnet.value};
          ReleaseDoomed(setup, host, s, owner, rec.value.subnet.value);
        }
    }
  }

  /** A new master marks exactly the recorded subnets. */
  lemma FailoverKeeps(setup: Setup, host: uint32 -> string, s: State, owner: map<Cidr, Stage>)
    returns (owner': map<Cidr, Stage>)
    requires setup.cfg.Valid() && InvWith(setup, host, s, owner)
    ensures InvWith(setup, host, Do(setup, s, Failover), owner')
  {
    var recorded := Recorded(setup.cfg, s.etcd);
    forall ip | ip in s.etcd && s.etcd[ip].value.subnet.Some?
      ensures s.etcd[ip].value.subnet.value in recorded && s.etcd[ip].value.subnet.value in owner
    {
      assert RecStaged(host, owner, s.etcd[ip]);
    }
    assert recorded <= s.pool.taken;
    owner' := map c | c in owner && c in recorded :: owner[c];
    assert owner'.Keys == recorded;
    assert EtcdOk(host, owner', s.etcd) by {
      forall ip | ip in s.etcd ensures RecStaged(host, owner', s.etcd[ip]) {
        assert RecStaged(host, owner, s.etcd[ip]);
      }
    }
  }

  lemma AddNodeKeeps(setup: Setup, host: uint32 -> string, s: State, owner: map<Cidr, Stage>, ip: uint32)
    requires setup.cfg.Valid() && InvWith(setup, host, s, owner) && s.nodes == Idle
    ensures InvWith(setup, host, s.(nodes := Reading(host(ip), ip)), owner)
  {
  }

  lemma NodeStepKeeps(setup: Setup, host: uint32 -> string, s: State, owner: map<Cidr, Stage>, ok: bool)
    returns (owner': map<Cidr, Stage>)
    requires setup.cfg.Valid() && InvWith(setup, host, s, owner) && Enabled(s, NodeStep(ok))
    ensures InvWith(setup, host, Do(setup, s, NodeStep(ok)), owner')
  {
    owner' := AdvanceKeeps(setup, host, s, owner, s.nodes, s.subnets, HeldByNodes, HeldBySubnets, ok);
  }

  lemma SubnetStepKeeps(setup: Setup, host: uint32 -> string, s: State, owner: map<Cidr, Stage>, ok: bool)
    returns (owner': map<Cidr, Stage>)
    requires setup.cfg.Valid() && InvWith(setup, host, s, owner) && Enabled(s, SubnetStep(ok))
    ensures InvWith(setup, host, Do(setup, s, SubnetStep(ok)), owner')
  {
    owner' := AdvanceKeeps(setup, host, s, owner, s.subnets, s.nodes, HeldBySubnets, HeldByNodes, ok);
  }

  /** Every step keeps the invariant. */
  lemma StepKeepsInv(setup: Setup, host: uint32 -> string, s: State, a: Action)
    requires setup.cfg.Valid() && Inv(setup, host, s) && Enabled(s, a) && Fixed(host, a)
    ensures Inv(setup, host, Do(setup, s, a))
  {
    var owner :| InvWith(setup, host, s, owner);
    var owner' := StepOwner(setup, host, s, a, owner);
  }

  lemma StepOwner(setup: Setup, host: uint32 -> string, s: State, a: Action, owner: map<Cidr, Stage>)
    returns (owner': map<Cidr, Stage>)
    requires setup.cfg.Valid() && InvWith(setup, host, s, owner) && Enabled(s, a) && Fixed(host, a)
    ensures InvWith(setup, host, Do(setup, s, a), owner')
  {
    match a {
      case AddNode(name, ip) => AddNodeKeeps(setup, host, s, owner, ip); return owner;
      case DeleteNode(ip, ok) => DeleteKeeps(setup, host, s, owner, ip); return owner;
      case NodeStep(ok) => owner' := NodeStepKeeps(setup, host, s, owner, ok);
      case SubnetStep(ok) => owner' := SubnetStepKeeps(setup, host, s, owner, ok);
      case TakeEvent(ok, accepted) => owner' := TakeEventKeeps(setup, host, s, owner, ok, accepted);
      case WatchNext => WatchNextKeeps(setup, host, s, owner); return owner;
      case WatchReset(snapshot) => owner' := WatchResetKeeps(setup, host, s, owner, snapshot);
      case Request(name, ip) =>
        WriteKeeps(host, s, owner, Record(name, HostInfo(ip, None, true))); return owner;
      case Failover => owner' := FailoverKeeps(setup, host, s, owner);
    }
  }

  // ---------------------------------------------------------------- runs

  /** The state after a run, or nothing when an action was not enabled. */
  ghost function RunOf(setup: Setup, s: State, actions: seq<Action>): Option<State>
    requires setup.cfg.Valid()
    decreases |actions|
  {
    if actions == [] then Some(s)
    else if !Enabled(s, actions[0]) then None
    else RunOf(setup, Do(setup, s, actions[0]), actions[1..])
  }

  /** What etcd may hold before the first master starts: records of hosts by their fixed names,
      with subnets of the cluster's size, no subnet recorded for two hosts. */
  ghost predicate Initial(setup: Setup, host: uint32 -> string, etcd: map<uint32, HostSubnet>)
    requires setup.cfg.Valid()
  {
    && OneToOne(host)
    && (forall ip :: ip in etcd ==> etcd[ip].value.hostIP == ip && RecOk(host, etcd[ip]))
    && (forall ip :: ip in etcd && etcd[ip].value.subnet.Some? ==>
          var c := etcd[ip].value.subnet.value;
          c.Valid() && c.len + setup.cfg.hostBits == 32 && setup.cfg.network.Contains(c.addr))
    && (forall ip, ip' :: ip in etcd && ip' in etcd && ip != ip' && etcd[ip].value.subnet.Some? ==>
          etcd[ip].value.subnet != etcd[ip'].value.subnet)
  }

  ghost predicate Apart(a: Option<Cidr>, b: Option<Cidr>) {
    a.Some? && b.Some? && a.value.len <= 32 && b.value.len <= 32 ==> !Overlap(a.value, b.value)
  }

  /** The property nodes rely on: recorded subnets are marked in use, and those of different hosts
      share no address. */
  ghost predicate Safe(s: State) {
    && (forall ip :: ip in s.etcd && s.etcd[ip].value.subnet.Some? ==>
          s.etcd[ip].value.subnet.value in s.pool.taken && s.etcd[ip].value.subnet.value.len <= 32)
    && (forall ip, ip' :: ip in s.etcd && ip' in s.etcd && ip != ip' ==>
          Apart(s.etcd[ip].value.subnet, s.etcd[ip'].value.subnet))
  }

  lemma InvIsSafe(setup: Setup, host: uint32 -> string, s: State)
    requires setup.cfg.Valid() && Inv(setup, host, s)
    ensures Safe(s)
  {
    var owner :| InvWith(setup, host, s, owner);
    UniformIsDisjoint(setup.cfg, s.pool);
    forall ip | ip in s.etcd && s.etcd[ip].value.subnet.Some?
      ensures s.etcd[ip].value.subnet.value in s.pool.taken && s.etcd[ip].value.subnet.value.len <= 32
      ensures owner[s.etcd[ip].value.subnet.value] == For(ip)
    {
      assert RecStaged(host, owner, s.etcd[ip]);
    }
  }

  lemma StartIsInv(setup: Setup, host: uint32 -> string, s: State)
    requires setup.cfg.Valid() && Initial(setup, host, s.etcd)
    ensures Inv(setup, host, Started(setup.cfg, s))
  {
    var recorded := Recorded(setup.cfg, s.etcd);
    var owner := map c | c in recorded :: For(HostOf(s.etcd, c));
    forall ip | ip in s.etcd
      ensures RecStaged(host, owner, s.etcd[ip])
    {
      if s.etcd[ip].value.subnet.Some? {
        assert s.etcd[ip].value.subnet.value in recorded;
      }
    }
    assert InvWith(setup, host, Started(setup.cfg, s), owner);
  }

  ghost function HostOf(etcd: map<uint32, HostSubnet>, c: Cidr): (ip: uint32)
    ensures (exists h :: h in etcd && etcd[h].value.subnet == Some(c)) ==> ip in etcd && etcd[ip].value.subnet == Some(c)
  {
    if h :| h in etcd && etcd[h].value.subnet == Some(c) then h else 0
  }

  lemma {:induction false} RunKeepsInv(setup: Setup, host: uint32 -> string, s: State, actions: seq<Action>)
    requires setup.cfg.Valid() && Inv(setup, host, s)
    requires forall a :: a in actions ==> Fixed(host, a)
    ensures RunOf(setup, s, actions).Some? ==> Inv(setup, host, RunOf(setup, s, actions).value)
    decreases |actions|
  {
    if actions != [] && Enabled(s, actions[0]) {
      StepKeepsInv(setup, host, s, actions[0]);
      RunKeepsInv(setup, host, Do(setup, s, actions[0]), actions[1..]);
    }
  }

  /** Under any interleaving of the two goroutines, the watcher, administrators and failovers,
      recorded subnets stay marked and hosts never hold overlapping ones. */
  lemma SubnetProtocolSafe(setup: Setup, host: uint32 -> string, s: State, actions: seq<Action>)
    requires setup.cfg.Valid() && Initial(setup, host, s.etcd)
    requires forall a :: a in actions ==> Fixed(host, a)
    ensures var end := RunOf(setup, Started(setup.cfg, s), actions);
      end.Some? ==> Safe(end.value)
  {
    StartIsInv(setup, host, s);
    RunKeepsInv(setup, host, Started(setup.cfg, s), actions);
    var end := RunOf(setup, Started(setup.cfg, s), actions);
    if end.Some? {
      InvIsSafe(setup, host, end.value);
    }
  }
}
