/** The master's namespace-to-VNID map, its ID pool and their record in etcd (ksdn/vnids_master.go). */
module MasterVnids {
  import opened Prelude
  import opened Word32
  import opened Watch
  import opened Records
  import opened NetIds

  const GLOBAL := "global"
  const JOIN := "join"
  const ISOLATE := "isolate"

  /** pkg/utils/common.go names the one namespace that is global from the start. */
  const ADMIN_NAMESPACES: set<string> := {"kube-system"}

  /** The range newMasterVNIDMap builds its allocator over. */
  const RANGE := NetIDRange(MIN_VNID, MAX_VNID - MIN_VNID + 1)

  datatype Vnids = Vnids(ids: map<string, uint32>, pool: set<uint32>)

  datatype VnidError = NotFound(name: string) | PoolFull | InvalidAction | OutOfRange | EtcdFailed

  // ---------------------------------------------------------------- specification

  ghost function Holders(ids: map<string, uint32>, id: uint32): set<string> {
    set n | n in ids && ids[n] == id
  }

  ghost function Released(s: Vnids, name: string): Vnids {
    if name !in s.ids then s else
      var id, ids := s.ids[name], s.ids - {name};
      Vnids(ids, if id == GLOBAL_VNID || Holders(ids, id) != {} then s.pool else s.pool - {id})
  }

  /** `allocateNetID` for a name that has no ID yet; `pick` is what the pool hands out. */
  ghost function Assigned(s: Vnids, name: string, pick: Option<uint32>): Result<Vnids, VnidError> {
    if name in s.ids then Ok(s)
    else if name in ADMIN_NAMESPACES then Ok(s.(ids := s.ids[name := GLOBAL_VNID]))
    else match pick
         case Some(id) => Ok(Vnids(s.ids[name := id], s.pool + {id}))
         case None => Err(PoolFull)
  }

  /** Only isolating a namespace that shares its ID takes one from the pool. */
  ghost predicate NeedsPick(s: Vnids, name: string, action: string) {
    name in s.ids && action == ISOLATE && Holders(s.ids, s.ids[name]) != {name}
  }

  ghost function Updated(s: Vnids, name: string, action: string, args: string, pick: Option<uint32>)
    : Result<(Vnids, uint32), VnidError>
  {
    if name !in s.ids then Err(NotFound(name))
    else if action == GLOBAL then Ok(Moved(s, name, GLOBAL_VNID))
    else if action == JOIN then
      if args !in s.ids then Err(NotFound(args)) else Ok(Moved(s, name, s.ids[args]))
    else if action == ISOLATE then
      if !NeedsPick(s, name, action) then Ok((s, s.ids[name])) else
        match pick
        case Some(id) => Ok(Moved(s.(pool := s.pool + {id}), name, id))
        case None => Err(PoolFull)
    else Err(InvalidAction)
  }

  /** Releases a namespace's ID and then gives it another one. */
  ghost function Moved(s: Vnids, name: string, id: uint32): (Vnids, uint32) {
    var r := Released(s, name);
    (r.(ids := r.ids[name := id]), id)
  }

  ghost function NonzeroIds(list: seq<Netns>): set<uint32> {
    set r | r in list && r.value.netID != GLOBAL_VNID :: r.value.netID
  }

  /** The state after listing records into `s`. */
  ghost function AllListed(s: Vnids, list: seq<Netns>): Vnids {
    Vnids(Listed(s.ids, list), s.pool + NonzeroIds(list))
  }

  ghost predicate Acceptable(id: uint32) { id == GLOBAL_VNID || RANGE.Holds(id) }

  // ---------------------------------------------------------------- the pool invariant

  /** The pool's IDs are exactly the nonzero IDs in use, and every ID in use is 0 or in range. */
  ghost predicate Inv(s: Vnids) {
    && (forall n :: n in s.ids ==> Acceptable(s.ids[n]) && (s.ids[n] != GLOBAL_VNID ==> s.ids[n] in s.pool))
    && (forall id :: id in s.pool ==> id != GLOBAL_VNID && RANGE.Holds(id) && exists n :: n in s.ids && s.ids[n] == id)
  }

  ghost function NonzeroInUse(s: Vnids): set<uint32> {
    set n | n in s.ids && s.ids[n] != GLOBAL_VNID :: s.ids[n]
  }

  /** Free IDs and distinct nonzero IDs in use together make up the whole range. */
  lemma FreeAndUsedFillRange(s: Vnids, a: Allocator)
    requires Inv(s) && a.Valid() && a.range == RANGE && a.Taken() == s.pool
    ensures (RANGE.size - |a.Taken()|) + |NonzeroInUse(s)| == MAX_VNID - MIN_VNID + 1
  {
    assert s.pool == NonzeroInUse(s);
  }

  lemma ReleaseKeepsInv(s: Vnids, name: string)
    requires Inv(s)
    ensures Inv(Released(s, name))
  {
    var r := Released(s, name);
    forall id | id in r.pool
      ensures exists n :: n in r.ids && r.ids[n] == id
    {
      var n :| n in s.ids && s.ids[n] == id;
      if n == name {
        var m :| m in Holders(r.ids, id);
      } else {
        assert n in r.ids;
      }
    }
    forall n | n in r.ids && r.ids[n] != GLOBAL_VNID
      ensures r.ids[n] in r.pool
    {
      assert n in Holders(r.ids, r.ids[n]);
    }
  }

  lemma AssignKeepsInv(s: Vnids, name: string, pick: Option<uint32>)
    requires Inv(s) && Pick(RANGE, s.pool, pick)
    ensures Assigned(s, name, pick).Ok? ==> Inv(Assigned(s, name, pick).value)
  {
    if name !in s.ids {
      if name in ADMIN_NAMESPACES {
        var t := Assigned(s, name, pick).value;
        forall id | id in t.pool
          ensures exists n :: n in t.ids && t.ids[n] == id
        {
          var n :| n in s.ids && s.ids[n] == id;
          assert t.ids[n] == id;
        }
      } else if pick.Some? {
        GainKeepsInv(s, name, pick.value);
      }
    }
  }

  lemma GainKeepsInv(s: Vnids, name: string, id: uint32)
    requires Inv(s) && name !in s.ids && RANGE.Holds(id) && id != GLOBAL_VNID
    ensures Inv(Vnids(s.ids[name := id], s.pool + {id}))
  {
    var t := Vnids(s.ids[name := id], s.pool + {id});
    forall v | v in t.pool
      ensures exists n :: n in t.ids && t.ids[n] == v
    {
      if v == id {
        assert t.ids[name] == id;
      } else {
        var n :| n in s.ids && s.ids[n] == v;
        assert t.ids[n] == v;
      }
    }
  }

  /** The one request that breaks the pool: joining a namespace to itself when it alone holds a
      nonzero ID releases that ID and goes on using it. */
  ghost predicate LosesOwnID(s: Vnids, name: string, action: string, args: string) {
    && name in s.ids && action == JOIN && args == name
    && s.ids[name] != GLOBAL_VNID && Holders(s.ids, s.ids[name]) == {name}
  }

  /** An update keeps the pool exact if and only if it is not a sole holder's join to itself. */
  lemma UpdateKeepsInvIff(s: Vnids, name: string, action: string, args: string, pick: Option<uint32>)
    requires Inv(s) && Pick(RANGE, s.pool, pick)
    requires Updated(s, name, action, args, pick).Ok?
    ensures Inv(Updated(s, name, action, args, pick).value.0) <==> !LosesOwnID(s, name, action, args)
  {
    if action == GLOBAL || action == JOIN {
      var id := if action == GLOBAL then GLOBAL_VNID else s.ids[args];
      MoveKeepsInv(s, name, id, if action == GLOBAL then name else args);
    } else if NeedsPick(s, name, action) {
      IsolateKeepsInv(s, name, pick.value);
    }
  }

  lemma MoveKeepsInv(s: Vnids, name: string, id: uint32, from: string)
    requires Inv(s) && name in s.ids && (id == GLOBAL_VNID || (from in s.ids && s.ids[from] == id))
    ensures Inv(Moved(s, name, id).0)
       <==> !(id != GLOBAL_VNID && from == name && Holders(s.ids, id) == {name})
  {
    ReleaseKeepsInv(s, name);
    var r, t := Released(s, name), Moved(s, name, id).0;
    if id != GLOBAL_VNID && from == name && Holders(s.ids, id) == {name} {
      assert Holders(r.ids, id) == {} by {
        forall n | n in Holders(r.ids, id) ensures n in Holders(s.ids, id) {}
      }
      assert t.ids[name] == id && id !in t.pool;
    } else {
      forall v | v in t.pool
        ensures exists n :: n in t.ids && t.ids[n] == v
      {
        var n :| n in r.ids && r.ids[n] == v;
        assert t.ids[n] == v;
      }
      if id != GLOBAL_VNID {
        assert id in r.pool by {
          if from != name {
            assert from in r.ids;
          } else {
            assert name in Holders(s.ids, id);
            var m :| m in Holders(s.ids, id) && m != name;
            assert m in Holders(r.ids, id);
          }
        }
      }
    }
  }

  lemma IsolateKeepsInv(s: Vnids, name: string, id: uint32)
    requires Inv(s) && name in s.ids && RANGE.Holds(id) && id !in s.pool && id != GLOBAL_VNID
    requires Holders(s.ids, s.ids[name]) != {name}
    ensures Moved(s.(pool := s.pool + {id}), name, id).0 == Vnids(s.ids[name := id], s.pool + {id})
    ensures Inv(Moved(s.(pool := s.pool + {id}), name, id).0)
  {
    var old_ := s.ids[name];
    assert name in Holders(s.ids, old_);
    var m :| m in Holders(s.ids, old_) && m != name;
    assert m in Holders(s.ids - {name}, old_);
    ReleaseKeepsInv(s, name);
    assert Released(s, name) == Vnids(s.ids - {name}, s.pool);
    GainKeepsInv(Released(s, name), name, id);
    assert (s.ids - {name})[name := id] == s.ids[name := id];
  }

  /** A concrete self-join: the ID stays in use but goes back to the pool. */
  lemma SelfJoinBreaksPool()
    ensures var s := Vnids(map["web" := 10], {10});
      && Inv(s)
      && Updated(s, "web", JOIN, "web", None) == Ok((Vnids(map["web" := 10], {}), 10))
  {
    var s := Vnids(map["web" := 10], {10});
    assert s.ids["web"] == 10;
    assert s.ids - {"web"} == map[];
    assert Holders(map[], 10) == {};
    assert {10 as uint32} - {10} == {};
    assert Released(s, "web") == Vnids(map[], {});
    assert Moved(s, "web", 10) == (Vnids(map["web" := 10], {}), 10);
  }

  // ---------------------------------------------------------------- what the operations achieve

  /** A failed etcd write is rolled back exactly. */
  lemma AssignRollsBack(s: Vnids, name: string, pick: Option<uint32>)
    requires Inv(s) && Pick(RANGE, s.pool, pick) && name !in s.ids
    requires Assigned(s, name, pick).Ok?
    ensures Released(Assigned(s, name, pick).value, name) == s
  {
    var t := Assigned(s, name, pick).value;
    assert t.ids - {name} == s.ids;
    if name !in ADMIN_NAMESPACES {
      assert Holders(s.ids, pick.value) == {};
      assert t.pool - {pick.value} == s.pool;
    }
  }

  /** A new namespace gets an ID that no other namespace holds, unless it is an admin namespace. */
  lemma NewNamespaceAlone(s: Vnids, name: string, pick: Option<uint32>)
    requires Inv(s) && Pick(RANGE, s.pool, pick) && name !in s.ids && name !in ADMIN_NAMESPACES
    requires Assigned(s, name, pick).Ok?
    ensures var t := Assigned(s, name, pick).value;
      t.ids[name] != GLOBAL_VNID && Holders(t.ids, t.ids[name]) == {name}
  {
  }

  /** What an update does to the namespace it names and to everybody else. */
  lemma UpdateMeaning(s: Vnids, name: string, action: string, args: string, pick: Option<uint32>)
    requires Inv(s) && Pick(RANGE, s.pool, pick)
    requires Updated(s, name, action, args, pick).Ok?
    ensures var (t, id) := Updated(s, name, action, args, pick).value;
      && t.ids == s.ids[name := id]
      && (action == GLOBAL ==> id == GLOBAL_VNID)
      && (action == JOIN ==> t.ids[name] == t.ids[args])
      && (action == ISOLATE ==> Holders(t.ids, id) == {name})
  {
    var (t, id) := Updated(s, name, action, args, pick).value;
    if action != ISOLATE || NeedsPick(s, name, action) {
      assert (s.ids - {name})[name := id] == s.ids[name := id];
    } else {
      assert s.ids[name := s.ids[name]] == s.ids;
    }
  }

  /** Isolation takes a namespace off the global network unless it is the only one there. */
  lemma IsolateLeavesGlobalIff(s: Vnids, name: string, args: string, pick: Option<uint32>)
    requires Inv(s) && Pick(RANGE, s.pool, pick)
    requires Updated(s, name, ISOLATE, args, pick).Ok?
    ensures Updated(s, name, ISOLATE, args, pick).value.1 != GLOBAL_VNID
       <==> !(s.ids[name] == GLOBAL_VNID && Holders(s.ids, GLOBAL_VNID) == {name})
  {
  }

  /** The only namespace on the global network stays there when it is to be isolated, whatever is free. */
  lemma SoleGlobalStaysGlobal(pick: Option<uint32>)
    ensures var s := Vnids(map["web" := GLOBAL_VNID], {});
      Inv(s) && Updated(s, "web", ISOLATE, "", pick) == Ok((s, GLOBAL_VNID))
  {
    var s := Vnids(map["web" := GLOBAL_VNID], {});
    assert Holders(s.ids, GLOBAL_VNID) == {"web"};
  }

  // ---------------------------------------------------------------- memory and etcd

  datatype Master = Master(vnids: Vnids, etcd: map<string, NetnsInfo>)

  datatype Step =
    | Assign(name: string, pick: Option<uint32>, etcdOk: bool)
    | Revoke(name: string, etcdOk: bool)
    | Request(name: string, action: string, joinTo: string)
    | HandleEvent(rec: Netns, pick: Option<uint32>, renewOk: bool)
    | Failover(list: seq<Netns>)   // another master starts from what etcd lists

  ghost function AfterAssign(m: Master, name: string, pick: Option<uint32>, etcdOk: bool): Master {
    match Assigned(m.vnids, name, pick)
    case Err(_) => m
    case Ok(s) =>
      if name in m.vnids.ids then m
      else if !etcdOk || name in m.etcd then m.(vnids := Released(s, name))
      else Master(s, m.etcd[name := NetnsInfo(s.ids[name], "", "")])
  }

  ghost function AfterRevoke(m: Master, name: string, etcdOk: bool): Master {
    if !etcdOk || name !in m.etcd then m
    else Master(Released(m.vnids, name), m.etcd - {name})
  }

  /** `masterHandleNetnsEvent` for an added record: its action is carried out and cleared. */
  ghost function AfterEventHandled(m: Master, rec: Netns, pick: Option<uint32>, renewOk: bool): Master {
    if rec.value.action == "" then m else
      match Updated(m.vnids, rec.name, rec.value.action, rec.value.joinTo, pick)
      case Err(_) => m
      case Ok((s, id)) =>
        Master(s, if renewOk then m.etcd[rec.name := NetnsInfo(id, "", "")] else m.etcd)
  }

  ghost function After(m: Master, step: Step): Master {
    match step
    case Assign(name, pick, etcdOk) => AfterAssign(m, name, pick, etcdOk)
    case Revoke(name, etcdOk) => AfterRevoke(m, name, etcdOk)
    case Request(name, action, joinTo) =>
      if name !in m.etcd then m
      else m.(etcd := m.etcd[name := NetnsInfo(m.etcd[name].netID, action, joinTo)])
    case HandleEvent(rec, pick, renewOk) => AfterEventHandled(m, rec, pick, renewOk)
    case Failover(list) => AfterFailover(m, list)
  }

  ghost predicate AllAcceptable(list: seq<Netns>) {
    forall i :: 0 <= i < |list| ==> Acceptable(list[i].value.netID)
  }

  /** A master that meets an ID outside the range does not start. */
  ghost function AfterFailover(m: Master, list: seq<Netns>): Master {
    if AllAcceptable(list) then m.(vnids := AllListed(Vnids(map[], {}), list)) else m
  }

  /** etcd records the same namespaces with the same IDs as memory. */
  ghost predicate Agree(m: Master) {
    && m.etcd.Keys == m.vnids.ids.Keys
    && forall n :: n in m.etcd ==> m.etcd[n].netID == m.vnids.ids[n]
  }

  /** Every ID in memory and in etcd is 0 or in range. */
  ghost predicate InRange(m: Master) {
    && (forall n :: n in m.vnids.ids ==> Acceptable(m.vnids.ids[n]))
    && (forall n :: n in m.etcd ==> Acceptable(m.etcd[n].netID))
  }

  /** The pool hands out free IDs, and etcd lists what it records. */
  ghost predicate Fair(m: Master, step: Step) {
    match step
    case Assign(_, pick, _) => Pick(RANGE, m.vnids.pool, pick)
    case HandleEvent(_, pick, _) => Pick(RANGE, m.vnids.pool, pick)
    case Failover(list) => UniqueNames(list) && View(list) == m.etcd
    case _ => true
  }

  /** Not a sole holder's join to itself. */
  ghost predicate KeepsOwnID(m: Master, step: Step) {
    step.HandleEvent? ==> !LosesOwnID(m.vnids, step.rec.name, step.rec.value.action, step.rec.value.joinTo)
  }

  /** etcd takes the update. */
  predicate Answered(step: Step) { step.HandleEvent? ==> step.renewOk }

  lemma StepKeepsRange(m: Master, step: Step)
    requires InRange(m) && Fair(m, step)
    ensures InRange(After(m, step))
  {
    if step.Failover? {
      ListedIds(map[], step.list);
    }
  }

  /** Whatever unique acceptable records a master starts from, its pool is exact. */
  lemma PopulatedIsInv(list: seq<Netns>)
    requires UniqueNames(list) && AllAcceptable(list)
    ensures Inv(AllListed(Vnids(map[], {}), list))
  {
    var s := AllListed(Vnids(map[], {}), list);
    ListedIds(map[], list);
    forall n | n in s.ids
      ensures Acceptable(s.ids[n]) && (s.ids[n] != GLOBAL_VNID ==> s.ids[n] in s.pool)
    {
      var r :| r in list && r.name == n;
      assert View(list)[n] == r.value;
    }
    forall id | id in s.pool
      ensures id != GLOBAL_VNID && RANGE.Holds(id) && exists n :: n in s.ids && s.ids[n] == id
    {
      var r :| r in list && r.value.netID == id;
      assert View(list)[r.name] == r.value;
      assert r.name in s.ids && s.ids[r.name] == id;
    }
  }

  /** One step keeps the pool exact, whatever etcd answers, if and only if it is not a sole holder's
      join to itself. */
  lemma StepKeepsPoolIff(m: Master, step: Step)
    requires Inv(m.vnids) && Fair(m, step)
    ensures Inv(After(m, step).vnids) <==> KeepsOwnID(m, step)
  {
    match step {
      case Assign(name, pick, etcdOk) =>
        AssignKeepsInv(m.vnids, name, pick);
        if name !in m.vnids.ids && Assigned(m.vnids, name, pick).Ok? {
          AssignRollsBack(m.vnids, name, pick);
        }
      case Revoke(name, etcdOk) =>
        ReleaseKeepsInv(m.vnids, name);
      case Request(_, _, _) =>
      case HandleEvent(rec, pick, renewOk) =>
        if rec.value.action != "" && Updated(m.vnids, rec.name, rec.value.action, rec.value.joinTo, pick).Ok? {
          UpdateKeepsInvIff(m.vnids, rec.name, rec.value.action, rec.value.joinTo, pick);
        }
      case Failover(list) =>
        if AllAcceptable(list) {
          PopulatedIsInv(list);
        }
    }
  }

  /** Memory and etcd stay agreed over every step whose update etcd takes. */
  lemma StepKeepsAgreement(m: Master, step: Step)
    requires Agree(m) && Fair(m, step) && Answered(step)
    ensures Agree(After(m, step))
  {
    match step {
      case Assign(name, pick, etcdOk) =>
        if name !in m.vnids.ids && Assigned(m.vnids, name, pick).Ok? {
          assert Assigned(m.vnids, name, pick).value.ids - {name} == m.vnids.ids;
        }
      case Failover(list) =>
        if AllAcceptable(list) {
          ListedIds(map[], list);
        }
      case _ =>
    }
  }

  /** A new master agrees with etcd and has an exact pool, whatever the old one's memory held. */
  lemma FailoverRestores(m: Master, list: seq<Netns>)
    requires InRange(m) && Fair(m, Failover(list))
    ensures var m' := After(m, Failover(list));
      Inv(m'.vnids) && Agree(m') && m'.etcd == m.etcd
  {
    forall i | 0 <= i < |list|
      ensures Acceptable(list[i].value.netID)
    {
      assert list[i] in list;
      assert View(list)[list[i].name] == list[i].value;
    }
    PopulatedIsInv(list);
    ListedIds(map[], list);
  }

  /** After a failed write-back memory and etcd still agree exactly when the update kept the ID. */
  lemma FailedRenewAgreesIff(m: Master, rec: Netns, pick: Option<uint32>)
    requires Inv(m.vnids) && Agree(m) && Pick(RANGE, m.vnids.pool, pick)
    requires rec.value.action != ""
    requires Updated(m.vnids, rec.name, rec.value.action, rec.value.joinTo, pick).Ok?
    ensures Agree(After(m, HandleEvent(rec, pick, false)))
       <==> match rec.value.action
            case "global" => m.vnids.ids[rec.name] == GLOBAL_VNID
            case "join" => m.vnids.ids[rec.name] == m.vnids.ids[rec.value.joinTo]
            case _ => !NeedsPick(m.vnids, rec.name, rec.value.action)
  {
    UpdateMeaning(m.vnids, rec.name, rec.value.action, rec.value.joinTo, pick);
    assert rec.name in m.etcd;
  }

  ghost predicate FairRun(m: Master, steps: seq<Step>)
    decreases |steps|
  {
    steps == [] || (Fair(m, steps[0]) && FairRun(After(m, steps[0]), steps[1..]))
  }

  /** No step of the run is a sole holder's join to itself. */
  ghost predicate OwnIDsKept(m: Master, steps: seq<Step>)
    decreases |steps|
  {
    steps == [] || (KeepsOwnID(m, steps[0]) && OwnIDsKept(After(m, steps[0]), steps[1..]))
  }

  ghost function RunOf(m: Master, steps: seq<Step>): Master
    decreases |steps|
  {
    if steps == [] then m else RunOf(After(m, steps[0]), steps[1..])
  }

  lemma {:induction false} RunOfAppend(m: Master, steps: seq<Step>, last: Step)
    ensures RunOf(m, steps + [last]) == After(RunOf(m, steps), last)
    decreases |steps|
  {
    if steps == [] {
      assert [last][1..] == [];
      assert RunOf(After(m, last), []) == After(m, last);
      assert steps + [last] == [last];
    } else {
      assert (steps + [last])[1..] == steps[1..] + [last];
      RunOfAppend(After(m, steps[0]), steps[1..], last);
    }
  }

  /** Only an added record with an action makes the master do anything. */
  function StepFor(e: Event<NetnsInfo>, pick: Option<uint32>, renewOk: bool): Step {
    HandleEvent(if e.Added? then e.rec else Record(e.rec.name, NetnsInfo(0, "", "")), pick, renewOk)
  }

  lemma {:induction false} RunKeepsRange(m: Master, steps: seq<Step>)
    requires InRange(m) && FairRun(m, steps)
    ensures InRange(RunOf(m, steps))
    decreases |steps|
  {
    if steps != [] {
      StepKeepsRange(m, steps[0]);
      RunKeepsRange(After(m, steps[0]), steps[1..]);
    }
  }

  /** After each prefix of a run. */
  ghost predicate PoolAlwaysExact(m: Master, steps: seq<Step>) {
    forall k :: 0 <= k <= |steps| ==> Inv(RunOf(m, steps[..k]).vnids)
  }

  lemma PrefixAfterFirst(m: Master, steps: seq<Step>, k: nat)
    requires 0 < k <= |steps|
    ensures RunOf(m, steps[..k]) == RunOf(After(m, steps[0]), steps[1..][..k - 1])
  {
    assert steps[..k][1..] == steps[1..][..k - 1];
  }

  /** All along a run the pool is exact if and only if no sole holder joins itself. */
  lemma {:induction false} PoolAlwaysExactIff(m: Master, steps: seq<Step>)
    requires Inv(m.vnids) && FairRun(m, steps)
    ensures PoolAlwaysExact(m, steps) <==> OwnIDsKept(m, steps)
    decreases |steps|
  {
    if steps != [] {
      var next, rest := After(m, steps[0]), steps[1..];
      StepKeepsPoolIff(m, steps[0]);
      forall k | 0 < k <= |steps|
        ensures RunOf(m, steps[..k]) == RunOf(next, rest[..k - 1])
      {
        PrefixAfterFirst(m, steps, k);
      }
      assert RunOf(next, rest[..0]) == next;
      if Inv(next.vnids) {
        PoolAlwaysExactIff(next, rest);
        if PoolAlwaysExact(m, steps) {
          forall k | 0 <= k <= |rest|
            ensures Inv(RunOf(next, rest[..k]).vnids)
          {
            assert Inv(RunOf(m, steps[..k + 1]).vnids);
          }
        }
      } else {
        assert RunOf(m, steps[..1]) == next;
      }
    }
  }

  /** The pool's IDs are exactly the nonzero IDs in use after every run of assignments, revocations,
      requests, updates and failovers, whatever etcd answers, in which no sole holder joins itself. */
  lemma RunKeepsPool(m: Master, steps: seq<Step>)
    requires Inv(m.vnids) && FairRun(m, steps) && OwnIDsKept(m, steps)
    ensures Inv(RunOf(m, steps).vnids)
  {
    PoolAlwaysExactIff(m, steps);
    assert steps[..|steps|] == steps;
  }

  /** Memory and etcd agree over every run whose updates etcd takes. */
  lemma {:induction false} RunKeepsAgreement(m: Master, steps: seq<Step>)
    requires Agree(m) && FairRun(m, steps) && forall step :: step in steps ==> Answered(step)
    ensures Agree(RunOf(m, steps))
    decreases |steps|
  {
    if steps != [] {
      StepKeepsAgreement(m, steps[0]);
      RunKeepsAgreement(After(m, steps[0]), steps[1..]);
    }
  }

  lemma {:induction false} RunOfSplit(m: Master, a: seq<Step>, b: seq<Step>)
    ensures RunOf(m, a + b) == RunOf(RunOf(m, a), b)
    ensures FairRun(m, a + b) ==> FairRun(m, a) && FairRun(RunOf(m, a), b)
    ensures OwnIDsKept(m, a + b) ==> OwnIDsKept(m, a) && OwnIDsKept(RunOf(m, a), b)
    decreases |a|
  {
    if a == [] {
      assert a + b == b;
    } else {
      assert (a + b)[1..] == a[1..] + b;
      RunOfSplit(After(m, a[0]), a[1..], b);
    }
  }

  /** A failover ends whatever went wrong before it: after any fair run, failed updates and self-joins
      included, then a failover, then updates etcd takes, pool, memory and etcd are consistent. */
  lemma FailoverHeals(m: Master, before: seq<Step>, list: seq<Netns>, since: seq<Step>)
    requires InRange(m) && FairRun(m, before + ([Failover(list)] + since))
    requires OwnIDsKept(After(RunOf(m, before), Failover(list)), since)
    ensures Inv(RunOf(m, before + ([Failover(list)] + since)).vnids)
    ensures (forall step :: step in since ==> Answered(step)) ==> Agree(RunOf(m, before + ([Failover(list)] + since)))
  {
    var old_ := RunOf(m, before);
    RunOfSplit(m, before, [Failover(list)] + since);
    RunKeepsRange(m, before);
    assert ([Failover(list)] + since)[1..] == since;
    FailoverRestores(old_, list);
    RunKeepsPool(After(old_, Failover(list)), since);
    if forall step :: step in since ==> Answered(step) {
      RunKeepsAgreement(After(old_, Failover(list)), since);
    }
  }

  /** A revoked namespace stays revoked, and no update for it, however late, changes or writes anything,
      until it is assigned again. */
  lemma {:induction false} LateUpdateIgnored(m: Master, name: string, steps: seq<Step>, late: Step)
    requires name !in m.vnids.ids && name !in m.etcd && FairRun(m, steps)
    requires forall step :: step in steps ==> !(step.Assign? && step.name == name)
    requires late.HandleEvent? && late.rec.name == name
    ensures var end := RunOf(m, steps);
      name !in end.vnids.ids && name !in end.etcd && After(end, late) == end
    decreases |steps|
  {
    if steps != [] {
      if steps[0].Failover? {
        ListedIds(map[], steps[0].list);
      }
      LateUpdateIgnored(After(m, steps[0]), name, steps[1..], late);
    }
  }

  // ---------------------------------------------------------------- who shares an ID

  /** Ordinary namespaces hold nonzero IDs, and no two namespaces share a nonzero one. */
  ghost predicate Separated(ids: map<string, uint32>) {
    && (forall n :: n in ids && n !in ADMIN_NAMESPACES ==> ids[n] != GLOBAL_VNID)
    && (forall a, b :: a in ids && b in ids && a != b && ids[a] != GLOBAL_VNID ==> ids[a] != ids[b])
  }

  /** The master carries out neither a join nor a move to the global network. */
  predicate Joinless(step: Step) {
    step.HandleEvent? ==> step.rec.value.action != JOIN && step.rec.value.action != GLOBAL
  }

  lemma StepKeepsSeparation(m: Master, step: Step)
    requires Inv(m.vnids) && Agree(m) && Separated(m.vnids.ids) && Fair(m, step) && Joinless(step)
    ensures var m' := After(m, step);
      Inv(m'.vnids) && Agree(m') && Separated(m'.vnids.ids)
  {
    StepKeepsPoolIff(m, step);
    match step {
      case HandleEvent(rec, pick, renewOk) => JoinlessUpdate(m, rec, pick, renewOk);
      case Assign(name, pick, etcdOk) => SeparateAssign(m, name, pick, etcdOk);
      case Failover(_) =>
        StepKeepsAgreement(m, step);
        SameIds(After(m, step), m);
      case _ => StepKeepsAgreement(m, step);
    }
  }

  /** Isolating a namespace that is alone already changes no ID. */
  lemma JoinlessUpdate(m: Master, rec: Netns, pick: Option<uint32>, renewOk: bool)
    requires Agree(m) && Separated(m.vnids.ids) && Joinless(HandleEvent(rec, pick, renewOk))
    ensures var m' := After(m, HandleEvent(rec, pick, renewOk));
      m'.vnids == m.vnids && Agree(m')
  {
    if rec.name in m.vnids.ids {
      SeparatedHolders(m.vnids.ids, rec.name);
    }
  }

  lemma SeparateAssign(m: Master, name: string, pick: Option<uint32>, etcdOk: bool)
    requires Inv(m.vnids) && Agree(m) && Separated(m.vnids.ids) && Pick(RANGE, m.vnids.pool, pick)
    ensures var m' := After(m, Assign(name, pick, etcdOk));
      Agree(m') && Separated(m'.vnids.ids)
  {
    StepKeepsAgreement(m, Assign(name, pick, etcdOk));
    if name !in m.vnids.ids && Assigned(m.vnids, name, pick).Ok? {
      AssignRollsBack(m.vnids, name, pick);
    }
  }

  lemma SeparatedHolders(ids: map<string, uint32>, name: string)
    requires Separated(ids) && name in ids
    ensures Holders(ids, ids[name]) == {name}
  {
    assert name in Holders(ids, ids[name]);
  }

  lemma SameIds(a: Master, b: Master)
    requires Agree(a) && Agree(b) && a.etcd == b.etcd
    ensures a.vnids.ids == b.vnids.ids
  {
  }

  /** Without joins and moves to the global network, ordinary namespaces hold different nonzero IDs
      over every run, whatever etcd answers. */
  lemma {:induction false} SeparateWithoutJoins(m: Master, steps: seq<Step>)
    requires Inv(m.vnids) && Agree(m) && Separated(m.vnids.ids) && FairRun(m, steps)
    requires forall step :: step in steps ==> Joinless(step)
    ensures Separated(RunOf(m, steps).vnids.ids) && Agree(RunOf(m, steps))
    decreases |steps|
  {
    if steps != [] {
      StepKeepsSeparation(m, steps[0]);
      SeparateWithoutJoins(After(m, steps[0]), steps[1..]);
    }
  }

  // ---------------------------------------------------------------- failover

  lemma ListedIsMemory(m: Master, list: seq<Netns>)
    requires Agree(m) && UniqueNames(list) && View(list) == m.etcd
    ensures Listed(map[], list) == m.vnids.ids
    ensures forall r :: r in list ==> r.name in m.vnids.ids && m.vnids.ids[r.name] == r.value.netID
  {
    ListedIds(map[], list);
    ListedRecords(m, list);
  }

  lemma ListedRecords(m: Master, list: seq<Netns>)
    requires Agree(m) && UniqueNames(list) && View(list) == m.etcd
    ensures forall r :: r in list ==> r.name in m.vnids.ids && m.vnids.ids[r.name] == r.value.netID
  {
    forall r | r in list
      ensures r.name in m.vnids.ids && m.vnids.ids[r.name] == r.value.netID
    {
      assert m.etcd[r.name] == r.value;
    }
  }

  lemma ListedPool(m: Master, list: seq<Netns>)
    requires Inv(m.vnids) && Agree(m)
    requires UniqueNames(list) && View(list) == m.etcd
    ensures NonzeroIds(list) == m.vnids.pool
  {
    ListedRecords(m, list);
    forall id | id in m.vnids.pool
      ensures id in NonzeroIds(list)
    {
      var n :| n in m.vnids.ids && m.vnids.ids[n] == id;
      assert n in View(list);
      var r :| r in list && r.name == n;
      assert r.value.netID == id;
    }
  }

  /** A master started from etcd has the IDs and the pool of the one it replaces. */
  lemma FailoverRoundTrip(m: Master, list: seq<Netns>)
    requires Inv(m.vnids) && Agree(m)
    requires UniqueNames(list) && View(list) == m.etcd
    ensures After(m, Failover(list)) == m
  {
    ListedIsMemory(m, list);
    ListedPool(m, list);
    forall i | 0 <= i < |list|
      ensures Acceptable(list[i].value.netID)
    {
      assert list[i] in list;
    }
  }

  // ---------------------------------------------------------------- the objects

  /** The netnamespaces directory of etcd. `ok` on a call says whether etcd answers it. */
  class EtcdNetns {
    var records: map<string, NetnsInfo>

    /** Creates the record if there is none. */
    method Acquire(name: string, info: NetnsInfo, ok: bool) returns (done: bool)
      modifies this
      ensures done == (ok && name !in old(records))
      ensures records == if done then old(records)[name := info] else old(records)
    {
      done := ok && name !in records;
      if done {
        records := records[name := info];
      }
    }

    method Renew(name: string, info: NetnsInfo, ok: bool) returns (done: bool)
      modifies this
      ensures done == ok
      ensures records == if done then old(records)[name := info] else old(records)
    {
      done := ok;
      if done {
        records := records[name := info];
      }
    }

    method Revoke(name: string, ok: bool) returns (done: bool)
      modifies this
      ensures done == (ok && name in old(records))
      ensures records == if done then old(records) - {name} else old(records)
    {
      done := ok && name in records;
      if done {
        records := records - {name};
      }
    }
  }

  class VnidMap {
    var ids: map<string, uint32>
    const netIDManager: Allocator

    ghost predicate Valid()
      reads this, netIDManager
    {
      netIDManager.Valid() && netIDManager.range == RANGE
    }

    ghost function State(): Vnids
      requires Valid()
      reads this, netIDManager
    {
      Vnids(ids, netIDManager.Taken())
    }

    constructor ()
      ensures Valid() && State() == Vnids(map[], {})
      ensures fresh(netIDManager)
    {
      ids := map[];
      netIDManager := new Allocator(RANGE);
    }

    method GetVNIDCount(id: uint32) returns (count: nat)
      ensures count == |Holders(ids, id)|
    {
      count := 0;
      var names, seen: set<string> := ids.Keys, {};
      while names != {}
        invariant names + seen == ids.Keys && names !! seen
        invariant count == |HoldersAmong(ids, id, seen)|
        decreases names
      {
        var n :| n in names;
        SeenOneMore(ids, id, seen, n);
        if ids[n] == id {
          count := count + 1;
        }
        names, seen := names - {n}, seen + {n};
      }
      assert HoldersAmong(ids, id, seen) == Holders(ids, id);
    }

    method AllocateNetID(name: string) returns (r: Result<(uint32, bool), VnidError>, ghost pick: Option<uint32>)
      requires Valid()
      modifies this, netIDManager
      ensures Valid() && Pick(RANGE, old(State()).pool, pick)
      ensures match Assigned(old(State()), name, pick)
              case Ok(s) => State() == s && r == Ok((s.ids[name], name in old(ids)))
              case Err(e) => State() == old(State()) && r == Err(e)
      ensures name == "kube-system" && name !in old(ids) ==>
                r == Ok((GLOBAL_VNID, false)) && State() == Vnids(old(ids)[name := GLOBAL_VNID], old(State()).pool)
    {
      pick := SomePick(RANGE, netIDManager.Taken());
      if name in ids {
        return Ok((ids[name], true)), pick;
      }
      var netid: uint32;
      if name in ADMIN_NAMESPACES {
        netid := GLOBAL_VNID;
      } else {
        var next := netIDManager.AllocateNext();
        pick := if next.Ok? then Some(next.value) else None;
        if next.Err? {
          return Err(PoolFull), pick;
        }
        netid := next.value;
      }
      ids := ids[name := netid];
      r := Ok((netid, false));
    }

    method ReleaseNetID(name: string) returns (r: Result<(), VnidError>)
      requires Valid()
      modifies this, netIDManager
      ensures Valid() && State() == Released(old(State()), name)
      ensures r == if name in old(ids) then Ok(()) else Err(NotFound(name))
    {
      if name !in ids {
        return Err(NotFound(name));
      }
      var netid := ids[name];
      ids := ids - {name};
      if netid == GLOBAL_VNID {
        return Ok(());
      }
      var count := GetVNIDCount(netid);
      if count == 0 {
        netIDManager.Release(netid);
      }
      r := Ok(());
    }

    method UpdateNetID(name: string, action: string, args: string)
      returns (r: Result<uint32, VnidError>, ghost pick: Option<uint32>)
      requires Valid()
      modifies this, netIDManager
      ensures Valid() && Pick(RANGE, old(State()).pool, pick)
      ensures match Updated(old(State()), name, action, args, pick)
              case Ok((s, id)) => State() == s && r == Ok(id)
              case Err(e) => State() == old(State()) && r == Err(e)
    {
      pick := SomePick(RANGE, netIDManager.Taken());
      if name !in ids {
        return Err(NotFound(name)), pick;
      }
      var oldnetid, netid := ids[name], GLOBAL_VNID;
      if action == GLOBAL {
      } else if action == JOIN {
        if args !in ids {
          return Err(NotFound(args)), pick;
        }
        netid := ids[args];
      } else if action == ISOLATE {
        var count := GetVNIDCount(oldnetid);
        SoleHolder(ids, name, oldnetid);
        if count == 1 {
          return Ok(oldnetid), pick;
        }
        var next := netIDManager.AllocateNext();
        pick := if next.Ok? then Some(next.value) else None;
        if next.Err? {
          return Err(PoolFull), pick;
        }
        netid := next.value;
      } else {
        return Err(InvalidAction), pick;
      }
      var released := ReleaseNetID(name);
      ids := ids[name := netid];
      r := Ok(netid);
    }

    method AssignVNID(name: string, etcd: EtcdNetns, etcdOk: bool)
      returns (r: Result<(), VnidError>, ghost pick: Option<uint32>)
      requires Valid()
      modifies this, netIDManager, etcd
      ensures Valid() && Pick(RANGE, old(State()).pool, pick)
      ensures Master(State(), etcd.records)
           == AfterAssign(old(Master(State(), etcd.records)), name, pick, etcdOk)
      ensures r == match Assigned(old(State()), name, pick)
                   case Err(e) => Err(e)
                   case Ok(_) => if name in old(ids) || (etcdOk && name !in old(etcd.records)) then Ok(()) else Err(EtcdFailed)
    {
      var a;
      a, pick := AllocateNetID(name);
      if a.Err? {
        return Err(a.error), pick;
      }
      var (netid, exists_) := a.value;
      if !exists_ {
        var done := etcd.Acquire(name, NetnsInfo(netid, "", ""), etcdOk);
        if !done {
          var undone := ReleaseNetID(name);
          return Err(EtcdFailed), pick;
        }
      }
      r := Ok(());
    }

    method UpdateVNID(rec: Netns, etcd: EtcdNetns, renewOk: bool)
      returns (r: Result<(), VnidError>, ghost pick: Option<uint32>)
      requires Valid() && rec.value.action != ""
      modifies this, netIDManager, etcd
      ensures Valid() && Pick(RANGE, old(State()).pool, pick)
      ensures Master(State(), etcd.records)
           == AfterEventHandled(old(Master(State(), etcd.records)), rec, pick, renewOk)
      ensures r == match Updated(old(State()), rec.name, rec.value.action, rec.value.joinTo, pick)
                   case Err(e) => Err(e)
                   case Ok(_) => if renewOk then Ok(()) else Err(EtcdFailed)
    {
      var u;
      u, pick := UpdateNetID(rec.name, rec.value.action, rec.value.joinTo);
      if u.Err? {
        return Err(u.error), pick;
      }
      var done := etcd.Renew(rec.name, NetnsInfo(u.value, "", ""), renewOk);
      r := if done then Ok(()) else Err(EtcdFailed);
    }

    /** `masterHandleNetnsEvent` on one event: only an added record with an action makes it do anything. */
    method HandleNetnsEvent(e: Event<NetnsInfo>, etcd: EtcdNetns, renewOk: bool) returns (ghost pick: Option<uint32>)
      requires Valid()
      modifies this, netIDManager, etcd
      ensures Valid() && Pick(RANGE, old(State()).pool, pick)
      ensures Master(State(), etcd.records) == After(old(Master(State(), etcd.records)), StepFor(e, pick, renewOk))
      ensures e.Removed? || e.rec.value.action == "" ==> State() == old(State()) && etcd.records == old(etcd.records)
      ensures e.Added? && e.rec.value.action == GLOBAL && e.rec.name in old(ids) && renewOk ==>
                ids[e.rec.name] == GLOBAL_VNID && etcd.records == old(etcd.records)[e.rec.name := NetnsInfo(GLOBAL_VNID, "", "")]
    {
      pick := SomePick(RANGE, State().pool);
      if e.Added? && e.rec.value.action != "" {
        var r;
        r, pick := UpdateVNID(e.rec, etcd, renewOk);
      }
    }

    /** One step for each event of the batch, in order. */
    method HandleNetnsEvents(batch: seq<Event<NetnsInfo>>, etcd: EtcdNetns, renewOk: seq<bool>)
      returns (ghost steps: seq<Step>)
      requires Valid() && |renewOk| == |batch|
      modifies this, netIDManager, etcd
      ensures Valid() && |steps| == |batch|
      ensures forall i :: 0 <= i < |batch| ==>
                && steps[i].HandleEvent? && steps[i] == StepFor(batch[i], steps[i].pick, renewOk[i])
                && Pick(RANGE, RunOf(old(Master(State(), etcd.records)), steps[..i]).vnids.pool, steps[i].pick)
      ensures Master(State(), etcd.records) == RunOf(old(Master(State(), etcd.records)), steps)
    {
      ghost var start := Master(State(), etcd.records);
      steps := [];
      for i := 0 to |batch|
        invariant Valid() && |steps| == i
        invariant forall j :: 0 <= j < i ==>
                    && steps[j].HandleEvent? && steps[j] == StepFor(batch[j], steps[j].pick, renewOk[j])
                    && Pick(RANGE, RunOf(start, steps[..j]).vnids.pool, steps[j].pick)
        invariant Master(State(), etcd.records) == RunOf(start, steps)
      {
        ghost var pick := HandleNetnsEvent(batch[i], etcd, renewOk[i]);
        RunOfAppend(start, steps, StepFor(batch[i], pick, renewOk[i]));
        ghost var before := steps;
        steps := steps + [StepFor(batch[i], pick, renewOk[i])];
        assert forall j :: 0 <= j < i ==> steps[..j] == before[..j];
        assert steps[..i] == before;
      }
    }

    method RevokeVNID(name: string, etcd: EtcdNetns, etcdOk: bool) returns (r: Result<(), VnidError>)
      requires Valid()
      modifies this, netIDManager, etcd
      ensures Valid()
      ensures Master(State(), etcd.records)
           == AfterRevoke(old(Master(State(), etcd.records)), name, etcdOk)
      ensures r == if !etcdOk || name !in old(etcd.records) then Err(EtcdFailed)
                   else if name in old(ids) then Ok(()) else Err(NotFound(name))
    {
      var done := etcd.Revoke(name, etcdOk);
      if !done {
        return Err(EtcdFailed);
      }
      r := ReleaseNetID(name);
    }

    /** Reads all records at start-up; stops at the first ID outside the range, which memory then has while
        the pool has the IDs before it. */
    method PopulateVNIDs(list: seq<Netns>) returns (r: Result<(), VnidError>)
      requires Valid()
      modifies this, netIDManager
      ensures Valid()
      ensures r == if AllAcceptable(list) then Ok(()) else Err(OutOfRange)
      ensures r.Ok? ==> State() == AllListed(old(State()), list)
      ensures r.Err? ==>
                exists k :: 0 <= k < |list| && AllAcceptable(list[..k]) && !Acceptable(list[k].value.netID)
                  && State() == Vnids(AllListed(old(State()), list[..k]).ids[list[k].name := list[k].value.netID],
                                      AllListed(old(State()), list[..k]).pool)
    {
      ghost var start := State();
      assert AllListed(start, []) == start;
      for i := 0 to |list|
        invariant Valid()
        invariant forall j :: 0 <= j < i ==> Acceptable(list[j].value.netID)
        invariant State() == AllListed(start, list[..i])
      {
        OneMoreListed(start, list, i);
        var ok := PopulateOne(list[i]);
        if !ok {
          assert State() == AllListed(start, list[..i]).(ids := AllListed(start, list[..i]).ids[list[i].name := list[i].value.netID]);
          return Err(OutOfRange);
        }
      }
      assert list[..|list|] == list;
      r := Ok(());
    }

    method PopulateOne(rec: Netns) returns (ok: bool)
      requires Valid()
      modifies this, netIDManager
      ensures Valid()
      ensures ok <==> Acceptable(rec.value.netID)
      ensures State() == if ok then OneListed(old(State()), rec)
                         else old(State()).(ids := old(ids)[rec.name := rec.value.netID])
    {
      var id := rec.value.netID;
      ids := ids[rec.name := id];
      ok := true;
      if id != GLOBAL_VNID {
        var a := netIDManager.Allocate(id);
        match a {
          case Ok(_) =>
          case Err(Allocated) =>
          case Err(_) => ok := false;
        }
      }
    }
  }

  ghost function OneListed(s: Vnids, rec: Netns): Vnids {
    Vnids(s.ids[rec.name := rec.value.netID],
          s.pool + if rec.value.netID == GLOBAL_VNID then {} else {rec.value.netID})
  }

  lemma OneMoreListed(s: Vnids, list: seq<Netns>, i: nat)
    requires i < |list|
    ensures AllListed(s, list[..i + 1]) == OneListed(AllListed(s, list[..i]), list[i])
  {
    assert list[..i + 1] == list[..i] + [list[i]];
    assert list[..i + 1][..i] == list[..i];
  }

  ghost function SomePick(range: NetIDRange, taken: set<uint32>): (pick: Option<uint32>)
    ensures Pick(range, taken, pick)
  {
    if v: uint32 :| range.Holds(v) && v !in taken then Some(v) else None
  }

  ghost function HoldersAmong(ids: map<string, uint32>, id: uint32, names: set<string>): set<string> {
    set n | n in names && n in ids && ids[n] == id
  }

  lemma SeenOneMore(ids: map<string, uint32>, id: uint32, seen: set<string>, n: string)
    requires n in ids && n !in seen
    ensures |HoldersAmong(ids, id, seen + {n})| == |HoldersAmong(ids, id, seen)| + if ids[n] == id then 1 else 0
  {
    var before := HoldersAmong(ids, id, seen);
    assert HoldersAmong(ids, id, seen + {n}) == if ids[n] == id then before + {n} else before;
  }

  lemma SoleHolder(ids: map<string, uint32>, name: string, id: uint32)
    requires name in ids && ids[name] == id
    ensures |Holders(ids, id)| == 1 <==> Holders(ids, id) == {name}
  {
    var h := Holders(ids, id);
    assert name in h;
    if |h| == 1 {
      assert |h - {name}| == 0;
      assert h == {name};
    }
  }
}
