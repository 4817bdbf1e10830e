/** When two namespaces can come to share a VNID: by joins, and by IDs the master's pool hands out while
    etcd still records them (ksdn/vnids_master.go). */
module VnidSharing {
  import opened Prelude
  import opened Word32
  import opened Watch
  import opened Records
  import opened NetIds
  import opened MasterVnids

  // ---------------------------------------------------------------- stale IDs

  ghost predicate InEtcd(m: Master, id: uint32) {
    exists n :: n in m.etcd && m.etcd[n].netID == id
  }

  /** etcd records the ID for a namespace and the pool has it for free. */
  ghost predicate Stale(m: Master, id: uint32) {
    id != GLOBAL_VNID && InEtcd(m, id) && id !in m.vnids.pool
  }

  ghost predicate NoneStale(m: Master) { forall id :: !Stale(m, id) }

  /** Not an ID that etcd records. */
  ghost predicate FreshPick(m: Master, pick: Option<uint32>) { pick.Some? ==> !InEtcd(m, pick.value) }

  /** Whatever the pool hands out is new to etcd if and only if no ID is stale. */
  lemma PicksAreFreshIff(m: Master)
    requires InRange(m)
    ensures (forall pick :: Pick(RANGE, m.vnids.pool, pick) ==> FreshPick(m, pick)) <==> NoneStale(m)
  {
    forall id | Stale(m, id)
      ensures Pick(RANGE, m.vnids.pool, Some(id)) && !FreshPick(m, Some(id))
    {
    }
    forall pick | Pick(RANGE, m.vnids.pool, pick) && !FreshPick(m, pick)
      ensures Stale(m, pick.value)
    {
    }
  }

  lemma AgreedHasNoneStale(m: Master)
    requires Inv(m.vnids) && Agree(m)
    ensures NoneStale(m)
  {
  }

  /** The nonzero ID that the namespace alone holds. */
  ghost function OwnID(s: Vnids, name: string): Option<uint32> {
    if name in s.ids && s.ids[name] != GLOBAL_VNID && Holders(s.ids, s.ids[name]) == {name}
    then Some(s.ids[name]) else None
  }

  /** The ID a step gives back to the pool: its only holder is revoked or moved. */
  ghost function Freed(m: Master, step: Step): Option<uint32> {
    match step
    case Revoke(name, etcdOk) => if etcdOk && name in m.etcd then OwnID(m.vnids, name) else None
    case HandleEvent(rec, _, _) =>
      if rec.value.action == GLOBAL || (rec.value.action == JOIN && rec.value.joinTo in m.vnids.ids)
      then OwnID(m.vnids, rec.name) else None
    case _ => None
  }

  /** The step takes the namespace's ID out of its record in etcd. */
  predicate Rewrites(step: Step, n: string) {
    match step
    case Revoke(name, _) => n == name
    case HandleEvent(rec, _, renewOk) => n == rec.name && renewOk
    case _ => false
  }

  /** The step gives back an ID that etcd goes on recording. */
  ghost predicate Strands(m: Master, step: Step) {
    && Freed(m, step).Some?
    && exists n :: n in m.etcd && m.etcd[n].netID == Freed(m, step).value && !Rewrites(step, n)
  }

  /** A step that is no sole holder's join to itself makes an ID stale if and only if it strands one. */
  lemma StepKeepsNoneStaleIff(m: Master, step: Step)
    requires Inv(m.vnids) && NoneStale(m) && Fair(m, step) && KeepsOwnID(m, step)
    ensures NoneStale(After(m, step)) <==> !Strands(m, step)
  {
    match step {
      case Assign(name, pick, etcdOk) => AssignKeepsNoneStale(m, name, pick, etcdOk);
      case Revoke(name, etcdOk) => RevokeKeepsNoneStaleIff(m, name, etcdOk);
      case Request(_, _, _) => RecordsSame(m, After(m, step));
      case HandleEvent(rec, pick, renewOk) => UpdateKeepsNoneStaleIff(m, rec, pick, renewOk);
      case Failover(list) => FailoverKeepsNoneStale(m, list);
    }
  }

  lemma RecordsSame(m: Master, m': Master)
    requires NoneStale(m) && m.vnids.pool <= m'.vnids.pool
    requires forall n :: n in m'.etcd ==>
               || m'.etcd[n].netID in m'.vnids.pool || m'.etcd[n].netID == GLOBAL_VNID
               || (n in m.etcd && m'.etcd[n].netID == m.etcd[n].netID)
    ensures NoneStale(m')
  {
    forall id
      ensures !Stale(m', id)
    {
      assert !Stale(m, id);
    }
  }

  lemma AssignKeepsNoneStale(m: Master, name: string, pick: Option<uint32>, etcdOk: bool)
    requires Inv(m.vnids) && NoneStale(m) && Pick(RANGE, m.vnids.pool, pick)
    ensures NoneStale(After(m, Assign(name, pick, etcdOk)))
  {
    if name !in m.vnids.ids && Assigned(m.vnids, name, pick).Ok? {
      AssignRollsBack(m.vnids, name, pick);
      RecordsSame(m, After(m, Assign(name, pick, etcdOk)));
    }
  }

  lemma FailoverKeepsNoneStale(m: Master, list: seq<Netns>)
    requires NoneStale(m) && Fair(m, Failover(list))
    ensures NoneStale(After(m, Failover(list)))
  {
    forall n | n in m.etcd
      ensures m.etcd[n].netID == GLOBAL_VNID || m.etcd[n].netID in NonzeroIds(list)
    {
      var r :| r in list && r.name == n;
      assert View(list)[n] == r.value;
    }
  }

  /** Releasing a name takes its own ID out of the pool, if it has one, and nothing else. */
  lemma ReleasedPool(s: Vnids, name: string)
    ensures Released(s, name).pool == match OwnID(s, name)
      case Some(id) => s.pool - {id}
      case None => s.pool
  {
    if name in s.ids {
      var id, ids := s.ids[name], s.ids - {name};
      assert Holders(ids, id) == Holders(s.ids, id) - {name};
      assert name in Holders(s.ids, id);
    }
  }

  /** Without the freed ID the pool covers etcd exactly if nothing is recorded with that ID any more. */
  lemma FreeingKeepsNoneStaleIff(m: Master, m': Master, freed: uint32)
    requires NoneStale(m) && freed != GLOBAL_VNID && m'.vnids.pool == m.vnids.pool - {freed}
    requires forall n :: n in m'.etcd ==>
               || m'.etcd[n].netID in m'.vnids.pool || m'.etcd[n].netID == GLOBAL_VNID
               || (n in m.etcd && m'.etcd[n] == m.etcd[n])
    ensures NoneStale(m') <==> !InEtcd(m', freed)
  {
    if InEtcd(m', freed) {
      assert Stale(m', freed);
    } else {
      forall id
        ensures !Stale(m', id)
      {
        assert !Stale(m, id);
      }
    }
  }

  lemma RevokeKeepsNoneStaleIff(m: Master, name: string, etcdOk: bool)
    requires Inv(m.vnids) && NoneStale(m)
    ensures NoneStale(After(m, Revoke(name, etcdOk))) <==> !Strands(m, Revoke(name, etcdOk))
  {
    var m' := After(m, Revoke(name, etcdOk));
    if etcdOk && name in m.etcd {
      ReleasedPool(m.vnids, name);
      match OwnID(m.vnids, name) {
        case None => RecordsSame(m, m');
        case Some(id) => FreeingKeepsNoneStaleIff(m, m', id);
      }
    }
  }

  lemma UpdateKeepsNoneStaleIff(m: Master, rec: Netns, pick: Option<uint32>, renewOk: bool)
    requires Inv(m.vnids) && NoneStale(m) && Pick(RANGE, m.vnids.pool, pick)
    requires KeepsOwnID(m, HandleEvent(rec, pick, renewOk))
    ensures NoneStale(After(m, HandleEvent(rec, pick, renewOk))) <==> !Strands(m, HandleEvent(rec, pick, renewOk))
  {
    var name, action, args := rec.name, rec.value.action, rec.value.joinTo;
    if action != "" && Updated(m.vnids, name, action, args, pick).Ok? {
      var m' := After(m, HandleEvent(rec, pick, renewOk));
      UpdatedPool(m.vnids, name, action, args, pick);
      match Freed(m, HandleEvent(rec, pick, renewOk)) {
        case None => RecordsSame(m, m');
        case Some(id) => FreeingKeepsNoneStaleIff(m, m', id);
      }
    }
  }

  /** What an update does to the pool; the ID it gives is in the pool or 0, and not the one it frees. */
  lemma UpdatedPool(s: Vnids, name: string, action: string, args: string, pick: Option<uint32>)
    requires Inv(s) && Pick(RANGE, s.pool, pick) && !LosesOwnID(s, name, action, args)
    requires Updated(s, name, action, args, pick).Ok?
    ensures var (t, id) := Updated(s, name, action, args, pick).value;
      && (id == GLOBAL_VNID || id in t.pool)
      && if (action == GLOBAL || action == JOIN) && OwnID(s, name).Some?
         then t.pool == s.pool - {OwnID(s, name).value} && id != OwnID(s, name).value
         else s.pool <= t.pool
  {
    UpdateKeepsInvIff(s, name, action, args, pick);
    UpdateMeaning(s, name, action, args, pick);
    ReleasedPool(s, name);
    if NeedsPick(s, name, action) {
      ReleasedPool(s.(pool := s.pool + {pick.value}), name);
      assert OwnID(s.(pool := s.pool + {pick.value}), name) == OwnID(s, name);
    }
    if action == JOIN && OwnID(s, name).Some? && args != name {
      assert args !in Holders(s.ids, s.ids[name]);
    }
  }

  /** After one step from a consistent master an ID is stale if and only if etcd refused the update of a
      namespace that held its nonzero ID alone and was made global or joined to another. */
  lemma FailedRenewalLeavesStaleIff(m: Master, step: Step)
    requires Inv(m.vnids) && Agree(m) && Fair(m, step) && KeepsOwnID(m, step)
    ensures NoneStale(After(m, step)) <==> !(step.HandleEvent? && !step.renewOk && Freed(m, step).Some?)
  {
    AgreedHasNoneStale(m);
    StepKeepsNoneStaleIff(m, step);
    if Freed(m, step).Some? {
      assert forall n :: n in m.etcd && m.etcd[n].netID == Freed(m, step).value ==> n in Holders(m.vnids.ids, Freed(m, step).value);
      var name := if step.Revoke? then step.name else step.rec.name;
      assert name in m.etcd && m.etcd[name].netID == Freed(m, step).value;
    }
  }

  // ---------------------------------------------------------------- runs

  /** No step of the run gives back an ID that etcd goes on recording. */
  ghost predicate StrandsNone(m: Master, steps: seq<Step>)
    decreases |steps|
  {
    steps == [] || (!Strands(m, steps[0]) && StrandsNone(After(m, steps[0]), steps[1..]))
  }

  ghost predicate NeverStale(m: Master, steps: seq<Step>) {
    forall k :: 0 <= k <= |steps| ==> NoneStale(RunOf(m, steps[..k]))
  }

  /** All along a run no ID is stale if and only if no step strands one. */
  lemma {:induction false} NeverStaleIff(m: Master, steps: seq<Step>)
    requires Inv(m.vnids) && NoneStale(m) && FairRun(m, steps) && OwnIDsKept(m, steps)
    ensures NeverStale(m, steps) <==> StrandsNone(m, steps)
    decreases |steps|
  {
    if steps == [] {
      assert steps[..0] == steps;
    } else {
      var next, rest := After(m, steps[0]), steps[1..];
      StepKeepsPoolIff(m, steps[0]);
      StepKeepsNoneStaleIff(m, steps[0]);
      forall k | 0 < k <= |steps|
        ensures RunOf(m, steps[..k]) == RunOf(next, rest[..k - 1])
      {
        PrefixAfterFirst(m, steps, k);
      }
      assert RunOf(next, rest[..0]) == next && RunOf(m, steps[..1]) == next;
      assert RunOf(m, steps[..0]) == m;
      if NoneStale(next) {
        NeverStaleIff(next, rest);
        if NeverStale(m, steps) {
          forall k | 0 <= k <= |rest|
            ensures NoneStale(RunOf(next, rest[..k]))
          {
            assert NoneStale(RunOf(m, steps[..k + 1]));
          }
        }
      }
    }
  }

  /** While etcd takes every update no step strands an ID. */
  lemma {:induction false} AnsweredStrandsNone(m: Master, steps: seq<Step>)
    requires Inv(m.vnids) && Agree(m) && FairRun(m, steps) && OwnIDsKept(m, steps)
    requires forall step :: step in steps ==> Answered(step)
    ensures StrandsNone(m, steps)
    decreases |steps|
  {
    if steps != [] {
      AgreedHasNoneStale(m);
      StepKeepsNoneStaleIff(m, steps[0]);
      FailedRenewalLeavesStaleIff(m, steps[0]);
      StepKeepsPoolIff(m, steps[0]);
      StepKeepsAgreement(m, steps[0]);
      AnsweredStrandsNone(After(m, steps[0]), steps[1..]);
    }
  }

  // ---------------------------------------------------------------- who shares an ID

  ghost predicate Share(m: Master, a: string, b: string) {
    var ids := m.vnids.ids;
    a in ids && b in ids && ids[a] == ids[b] != GLOBAL_VNID
  }

  /** Memory or etcd has the nonzero ID for the namespace. */
  ghost predicate Has(m: Master, n: string, id: uint32) {
    && id != GLOBAL_VNID
    && ((n in m.vnids.ids && m.vnids.ids[n] == id) || (n in m.etcd && m.etcd[n].netID == id))
  }

  /** Namespaces that share a nonzero ID, in memory, in etcd or across the two, have one colour. */
  ghost predicate Alike(m: Master, colour: string -> bool) {
    forall a, b, id :: Has(m, a, id) && Has(m, b, id) ==> colour(a) == colour(b)
  }

  predicate JoinsAlike(colour: string -> bool, step: Step) {
    step.HandleEvent? && step.rec.value.action == JOIN ==> colour(step.rec.name) == colour(step.rec.value.joinTo)
  }

  /** The step gives `n` an ID it did not have: one from the pool, or that of the namespace it joins. */
  ghost predicate Gains(m: Master, step: Step, n: string, id: uint32) {
    match step
    case Assign(name, pick, _) => n == name && pick == Some(id)
    case HandleEvent(rec, pick, _) =>
      n == rec.name && (pick == Some(id) || (rec.value.action == JOIN && Has(m, rec.value.joinTo, id)))
    case _ => false
  }

  lemma UpdateGains(m: Master, rec: Netns, pick: Option<uint32>, renewOk: bool, n: string, id: uint32)
    requires Inv(m.vnids) && Pick(RANGE, m.vnids.pool, pick)
    requires Has(After(m, HandleEvent(rec, pick, renewOk)), n, id)
    ensures Has(m, n, id) || Gains(m, HandleEvent(rec, pick, renewOk), n, id)
  {
    if rec.value.action != "" && Updated(m.vnids, rec.name, rec.value.action, rec.value.joinTo, pick).Ok? {
      UpdateMeaning(m.vnids, rec.name, rec.value.action, rec.value.joinTo, pick);
    }
  }

  lemma StepGains(m: Master, step: Step, n: string, id: uint32)
    requires Inv(m.vnids) && Fair(m, step) && Has(After(m, step), n, id)
    ensures Has(m, n, id) || Gains(m, step, n, id)
  {
    match step {
      case HandleEvent(rec, pick, renewOk) => UpdateGains(m, rec, pick, renewOk, n, id);
      case Failover(list) => ListedIds(map[], list);
      case _ =>
    }
  }

  lemma StepKeepsAlike(m: Master, step: Step, colour: string -> bool)
    requires Inv(m.vnids) && Alike(m, colour)
    requires Fair(m, step) && NoneStale(m) && JoinsAlike(colour, step)
    ensures Alike(After(m, step), colour)
  {
    forall n, id: uint32 | Has(m, n, id) && (step.Assign? || step.HandleEvent?)
      ensures step.pick != Some(id)
    {
      assert !Stale(m, id);
    }
    forall a, b, id | Has(After(m, step), a, id) && Has(After(m, step), b, id)
      ensures colour(a) == colour(b)
    {
      StepGains(m, step, a, id);
      StepGains(m, step, b, id);
    }
  }

  lemma {:induction false} RunKeepsAlike(m: Master, steps: seq<Step>, colour: string -> bool)
    requires Inv(m.vnids) && NoneStale(m) && Alike(m, colour)
    requires FairRun(m, steps) && OwnIDsKept(m, steps) && StrandsNone(m, steps)
    requires forall step :: step in steps ==> JoinsAlike(colour, step)
    ensures Alike(RunOf(m, steps), colour)
    decreases |steps|
  {
    if steps != [] {
      StepKeepsAlike(m, steps[0], colour);
      StepKeepsPoolIff(m, steps[0]);
      StepKeepsNoneStaleIff(m, steps[0]);
      RunKeepsAlike(After(m, steps[0]), steps[1..], colour);
    }
  }

  /** `b` can be reached from `a` by the joins of the run and the IDs shared at its start. */
  ghost predicate Chained(m: Master, steps: seq<Step>, a: string, b: string) {
    exists path: seq<string> :: |path| > 0 && path[0] == a && path[|path| - 1] == b && IsChain(m, steps, path)
  }

  ghost predicate IsChain(m: Master, steps: seq<Step>, path: seq<string>) {
    forall i :: 0 <= i < |path| - 1 ==> Tied(m, steps, path[i], path[i + 1])
  }

  ghost predicate Tied(m: Master, steps: seq<Step>, a: string, b: string) {
    || (a in m.vnids.ids && b in m.vnids.ids && m.vnids.ids[a] == m.vnids.ids[b] != GLOBAL_VNID)
    || Joins(steps, a, b) || Joins(steps, b, a)
  }

  ghost predicate Joins(steps: seq<Step>, a: string, b: string) {
    exists step :: step in steps && step.HandleEvent? && step.rec.value.action == JOIN
      && step.rec.name == a && step.rec.value.joinTo == b
  }

  lemma LongerChain(m: Master, steps: seq<Step>, a: string, b: string, c: string)
    requires Chained(m, steps, a, b) && Tied(m, steps, b, c)
    ensures Chained(m, steps, a, c)
  {
    var path: seq<string> :| |path| > 0 && path[0] == a && path[|path| - 1] == b && IsChain(m, steps, path);
    assert IsChain(m, steps, path + [c]);
  }

  /** Two namespaces share a nonzero ID only through a chain of joins, unless a step of the run frees an
      ID that etcd goes on recording. */
  lemma SharingNeedsJoins(m: Master, steps: seq<Step>, a: string, b: string)
    requires Inv(m.vnids) && Agree(m)
    requires FairRun(m, steps) && OwnIDsKept(m, steps) && StrandsNone(m, steps)
    requires Share(RunOf(m, steps), a, b)
    ensures Chained(m, steps, a, b)
  {
    var colour := (n: string) => Chained(m, steps, a, n);
    AgreedHasNoneStale(m);
    ChainsColour(m, steps, a, colour);
    RunKeepsAlike(m, steps, colour);
    var id := RunOf(m, steps).vnids.ids[a];
    assert Has(RunOf(m, steps), a, id) && Has(RunOf(m, steps), b, id);
    ChainedToItself(m, steps, a);
  }

  lemma ChainedToItself(m: Master, steps: seq<Step>, a: string)
    ensures Chained(m, steps, a, a)
  {
    assert IsChain(m, steps, [a]) && [a][0] == a;
  }

  /** Being reached from `a` is the same for all that share an ID at the start or are joined. */
  lemma ChainsColour(m: Master, steps: seq<Step>, a: string, colour: string -> bool)
    requires Agree(m) && forall n :: colour(n) == Chained(m, steps, a, n)
    ensures Alike(m, colour) && forall step :: step in steps ==> JoinsAlike(colour, step)
  {
    TiedAlike(m, steps, a);
    forall step | step in steps
      ensures JoinsAlike(colour, step)
    {
      if step.HandleEvent? && step.rec.value.action == JOIN {
        JoinTies(m, steps, step);
      }
    }
    forall x, y, id | Has(m, x, id) && Has(m, y, id)
      ensures colour(x) == colour(y)
    {
      SharingTies(m, steps, x, y, id);
    }
  }

  lemma JoinTies(m: Master, steps: seq<Step>, step: Step)
    requires step in steps && step.HandleEvent? && step.rec.value.action == JOIN
    ensures Tied(m, steps, step.rec.name, step.rec.value.joinTo)
  {
    assert Joins(steps, step.rec.name, step.rec.value.joinTo);
  }

  lemma SharingTies(m: Master, steps: seq<Step>, x: string, y: string, id: uint32)
    requires Agree(m) && Has(m, x, id) && Has(m, y, id)
    ensures Tied(m, steps, x, y)
  {
  }

  /** Tied namespaces are both reached from `a` or neither is. */
  lemma TiedAlike(m: Master, steps: seq<Step>, a: string)
    ensures forall x, y :: Tied(m, steps, x, y) ==> (Chained(m, steps, a, x) <==> Chained(m, steps, a, y))
  {
    forall x, y | Tied(m, steps, x, y)
      ensures Chained(m, steps, a, x) <==> Chained(m, steps, a, y)
    {
      assert Tied(m, steps, y, x);
      if Chained(m, steps, a, x) { LongerChain(m, steps, a, x, y); }
      if Chained(m, steps, a, y) { LongerChain(m, steps, a, y, x); }
    }
  }

  // ---------------------------------------------------------------- a stale ID gets shared

  /** A new namespace is created and then another master starts. */
  ghost function Handover(name: string, id: uint32, list: seq<Netns>): seq<Step> {
    [Assign(name, Some(id), true)] + [Failover(list)]
  }

  ghost predicate Unknown(m: Master, name: string) {
    name !in m.vnids.ids && name !in m.etcd && name !in ADMIN_NAMESPACES
  }

  lemma HandoverEnds(m: Master, name: string, id: uint32, list: seq<Netns>)
    ensures var m1 := After(m, Assign(name, Some(id), true));
      && RunOf(m, Handover(name, id, list)) == After(m1, Failover(list))
      && (FairRun(m, Handover(name, id, list)) <==> Fair(m, Assign(name, Some(id), true)) && Fair(m1, Failover(list)))
  {
    var m1 := After(m, Assign(name, Some(id), true));
    assert Handover(name, id, list)[1..] == [Failover(list)] && [Failover(list)][1..] == [];
    var m2 := After(m1, Failover(list));
    assert RunOf(m2, []) == m2 && FairRun(m2, []);
    assert FairRun(m1, [Failover(list)]) <==> Fair(m1, Failover(list));
  }

  /** The pool may hand out a stale ID, and the namespace that gets it shares it, when the next master
      starts, with every namespace etcd records it for. */
  lemma StaleIsShared(m: Master, id: uint32, name: string, other: string, list: seq<Netns>)
    requires InRange(m) && Stale(m, id) && other in m.etcd && m.etcd[other].netID == id && Unknown(m, name)
    requires UniqueNames(list) && View(list) == After(m, Assign(name, Some(id), true)).etcd
    ensures FairRun(m, Handover(name, id, list))
    ensures other != name && Share(RunOf(m, Handover(name, id, list)), name, other)
  {
    var m1 := After(m, Assign(name, Some(id), true));
    HandoverEnds(m, name, id, list);
    assert InRange(m1) && m1.etcd[name].netID == id && m1.etcd[other].netID == id;
    FailoverRestores(m1, list);
  }

  /** Neither known at the start nor named by an update. */
  ghost predicate Unheard(m: Master, steps: seq<Step>, name: string) {
    && name !in m.vnids.ids
    && forall step :: step in steps && step.HandleEvent? ==> step.rec.name != name && step.rec.value.joinTo != name
  }

  lemma UnheardIsUnchained(m: Master, steps: seq<Step>, name: string, other: string)
    requires Unheard(m, steps, name) && name != other
    ensures !Chained(m, steps, name, other)
  {
    forall path: seq<string> | |path| > 1 && path[0] == name
      ensures !IsChain(m, steps, path)
    {
      assert !Tied(m, steps, path[0], path[1]);
    }
  }

  /** Whenever two namespaces share a nonzero ID at the end of the run, joins made them. */
  ghost predicate OnlyJoinsShare(m: Master, steps: seq<Step>) {
    forall a, b :: Share(RunOf(m, steps), a, b) ==> Chained(m, steps, a, b)
  }

  /** Namespaces are created and masters start over, and nothing else. */
  predicate Growing(steps: seq<Step>) { forall step :: step in steps ==> step.Assign? || step.Failover? }

  /** However far the run gets, and whatever is created after that, only joins make namespaces share. */
  ghost predicate AlwaysOnlyJoinsShare(m: Master, steps: seq<Step>) {
    forall k, more :: 0 <= k <= |steps| && Growing(more) && FairRun(RunOf(m, steps[..k]), more) ==>
      OnlyJoinsShare(m, steps[..k] + more)
  }

  /** From a consistent master, only joins make namespaces share a nonzero ID, during the run and whatever
      is created afterwards, if and only if no step of it gives back an ID that etcd goes on recording. */
  lemma OnlyJoinsShareIff(m: Master, steps: seq<Step>)
    requires Inv(m.vnids) && Agree(m) && FairRun(m, steps) && OwnIDsKept(m, steps)
    ensures AlwaysOnlyJoinsShare(m, steps) <==> StrandsNone(m, steps)
  {
    if StrandsNone(m, steps) {
      forall k, more | 0 <= k <= |steps| && Growing(more) && FairRun(RunOf(m, steps[..k]), more)
        ensures OnlyJoinsShare(m, steps[..k] + more)
      {
        GrownStaysSafe(m, steps, k, more);
      }
    } else {
      AgreedHasNoneStale(m);
      NeverStaleIff(m, steps);
      var k :| 0 <= k <= |steps| && !NoneStale(RunOf(m, steps[..k]));
      var more := StrandedIsShared(m, steps, k);
    }
  }

  lemma {:induction false} RunsJoin(m: Master, a: seq<Step>, b: seq<Step>)
    ensures FairRun(m, a) && FairRun(RunOf(m, a), b) ==> FairRun(m, a + b)
    ensures OwnIDsKept(m, a) && OwnIDsKept(RunOf(m, a), b) ==> OwnIDsKept(m, a + b)
    ensures StrandsNone(m, a) && StrandsNone(RunOf(m, a), b) ==> StrandsNone(m, a + b)
    decreases |a|
  {
    if a == [] {
      assert a + b == b;
    } else {
      assert (a + b)[1..] == a[1..] + b;
      RunsJoin(After(m, a[0]), a[1..], b);
    }
  }

  lemma {:induction false} PrefixStrandsNone(m: Master, steps: seq<Step>, k: nat)
    requires k <= |steps| && StrandsNone(m, steps)
    ensures StrandsNone(m, steps[..k])
    decreases k
  {
    if k > 0 {
      assert steps[..k][1..] == steps[1..][..k - 1];
      PrefixStrandsNone(After(m, steps[0]), steps[1..], k - 1);
    }
  }

  lemma {:induction false} GrowingStrandsNone(m: Master, more: seq<Step>)
    requires Growing(more)
    ensures StrandsNone(m, more) && OwnIDsKept(m, more)
    decreases |more|
  {
    if more != [] {
      assert more[0].Assign? || more[0].Failover?;
      GrowingStrandsNone(After(m, more[0]), more[1..]);
    }
  }

  lemma PrefixFair(m: Master, steps: seq<Step>, k: nat)
    requires k <= |steps| && FairRun(m, steps) && OwnIDsKept(m, steps)
    ensures FairRun(m, steps[..k]) && OwnIDsKept(m, steps[..k])
  {
    assert steps[..k] + steps[k..] == steps;
    RunOfSplit(m, steps[..k], steps[k..]);
  }

  lemma GrownStaysSafe(m: Master, steps: seq<Step>, k: nat, more: seq<Step>)
    requires Inv(m.vnids) && Agree(m) && FairRun(m, steps) && OwnIDsKept(m, steps) && StrandsNone(m, steps)
    requires k <= |steps| && Growing(more) && FairRun(RunOf(m, steps[..k]), more)
    ensures OnlyJoinsShare(m, steps[..k] + more)
  {
    PrefixFair(m, steps, k);
    PrefixStrandsNone(m, steps, k);
    GrowingStrandsNone(RunOf(m, steps[..k]), more);
    RunsJoin(m, steps[..k], more);
    forall a, b | Share(RunOf(m, steps[..k] + more), a, b)
      ensures Chained(m, steps[..k] + more, a, b)
    {
      SharingNeedsJoins(m, steps[..k] + more, a, b);
    }
  }

  /** A run that has made an ID stale goes on, without any join, to a sharing that no join explains. */
  lemma StrandedIsShared(m: Master, steps: seq<Step>, k: nat) returns (more: seq<Step>)
    requires Inv(m.vnids) && Agree(m) && FairRun(m, steps)
    requires k <= |steps| && !NoneStale(RunOf(m, steps[..k]))
    ensures Growing(more) && FairRun(RunOf(m, steps[..k]), more) && !OnlyJoinsShare(m, steps[..k] + more)
  {
    var run := steps[..k];
    var at := RunOf(m, run);
    var id :| Stale(at, id);
    var other :| other in at.etcd && at.etcd[other].netID == id;
    RunReachesRange(m, steps, k);
    var name := NewName(Names(m, run) + at.vnids.ids.Keys + at.etcd.Keys + ADMIN_NAMESPACES);
    var list := Listing(After(at, Assign(name, Some(id), true)).etcd);
    more := Handover(name, id, list);
    StaleIsShared(at, id, name, other, list);
    RunOfSplit(m, run, more);
    NewIsUnheard(m, run, name, id, list);
    UnheardIsUnchained(m, run + more, name, other);
    assert Share(RunOf(m, run + more), name, other);
  }

  lemma RunReachesRange(m: Master, steps: seq<Step>, k: nat)
    requires Inv(m.vnids) && Agree(m) && FairRun(m, steps) && k <= |steps|
    ensures InRange(RunOf(m, steps[..k]))
  {
    assert steps[..k] + steps[k..] == steps;
    RunOfSplit(m, steps[..k], steps[k..]);
    RunKeepsRange(m, steps[..k]);
  }

  /** The names at the start and in the updates. */
  ghost function Names(m: Master, steps: seq<Step>): set<string> {
    m.vnids.ids.Keys
    + (set step | step in steps && step.HandleEvent? :: step.rec.name)
    + (set step | step in steps && step.HandleEvent? :: step.rec.value.joinTo)
  }

  lemma NewIsUnheard(m: Master, steps: seq<Step>, name: string, id: uint32, list: seq<Netns>)
    requires name !in Names(m, steps)
    ensures Unheard(m, steps + Handover(name, id, list), name)
  {
  }

  lemma {:induction false} NewName(names: set<string>) returns (name: string)
    ensures forall n :: n in names ==> |n| < |name|
    decreases |names|
  {
    if names == {} {
      name := "";
    } else {
      var n :| n in names;
      var longer := NewName(names - {n});
      name := longer + n + "x";
      assert forall x :: x in names ==> x == n || x in names - {n};
    }
  }

  /** Records in some order. */
  lemma {:induction false} Listing(etcd: map<string, NetnsInfo>) returns (list: seq<Netns>)
    ensures UniqueNames(list) && View(list) == etcd
    decreases |etcd|
  {
    if etcd == map[] {
      list := [];
    } else {
      var n :| n in etcd;
      var rest := Listing(etcd - {n});
      list := rest + [Record(n, etcd[n])];
      assert list[..|list| - 1] == rest;
      forall i | 0 <= i < |rest|
        ensures rest[i].name != n
      {
        assert rest[i] in rest;
      }
      assert (etcd - {n})[n := etcd[n]] == etcd;
    }
  }

  // ---------------------------------------------------------------- a run that ends in sharing

  const WEB: map<string, NetnsInfo> := map["web" := NetnsInfo(10, "", "")]
  const ASKED: map<string, NetnsInfo> := map["web" := NetnsInfo(10, "global", "")]
  const TAKEN: map<string, NetnsInfo> := map["web" := NetnsInfo(10, "global", ""), "db" := NetnsInfo(10, "", "")]
  const LISTING: seq<Netns> := [Record("web", NetnsInfo(10, "global", "")), Record("db", NetnsInfo(10, "", ""))]

  ghost const START := Master(Vnids(map["web" := 10], {10}), WEB)
  ghost const REQUESTED := Master(Vnids(map["web" := 10], {10}), ASKED)
  ghost const REFUSED := Master(Vnids(map["web" := GLOBAL_VNID], {}), ASKED)
  ghost const CREATED := Master(Vnids(map["web" := GLOBAL_VNID, "db" := 10], {10}), TAKEN)
  ghost const REPLACED := Master(Vnids(map["web" := 10, "db" := 10], {10}), TAKEN)

  /** An administrator makes "web" global, and etcd refuses the update. */
  ghost function Refusal(): seq<Step> {
    [Request("web", "global", "")] + [HandleEvent(Record("web", NetnsInfo(10, "global", "")), Some(11), false)]
  }

  lemma UpdateIsRefused()
    ensures After(START, Refusal()[0]) == REQUESTED && After(REQUESTED, Refusal()[1]) == REFUSED
    ensures Fair(REQUESTED, Refusal()[1]) && KeepsOwnID(REQUESTED, Refusal()[1])
  {
    assert WEB["web" := NetnsInfo(10, "global", "")] == ASKED;
    var ids: map<string, uint32> := map["web" := 10];
    assert ids - {"web"} == map[] && Holders(map[], 10) == {};
    assert Released(START.vnids, "web") == Vnids(map[], {});
  }

  lemma DbIsCreated()
    ensures After(REFUSED, Assign("db", Some(10), true)) == CREATED && Fair(REFUSED, Assign("db", Some(10), true))
  {
    assert "db"[0] != "web"[0];
    assert REFUSED.vnids.ids["db" := 10] == CREATED.vnids.ids;
    assert ASKED["db" := NetnsInfo(10, "", "")] == TAKEN;
  }

  lemma MasterIsReplaced()
    ensures After(CREATED, Failover(LISTING)) == REPLACED && Fair(CREATED, Failover(LISTING))
  {
    assert LISTING[0].name[0] != LISTING[1].name[0];
    ViewIs(LISTING, TAKEN);
    ListedIds(map[], LISTING);
    assert Listed(map[], LISTING) == REPLACED.vnids.ids;
    assert NonzeroIds(LISTING) == {10} by {
      assert LISTING[0] in LISTING;
    }
  }

  lemma RefusalRuns()
    ensures RunOf(START, Refusal()) == REFUSED && FairRun(START, Refusal()) && OwnIDsKept(START, Refusal())
  {
    UpdateIsRefused();
    assert Refusal()[1..] == [Refusal()[1]] && [Refusal()[1]][1..] == [];
    assert RunOf(REFUSED, []) == REFUSED && FairRun(REFUSED, []) && OwnIDsKept(REFUSED, []);
    assert RunOf(REQUESTED, [Refusal()[1]]) == REFUSED;
    assert FairRun(REQUESTED, [Refusal()[1]]) && OwnIDsKept(REQUESTED, [Refusal()[1]]);
  }

  lemma CreationRuns()
    ensures FairRun(REFUSED, Handover("db", 10, LISTING)) && OwnIDsKept(REFUSED, Handover("db", 10, LISTING))
    ensures RunOf(REFUSED, Handover("db", 10, LISTING)) == REPLACED
  {
    DbIsCreated();
    MasterIsReplaced();
    HandoverEnds(REFUSED, "db", 10, LISTING);
    GrowingStrandsNone(REFUSED, Handover("db", 10, LISTING));
  }

  lemma DbIsUnheard()
    ensures Unheard(START, Refusal() + Handover("db", 10, LISTING), "db")
  {
    assert "db"[0] != "web"[0];
    assert |"db"| != |""|;
  }

  /** "web" holds ID 10 alone and is to become global; etcd refuses the update, the ID goes to the new
      namespace "db", and the next master has the two share it, though nothing was joined. */
  lemma RefusedUpdateLeadsToSharing()
    ensures Inv(START.vnids) && Agree(START)
    ensures var run := Refusal() + Handover("db", 10, LISTING);
      && FairRun(START, run) && OwnIDsKept(START, run)
      && Share(RunOf(START, run), "db", "web") && !Chained(START, run, "db", "web")
  {
    RefusalRuns();
    CreationRuns();
    RunsJoin(START, Refusal(), Handover("db", 10, LISTING));
    RunOfSplit(START, Refusal(), Handover("db", 10, LISTING));
    DbIsUnheard();
    assert "db"[0] != "web"[0];
    UnheardIsUnchained(START, Refusal() + Handover("db", 10, LISTING), "db", "web");
  }
}
