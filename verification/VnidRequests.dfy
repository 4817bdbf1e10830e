/** What assignments, revocations and administrators' requests come to in the master's memory and in etcd
    (ksdn/vnids_master.go:101-314). */
module VnidRequests {
  import opened Prelude
  import opened Word32
  import opened Watch
  import opened Records
  import opened NetIds
  import opened MasterVnids

  // ---------------------------------------------------------------- requests

  /** The master does nothing about a removed record or one without an action. */
  lemma OtherEventsChangeNothing(m: Master, e: Event<NetnsInfo>, pick: Option<uint32>, renewOk: bool)
    requires e.Removed? || e.rec.value.action == ""
    ensures After(m, StepFor(e, pick, renewOk)) == m
  {
  }

  /** The requests that can be met: the namespace is known, and so is the one it is to join; isolating one
      that shares its ID needs a free one. */
  ghost predicate CanBeMet(s: Vnids, name: string, info: NetnsInfo, pick: Option<uint32>) {
    && name in s.ids
    && (|| info.action == "global"
        || (info.action == "join" && info.joinTo in s.ids)
        || (info.action == "isolate" && (pick.Some? || Holders(s.ids, s.ids[name]) == {name})))
  }

  /** A request that can be met gives the namespace the ID it asks for, in memory and, when etcd takes the
      record, there too, and the record asks for nothing more. Any other changes nothing. */
  lemma RequestIsMet(m: Master, rec: Netns, pick: Option<uint32>, renewOk: bool)
    requires Inv(m.vnids) && Pick(RANGE, m.vnids.pool, pick) && rec.value.action != ""
    ensures var m' := After(m, StepFor(Added(rec), pick, renewOk));
      if CanBeMet(m.vnids, rec.name, rec.value, pick) then
        var ids := m'.vnids.ids;
        && rec.name in ids && ids == m.vnids.ids[rec.name := ids[rec.name]]
        && m'.etcd == (if renewOk then m.etcd[rec.name := NetnsInfo(ids[rec.name], "", "")] else m.etcd)
        && (rec.value.action == "global" ==> ids[rec.name] == 0)
        && (rec.value.action == "join" ==> rec.value.joinTo in ids && ids[rec.name] == ids[rec.value.joinTo])
        && (rec.value.action == "isolate" ==> Holders(ids, ids[rec.name]) == {rec.name})
      else m' == m
  {
    if CanBeMet(m.vnids, rec.name, rec.value, pick) {
      UpdateMeaning(m.vnids, rec.name, rec.value.action, rec.value.joinTo, pick);
    }
  }

  // ---------------------------------------------------------------- assignments and revocations

  /** A namespace neither in memory nor in etcd gets an ID in both: 0 if it is "kube-system", whatever is
      free, and otherwise a free one, if there is one. When etcd refuses, nothing has changed. */
  lemma AssignmentIsRecorded(m: Master, name: string, pick: Option<uint32>, etcdOk: bool)
    requires Inv(m.vnids) && Pick(RANGE, m.vnids.pool, pick) && name !in m.vnids.ids && name !in m.etcd
    ensures After(m, Assign(name, pick, etcdOk)) ==
      if !etcdOk then m
      else if name == "kube-system" then
        Master(Vnids(m.vnids.ids[name := 0], m.vnids.pool), m.etcd[name := NetnsInfo(0, "", "")])
      else if pick.None? then m
      else Master(Vnids(m.vnids.ids[name := pick.value], m.vnids.pool + {pick.value}),
                  m.etcd[name := NetnsInfo(pick.value, "", "")])
  {
    if Assigned(m.vnids, name, pick).Ok? {
      AssignRollsBack(m.vnids, name, pick);
    }
  }

  /** A recorded namespace whose record etcd deletes is gone from both, and its ID is free again if it was a
      nonzero one that nobody else holds. */
  lemma RevocationForgets(m: Master, name: string, etcdOk: bool)
    ensures var m' := After(m, Revoke(name, etcdOk));
      if etcdOk && name in m.etcd then
        && m'.etcd == m.etcd - {name} && m'.vnids.ids == m.vnids.ids - {name}
        && m'.vnids.pool == if name in m.vnids.ids && m.vnids.ids[name] != 0 && Holders(m.vnids.ids, m.vnids.ids[name]) == {name}
                            then m.vnids.pool - {m.vnids.ids[name]} else m.vnids.pool
      else m' == m
  {
    if name in m.vnids.ids {
      var id := m.vnids.ids[name];
      assert Holders(m.vnids.ids - {name}, id) == Holders(m.vnids.ids, id) - {name};
      assert name in Holders(m.vnids.ids, id);
    }
  }

  // ---------------------------------------------------------------- the namespace that is global from the start

  /** "kube-system" has ID 0 wherever it is known. */
  predicate SystemIsGlobal(m: Master) {
    && ("kube-system" in m.vnids.ids ==> m.vnids.ids["kube-system"] == 0)
    && ("kube-system" in m.etcd ==> m.etcd["kube-system"].netID == 0)
  }

  /** Nobody joins "kube-system" to another namespace or isolates it. */
  predicate SparesSystem(step: Step) {
    step.HandleEvent? && step.rec.name == "kube-system" ==> step.rec.value.action != "join" && step.rec.value.action != "isolate"
  }

  lemma StepKeepsSystemGlobal(m: Master, step: Step)
    requires SystemIsGlobal(m) && Fair(m, step) && SparesSystem(step)
    ensures SystemIsGlobal(After(m, step))
  {
    match step {
      case Failover(list) => ListedIds(map[], list);
      case _ =>
    }
  }

  /** However namespaces come, go and change, "kube-system" keeps ID 0 unless it is joined to another one
      or isolated. */
  lemma {:induction false} SystemStaysGlobal(m: Master, steps: seq<Step>)
    requires SystemIsGlobal(m) && FairRun(m, steps) && forall step :: step in steps ==> SparesSystem(step)
    ensures SystemIsGlobal(RunOf(m, steps))
    decreases |steps|
  {
    if steps != [] {
      StepKeepsSystemGlobal(m, steps[0]);
      SystemStaysGlobal(After(m, steps[0]), steps[1..]);
    }
  }
}
