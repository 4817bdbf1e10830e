/** The node's two-way namespace/VNID index and its replication from etcd (ksdn/vnids_node.go). */
module NodeVnids {
  import opened Prelude
  import opened Word32
  import opened Watch
  import opened Records

  // ---------------------------------------------------------------- the index

  /** `namespaces` is the exact inverse of `ids` and stores no empty set. */
  ghost predicate Inverse(ids: map<string, uint32>, namespaces: map<uint32, set<string>>) {
    && (forall v :: v in namespaces ==> namespaces[v] != {})
    && (forall v, n :: v in namespaces && n in namespaces[v] ==> n in ids && ids[n] == v)
    && (forall n :: n in ids ==> ids[n] in namespaces && n in namespaces[ids[n]])
  }

  /** `ids` after one event. */
  function Handle(ids: map<string, uint32>, e: Event<NetnsInfo>): map<string, uint32> {
    match e
    case Added(rec) => ids[rec.name := rec.value.netID]
    case Removed(rec) => ids - {rec.name}
  }

  function HandleAll(ids: map<string, uint32>, batch: seq<Event<NetnsInfo>>): map<string, uint32>
    decreases |batch|
  {
    if batch == [] then ids else Handle(HandleAll(ids, batch[..|batch| - 1]), batch[|batch| - 1])
  }

  class NodeVnidMap {
    var ids: map<string, uint32>
    var namespaces: map<uint32, set<string>>

    ghost predicate Valid()
      reads this
    {
      Inverse(ids, namespaces)
    }

    constructor ()
      ensures Valid() && ids == map[]
    {
      ids, namespaces := map[], map[];
    }

    method AddNamespaceToSet(name: string, vnid: uint32)
      modifies this`namespaces
      ensures namespaces == old(namespaces)[vnid :=
                (if vnid in old(namespaces) then old(namespaces)[vnid] else {}) + {name}]
    {
      var members := if vnid in namespaces then namespaces[vnid] else {};
      namespaces := namespaces[vnid := members + {name}];
    }

    method RemoveNamespaceFromSet(name: string, vnid: uint32)
      modifies this`namespaces
      ensures namespaces == if vnid !in old(namespaces) then old(namespaces)
                            else if old(namespaces)[vnid] - {name} == {} then old(namespaces) - {vnid}
                            else old(namespaces)[vnid := old(namespaces)[vnid] - {name}]
    {
      if vnid in namespaces {
        namespaces := namespaces[vnid := namespaces[vnid] - {name}];
        if |namespaces[vnid]| == 0 {
          namespaces := namespaces - {vnid};
        }
      }
    }

    method GetNamespaces(id: uint32) returns (names: set<string>)
      requires Valid()
      ensures forall n :: n in names <==> n in ids && ids[n] == id
    {
      if id in namespaces {
        names := namespaces[id];
      } else {
        names := {};
      }
    }

    method GetVNID(name: string) returns (r: Option<uint32>)
      ensures r == if name in ids then Some(ids[name]) else None
    {
      if name in ids {
        return Some(ids[name]);
      }
      r := None;
    }

    method SetVNID(name: string, id: uint32)
      requires Valid()
      modifies this
      ensures Valid() && ids == old(ids)[name := id]
    {
      if name in ids {
        RemoveNamespaceFromSet(name, ids[name]);
      }
      ids := ids[name := id];
      AddNamespaceToSet(name, id);
    }

    method UnsetVNID(name: string) returns (r: Option<uint32>)
      requires Valid()
      modifies this
      ensures Valid() && ids == old(ids) - {name}
      ensures r == if name in old(ids) then Some(old(ids)[name]) else None
    {
      if name !in ids {
        return None;
      }
      var id := ids[name];
      RemoveNamespaceFromSet(name, id);
      ids := ids - {name};
      r := Some(id);
    }

    method PopulateVNIDs(list: seq<Netns>)
      requires Valid()
      modifies this
      ensures Valid() && ids == Listed(old(ids), list)
    {
      for i := 0 to |list|
        invariant Valid() && ids == Listed(old(ids), list[..i])
      {
        assert list[..i + 1][..i] == list[..i];
        SetVNID(list[i].name, list[i].value.netID);
      }
      assert list[..|list|] == list;
    }

    method HandleNetnsEvents(batch: seq<Event<NetnsInfo>>)
      requires Valid()
      modifies this
      ensures Valid() && ids == HandleAll(old(ids), batch)
    {
      for i := 0 to |batch|
        invariant Valid() && ids == HandleAll(old(ids), batch[..i])
      {
        assert batch[..i + 1][..i] == batch[..i];
        match batch[i] {
          case Added(rec) =>
            var oldNetID := GetVNID(rec.name);
            if oldNetID != Some(rec.value.netID) {
              SetVNID(rec.name, rec.value.netID);
            } else {
              assert ids == ids[rec.name := rec.value.netID];
            }
          case Removed(rec) =>
            var gone := UnsetVNID(rec.name);
        }
      }
      assert batch[..|batch|] == batch;
    }
  }

  // ---------------------------------------------------------------- replication from etcd

  /** One write to the netnamespaces directory. */
  datatype Change = Put(name: string, info: NetnsInfo) | Delete(name: string)

  /** The directory after the first `k` writes. */
  function EtcdAt(history: seq<Change>, k: nat): map<string, NetnsInfo>
    requires k <= |history|
  {
    if k == 0 then map[] else
      match history[k - 1]
      case Put(name, info) => EtcdAt(history, k - 1)[name := info]
      case Delete(name) => EtcdAt(history, k - 1) - {name}
  }

  /** What the watch reports for a write: a deletion names the whole key, not the namespace. */
  function EventFor(dir: string, c: Change): Event<NetnsInfo> {
    match c
    case Put(name, info) => Added(Record(name, info))
    case Delete(name) => Removed(Record(EtcdKey(dir, name), NetnsInfo(0, "", "")))
  }

  /** A node: its watcher's records and its ids. */
  datatype Node = Node(saved: seq<Netns>, ids: map<string, uint32>)

  function OnChange(dir: string, node: Node, c: Change): Node {
    var (saved', e) := AfterEvent(node.saved, EventFor(dir, c));
    Node(saved', Handle(node.ids, e))
  }

  function OnChanges(dir: string, node: Node, history: seq<Change>, j: nat, k: nat): Node
    requires j <= k <= |history|
    decreases k - j
  {
    if j == k then node else OnChange(dir, OnChanges(dir, node, history, j, k - 1), history[k - 1])
  }

  function OnSnapshot(node: Node, snapshot: seq<Netns>): Node {
    Node(snapshot, HandleAll(node.ids, ResetBatch(node.saved, snapshot)))
  }

  /** Every namespace recorded in etcd has its recorded NetID on the node. */
  ghost predicate InSync(ids: map<string, uint32>, etcd: map<string, NetnsInfo>) {
    forall n :: n in etcd ==> n in ids && ids[n] == etcd[n].netID
  }

  ghost predicate Lists(snapshot: seq<Netns>, etcd: map<string, NetnsInfo>) {
    UniqueNames(snapshot) && View(snapshot) == etcd
  }

  ghost predicate GoodNames(history: seq<Change>) {
    forall c :: c in history ==> PlainName(c.name)
  }

  ghost predicate GoodNode(node: Node) {
    && UniqueNames(node.saved)
    && (forall r :: r in node.saved ==> PlainName(r.name))
    && (forall n :: n in node.ids ==> PlainName(n))
  }

  lemma {:induction false} EtcdNames(history: seq<Change>, k: nat)
    requires GoodNames(history) && k <= |history|
    ensures forall n :: n in EtcdAt(history, k) ==> PlainName(n)
    decreases k
  {
    if k > 0 {
      EtcdNames(history, k - 1);
      assert history[k - 1] in history;
    }
  }

  /** A write keeps the node in sync; a deletion event names a key no namespace has, so nothing
      the node knows about other namespaces is lost. */
  lemma ChangeKeepsSync(dir: string, node: Node, c: Change, etcd: map<string, NetnsInfo>)
    requires GoodNode(node) && PlainName(c.name) && InSync(node.ids, etcd)
    ensures GoodNode(OnChange(dir, node, c))
    ensures InSync(OnChange(dir, node, c).ids,
                   match c case Put(name, info) => etcd[name := info] case Delete(name) => etcd - {name})
  {
    match c {
      case Put(name, info) =>
        AddReplacesOrAppends(node.saved, Record(name, info));
      case Delete(name) =>
        forall r | r in node.saved
          ensures r.name != EtcdKey(dir, name)
        {
          KeyIsNoName(dir, name, r.name);
        }
        assert Find(node.saved, EtcdKey(dir, name)).None?;
        forall n | n in node.ids
          ensures n != EtcdKey(dir, name)
        {
          KeyIsNoName(dir, name, n);
        }
        assert OnChange(dir, node, c) == node;
    }
  }

  lemma {:induction false} ChangesKeepSync(dir: string, node: Node, history: seq<Change>, j: nat, k: nat)
    requires GoodNames(history) && j <= k <= |history|
    requires GoodNode(node) && InSync(node.ids, EtcdAt(history, j))
    ensures GoodNode(OnChanges(dir, node, history, j, k))
    ensures InSync(OnChanges(dir, node, history, j, k).ids, EtcdAt(history, k))
    decreases k - j
  {
    if j < k {
      ChangesKeepSync(dir, node, history, j, k - 1);
      assert history[k - 1] in history;
      ChangeKeepsSync(dir, OnChanges(dir, node, history, j, k - 1), history[k - 1], EtcdAt(history, k - 1));
    }
  }

  lemma {:induction false} ListedNames(ids: map<string, uint32>, list: seq<Netns>)
    ensures forall n :: n in Listed(ids, list) <==> n in ids || exists r :: r in list && r.name == n
    decreases |list|
  {
    if list != [] {
      ListedNames(ids, list[..|list| - 1]);
      assert list == list[..|list| - 1] + [list[|list| - 1]];
    }
  }

  /** The handler is a subscriber of the event stream that keeps only the NetIDs. */
  lemma {:induction false} HandleAllIsFold(ids: map<string, uint32>, known: map<string, NetnsInfo>,
                                           batch: seq<Event<NetnsInfo>>)
    requires forall n :: n in known ==> n in ids && ids[n] == known[n].netID
    ensures forall n :: n in Fold(known, batch) ==>
              n in HandleAll(ids, batch) && HandleAll(ids, batch)[n] == Fold(known, batch)[n].netID
    decreases |batch|
  {
    if batch != [] {
      HandleAllIsFold(ids, known, batch[..|batch| - 1]);
    }
  }

  lemma {:induction false} HandledNames(ids: map<string, uint32>, batch: seq<Event<NetnsInfo>>, n: string)
    requires n in HandleAll(ids, batch)
    ensures n in ids || exists e :: e in batch && e.Added? && e.rec.name == n
    decreases |batch|
  {
    if batch != [] {
      var init, last := batch[..|batch| - 1], batch[|batch| - 1];
      assert batch == init + [last];
      if !(last.Added? && last.rec.name == n) {
        HandledNames(ids, init, n);
      }
    }
  }

  /** Handling additions is listing them. */
  lemma {:induction false} AdditionsAreListed(ids: map<string, uint32>, list: seq<Netns>)
    ensures HandleAll(ids, Additions(list)) == Listed(ids, list)
    decreases |list|
  {
    if list != [] {
      AdditionsAreListed(ids, list[..|list| - 1]);
      assert Additions(list)[..|list| - 1] == Additions(list[..|list| - 1]);
    }
  }

  lemma FirstSnapshotIds(ids: map<string, uint32>, snapshot: seq<Netns>, etcd: map<string, NetnsInfo>)
    requires Lists(snapshot, etcd)
    ensures InSync(HandleAll(ids, ResetBatch([], snapshot)), etcd)
  {
    ResetPublishes([], snapshot, map[]);
    HandleAllIsFold(ids, map[], ResetBatch([], snapshot));
  }

  /** A snapshot delivered to a watcher that has saved nothing yet. */
  lemma FirstSnapshotSyncs(ids: map<string, uint32>, snapshot: seq<Netns>, etcd: map<string, NetnsInfo>)
    requires Lists(snapshot, etcd)
    requires forall n :: n in etcd || n in ids ==> PlainName(n)
    ensures var node := OnSnapshot(Node([], ids), snapshot);
      GoodNode(node) && InSync(node.ids, etcd)
  {
    FirstSnapshotIds(ids, snapshot, etcd);
    StrikeSplits([], snapshot);
    var node := OnSnapshot(Node([], ids), snapshot);
    forall n | n in node.ids ensures PlainName(n) {
      HandledNames(ids, ResetBatch([], snapshot), n);
    }
  }

  /** Start-up and replication: a node that lists etcd at some index `p`, then watches from a
      snapshot at `k0`, and has processed all events up to `k`, has the recorded NetID of every
      namespace recorded at `k`, whatever was written before. */
  lemma NodeReplicates(dir: string, history: seq<Change>, p: nat, k0: nat, k: nat,
                       list: seq<Netns>, snapshot: seq<Netns>)
    requires GoodNames(history) && p <= k0 <= k <= |history|
    requires Lists(list, EtcdAt(history, p)) && Lists(snapshot, EtcdAt(history, k0))
    ensures var started := OnSnapshot(Node([], Listed(map[], list)), snapshot);
      InSync(OnChanges(dir, started, history, k0, k).ids, EtcdAt(history, k))
  {
    EtcdNames(history, p);
    EtcdNames(history, k0);
    ListedNames(map[], list);
    FirstSnapshotSyncs(Listed(map[], list), snapshot, EtcdAt(history, k0));
    ChangesKeepSync(dir, OnSnapshot(Node([], Listed(map[], list)), snapshot), history, k0, k);
  }

  /** A reset leaves the NetID of a name the watcher had as it is, and learns the others. */
  lemma ResetOfName(node: Node, snapshot: seq<Netns>, n: string)
    requires UniqueNames(node.saved) && UniqueNames(snapshot) && n in View(snapshot)
    ensures var ids := OnSnapshot(node, snapshot).ids;
      if n in View(node.saved) then (n in ids <==> n in node.ids) && (n in ids ==> ids[n] == node.ids[n])
      else n in ids && ids[n] == View(snapshot)[n].netID
  {
    var batch := ResetBatch(node.saved, snapshot);
    var r :| r in snapshot && r.name == n;
    if n in View(node.saved) {
      RetainedNameUnmentioned(node.saved, snapshot, n);
      UntouchedName(node.ids, batch, n);
    } else {
      NewNameMentioned(node.saved, snapshot, r);
      ResetPublishes(node.saved, snapshot, View(node.saved));
      TouchedName(node.ids, View(node.saved), batch, n);
    }
  }

  lemma RetainedNameUnmentioned(saved: seq<Netns>, snapshot: seq<Netns>, n: string)
    requires UniqueNames(saved) && UniqueNames(snapshot)
    requires n in View(snapshot) && n in View(saved)
    ensures forall e :: e in ResetBatch(saved, snapshot) ==> e.rec.name != n
  {
    StrikeSplits(saved, snapshot);
    assert n in Names(saved) && n in Names(snapshot);
  }

  lemma NewNameMentioned(saved: seq<Netns>, snapshot: seq<Netns>, r: Netns)
    requires UniqueNames(saved) && UniqueNames(snapshot)
    requires r in snapshot && r.name !in View(saved)
    ensures exists e :: e in ResetBatch(saved, snapshot) && e.rec.name == r.name
  {
    StrikeSplits(saved, snapshot);
    assert r.name !in Names(saved);
    assert Added(r) in Strike(saved, snapshot).1;
    assert Added(r) in ResetBatch(saved, snapshot);
  }

  /** When history was truncated: the reset brings the node in sync if and only if the namespaces
      its watcher already had still have the NetID the node holds for them. */
  lemma ResyncIff(node: Node, snapshot: seq<Netns>, etcd: map<string, NetnsInfo>)
    requires UniqueNames(node.saved) && Lists(snapshot, etcd)
    ensures InSync(OnSnapshot(node, snapshot).ids, etcd)
       <==> forall n :: n in etcd && n in View(node.saved) ==> n in node.ids && node.ids[n] == etcd[n].netID
  {
    forall n | n in etcd
      ensures var ids := OnSnapshot(node, snapshot).ids;
        if n in View(node.saved) then (n in ids <==> n in node.ids) && (n in ids ==> ids[n] == node.ids[n])
        else n in ids && ids[n] == etcd[n].netID
    {
      ResetOfName(node, snapshot, n);
    }
  }

  lemma {:induction false} UntouchedName(ids: map<string, uint32>, batch: seq<Event<NetnsInfo>>, n: string)
    requires forall e :: e in batch ==> e.rec.name != n
    ensures n in HandleAll(ids, batch) <==> n in ids
    ensures n in ids ==> HandleAll(ids, batch)[n] == ids[n]
    decreases |batch|
  {
    if batch != [] {
      assert batch[|batch| - 1] in batch;
      UntouchedName(ids, batch[..|batch| - 1], n);
    }
  }

  /** A name mentioned by an event ends with the same value in every subscriber. */
  lemma {:induction false} TouchedName(ids: map<string, uint32>, known: map<string, NetnsInfo>,
                                       batch: seq<Event<NetnsInfo>>, n: string)
    requires exists e :: e in batch && e.rec.name == n
    ensures n in HandleAll(ids, batch) <==> n in Fold(known, batch)
    ensures n in Fold(known, batch) ==> HandleAll(ids, batch)[n] == Fold(known, batch)[n].netID
    decreases |batch|
  {
    var init, last := batch[..|batch| - 1], batch[|batch| - 1];
    assert batch == init + [last];
    if last.rec.name != n {
      TouchedName(ids, known, init, n);
    }
  }

  /** A NetID that changed while history was lost stays unknown to the node after the reset. */
  lemma TruncationHidesChange()
    ensures var before, after := NetnsInfo(12, "", ""), NetnsInfo(34, "", "");
      var node := Node([Record("web", before)], map["web" := 12]);
      !InSync(OnSnapshot(node, [Record("web", after)]).ids, map["web" := after])
  {
    var before, after := NetnsInfo(12, "", ""), NetnsInfo(34, "", "");
    var node := Node([Record("web", before)], map["web" := 12]);
    var snapshot := [Record("web", after)];
    ViewIs(snapshot, map["web" := after]);
    ResyncIff(node, snapshot, map["web" := after]);
    assert Record("web", before) in node.saved;
    assert "web" in View(node.saved);
  }
}
