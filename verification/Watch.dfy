/** The watchers that turn etcd history and snapshots into events (pkg/etcdmanager/watch.go).

    `subnetWatcher` and `netnamespaceWatcher` are the same code over two record types that
    are compared by one name field (`Host`, `NetName`); here they are one class. */
module Watch {
  import opened Prelude

  datatype Record<V> = Record(name: string, value: V)

  datatype Event<V> = Added(rec: Record<V>) | Removed(rec: Record<V>)

  /** Either events, or, when there are none, the current list. */
  datatype WatchResult<V> = WatchResult(events: seq<Event<V>>, snapshot: seq<Record<V>>)

  // ---------------------------------------------------------------- specification

  function Find<V>(saved: seq<Record<V>>, name: string): (r: Option<nat>)
    ensures r.Some? ==> r.value < |saved| && saved[r.value].name == name
    ensures r.None? ==> forall k :: 0 <= k < |saved| ==> saved[k].name != name
  {
    if saved == [] then None
    else if saved[0].name == name then Some(0)
    else match Find(saved[1..], name)
         case None => None
         case Some(k) => Some(k + 1)
  }

  /** Overwrites slot `i` with the last record and drops the last slot. */
  function SwapDelete<V>(saved: seq<Record<V>>, i: nat): seq<Record<V>>
    requires i < |saved|
  {
    saved[i := saved[|saved| - 1]][..|saved| - 1]
  }

  function AfterAdd<V>(saved: seq<Record<V>>, rec: Record<V>): seq<Record<V>> {
    match Find(saved, rec.name)
    case Some(i) => saved[i := rec]
    case None => saved + [rec]
  }

  function AfterRemove<V>(saved: seq<Record<V>>, rec: Record<V>): (seq<Record<V>>, Event<V>) {
    match Find(saved, rec.name)
    case Some(i) => (SwapDelete(saved, i), Removed(saved[i]))
    case None => (saved, Removed(rec))
  }

  function AfterEvent<V>(saved: seq<Record<V>>, e: Event<V>): (seq<Record<V>>, Event<V>) {
    match e
    case Added(rec) => (AfterAdd(saved, rec), Added(rec))
    case Removed(rec) => AfterRemove(saved, rec)
  }

  function AfterUpdate<V>(saved: seq<Record<V>>, events: seq<Event<V>>): (seq<Record<V>>, seq<Event<V>>)
    decreases |events|
  {
    if events == [] then (saved, []) else
      var (s, batch) := AfterUpdate(saved, events[..|events| - 1]);
      var (s', e) := AfterEvent(s, events[|events| - 1]);
      (s', batch + [e])
  }

  /** Strikes the names of a snapshot off the saved records; what is not saved yet is new. */
  function Strike<V>(saved: seq<Record<V>>, snapshot: seq<Record<V>>): (seq<Record<V>>, seq<Event<V>>)
    decreases |snapshot|
  {
    if snapshot == [] then (saved, []) else
      var (left, batch) := Strike(saved, snapshot[..|snapshot| - 1]);
      var rec := snapshot[|snapshot| - 1];
      match Find(left, rec.name)
      case Some(i) => (SwapDelete(left, i), batch)
      case None => (left, batch + [Added(rec)])
  }

  function Removals<V>(left: seq<Record<V>>): seq<Event<V>> {
    seq(|left|, i requires 0 <= i < |left| => Removed(left[i]))
  }

  function ResetBatch<V>(saved: seq<Record<V>>, snapshot: seq<Record<V>>): seq<Event<V>> {
    Strike(saved, snapshot).1 + Removals(Strike(saved, snapshot).0)
  }

  function AfterResult<V>(saved: seq<Record<V>>, r: WatchResult<V>): (seq<Record<V>>, seq<Event<V>>) {
    if |r.events| > 0 then AfterUpdate(saved, r.events) else (r.snapshot, ResetBatch(saved, r.snapshot))
  }

  // ---------------------------------------------------------------- the watcher object

  class Watcher<V> {
    var saved: seq<Record<V>>

    constructor ()
      ensures saved == []
    {
      saved := [];
    }

    method DeleteAt(i: nat)
      requires i < |saved|
      modifies this
      ensures saved == SwapDelete(old(saved), i)
    {
      saved := saved[i := saved[|saved| - 1]];
      saved := saved[..|saved| - 1];
    }

    method Add(rec: Record<V>) returns (e: Event<V>)
      modifies this
      ensures (saved, e) == AfterEvent(old(saved), Added(rec))
    {
      for i := 0 to |saved|
        invariant saved == old(saved)
        invariant forall k :: 0 <= k < i ==> saved[k].name != rec.name
      {
        if saved[i].name == rec.name {
          FindFirst(saved, rec.name, i);
          saved := saved[i := rec];
          return Added(rec);
        }
      }
      saved := saved + [rec];
      e := Added(saved[|saved| - 1]);
    }

    method Remove(rec: Record<V>) returns (e: Event<V>)
      modifies this
      ensures (saved, e) == AfterRemove(old(saved), rec)
    {
      for i := 0 to |saved|
        invariant saved == old(saved)
        invariant forall k :: 0 <= k < i ==> saved[k].name != rec.name
      {
        if saved[i].name == rec.name {
          FindFirst(saved, rec.name, i);
          e := Removed(saved[i]);
          DeleteAt(i);
          return;
        }
      }
      e := Removed(rec);
    }

    method Update(events: seq<Event<V>>) returns (batch: seq<Event<V>>)
      modifies this
      ensures (saved, batch) == AfterUpdate(old(saved), events)
    {
      batch := [];
      for n := 0 to |events|
        invariant (saved, batch) == AfterUpdate(old(saved), events[..n])
      {
        assert events[..n + 1][..n] == events[..n];
        var e: Event<V>;
        match events[n] {
          case Added(rec) => e := Add(rec);
          case Removed(rec) => e := Remove(rec);
        }
        batch := batch + [e];
      }
      assert events[..|events|] == events;
    }

    method Reset(snapshot: seq<Record<V>>) returns (batch: seq<Event<V>>)
      modifies this
      ensures saved == snapshot && batch == ResetBatch(old(saved), snapshot)
    {
      batch := [];
      for n := 0 to |snapshot|
        invariant (saved, batch) == Strike(old(saved), snapshot[..n])
      {
        assert snapshot[..n + 1][..n] == snapshot[..n];
        var found := StrikeOff(snapshot[n].name);
        if !found {
          batch := batch + [Added(snapshot[n])];
        }
      }
      assert snapshot[..|snapshot|] == snapshot;
      ghost var struck, left := batch, saved;
      for i := 0 to |saved|
        invariant saved == left
        invariant batch == struck + Removals(left)[..i]
      {
        batch := batch + [Removed(saved[i])];
      }
      saved := snapshot;
    }

    /** The inner loop of `reset`: drop the first record of this name, if there is one. */
    method StrikeOff(name: string) returns (found: bool)
      modifies this
      ensures match Find(old(saved), name)
              case Some(i) => found && saved == SwapDelete(old(saved), i)
              case None => !found && saved == old(saved)
    {
      for i := 0 to |saved|
        invariant saved == old(saved)
        invariant forall k :: 0 <= k < i ==> saved[k].name != name
      {
        if saved[i].name == name {
          FindFirst(saved, name, i);
          DeleteAt(i);
          return true;
        }
      }
      found := false;
    }

    /** One round of the watch loop: events when there are any, else the snapshot. */
    method OnResult(r: WatchResult<V>) returns (batch: seq<Event<V>>)
      modifies this
      ensures (saved, batch) == AfterResult(old(saved), r)
    {
      if |r.events| > 0 {
        batch := Update(r.events);
      } else {
        batch := Reset(r.snapshot);
      }
    }
  }

  lemma {:induction false} FindFirst<V>(saved: seq<Record<V>>, name: string, i: nat)
    requires i < |saved| && saved[i].name == name
    requires forall k :: 0 <= k < i ==> saved[k].name != name
    ensures Find(saved, name) == Some(i)
    decreases i
  {
    if i > 0 {
      FindFirst(saved[1..], name, i - 1);
    }
  }

  // ---------------------------------------------------------------- what subscribers learn

  ghost predicate UniqueNames<V>(recs: seq<Record<V>>) {
    forall i, j :: 0 <= i < j < |recs| ==> recs[i].name != recs[j].name
  }

  /** The records as a map from name to value. */
  ghost function View<V>(recs: seq<Record<V>>): (m: map<string, V>)
    ensures forall n :: n in m <==> exists r :: r in recs && r.name == n
    ensures UniqueNames(recs) ==> forall r :: r in recs ==> m[r.name] == r.value
  {
    if recs == [] then map[] else
      var last := recs[|recs| - 1];
      var m := View(recs[..|recs| - 1]);
      assert recs == recs[..|recs| - 1] + [last];
      m[last.name := last.value]
  }

  /** The state a subscriber reaches who applies events in order. */
  function Fold<V>(m: map<string, V>, batch: seq<Event<V>>): map<string, V>
    decreases |batch|
  {
    if batch == [] then m else
      var before := Fold(m, batch[..|batch| - 1]);
      match batch[|batch| - 1]
      case Added(rec) => before[rec.name := rec.value]
      case Removed(rec) => before - {rec.name}
  }

  lemma {:induction false} FoldConcat<V>(m: map<string, V>, a: seq<Event<V>>, b: seq<Event<V>>)
    ensures Fold(m, a + b) == Fold(Fold(m, a), b)
    decreases |b|
  {
    if b == [] {
      assert a + b == a;
    } else {
      assert (a + b)[..|a + b| - 1] == a + b[..|b| - 1];
      FoldConcat(m, a, b[..|b| - 1]);
    }
  }

  /** The view is determined by membership when names are unique. */
  lemma ViewIs<V>(recs: seq<Record<V>>, m: map<string, V>)
    requires UniqueNames(recs)
    requires forall r :: r in recs ==> r.name in m && m[r.name] == r.value
    requires forall n :: n in m ==> exists r :: r in recs && r.name == n
    ensures View(recs) == m
  {
  }

  lemma SwapDeleteKeepsOthers<V>(saved: seq<Record<V>>, i: nat)
    requires i < |saved| && UniqueNames(saved)
    ensures UniqueNames(SwapDelete(saved, i))
    ensures forall r :: r in SwapDelete(saved, i) <==> r in saved && r.name != saved[i].name
  {
    var t := SwapDelete(saved, i);
    assert forall k :: 0 <= k < |t| ==> t[k] == if k == i then saved[|saved| - 1] else saved[k];
    forall r | r in saved && r.name != saved[i].name
      ensures r in t
    {
      var k :| 0 <= k < |saved| && saved[k] == r;
      assert t[if k == |saved| - 1 then i else k] == r;
    }
  }

  /** Deleting a record by swapping removes that record and no other. */
  lemma SwapDeleteRemovesOne<V>(saved: seq<Record<V>>, i: nat)
    requires i < |saved| && UniqueNames(saved)
    ensures UniqueNames(SwapDelete(saved, i))
    ensures forall r :: r in SwapDelete(saved, i) <==> r in saved && r.name != saved[i].name
    ensures View(SwapDelete(saved, i)) == View(saved) - {saved[i].name}
  {
    SwapDeleteKeepsOthers(saved, i);
    ViewIs(SwapDelete(saved, i), View(saved) - {saved[i].name});
  }

  lemma OverwriteRecord<V>(saved: seq<Record<V>>, rec: Record<V>, i: nat)
    requires UniqueNames(saved) && i < |saved| && saved[i].name == rec.name
    ensures UniqueNames(saved[i := rec])
    ensures forall r :: r in saved[i := rec] <==> r == rec || (r in saved && r.name != rec.name)
  {
    var t := saved[i := rec];
    assert t[i] == rec;
    forall r | r in saved && r.name != rec.name
      ensures r in t
    {
      var k :| 0 <= k < |saved| && saved[k] == r;
      assert t[k] == r;
    }
  }

  lemma AddReplacesOrAppends<V>(saved: seq<Record<V>>, rec: Record<V>)
    requires UniqueNames(saved)
    ensures UniqueNames(AfterAdd(saved, rec))
    ensures forall r :: r in AfterAdd(saved, rec) <==> r == rec || (r in saved && r.name != rec.name)
    ensures View(AfterAdd(saved, rec)) == View(saved)[rec.name := rec.value]
  {
    AddedRecords(saved, rec);
    ViewIs(AfterAdd(saved, rec), View(saved)[rec.name := rec.value]);
  }

  lemma AddedRecords<V>(saved: seq<Record<V>>, rec: Record<V>)
    requires UniqueNames(saved)
    ensures UniqueNames(AfterAdd(saved, rec))
    ensures forall r :: r in AfterAdd(saved, rec) <==> r == rec || (r in saved && r.name != rec.name)
  {
    match Find(saved, rec.name) {
      case Some(i) => OverwriteRecord(saved, rec, i);
      case None =>
    }
  }

  /** An event changes the records and a subscriber's map in the same way. */
  lemma EventKeepsAgreement<V>(saved: seq<Record<V>>, e: Event<V>)
    requires UniqueNames(saved)
    ensures var (saved', e') := AfterEvent(saved, e);
      UniqueNames(saved') && View(saved') == Fold(View(saved), [e'])
  {
    var (saved', e') := AfterEvent(saved, e);
    assert [e'][..0] == [];
    match e {
      case Added(rec) => AddReplacesOrAppends(saved, rec);
      case Removed(rec) =>
        if Find(saved, rec.name).Some? {
          SwapDeleteRemovesOne(saved, Find(saved, rec.name).value);
        } else {
          assert View(saved) - {rec.name} == View(saved);
        }
    }
  }

  /** Incremental updates publish exactly what the watcher saves. */
  lemma {:induction false} UpdateKeepsAgreement<V>(saved: seq<Record<V>>, events: seq<Event<V>>)
    requires UniqueNames(saved)
    ensures var (saved', batch) := AfterUpdate(saved, events);
      UniqueNames(saved') && View(saved') == Fold(View(saved), batch)
    decreases |events|
  {
    if events != [] {
      var init, last := events[..|events| - 1], events[|events| - 1];
      UpdateKeepsAgreement(saved, init);
      var (s, batch) := AfterUpdate(saved, init);
      EventKeepsAgreement(s, last);
      FoldConcat(View(saved), batch, [AfterEvent(s, last).1]);
    }
  }

  ghost function Names<V>(recs: seq<Record<V>>): set<string> {
    set r | r in recs :: r.name
  }

  /** After striking: the saved records of other names remain, and the rest of the snapshot is new. */
  lemma {:induction false} StrikeSplits<V>(saved: seq<Record<V>>, snapshot: seq<Record<V>>)
    requires UniqueNames(saved) && UniqueNames(snapshot)
    ensures var (left, batch) := Strike(saved, snapshot);
      && UniqueNames(left)
      && (forall r :: r in left <==> r in saved && r.name !in Names(snapshot))
      && (forall e :: e in batch <==> e.Added? && e.rec in snapshot && e.rec.name !in Names(saved))
      && (forall i, j :: 0 <= i < j < |batch| ==> batch[i].rec.name != batch[j].rec.name)
    decreases |snapshot|
  {
    if snapshot != [] {
      var init, rec := snapshot[..|snapshot| - 1], snapshot[|snapshot| - 1];
      assert snapshot == init + [rec];
      StrikeSplits(saved, init);
      var (left, batch) := Strike(saved, init);
      NamesOfAppend(init, rec);
      if Find(left, rec.name).Some? {
        StrikeFound(saved, init, rec, left, Find(left, rec.name).value);
      } else {
        StrikeMissing(saved, init, rec, left);
      }
    }
  }

  /** The name is on the list: its record goes, the batch stays. */
  lemma StrikeFound<V>(saved: seq<Record<V>>, init: seq<Record<V>>, rec: Record<V>, left: seq<Record<V>>, i: nat)
    requires UniqueNames(left) && i < |left| && left[i].name == rec.name
    requires forall r :: r in left <==> r in saved && r.name !in Names(init)
    ensures UniqueNames(SwapDelete(left, i)) && rec.name in Names(saved)
    ensures forall r :: r in SwapDelete(left, i) <==> r in saved && r.name !in Names(init + [rec])
  {
    NamesOfAppend(init, rec);
    SwapDeleteKeepsOthers(left, i);
    assert left[i] in left;
  }

  /** The name is not on the list: it was never saved. */
  lemma StrikeMissing<V>(saved: seq<Record<V>>, init: seq<Record<V>>, rec: Record<V>, left: seq<Record<V>>)
    requires UniqueNames(init + [rec]) && forall k :: 0 <= k < |left| ==> left[k].name != rec.name
    requires forall r :: r in left <==> r in saved && r.name !in Names(init)
    ensures rec.name !in Names(saved)
    ensures forall r :: r in left <==> r in saved && r.name !in Names(init + [rec])
  {
    NamesOfAppend(init, rec);
    forall r | r in saved
      ensures r.name != rec.name
    {
      if r.name !in Names(init) {
        assert r in left;
      } else {
        NameOccurs(init, r.name);
        assert (init + [rec])[|init|] == rec;
        assert forall i :: 0 <= i < |init| ==> (init + [rec])[i] == init[i];
      }
    }
  }

  lemma NameOccurs<V>(recs: seq<Record<V>>, name: string)
    requires name in Names(recs)
    ensures exists i :: 0 <= i < |recs| && recs[i].name == name
  {
  }

  lemma NamesOfAppend<V>(init: seq<Record<V>>, rec: Record<V>)
    ensures Names(init + [rec]) == Names(init) + {rec.name}
  {
    forall n | n in Names(init) + {rec.name} ensures n in Names(init + [rec]) {
      if n in Names(init) {
        var r :| r in init && r.name == n;
        assert r in init + [rec];
      } else {
        assert rec in init + [rec];
      }
    }
  }

  function Additions<V>(list: seq<Record<V>>): seq<Event<V>> {
    seq(|list|, i requires 0 <= i < |list| => Added(list[i]))
  }

  lemma {:induction false} NothingToStrike<V>(list: seq<Record<V>>)
    ensures Strike([], list).0 == [] && Strike([], list).1 == Additions(list)
    decreases |list|
  {
    if list == [] {
      assert Additions(list) == [];
    } else {
      NothingToStrike(list[..|list| - 1]);
      assert Additions(list) == Additions(list[..|list| - 1]) + [Added(list[|list| - 1])];
    }
  }

  /** The first reset of a watcher announces the whole snapshot, in its order. */
  lemma FirstResetAdds<V>(list: seq<Record<V>>)
    ensures ResetBatch([], list) == Additions(list)
  {
    NothingToStrike(list);
    var none: seq<Record<V>> := [];
    assert Removals(none) == [];
  }

  /** Folding additions of pairwise different names. */
  lemma {:induction false} FoldAdditions<V>(m: map<string, V>, batch: seq<Event<V>>)
    requires forall e :: e in batch ==> e.Added?
    requires forall i, j :: 0 <= i < j < |batch| ==> batch[i].rec.name != batch[j].rec.name
    ensures forall n :: n in Fold(m, batch) <==> n in m || exists e :: e in batch && e.rec.name == n
    ensures forall e :: e in batch ==> Fold(m, batch)[e.rec.name] == e.rec.value
    ensures forall n :: n in m && (forall e :: e in batch ==> e.rec.name != n) ==> Fold(m, batch)[n] == m[n]
    decreases |batch|
  {
    if batch != [] {
      var init, last := batch[..|batch| - 1], batch[|batch| - 1];
      assert batch == init + [last];
      FoldAdditions(m, init);
    }
  }

  lemma {:induction false} FoldRemovals<V>(m: map<string, V>, left: seq<Record<V>>)
    ensures Fold(m, Removals(left)) == m - Names(left)
    decreases |left|
  {
    if left != [] {
      var init, last := left[..|left| - 1], left[|left| - 1];
      assert left == init + [last];
      assert Removals(left)[..|left| - 1] == Removals(init);
      FoldRemovals(m, init);
      NamesOfAppend(init, last);
      assert m - Names(left) == (m - Names(init)) - {last.name};
    }
  }

  /** What a subscriber knows after a reset: the snapshot's names; the values of new names from
      the snapshot and, for names it knew already, the values it had before. */
  lemma ResetPublishes<V>(saved: seq<Record<V>>, snapshot: seq<Record<V>>, known: map<string, V>)
    requires UniqueNames(saved) && UniqueNames(snapshot)
    requires known.Keys == View(saved).Keys
    ensures var m := Fold(known, ResetBatch(saved, snapshot));
      && m.Keys == View(snapshot).Keys
      && forall n :: n in m ==> m[n] == if n in known then known[n] else View(snapshot)[n]
  {
    StrikeSplits(saved, snapshot);
    var (left, batch) := Strike(saved, snapshot);
    FoldConcat(known, batch, Removals(left));
    FoldAdditions(known, batch);
    FoldRemovals(Fold(known, batch), left);
    var m := Fold(known, ResetBatch(saved, snapshot));
    forall n | n in View(snapshot)
      ensures n in m && m[n] == if n in known then known[n] else View(snapshot)[n]
    {
      var r :| r in snapshot && r.name == n;
      if n !in known {
        assert Added(r) in batch;
      }
    }
    forall n | n in m
      ensures n in View(snapshot)
    {
      if e :| e in batch && e.rec.name == n {
        assert e.rec in snapshot;
      } else {
        assert n in known && n !in Names(left);
        var r :| r in saved && r.name == n;
        assert r !in left;
      }
    }
  }

  /** A reset brings a subscriber up to date exactly when no name it already knew has a new value. */
  lemma ResetCompleteIff<V>(saved: seq<Record<V>>, snapshot: seq<Record<V>>, known: map<string, V>)
    requires UniqueNames(saved) && UniqueNames(snapshot)
    requires known.Keys == View(saved).Keys
    ensures Fold(known, ResetBatch(saved, snapshot)) == View(snapshot)
       <==> forall r :: r in snapshot && r.name in known ==> known[r.name] == r.value
  {
    ResetPublishes(saved, snapshot, known);
    var m := Fold(known, ResetBatch(saved, snapshot));
    if forall r :: r in snapshot && r.name in known ==> known[r.name] == r.value {
      forall n | n in m
        ensures m[n] == View(snapshot)[n]
      {
        var r :| r in snapshot && r.name == n;
      }
      assert m == View(snapshot);
    }
    if m == View(snapshot) {
      forall r | r in snapshot && r.name in known
        ensures known[r.name] == r.value
      {
        assert r.name in m;
      }
    }
  }

  // ---------------------------------------------------------------- runs

  /** The watcher's records and a subscriber's map after a run of watch results. */
  function Watched<V>(results: seq<WatchResult<V>>): (seq<Record<V>>, map<string, V>)
    decreases |results|
  {
    if results == [] then ([], map[]) else
      var (saved, known) := Watched(results[..|results| - 1]);
      var (saved', batch) := AfterResult(saved, results[|results| - 1]);
      (saved', Fold(known, batch))
  }

  ghost predicate UniqueSnapshots<V>(results: seq<WatchResult<V>>) {
    forall r :: r in results ==> UniqueNames(r.snapshot)
  }

  /** Whatever mix of updates and resets arrives, names stay unique and the subscriber knows
      exactly the watcher's names. */
  lemma {:induction false} WatcherAgreement<V>(results: seq<WatchResult<V>>)
    requires UniqueSnapshots(results)
    ensures var (saved, known) := Watched(results);
      UniqueNames(saved) && known.Keys == View(saved).Keys
    decreases |results|
  {
    if results != [] {
      var init, r := results[..|results| - 1], results[|results| - 1];
      WatcherAgreement(init);
      var (saved, known) := Watched(init);
      if |r.events| > 0 {
        UpdateKeepsAgreement(saved, r.events);
        FoldKeysOnly(View(saved), known, AfterUpdate(saved, r.events).1);
      } else {
        ResetPublishes(saved, r.snapshot, known);
      }
    }
  }

  lemma {:induction false} FoldKeysOnly<V>(m: map<string, V>, n: map<string, V>, batch: seq<Event<V>>)
    requires m.Keys == n.Keys
    ensures Fold(m, batch).Keys == Fold(n, batch).Keys
    decreases |batch|
  {
    if batch != [] {
      FoldKeysOnly(m, n, batch[..|batch| - 1]);
    }
  }

  /** A run of updates alone keeps the subscriber's values equal to the watcher's too. */
  lemma {:induction false} UpdatesPublishValues<V>(results: seq<WatchResult<V>>)
    requires forall r :: r in results ==> |r.events| > 0
    ensures var (saved, known) := Watched(results);
      UniqueNames(saved) && known == View(saved)
    decreases |results|
  {
    if results != [] {
      var init, r := results[..|results| - 1], results[|results| - 1];
      UpdatesPublishValues(init);
      UpdateKeepsAgreement(Watched(init).0, r.events);
    }
  }
}
