/** What becomes of a host's tunnel and route on the other nodes when its record is removed, and when a
    node's watcher starts over from a snapshot (ksdn/subnets.go:203-239, pkg/etcdmanager/watch.go:65-94). */
module HostResets {
  import opened Prelude
  import opened Word32
  import opened Cidrs
  import opened Watch
  import opened Records
  import OpenFlow
  import NF = NodeFlows
  import opened HostRoutes

  // ---------------------------------------------------------------- one event

  /** A removal that names another host and its address. */
  predicate Counts(self: Self, rec: HostSubnet) { rec.value.hostIP != self.ip && rec.value.hostIP != 0 }

  /** Another host whose address is proper. */
  predicate Reachable(self: Self, rec: HostSubnet) { rec.value.hostIP != self.ip && Accepts(self, rec.value.hostIP) }

  /** A removed host's tunnel goes, and every route inside its subnet; nothing else changes. */
  lemma RemovalForgets(self: Self, st: NF.Node, seen: set<uint32>, rec: HostSubnet)
    requires Counts(self, rec)
    ensures var st' := OnEvent(self, st, seen, Removed(rec)).0;
      && st'.tunnels == st.tunnels - {rec.value.hostIP} && st'.pods == st.pods && st'.services == st.services
      && (forall c :: c in st'.routes <==> c in st.routes && !Takes(rec, c))
      && (forall c :: c in st'.routes ==> st'.routes[c] == st.routes[c])
  {
  }

  /** The record's subnet encloses `c`. */
  predicate Takes(rec: HostSubnet, c: Cidr) {
    rec.value.subnet.Some? && OpenFlow.CidrWithin(c, rec.value.subnet.value)
  }

  /** An added host that is another one with a proper address, not added before in the batch, gets its
      tunnel, and a route if its subnet parses; nothing else changes, and no other host gets anything. */
  lemma AdditionInstalls(self: Self, st: NF.Node, seen: set<uint32>, rec: HostSubnet)
    ensures var (st', seen') := OnEvent(self, st, seen, Added(rec));
      if Reachable(self, rec) && rec.value.hostIP !in seen then
        && st'.tunnels == st.tunnels + {rec.value.hostIP} && st'.pods == st.pods && st'.services == st.services
        && st'.routes == (match rec.value.subnet
                          case Some(c) => st.routes[c := rec.value.hostIP]
                          case None => st.routes)
        && seen' <= seen + {rec.value.hostIP}
      else st' == st && seen' == seen
  {
  }

  // ---------------------------------------------------------------- a batch

  /** No later event of the batch adds the host. */
  predicate NotAddedAgain(batch: seq<SubnetEvent>, i: nat, ip: uint32) {
    forall j :: i < j < |batch| ==> !(batch[j].Added? && batch[j].rec.value.hostIP == ip)
  }

  /** No later event of the batch adds a host with the subnet. */
  predicate NotGivenAgain(batch: seq<SubnetEvent>, i: nat, subnet: Option<Cidr>) {
    forall j :: i < j < |batch| ==> !(batch[j].Added? && batch[j].rec.value.subnet == subnet)
  }

  /** After a batch in which another host is removed and not added again, its address is no tunnel; and its
      subnet, if it parses and no other host is added with it later, is no route. */
  lemma {:induction false} RemovedHostIsForgotten(self: Self, st: NF.Node, batch: seq<SubnetEvent>, i: nat)
    requires i < |batch| && batch[i].Removed? && Counts(self, batch[i].rec)
    ensures var rec := batch[i].rec;
      var st' := OnBatch(self, st, batch).0;
      && (NotAddedAgain(batch, i, rec.value.hostIP) ==> rec.value.hostIP !in st'.tunnels)
      && (rec.value.subnet.Some? && rec.value.subnet.value.len <= 32 && NotGivenAgain(batch, i, rec.value.subnet) ==>
            rec.value.subnet.value !in st'.routes)
    decreases |batch|
  {
    var n := |batch| - 1;
    var (st1, seen) := OnBatch(self, st, batch[..n]);
    if i == n {
      RemovalForgets(self, st1, seen, batch[n].rec);
    } else {
      RemovedHostIsForgotten(self, st, batch[..n], i);
      match batch[n] {
        case Added(rec) => AdditionInstalls(self, st1, seen, rec);
        case Removed(rec) =>
      }
    }
  }

  // ---------------------------------------------------------------- the additions of a reset

  ghost predicate Tunnelled(self: Self, recs: seq<HostSubnet>, ip: uint32) {
    exists r :: r in recs && Reachable(self, r) && r.value.hostIP == ip
  }

  ghost predicate Routed(self: Self, recs: seq<HostSubnet>, c: Cidr) {
    exists r :: r in recs && Reachable(self, r) && r.value.subnet == Some(c)
  }

  /** What a node has learnt of the hosts `recs`. */
  ghost predicate Adds(self: Self, st: NF.Node, recs: seq<HostSubnet>, st': NF.Node) {
    && (forall ip :: ip in st'.tunnels <==> ip in st.tunnels || Tunnelled(self, recs, ip))
    && (forall c :: c in st'.routes <==> c in st.routes || Routed(self, recs, c))
    && (forall r :: r in recs && Reachable(self, r) && r.value.subnet.Some? ==>
          st'.routes[r.value.subnet.value] == r.value.hostIP)
    && (forall c :: c in st.routes && !Routed(self, recs, c) ==> st'.routes[c] == st.routes[c])
  }

  lemma {:induction false} SeenAreAdded(self: Self, st: NF.Node, recs: seq<HostSubnet>)
    ensures forall ip :: ip in OnBatch(self, st, Additions(recs)).1 ==> exists i :: 0 <= i < |recs| && recs[i].value.hostIP == ip
    decreases |recs|
  {
    if recs != [] {
      var n := |recs| - 1;
      SeenAreAdded(self, st, recs[..n]);
      assert Additions(recs)[..n] == Additions(recs[..n]);
      AdditionInstalls(self, OnBatch(self, st, Additions(recs[..n])).0, OnBatch(self, st, Additions(recs[..n])).1, recs[n]);
    }
  }

  lemma {:induction false} AdditionsAdd(self: Self, st: NF.Node, recs: seq<HostSubnet>)
    requires DistinctHosts(recs)
    ensures Adds(self, st, recs, OnBatch(self, st, Additions(recs)).0)
    decreases |recs|
  {
    if recs == [] {
      assert OnBatch(self, st, []) == (st, {});
    } else {
      var init, last := recs[..|recs| - 1], recs[|recs| - 1];
      AdditionsAdd(self, st, init);
      SeenAreAdded(self, st, init);
      assert Additions(recs)[..|recs| - 1] == Additions(init);
      var (st1, seen) := OnBatch(self, st, Additions(init));
      AdditionInstalls(self, st1, seen, last);
      assert recs == init + [last];
      OneMoreAdded(self, st, init, last, st1, OnEvent(self, st1, seen, Added(last)).0);
    }
  }

  lemma OneMoreAdded(self: Self, st: NF.Node, init: seq<HostSubnet>, last: HostSubnet, st1: NF.Node, st2: NF.Node)
    requires DistinctHosts(init + [last]) && Adds(self, st, init, st1)
    requires if Reachable(self, last) then
               && st2.tunnels == st1.tunnels + {last.value.hostIP}
               && st2.routes == (match last.value.subnet
                                 case Some(c) => st1.routes[c := last.value.hostIP]
                                 case None => st1.routes)
             else st2 == st1
    ensures Adds(self, st, init + [last], st2)
  {
    var recs := init + [last];
    assert forall r :: r in recs <==> r in init || r == last;
    forall ip
      ensures Tunnelled(self, recs, ip) <==> Tunnelled(self, init, ip) || (Reachable(self, last) && last.value.hostIP == ip)
    {
    }
    forall c
      ensures Routed(self, recs, c) <==> Routed(self, init, c) || (Reachable(self, last) && last.value.subnet == Some(c))
    {
    }
    forall r | r in init && r.value.subnet.Some?
      ensures last.value.subnet != r.value.subnet
    {
      var i :| 0 <= i < |init| && init[i] == r;
      assert recs[i] == r && recs[|init|] == last;
    }
  }

  // ---------------------------------------------------------------- its removals

  ghost predicate Untunnelled(self: Self, left: seq<HostSubnet>, ip: uint32) {
    exists r :: r in left && Counts(self, r) && r.value.hostIP == ip
  }

  ghost predicate Unrouted(self: Self, left: seq<HostSubnet>, c: Cidr) {
    exists r :: r in left && Counts(self, r) && Takes(r, c)
  }

  ghost predicate Forgets(self: Self, st: NF.Node, left: seq<HostSubnet>, st': NF.Node) {
    && (forall ip :: ip in st'.tunnels <==> ip in st.tunnels && !Untunnelled(self, left, ip))
    && (forall c :: c in st'.routes <==> c in st.routes && !Unrouted(self, left, c))
    && (forall c :: c in st'.routes ==> st'.routes[c] == st.routes[c])
  }

  lemma {:induction false} RemovalsForget(self: Self, st: NF.Node, batch: seq<SubnetEvent>, left: seq<HostSubnet>)
    ensures Forgets(self, OnBatch(self, st, batch).0, left, OnBatch(self, st, batch + Removals(left)).0)
    decreases |left|
  {
    if left == [] {
      assert batch + Removals(left) == batch;
    } else {
      var init, last := left[..|left| - 1], left[|left| - 1];
      assert left == init + [last];
      assert forall r :: r in left <==> r in init || r == last;
      var all := batch + Removals(left);
      assert all[..|all| - 1] == batch + Removals(init) && all[|all| - 1] == Removed(last);
      RemovalsForget(self, st, batch, init);
      var (st1, seen) := OnBatch(self, st, batch + Removals(init));
      if Counts(self, last) {
        RemovalForgets(self, st1, seen, last);
      }
      OneMoreForgotten(self, OnBatch(self, st, batch).0, init, last, st1, OnBatch(self, st, all).0);
    }
  }

  lemma OneMoreForgotten(self: Self, st: NF.Node, init: seq<HostSubnet>, last: HostSubnet, st1: NF.Node, st2: NF.Node)
    requires Forgets(self, st, init, st1)
    requires if Counts(self, last) then
               && st2.tunnels == st1.tunnels - {last.value.hostIP}
               && (forall c :: c in st2.routes <==> c in st1.routes && !Takes(last, c))
               && (forall c :: c in st2.routes ==> st2.routes[c] == st1.routes[c])
             else st2.tunnels == st1.tunnels && st2.routes == st1.routes
    ensures Forgets(self, st, init + [last], st2)
  {
    var left := init + [last];
    assert forall r :: r in left <==> r in init || r == last;
    forall ip
      ensures Untunnelled(self, left, ip) <==> Untunnelled(self, init, ip) || (Counts(self, last) && last.value.hostIP == ip)
    {
    }
    forall c
      ensures Unrouted(self, left, c) <==> Unrouted(self, init, c) || (Counts(self, last) && Takes(last, c))
    {
    }
  }

  // ---------------------------------------------------------------- a reset

  ghost predicate Listed(recs: seq<HostSubnet>, ip: uint32) { exists r :: r in recs && r.value.hostIP == ip }

  /** Names tell hosts apart as addresses do, in both lists and across them. */
  ghost predicate SameNaming(saved: seq<HostSubnet>, snapshot: seq<HostSubnet>) {
    && UniqueNames(saved) && UniqueNames(snapshot)
    && forall r, q :: (r in saved || r in snapshot) && (q in saved || q in snapshot) ==>
         (r.name == q.name <==> r.value.hostIP == q.value.hostIP)
  }

  /** The node has tunnels and routes to hosts of the list only. */
  ghost predicate KnowsOnly(self: Self, st: NF.Node, recs: seq<HostSubnet>) {
    && (forall ip :: ip in st.tunnels ==> Tunnelled(self, recs, ip))
    && (forall c :: c in st.routes ==>
          exists r :: r in recs && Reachable(self, r) && r.value.subnet == Some(c) && r.value.hostIP == st.routes[c])
  }

  /** The records of a snapshot with names that are not saved, in the order a reset announces them. */
  ghost function News(saved: seq<HostSubnet>, snapshot: seq<HostSubnet>): seq<HostSubnet> {
    var batch := Strike(saved, snapshot).1;
    seq(|batch|, i requires 0 <= i < |batch| => batch[i].rec)
  }

  /** The saved records with names that are not in the snapshot. */
  ghost function Gone(saved: seq<HostSubnet>, snapshot: seq<HostSubnet>): seq<HostSubnet> { Strike(saved, snapshot).0 }

  lemma AllAdded(batch: seq<SubnetEvent>, news: seq<HostSubnet>)
    requires forall e :: e in batch ==> e.Added?
    requires |news| == |batch| && forall i :: 0 <= i < |batch| ==> news[i] == batch[i].rec
    ensures batch == Additions(news)
  {
    forall i | 0 <= i < |batch|
      ensures batch[i] == Added(news[i])
    {
      assert batch[i] in batch;
    }
  }

  lemma NewsAndGone(saved: seq<HostSubnet>, snapshot: seq<HostSubnet>)
    requires UniqueNames(saved) && UniqueNames(snapshot)
    ensures ResetBatch(saved, snapshot) == Additions(News(saved, snapshot)) + Removals(Gone(saved, snapshot))
    ensures forall r :: r in News(saved, snapshot) <==> r in snapshot && r.name !in Names(saved)
    ensures forall r :: r in Gone(saved, snapshot) <==> r in saved && r.name !in Names(snapshot)
    ensures UniqueNames(News(saved, snapshot))
  {
    StrikeSplits(saved, snapshot);
    var batch, news := Strike(saved, snapshot).1, News(saved, snapshot);
    AllAdded(batch, news);
    forall r | r in snapshot && r.name !in Names(saved)
      ensures r in news
    {
      assert Added(r) in batch;
      var i :| 0 <= i < |batch| && batch[i] == Added(r);
      assert news[i] == r;
    }
  }

  lemma NewsAreDistinct(saved: seq<HostSubnet>, snapshot: seq<HostSubnet>)
    requires UniqueNames(saved) && UniqueNames(snapshot) && DistinctHosts(snapshot)
    ensures DistinctHosts(News(saved, snapshot))
  {
    NewsAndGone(saved, snapshot);
    var news := News(saved, snapshot);
    forall i, j | 0 <= i < j < |news|
      ensures news[i].value.hostIP != news[j].value.hostIP
      ensures news[i].value.subnet.Some? ==> news[i].value.subnet != news[j].value.subnet
    {
      assert news[i] in snapshot && news[j] in snapshot;
      var k :| 0 <= k < |snapshot| && snapshot[k] == news[i];
      var l :| 0 <= l < |snapshot| && snapshot[l] == news[j];
      assert k != l;
    }
  }

  ghost function AfterReset(self: Self, st: NF.Node, saved: seq<HostSubnet>, snapshot: seq<HostSubnet>): NF.Node {
    OnBatch(self, st, ResetBatch(saved, snapshot)).0
  }

  /** A reset first adds and then removes. */
  lemma ResetAddsAndForgets(self: Self, st: NF.Node, saved: seq<HostSubnet>, snapshot: seq<HostSubnet>) returns (st1: NF.Node)
    requires UniqueNames(saved) && UniqueNames(snapshot) && DistinctHosts(snapshot)
    ensures Adds(self, st, News(saved, snapshot), st1)
    ensures Forgets(self, st1, Gone(saved, snapshot), AfterReset(self, st, saved, snapshot))
  {
    NewsAndGone(saved, snapshot);
    NewsAreDistinct(saved, snapshot);
    AdditionsAdd(self, st, News(saved, snapshot));
    RemovalsForget(self, st, Additions(News(saved, snapshot)), Gone(saved, snapshot));
    st1 := OnBatch(self, st, Additions(News(saved, snapshot))).0;
  }

  /** A saved record's name is in the snapshot, with its address, or the record is gone. */
  lemma KeptOrGone(saved: seq<HostSubnet>, snapshot: seq<HostSubnet>, r: HostSubnet)
    requires SameNaming(saved, snapshot) && r in saved
    ensures r in Gone(saved, snapshot) || Listed(snapshot, r.value.hostIP)
  {
    NewsAndGone(saved, snapshot);
    if r.name in Names(snapshot) {
      var q :| q in snapshot && q.name == r.name;
    }
  }

  ghost predicate Proper(recs: seq<HostSubnet>) {
    forall r :: r in recs && r.value.subnet.Some? ==> r.value.subnet.value.len <= 32
  }

  lemma ReachableCounts(self: Self, r: HostSubnet)
    requires Reachable(self, r)
    ensures Counts(self, r)
    ensures r.value.subnet.Some? && r.value.subnet.value.len <= 32 ==> Takes(r, r.value.subnet.value)
  {
  }

  /** A node that knew only hosts of the saved records has neither tunnel nor route to a host that is not
      in the snapshot. */
  lemma ResetForgetsMissing(self: Self, st: NF.Node, saved: seq<HostSubnet>, snapshot: seq<HostSubnet>)
    requires SameNaming(saved, snapshot) && DistinctHosts(snapshot) && Proper(saved) && KnowsOnly(self, st, saved)
    ensures var st' := AfterReset(self, st, saved, snapshot);
      && (forall ip :: ip in st'.tunnels ==> Listed(snapshot, ip))
      && (forall c :: c in st'.routes ==> Listed(snapshot, st'.routes[c]))
  {
    var st1 := ResetAddsAndForgets(self, st, saved, snapshot);
    var st' := AfterReset(self, st, saved, snapshot);
    NewsAndGone(saved, snapshot);
    forall ip | ip in st'.tunnels
      ensures Listed(snapshot, ip)
    {
      if ip in st.tunnels {
        var r :| r in saved && Reachable(self, r) && r.value.hostIP == ip;
        KeptOrGone(saved, snapshot, r);
        ReachableCounts(self, r);
      }
    }
    forall c | c in st'.routes
      ensures Listed(snapshot, st'.routes[c])
    {
      if Routed(self, News(saved, snapshot), c) {
        var r :| r in News(saved, snapshot) && Reachable(self, r) && r.value.subnet == Some(c);
      } else {
        var r :| r in saved && Reachable(self, r) && r.value.subnet == Some(c) && r.value.hostIP == st.routes[c];
        KeptOrGone(saved, snapshot, r);
        ReachableCounts(self, r);
      }
    }
  }

  // ---------------------------------------------------------------- when a reset brings a node up to date

  /** The node has exactly the tunnels and routes of the list. */
  ghost predicate Knows(self: Self, st: NF.Node, recs: seq<HostSubnet>) {
    && (forall ip :: ip in st.tunnels <==> Tunnelled(self, recs, ip))
    && (forall c :: c in st.routes <==> Routed(self, recs, c))
    && (forall r :: r in recs && Reachable(self, r) && r.value.subnet.Some? ==>
          st.routes[r.value.subnet.value] == r.value.hostIP)
  }

  /** All subnets are networks of one size. */
  ghost predicate OneSize(recs: seq<HostSubnet>, len: nat) {
    forall r :: r in recs && r.value.subnet.Some? ==> r.value.subnet.value.Valid() && r.value.subnet.value.len == len
  }

  /** No host that both lists have gets a subnet it did not have. */
  ghost predicate KeptHaveNoNew(self: Self, saved: seq<HostSubnet>, snapshot: seq<HostSubnet>) {
    forall r, q :: r in saved && q in snapshot && r.name == q.name && Reachable(self, q) && q.value.subnet.Some? ==>
      r.value.subnet == q.value.subnet
  }

  /** No subnet of such a host falls to nobody. */
  ghost predicate KeptLoseNone(self: Self, saved: seq<HostSubnet>, snapshot: seq<HostSubnet>) {
    forall r :: r in saved && r.name in Names(snapshot) && Reachable(self, r) && r.value.subnet.Some? ==>
      Routed(self, snapshot, r.value.subnet.value)
  }

  /** No new host has the subnet of one that is gone. */
  ghost predicate NonePassedOn(self: Self, saved: seq<HostSubnet>, snapshot: seq<HostSubnet>) {
    forall r, q ::
      && r in Gone(saved, snapshot) && Counts(self, r)
      && q in News(saved, snapshot) && Reachable(self, q) && q.value.subnet.Some? ==>
        r.value.subnet != q.value.subnet
  }

  /** What a reset leaves, in terms of the two lists. */
  ghost predicate Rerouted(self: Self, saved: seq<HostSubnet>, snapshot: seq<HostSubnet>, st: NF.Node) {
    var news, gone := News(saved, snapshot), Gone(saved, snapshot);
    && (forall c :: c in st.routes <==> (Routed(self, saved, c) || Routed(self, news, c)) && !Unrouted(self, gone, c))
    && (forall r :: r in news && Reachable(self, r) && r.value.subnet.Some? && !Unrouted(self, gone, r.value.subnet.value) ==>
          st.routes[r.value.subnet.value] == r.value.hostIP)
    && (forall r ::
          && r in saved && Reachable(self, r) && r.value.subnet.Some?
          && !Unrouted(self, gone, r.value.subnet.value) && !Routed(self, news, r.value.subnet.value) ==>
            st.routes[r.value.subnet.value] == r.value.hostIP)
  }

  lemma ResetReroutes(self: Self, st: NF.Node, saved: seq<HostSubnet>, snapshot: seq<HostSubnet>)
    requires SameNaming(saved, snapshot) && DistinctHosts(snapshot) && Knows(self, st, saved)
    ensures Rerouted(self, saved, snapshot, AfterReset(self, st, saved, snapshot))
  {
    var st1 := ResetAddsAndForgets(self, st, saved, snapshot);
  }

  /** The tunnels are always those of the snapshot. */
  lemma ResetTunnels(self: Self, st: NF.Node, saved: seq<HostSubnet>, snapshot: seq<HostSubnet>)
    requires SameNaming(saved, snapshot) && DistinctHosts(snapshot) && Knows(self, st, saved)
    ensures forall ip :: ip in AfterReset(self, st, saved, snapshot).tunnels <==> Tunnelled(self, snapshot, ip)
  {
    var st1 := ResetAddsAndForgets(self, st, saved, snapshot);
    var st' := AfterReset(self, st, saved, snapshot);
    NewsAndGone(saved, snapshot);
    forall ip | ip in st'.tunnels
      ensures Tunnelled(self, snapshot, ip)
    {
      if ip in st.tunnels {
        var r :| r in saved && Reachable(self, r) && r.value.hostIP == ip;
        KeptOrGone(saved, snapshot, r);
        ReachableCounts(self, r);
      }
    }
    forall ip | Tunnelled(self, snapshot, ip)
      ensures ip in st'.tunnels
    {
      var q :| q in snapshot && Reachable(self, q) && q.value.hostIP == ip;
      if q.name in Names(saved) {
        var r :| r in saved && r.name == q.name;
        assert Reachable(self, r);
      }
      assert !Untunnelled(self, Gone(saved, snapshot), ip);
    }
  }

  /** Among networks of one size only the subnet itself is enclosed. */
  lemma UnroutedOfOneSize(self: Self, gone: seq<HostSubnet>, c: Cidr, len: nat)
    requires OneSize(gone, len) && c.Valid() && c.len == len
    ensures Unrouted(self, gone, c) <==> exists r :: r in gone && Counts(self, r) && r.value.subnet == Some(c)
  {
    forall r | r in gone && r.value.subnet.Some?
      ensures Takes(r, c) <==> r.value.subnet == Some(c)
    {
      SameSizeWithin(c, r.value.subnet.value);
    }
  }

  lemma SameSizeWithin(c: Cidr, d: Cidr)
    requires c.Valid() && d.Valid() && c.len == d.len
    ensures OpenFlow.CidrWithin(c, d) <==> c == d
  {
    if OpenFlow.CidrWithin(c, d) {
      assert c.Contains(c.addr) && d.Contains(c.addr);
      assert Overlap(c, d);
      SameSizeOverlap(c, d);
    }
  }

  lemma OneRecord(recs: seq<HostSubnet>, r: HostSubnet, q: HostSubnet)
    requires DistinctHosts(recs) && r in recs && q in recs && r.value.subnet.Some? && r.value.subnet == q.value.subnet
    ensures r == q
  {
    var i :| 0 <= i < |recs| && recs[i] == r;
    var j :| 0 <= j < |recs| && recs[j] == q;
    assert i == j;
  }

  lemma OneName(recs: seq<HostSubnet>, r: HostSubnet, q: HostSubnet)
    requires UniqueNames(recs) && r in recs && q in recs && r.name == q.name
    ensures r == q
  {
    var i :| 0 <= i < |recs| && recs[i] == r;
    var j :| 0 <= j < |recs| && recs[j] == q;
    assert i == j;
  }

  /** The two lists are of hosts with networks of one size, none of two hosts of a list. */
  ghost predicate Orderly(saved: seq<HostSubnet>, snapshot: seq<HostSubnet>, len: nat) {
    && SameNaming(saved, snapshot) && DistinctHosts(saved) && DistinctHosts(snapshot)
    && OneSize(saved, len) && OneSize(snapshot, len)
  }

  lemma GoneAreOneSize(saved: seq<HostSubnet>, snapshot: seq<HostSubnet>, len: nat)
    requires Orderly(saved, snapshot, len)
    ensures OneSize(Gone(saved, snapshot), len)
  {
    NewsAndGone(saved, snapshot);
  }

  lemma KnowingNeedsNoNew(self: Self, saved: seq<HostSubnet>, snapshot: seq<HostSubnet>, st: NF.Node, len: nat)
    requires Orderly(saved, snapshot, len) && Rerouted(self, saved, snapshot, st) && Knows(self, st, snapshot)
    ensures KeptHaveNoNew(self, saved, snapshot)
  {
    NewsAndGone(saved, snapshot);
    forall r, q | r in saved && q in snapshot && r.name == q.name && Reachable(self, q) && q.value.subnet.Some?
      ensures r.value.subnet == q.value.subnet
    {
      var c := q.value.subnet.value;
      assert Routed(self, snapshot, c) && st.routes[c] == q.value.hostIP;
      forall n | n in News(saved, snapshot)
        ensures n.value.subnet != Some(c)
      {
        if n.value.subnet == Some(c) {
          OneRecord(snapshot, n, q);
        }
      }
      assert Routed(self, saved, c);
      var was :| was in saved && Reachable(self, was) && was.value.subnet == Some(c);
      OneName(saved, was, r);
    }
  }

  lemma KnowingNeedsTheRest(self: Self, saved: seq<HostSubnet>, snapshot: seq<HostSubnet>, st: NF.Node, len: nat)
    requires Orderly(saved, snapshot, len) && Rerouted(self, saved, snapshot, st) && Knows(self, st, snapshot)
    ensures KeptLoseNone(self, saved, snapshot) && NonePassedOn(self, saved, snapshot)
  {
    NewsAndGone(saved, snapshot);
    GoneAreOneSize(saved, snapshot, len);
    forall r | r in saved && r.name in Names(snapshot) && Reachable(self, r) && r.value.subnet.Some?
      ensures Routed(self, snapshot, r.value.subnet.value)
    {
      var c := r.value.subnet.value;
      UnroutedOfOneSize(self, Gone(saved, snapshot), c, len);
      forall g | g in Gone(saved, snapshot)
        ensures g.value.subnet != Some(c)
      {
        if g.value.subnet == Some(c) {
          OneRecord(saved, g, r);
        }
      }
      assert Routed(self, saved, c);
    }
    forall r, q | r in Gone(saved, snapshot) && Counts(self, r) && q in News(saved, snapshot) && Reachable(self, q) && q.value.subnet.Some?
      ensures r.value.subnet != q.value.subnet
    {
      UnroutedOfOneSize(self, Gone(saved, snapshot), q.value.subnet.value, len);
      assert Routed(self, snapshot, q.value.subnet.value);
    }
  }

  lemma RerouteFollows(self: Self, saved: seq<HostSubnet>, snapshot: seq<HostSubnet>, st: NF.Node, q: HostSubnet, len: nat)
    requires Orderly(saved, snapshot, len) && Rerouted(self, saved, snapshot, st)
    requires KeptHaveNoNew(self, saved, snapshot) && NonePassedOn(self, saved, snapshot)
    requires q in snapshot && Reachable(self, q) && q.value.subnet.Some?
    ensures q.value.subnet.value in st.routes && st.routes[q.value.subnet.value] == q.value.hostIP
  {
    var c := q.value.subnet.value;
    NewsAndGone(saved, snapshot);
    GoneAreOneSize(saved, snapshot, len);
    UnroutedOfOneSize(self, Gone(saved, snapshot), c, len);
    if q.name in Names(saved) {
      var r :| r in saved && r.name == q.name;
      assert Reachable(self, r) && r.value.subnet == Some(c);
      forall g | g in Gone(saved, snapshot)
        ensures g.value.subnet != Some(c)
      {
        if g.value.subnet == Some(c) {
          OneRecord(saved, g, r);
        }
      }
      forall n | n in News(saved, snapshot)
        ensures n.value.subnet != Some(c)
      {
        if n.value.subnet == Some(c) {
          OneRecord(snapshot, n, q);
        }
      }
      assert Routed(self, saved, c);
    } else {
      assert Routed(self, News(saved, snapshot), c);
    }
  }

  /** A node that had exactly the tunnels and routes of the saved records has, after a reset, exactly those
      of the snapshot if and only if no host that stays gets a subnet it did not have, none leaves one that
      nobody has now, and no new host has the subnet of one that is gone. */
  lemma ResetIsCompleteIff(self: Self, st: NF.Node, saved: seq<HostSubnet>, snapshot: seq<HostSubnet>, len: nat)
    requires Orderly(saved, snapshot, len) && Knows(self, st, saved)
    ensures Knows(self, AfterReset(self, st, saved, snapshot), snapshot)
       <==> KeptHaveNoNew(self, saved, snapshot) && KeptLoseNone(self, saved, snapshot) && NonePassedOn(self, saved, snapshot)
  {
    var st' := AfterReset(self, st, saved, snapshot);
    ResetReroutes(self, st, saved, snapshot);
    ResetTunnels(self, st, saved, snapshot);
    if Knows(self, st', snapshot) {
      KnowingNeedsNoNew(self, saved, snapshot, st', len);
      KnowingNeedsTheRest(self, saved, snapshot, st', len);
    } else if KeptHaveNoNew(self, saved, snapshot) && KeptLoseNone(self, saved, snapshot) && NonePassedOn(self, saved, snapshot) {
      ConditionsSuffice(self, saved, snapshot, st', len);
    }
  }

  lemma ConditionsSuffice(self: Self, saved: seq<HostSubnet>, snapshot: seq<HostSubnet>, st: NF.Node, len: nat)
    requires Orderly(saved, snapshot, len) && Rerouted(self, saved, snapshot, st)
    requires KeptHaveNoNew(self, saved, snapshot) && KeptLoseNone(self, saved, snapshot) && NonePassedOn(self, saved, snapshot)
    ensures forall c :: c in st.routes <==> Routed(self, snapshot, c)
    ensures forall r :: r in snapshot && Reachable(self, r) && r.value.subnet.Some? ==>
              r.value.subnet.value in st.routes && st.routes[r.value.subnet.value] == r.value.hostIP
  {
    NewsAndGone(saved, snapshot);
    forall q | q in snapshot && Reachable(self, q) && q.value.subnet.Some?
      ensures q.value.subnet.value in st.routes && st.routes[q.value.subnet.value] == q.value.hostIP
    {
      RerouteFollows(self, saved, snapshot, st, q, len);
    }
    forall c | c in st.routes
      ensures Routed(self, snapshot, c)
    {
      if Routed(self, News(saved, snapshot), c) {
        var r :| r in News(saved, snapshot) && Reachable(self, r) && r.value.subnet == Some(c);
      } else {
        var r :| r in saved && Reachable(self, r) && r.value.subnet == Some(c);
        ReachableCounts(self, r);
        assert r !in Gone(saved, snapshot);
      }
    }
  }

  // ---------------------------------------------------------------- a subnet that passes on

  /** Between two resets one host is deleted and another gets its subnet: the removal, announced last, takes
      the new host's route, and only its tunnel stays. */
  lemma PassedOnSubnetIsUnrouted(self: Self, st: NF.Node, was: HostSubnet, now: HostSubnet)
    requires was.name != now.name && was.value.hostIP != now.value.hostIP && Reachable(self, was) && Reachable(self, now)
    requires was.value.subnet.Some? && was.value.subnet.value.Valid() && now.value.subnet == was.value.subnet
    requires Knows(self, st, [was])
    ensures var st' := AfterReset(self, st, [was], [now]);
      st'.tunnels == {now.value.hostIP} && st'.routes == map[]
  {
    var st', c := AfterReset(self, st, [was], [now]), was.value.subnet.value;
    PassedOnLists(was, now);
    ResetTunnels(self, st, [was], [now]);
    assert forall ip :: Tunnelled(self, [now], ip) <==> ip == now.value.hostIP by {
      assert now in [now];
    }
    ResetReroutes(self, st, [was], [now]);
    UnroutedOfOneSize(self, [was], c, c.len);
    assert was in [was];
    assert Unrouted(self, [was], c);
    assert forall d :: d != c ==> !Routed(self, [was], d) && !Routed(self, [now], d);
    assert forall d :: d !in st'.routes;
  }

  lemma PassedOnLists(was: HostSubnet, now: HostSubnet)
    requires was.name != now.name
    ensures News([was], [now]) == [now] && Gone([was], [now]) == [was]
  {
    assert [now][..0] == [] && Find([was][1..], now.name) == None;
    var none: seq<SubnetEvent> := [];
    assert Strike([was], []) == ([was], none) && Find([was], now.name).None?;
    assert none + [Added(now)] == [Added(now)];
    assert Strike([was], [now]) == ([was], [Added(now)]);
  }
}
