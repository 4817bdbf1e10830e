/** When the subnet protocol is safe: names and addresses of hosts must correspond one to one. A host that
    is renamed while the watcher remembers its old name loses its subnet at the next reset, and so can a
    node that is known at two addresses under one name (ksdn/subnets.go:64-72, 140-152,
    pkg/etcdmanager/watch.go:65-94). */
module SubnetRename {
  import opened Prelude
  import opened Word32
  import opened Cidrs
  import opened SubnetNumbering
  import opened SubnetAllocator
  import opened Watch
  import opened Records
  import opened MasterSubnets

  // ---------------------------------------------------------------- naming disciplines

  /** Which names an address may be written under. */
  type Naming = (string, uint32) -> bool

  /** Names have no slash. */
  ghost predicate Plain(names: Naming) {
    forall n, ip :: names(n, ip) ==> PlainName(n)
  }

  /** No address has two names. */
  ghost predicate OneName(names: Naming) {
    forall ip, a, b :: names(a, ip) && names(b, ip) ==> a == b
  }

  /** No name is for two addresses. */
  ghost predicate Unshared(names: Naming) {
    forall n, a, b :: names(n, a) && names(n, b) ==> a == b
  }

  /** An action names hosts as the discipline allows. */
  ghost predicate Under(names: Naming, a: Action) {
    match a
    case AddNode(name, ip) => names(name, ip)
    case Request(name, ip) => names(name, ip)
    case _ => true
  }

  /** What etcd may hold before the first master starts. */
  ghost predicate InitialUnder(setup: Setup, names: Naming, etcd: map<uint32, HostSubnet>)
    requires setup.cfg.Valid()
  {
    && (forall ip :: ip in etcd ==>
          && etcd[ip].value.hostIP == ip && names(etcd[ip].name, ip)
          && (etcd[ip].value.assign ==> etcd[ip].value.subnet.None?))
    && (forall ip :: ip in etcd && etcd[ip].value.subnet.Some? ==>
          InPlace(setup.cfg, etcd[ip].value.subnet.value))
    && (forall ip, ip' :: ip in etcd && ip' in etcd && ip != ip' && etcd[ip].value.subnet.Some? ==>
          etcd[ip].value.subnet != etcd[ip'].value.subnet)
  }

  /** A subnet of the allocator's size inside its network. */
  ghost predicate InPlace(cfg: Config, c: Cidr)
    requires cfg.Valid()
  {
    c.Valid() && c.len + cfg.hostBits == 32 && cfg.network.Contains(c.addr)
  }

  /** Every run from every such etcd is safe. */
  ghost predicate AlwaysSafe(setup: Setup, names: Naming)
    requires setup.cfg.Valid()
  {
    forall s: State, actions :: InitialUnder(setup, names, s.etcd) && AllUnder(names, actions) ==>
      SafeEnd(setup, Started(setup.cfg, s), actions)
  }

  ghost predicate AllUnder(names: Naming, actions: seq<Action>) {
    forall a :: a in actions ==> Under(names, a)
  }

  ghost predicate SafeEnd(setup: Setup, s: State, actions: seq<Action>)
    requires setup.cfg.Valid()
  {
    RunOf(setup, s, actions).Some? ==> Safe(RunOf(setup, s, actions).value)
  }

  // ---------------------------------------------------------------- one to one: safe

  /** A bound on the names of the addresses below `k`. */
  ghost function Longest(names: Naming, k: nat): nat
    requires k <= WORD
  {
    if k == 0 then 0 else
      var rest := Longest(names, k - 1);
      if n :| names(n, k - 1) && |n| > rest then |n| else rest
  }

  lemma {:induction false} LongestBounds(names: Naming, k: nat, ip: uint32, n: string)
    requires OneName(names) && ip < k <= WORD && names(n, ip)
    ensures |n| <= Longest(names, k)
    decreases k
  {
    if ip < k - 1 {
      LongestBounds(names, k - 1, ip, n);
    }
  }

  function Padding(n: nat): string { seq(n, _ => 'n') }

  /** The name of an address; one without a name gets a long one nobody else has. */
  ghost function HostName(names: Naming, ip: uint32): string {
    if n :| names(n, ip) then n else Padding(Longest(names, WORD) + 1 + ip)
  }

  lemma HostNameIs(names: Naming, ip: uint32)
    requires OneName(names)
    ensures var name := HostName(names, ip);
      if exists n :: names(n, ip) then names(name, ip) && |name| <= Longest(names, WORD)
      else name == Padding(Longest(names, WORD) + 1 + ip)
  {
    if n :| names(n, ip) {
      LongestBounds(names, WORD, ip, HostName(names, ip));
    }
  }

  lemma HostNamesDiffer(names: Naming, a: uint32, b: uint32)
    requires Plain(names) && Unshared(names) && OneName(names) && HostName(names, a) == HostName(names, b)
    ensures a == b
  {
    var long := Longest(names, WORD);
    HostNameIs(names, a);
    HostNameIs(names, b);
    PaddingLength(long + 1 + a);
    PaddingLength(long + 1 + b);
  }

  lemma PaddingLength(n: nat)
    ensures |Padding(n)| == n
  {
  }

  lemma HostNames(names: Naming)
    requires Plain(names) && Unshared(names) && OneName(names)
    ensures OneToOne((ip: uint32) => HostName(names, ip))
    ensures forall n, ip :: names(n, ip) ==> n == HostName(names, ip)
  {
    forall a: uint32, b: uint32 | HostName(names, a) == HostName(names, b)
      ensures a == b
    {
      HostNamesDiffer(names, a, b);
    }
    forall ip: uint32
      ensures PlainName(HostName(names, ip))
      ensures forall n :: names(n, ip) ==> n == HostName(names, ip)
    {
      HostNameIs(names, ip);
    }
  }

  lemma OneToOneIsSafe(setup: Setup, names: Naming)
    requires setup.cfg.Valid() && Plain(names) && Unshared(names) && OneName(names)
    ensures AlwaysSafe(setup, names)
  {
    var host := (ip: uint32) => HostName(names, ip);
    HostNames(names);
    forall s: State, actions | InitialUnder(setup, names, s.etcd) && AllUnder(names, actions)
      ensures SafeEnd(setup, Started(setup.cfg, s), actions)
    {
      assert Initial(setup, host, s.etcd);
      forall a | a in actions
        ensures Fixed(host, a)
      {
        assert Under(names, a);
      }
      SubnetProtocolSafe(setup, host, s, actions);
    }
  }

  // ---------------------------------------------------------------- two names: a run that is not

  /** A host with a recorded subnet, and the two names it is written under. */
  datatype Rename = Rename(ip: uint32, was: string, now: string, c: Cidr) {
    function Old(): HostSubnet { Record(was, HostInfo(ip, Some(c), false)) }

    function New(): HostSubnet { Record(now, HostInfo(ip, Some(c), false)) }

    function Before(): State {
      State(map[ip := Old()], [], Pool(0, {c}), None, [], [], Idle, Idle)
    }

    /** Watching, with the record under the old name. */
    function Watching(nodes: Task): State {
      State(map[ip := Old()], [], Pool(0, {c}), Some(0), [Old()], [Added(Old())], nodes, Idle)
    }

    function Renewed(): State {
      Watching(Idle).(etcd := map[ip := New()], history := [Wrote(New())])
    }

    /** After the reset under the new name, with `queue` not handled yet. */
    function Reset(queue: seq<Event<HostInfo>>): State {
      Renewed().(cursor := Some(1), saved := [New()], queue := queue)
    }

    function Released(): State { Reset([]).(pool := Pool(0, {})) }

    function Events(): seq<Event<HostInfo>> { [Added(Old()), Added(New()), Removed(Old())] }

    /** The watcher starts, the node is added under its new name, history is truncated and the watcher
        starts over, and the subnet goroutine handles its events. */
    function Run(): seq<Action> {
      [WatchReset([Old()])] + (Renaming() + ([WatchReset([New()])] + Handling()))
    }

    function Renaming(): seq<Action> { [AddNode(now, ip), NodeStep(true), NodeStep(true)] }

    function Handling(): seq<Action> { [TakeEvent(true, true), TakeEvent(true, true), TakeEvent(true, true)] }
  }

  lemma Batches(r: Rename)
    requires r.was != r.now
    ensures ResetBatch([], [r.Old()]) == [Added(r.Old())]
    ensures ResetBatch([r.Old()], [r.New()]) == [Added(r.New()), Removed(r.Old())]
  {
    var none: seq<HostSubnet> := [];
    var old_, new_ := [r.Old()], [r.New()];
    assert old_[..0] == none && new_[..0] == none;
    assert Find(none, r.was).None? && Find(old_, r.now).None?;
    assert Strike(none, none) == (none, []) && Strike(old_, none) == (old_, []);
    assert Strike(none, old_).0 == none && Strike(none, old_).1 == [Added(r.Old())];
    assert Strike(old_, new_).0 == old_ && Strike(old_, new_).1 == [Added(r.New())];
    assert Removals(none) == [] && Removals(old_) == [Removed(r.Old())];
  }

  lemma {:induction false} RunOfConcat(setup: Setup, s: State, a: seq<Action>, b: seq<Action>)
    requires setup.cfg.Valid() && RunOf(setup, s, a).Some?
    ensures RunOf(setup, s, a + b) == RunOf(setup, RunOf(setup, s, a).value, b)
    decreases |a|
  {
    if a == [] {
      assert a + b == b;
    } else {
      assert (a + b)[1..] == a[1..] + b;
      RunOfConcat(setup, Do(setup, s, a[0]), a[1..], b);
    }
  }

  lemma OneAction(setup: Setup, s: State, a: Action)
    requires setup.cfg.Valid() && Enabled(s, a)
    ensures RunOf(setup, s, [a]) == Some(Do(setup, s, a))
  {
    assert [a][1..] == [];
    assert RunOf(setup, Do(setup, s, a), []) == Some(Do(setup, s, a));
  }

  lemma ThreeActions(setup: Setup, s: State, a: Action, s1: State, b: Action, s2: State, c: Action)
    requires setup.cfg.Valid()
    requires Enabled(s, a) && s1 == Do(setup, s, a)
    requires Enabled(s1, b) && s2 == Do(setup, s1, b)
    requires Enabled(s2, c)
    ensures RunOf(setup, s, [a, b, c]) == Some(Do(setup, s2, c))
  {
    OneAction(setup, s, a);
    OneAction(setup, s1, b);
    OneAction(setup, s2, c);
    RunOfConcat(setup, s, [a], [b] + [c]);
    RunOfConcat(setup, s1, [b], [c]);
    assert [a, b, c] == [a] + ([b] + [c]);
  }

  lemma StartWatching(setup: Setup, r: Rename)
    requires setup.cfg.Valid() && r.was != r.now
    ensures RunOf(setup, r.Before(), [WatchReset([r.Old()])]) == Some(r.Watching(Idle))
  {
    Batches(r);
    assert IsSnapshot(r.Before(), [r.Old()]);
    assert Do(setup, r.Before(), WatchReset([r.Old()])) == r.Watching(Idle);
    OneAction(setup, r.Before(), WatchReset([r.Old()]));
  }

  lemma WriteNewName(setup: Setup, r: Rename)
    requires setup.cfg.Valid() && r.was != r.now
    ensures RunOf(setup, r.Watching(Idle), r.Renaming()) == Some(r.Renewed())
  {
    assert map[r.ip := r.Old()][r.ip := r.New()] == map[r.ip := r.New()];
    assert WriteRec(r.Watching(Idle), r.New()) == r.Renewed();
    ThreeActions(setup, r.Watching(Idle), AddNode(r.now, r.ip), r.Watching(Reading(r.now, r.ip)), NodeStep(true),
                 r.Watching(Renewing(r.New())), NodeStep(true));
  }

  lemma ResetAgain(setup: Setup, r: Rename)
    requires setup.cfg.Valid() && r.was != r.now
    ensures RunOf(setup, r.Renewed(), [WatchReset([r.New()])]) == Some(r.Reset(r.Events()))
  {
    Batches(r);
    assert [Added(r.Old())] + [Added(r.New()), Removed(r.Old())] == r.Events();
    OneAction(setup, r.Renewed(), WatchReset([r.New()]));
  }

  lemma HandleEvents(setup: Setup, r: Rename)
    requires setup.cfg.Valid() && setup.cfg.network.Contains(r.c.addr)
    ensures RunOf(setup, r.Reset(r.Events()), r.Handling()) == Some(r.Released())
  {
    var last := [Removed(r.Old())];
    assert r.Events()[1..][1..] == last && last[1..] == [];
    assert Pool(0, {r.c}).taken - {r.c} == {};
    var take := TakeEvent(true, true);
    ThreeActions(setup, r.Reset(r.Events()), take, r.Reset(r.Events()[1..]), take, r.Reset(last), take);
  }

  /** A host with a recorded subnet is renamed while the watcher remembers its old name: the next reset
      announces the old name as removed, and the subnet, now recorded under the new one, is released. */
  lemma RenameReleasesUsedSubnet(setup: Setup, r: Rename)
    requires setup.cfg.Valid() && InPlace(setup.cfg, r.c) && r.was != r.now
    ensures Started(setup.cfg, r.Before()) == r.Before()
    ensures RunOf(setup, r.Before(), r.Run()) == Some(r.Released()) && !Safe(r.Released())
  {
    assert r.ip in r.Before().etcd && r.Before().etcd[r.ip].value.subnet.value == r.c;
    assert Recorded(setup.cfg, r.Before().etcd) == {r.c};
    StartWatching(setup, r);
    WriteNewName(setup, r);
    ResetAgain(setup, r);
    HandleEvents(setup, r);
    var last := [WatchReset([r.New()])] + r.Handling();
    RunOfConcat(setup, r.Before(), [WatchReset([r.Old()])], r.Renaming() + last);
    RunOfConcat(setup, r.Watching(Idle), r.Renaming(), last);
    RunOfConcat(setup, r.Renewed(), [WatchReset([r.New()])], r.Handling());
    assert r.Released().etcd[r.ip].value.subnet == Some(r.c) && r.c !in r.Released().pool.taken;
  }

  /** The first subnet of the network. */
  lemma FirstSubnet(cfg: Config) returns (c: Cidr)
    requires cfg.Valid()
    ensures InPlace(cfg, c)
  {
    c := cfg.Subnet(0);
    assert c.Contains(c.addr);
    SubnetInsideNetwork(cfg, 0, c.addr);
  }

  lemma TwoNamesAreUnsafe(setup: Setup, names: Naming, ip: uint32, was: string, now: string)
    requires setup.cfg.Valid() && names(was, ip) && names(now, ip) && was != now
    ensures !AlwaysSafe(setup, names)
  {
    var c := FirstSubnet(setup.cfg);
    var r := Rename(ip, was, now, c);
    RenameReleasesUsedSubnet(setup, r);
    RenameIsAllowed(setup, names, r);
    assert !SafeEnd(setup, Started(setup.cfg, r.Before()), r.Run());
  }

  lemma RenameIsAllowed(setup: Setup, names: Naming, r: Rename)
    requires setup.cfg.Valid() && InPlace(setup.cfg, r.c) && names(r.was, r.ip) && names(r.now, r.ip)
    ensures InitialUnder(setup, names, r.Before().etcd) && AllUnder(names, r.Run())
  {
  }

  // ---------------------------------------------------------------- a shared name: another such run

  /** A node known under one name at two addresses, of which the second has a subnet. */
  datatype Moved = Moved(name: string, gone: uint32, ip: uint32, c: Cidr) {
    function Gone(): HostSubnet { Record(name, HostInfo(gone, None, false)) }

    function Here(): HostSubnet { Record(name, HostInfo(ip, Some(c), false)) }

    function Before(): State {
      State(map[gone := Gone(), ip := Here()], [], Pool(0, {c}), None, [], [], Idle, Idle)
    }

    function Watching(): State {
      Before().(cursor := Some(0), saved := [Gone(), Here()], queue := [Added(Gone()), Added(Here())])
    }

    function Deleted(): State { Watching().(etcd := map[ip := Here()], history := [Erased(gone)]) }

    function Events(): seq<Event<HostInfo>> { [Added(Gone()), Added(Here()), Removed(Here())] }

    function Reset(queue: seq<Event<HostInfo>>): State {
      Deleted().(cursor := Some(1), saved := [Here()], queue := queue)
    }

    function Released(): State { Reset([]).(pool := Pool(0, {})) }

    /** The watcher starts, the first address is deleted, history is truncated and the watcher starts over,
        and the subnet goroutine handles its events. */
    function Run(): seq<Action> {
      [WatchReset([Gone(), Here()])] + ([DeleteNode(gone, true)] + ([WatchReset([Here()])] + Handling()))
    }

    function Handling(): seq<Action> { [TakeEvent(true, true), TakeEvent(true, true), TakeEvent(true, true)] }
  }

  /** The reset strikes the first record of the name, which is the one that is gone. */
  lemma WrongStrike(m: Moved)
    ensures ResetBatch([], [m.Gone(), m.Here()]) == [Added(m.Gone()), Added(m.Here())]
    ensures ResetBatch([m.Gone(), m.Here()], [m.Here()]) == [Removed(m.Here())]
  {
    var both, here, none: seq<HostSubnet> := [m.Gone(), m.Here()], [m.Here()], [];
    FirstResetAdds(both);
    assert Additions(both) == [Added(m.Gone()), Added(m.Here())];
    assert here[..0] == none;
    assert Strike(both, none) == (both, []);
    assert Find(both, m.name) == Some(0) && SwapDelete(both, 0) == here;
    assert Strike(both, here).0 == here && Strike(both, here).1 == [];
    assert Removals(here) == [Removed(m.Here())];
  }

  lemma MovedWatches(setup: Setup, m: Moved)
    requires setup.cfg.Valid() && m.gone != m.ip
    ensures RunOf(setup, m.Before(), [WatchReset([m.Gone(), m.Here()])]) == Some(m.Watching())
  {
    WrongStrike(m);
    assert IsSnapshot(m.Before(), [m.Gone(), m.Here()]);
    assert Do(setup, m.Before(), WatchReset([m.Gone(), m.Here()])) == m.Watching();
    OneAction(setup, m.Before(), WatchReset([m.Gone(), m.Here()]));
  }

  lemma MovedDeletes(setup: Setup, m: Moved)
    requires setup.cfg.Valid() && m.gone != m.ip
    ensures RunOf(setup, m.Watching(), [DeleteNode(m.gone, true)]) == Some(m.Deleted())
  {
    assert map[m.gone := m.Gone(), m.ip := m.Here()] - {m.gone} == map[m.ip := m.Here()];
    assert Do(setup, m.Watching(), DeleteNode(m.gone, true)) == m.Deleted();
    OneAction(setup, m.Watching(), DeleteNode(m.gone, true));
  }

  lemma MovedResets(setup: Setup, m: Moved)
    requires setup.cfg.Valid() && m.gone != m.ip
    ensures RunOf(setup, m.Deleted(), [WatchReset([m.Here()])]) == Some(m.Reset(m.Events()))
  {
    WrongStrike(m);
    assert [Added(m.Gone()), Added(m.Here())] + [Removed(m.Here())] == m.Events();
    assert IsSnapshot(m.Deleted(), [m.Here()]);
    assert Do(setup, m.Deleted(), WatchReset([m.Here()])) == m.Reset(m.Events());
    OneAction(setup, m.Deleted(), WatchReset([m.Here()]));
  }

  lemma MovedHandles(setup: Setup, m: Moved)
    requires setup.cfg.Valid() && setup.cfg.network.Contains(m.c.addr)
    ensures RunOf(setup, m.Reset(m.Events()), m.Handling()) == Some(m.Released())
  {
    var last := [Removed(m.Here())];
    assert m.Events()[1..][1..] == last && last[1..] == [];
    assert Pool(0, {m.c}).taken - {m.c} == {};
    var take := TakeEvent(true, true);
    ThreeActions(setup, m.Reset(m.Events()), take, m.Reset(m.Events()[1..]), take, m.Reset(last), take);
  }

  /** A node is known under one name at two addresses, and the first is deleted: the next reset takes its
      record for the one that stays and announces the other as removed, whose subnet is released. */
  lemma SharedNameReleasesUsedSubnet(setup: Setup, m: Moved)
    requires setup.cfg.Valid() && InPlace(setup.cfg, m.c) && m.gone != m.ip
    ensures Started(setup.cfg, m.Before()) == m.Before()
    ensures RunOf(setup, m.Before(), m.Run()) == Some(m.Released()) && !Safe(m.Released())
  {
    var etcd := m.Before().etcd;
    assert m.ip in etcd && etcd[m.ip].value.subnet.value == m.c && etcd[m.gone].value.subnet.None?;
    assert Recorded(setup.cfg, etcd) == {m.c};
    MovedWatches(setup, m);
    MovedDeletes(setup, m);
    MovedResets(setup, m);
    MovedHandles(setup, m);
    var last := [WatchReset([m.Here()])] + m.Handling();
    RunOfConcat(setup, m.Before(), [WatchReset([m.Gone(), m.Here()])], [DeleteNode(m.gone, true)] + last);
    RunOfConcat(setup, m.Watching(), [DeleteNode(m.gone, true)], last);
    RunOfConcat(setup, m.Deleted(), [WatchReset([m.Here()])], m.Handling());
    assert m.Released().etcd[m.ip].value.subnet == Some(m.c) && m.c !in m.Released().pool.taken;
  }

  lemma SharedNamesAreUnsafe(setup: Setup, names: Naming, name: string, gone: uint32, ip: uint32)
    requires setup.cfg.Valid() && names(name, gone) && names(name, ip) && gone != ip
    ensures !AlwaysSafe(setup, names)
  {
    var c := FirstSubnet(setup.cfg);
    var m := Moved(name, gone, ip, c);
    SharedNameReleasesUsedSubnet(setup, m);
    MovedIsAllowed(setup, names, m);
    assert !SafeEnd(setup, Started(setup.cfg, m.Before()), m.Run());
  }

  lemma MovedIsAllowed(setup: Setup, names: Naming, m: Moved)
    requires setup.cfg.Valid() && InPlace(setup.cfg, m.c) && names(m.name, m.gone) && names(m.name, m.ip) && m.gone != m.ip
    ensures InitialUnder(setup, names, m.Before().etcd) && AllUnder(names, m.Run())
  {
  }

  // ---------------------------------------------------------------- exactly the one-to-one namings

  /** For every configuration and every naming with plain names: all runs are safe if and only if no address
      has two names and no name is for two addresses. */
  lemma SafeIffOneToOne(setup: Setup, names: Naming)
    requires setup.cfg.Valid() && Plain(names)
    ensures AlwaysSafe(setup, names) <==> OneName(names) && Unshared(names)
  {
    if !OneName(names) {
      var ip, was, now :| names(was, ip) && names(now, ip) && was != now;
      TwoNamesAreUnsafe(setup, names, ip, was, now);
    } else if !Unshared(names) {
      var name, gone, ip :| names(name, gone) && names(name, ip) && gone != ip;
      SharedNamesAreUnsafe(setup, names, name, gone, ip);
    } else {
      OneToOneIsSafe(setup, names);
    }
  }
}
