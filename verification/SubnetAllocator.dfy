/** The subnet allocator: an allocation map searched cyclically (pkg/snalloc/subnet_allocator.go). */
module SubnetAllocator {
  import opened Prelude
  import opened Word32
  import opened Cidrs
  import opened SubnetNumbering

  // ---------------------------------------------------------------- specification

  /** The allocator's state: the cursor and the networks marked in use. */
  datatype Pool = Pool(next: nat, taken: set<Cidr>)

  /** `subnets` lists the subnets of a network by number. */
  ghost predicate IsNumbering(cfg: Config, subnets: seq<Cidr>)
    requires cfg.Valid()
  {
    && |subnets| == cfg.Count()
    && forall n {:trigger cfg.Subnet(n)} :: 0 <= n < |subnets| ==> subnets[n] == cfg.Subnet(n)
  }

  ghost function Numbered(cfg: Config): (subnets: seq<Cidr>)
    requires cfg.Valid()
    ensures IsNumbering(cfg, subnets)
  {
    seq(cfg.Count(), n requires 0 <= n < cfg.Count() => cfg.Subnet(n))
  }

  /** The `i`-th number the search looks at: (i + next) mod count, for a cursor in [0, count]. */
  function Probe(subnets: seq<Cidr>, pool: Pool, i: nat): (n: nat)
    requires i < |subnets|
    ensures n < |subnets|
  {
    var start := if pool.next < |subnets| then pool.next else 0;
    if i + start < |subnets| then i + start else i + start - |subnets|
  }

  lemma ProbeIsModulo(subnets: seq<Cidr>, pool: Pool, i: nat)
    requires i < |subnets| && pool.next <= |subnets| && 2 * |subnets| <= WORD
    ensures i < WORD && pool.next < WORD && Add(i, pool.next) == i + pool.next
    ensures (i + pool.next) % |subnets| == Probe(subnets, pool, i)
  {
    assert Add(i, pool.next) == i + pool.next;
    if pool.next == |subnets| {
      DivModUnique(i + pool.next, |subnets|, 1, i);
    } else if i + pool.next < |subnets| {
      DivModUnique(i + pool.next, |subnets|, 0, i + pool.next);
    } else {
      DivModUnique(i + pool.next, |subnets|, 1, i + pool.next - |subnets|);
    }
  }

  /** The first number at or after probe `i` whose subnet is not in use. */
  function FirstFree(subnets: seq<Cidr>, pool: Pool, i: nat): (r: Option<nat>)
    requires i <= |subnets|
    ensures r.Some? ==> r.value < |subnets| && subnets[r.value] !in pool.taken
    decreases |subnets| - i
  {
    if i == |subnets| then None
    else if subnets[Probe(subnets, pool, i)] !in pool.taken then Some(Probe(subnets, pool, i))
    else FirstFree(subnets, pool, i + 1)
  }

  function Allocate(subnets: seq<Cidr>, pool: Pool): (Pool, Option<Cidr>)
  {
    match FirstFree(subnets, pool, 0)
    case Some(n) => (Pool(n + 1, pool.taken + {subnets[n]}), Some(subnets[n]))
    case None => (Pool(0, pool.taken), None)
  }

  function Release(pool: Pool, c: Cidr): Pool {
    pool.(taken := pool.taken - {c})
  }

  // ---------------------------------------------------------------- the search

  /** A found number is the cyclically first free one; nothing found means nothing is free. */
  lemma {:induction false} SearchIsExhaustive(subnets: seq<Cidr>, pool: Pool, i: nat)
    requires i <= |subnets|
    ensures match FirstFree(subnets, pool, i)
      case Some(n) => exists k :: i <= k < |subnets| && n == Probe(subnets, pool, k)
                       && forall j :: i <= j < k ==> subnets[Probe(subnets, pool, j)] in pool.taken
      case None => forall k :: i <= k < |subnets| ==> subnets[Probe(subnets, pool, k)] in pool.taken
    decreases |subnets| - i
  {
    if i < |subnets| && subnets[Probe(subnets, pool, i)] in pool.taken {
      SearchIsExhaustive(subnets, pool, i + 1);
    }
  }

  lemma EveryNumberProbed(subnets: seq<Cidr>, pool: Pool, n: nat)
    requires n < |subnets|
    ensures exists k: nat :: k < |subnets| && Probe(subnets, pool, k) == n
  {
    var start := if pool.next < |subnets| then pool.next else 0;
    assert Probe(subnets, pool, if n >= start then n - start else n + |subnets| - start) == n;
  }

  /** Allocation fails exactly when every numbered subnet is marked in use. */
  lemma FailsIffExhausted(subnets: seq<Cidr>, pool: Pool)
    ensures Allocate(subnets, pool).1.None? <==> forall c :: c in subnets ==> c in pool.taken
  {
    SearchIsExhaustive(subnets, pool, 0);
    forall n: nat | n < |subnets| && FirstFree(subnets, pool, 0).None?
      ensures subnets[n] in pool.taken
    {
      EveryNumberProbed(subnets, pool, n);
    }
  }

  /** The search goes on behind the subnet handed out last, and starts over once nothing was free. */
  lemma SearchGoesOn(subnets: seq<Cidr>, pool: Pool)
    requires |subnets| > 0
    ensures var (pool', c) := Allocate(subnets, pool);
      match FirstFree(subnets, pool, 0)
      case Some(n) => c == Some(subnets[n]) && Probe(subnets, pool', 0) == (if n + 1 == |subnets| then 0 else n + 1)
      case None => c == None && Probe(subnets, pool', 0) == 0
  {
  }

  // ---------------------------------------------------------------- runs

  datatype Op = Get | Put(c: Cidr)

  function Step(network: Cidr, subnets: seq<Cidr>, pool: Pool, op: Op): Pool
    requires network.len <= 32
  {
    match op
    case Get => Allocate(subnets, pool).0
    case Put(c) => if network.Contains(c.addr) then Release(pool, c) else pool
  }

  function Run(network: Cidr, subnets: seq<Cidr>, pool: Pool, ops: seq<Op>): Pool
    requires network.len <= 32
    decreases |ops|
  {
    if ops == [] then pool else Run(network, subnets, Step(network, subnets, pool, ops[0]), ops[1..])
  }

  /** What the constructor leaves in the map: masked networks whose address is in the network. */
  ghost predicate InNetwork(cfg: Config, pool: Pool)
    requires cfg.Valid()
  {
    forall c :: c in pool.taken ==> c.Valid() && cfg.network.Contains(c.addr)
  }

  /** Every network in use has the allocator's own prefix length. */
  ghost predicate Uniform(cfg: Config, pool: Pool) {
    forall c :: c in pool.taken ==> c.len + cfg.hostBits == 32
  }

  ghost predicate PairwiseDisjoint(taken: set<Cidr>) {
    forall a, b :: a in taken && b in taken && a != b && a.len <= 32 && b.len <= 32 ==> !Overlap(a, b)
  }

  lemma UniformIsDisjoint(cfg: Config, pool: Pool)
    requires cfg.Valid() && InNetwork(cfg, pool) && Uniform(cfg, pool)
    ensures PairwiseDisjoint(pool.taken)
  {
    forall a, b | a in pool.taken && b in pool.taken && a != b
      ensures !Overlap(a, b)
    {
      SameSizeOverlap(a, b);
    }
  }

  lemma StepKeepsUniform(cfg: Config, pool: Pool, op: Op)
    requires cfg.Valid() && InNetwork(cfg, pool) && Uniform(cfg, pool)
    ensures var p := Step(cfg.network, Numbered(cfg), pool, op);
      && InNetwork(cfg, p) && Uniform(cfg, p)
      && (pool.next <= cfg.Count() ==> p.next <= cfg.Count())
  {
    var subnets := Numbered(cfg);
    if op.Get? && FirstFree(subnets, pool, 0).Some? {
      var n := FirstFree(subnets, pool, 0).value;
      SubnetInsideNetwork(cfg, n, cfg.Subnet(n).addr);
    }
  }

  /** Over any run the networks in use stay inside the cluster network and share no address. */
  lemma {:induction false} RunKeepsDisjoint(cfg: Config, pool: Pool, ops: seq<Op>)
    requires cfg.Valid() && InNetwork(cfg, pool) && Uniform(cfg, pool)
    ensures var p := Run(cfg.network, Numbered(cfg), pool, ops);
      && InNetwork(cfg, p) && Uniform(cfg, p) && PairwiseDisjoint(p.taken)
      && (pool.next <= cfg.Count() ==> p.next <= cfg.Count())
    decreases |ops|
  {
    if ops == [] {
      UniformIsDisjoint(cfg, pool);
    } else {
      StepKeepsUniform(cfg, pool, ops[0]);
      RunKeepsDisjoint(cfg, Step(cfg.network, Numbered(cfg), pool, ops[0]), ops[1..]);
    }
  }

  /** A network in use stays in use, and so is not handed out, until it is released. */
  lemma {:induction false} InUseIsNotHandedOut(network: Cidr, subnets: seq<Cidr>, pool: Pool, ops: seq<Op>, c: Cidr)
    requires network.len <= 32 && c in pool.taken && Put(c) !in ops
    ensures c in Run(network, subnets, pool, ops).taken
    ensures Allocate(subnets, Run(network, subnets, pool, ops)).1 != Some(c)
    decreases |ops|
  {
    if ops != [] {
      InUseIsNotHandedOut(network, subnets, Step(network, subnets, pool, ops[0]), ops[1..], c);
    }
  }

  // ---------------------------------------------------------------- why the prefix length matters

  ghost function FreeSubnets(subnets: seq<Cidr>, pool: Pool): set<Cidr> {
    set c | c in subnets && c !in pool.taken
  }

  /** Allocating often enough hands out every numbered subnet and gives nothing back. */
  lemma {:induction false} AllocateUntilFull(network: Cidr, subnets: seq<Cidr>, pool: Pool) returns (ops: seq<Op>)
    requires network.len <= 32
    ensures pool.taken <= Run(network, subnets, pool, ops).taken
    ensures forall c :: c in subnets ==> c in Run(network, subnets, pool, ops).taken
    decreases |FreeSubnets(subnets, pool)|
  {
    FailsIffExhausted(subnets, pool);
    if Allocate(subnets, pool).1.None? {
      ops := [];
    } else {
      var c := Allocate(subnets, pool).1.value;
      var after := Allocate(subnets, pool).0;
      assert FreeSubnets(subnets, after) == FreeSubnets(subnets, pool) - {c};
      assert c in FreeSubnets(subnets, pool);
      var rest := AllocateUntilFull(network, subnets, after);
      ops := [Get] + rest;
      assert ops[1..] == rest;
    }
  }

  /** A network of another prefix length collides once the subnet it overlaps is handed out. */
  lemma OtherLengthCollides(cfg: Config, pool: Pool, c: Cidr) returns (ops: seq<Op>)
    requires cfg.Valid() && InNetwork(cfg, pool)
    requires c in pool.taken && c.len + cfg.hostBits != 32
    ensures !PairwiseDisjoint(Run(cfg.network, Numbered(cfg), pool, ops).taken)
  {
    ops := AllocateUntilFull(cfg.network, Numbered(cfg), pool);
    SubnetsPartitionNetwork(cfg, c.addr);
    var s := cfg.Subnet(NumberOf(cfg, c.addr));
    assert s.Contains(c.addr) && c.Contains(c.addr);
    assert Overlap(s, c) && s != c;
    assert s in Numbered(cfg);
    assert c in Run(cfg.network, Numbered(cfg), pool, ops).taken;
  }

  /** Allocation stays disjoint over every run if and only if the networks in use at the start
      all have the allocator's prefix length (which makes them disjoint). */
  lemma DisjointForeverIffUniform(cfg: Config, pool: Pool)
    requires cfg.Valid() && InNetwork(cfg, pool)
    ensures (forall ops :: PairwiseDisjoint(Run(cfg.network, Numbered(cfg), pool, ops).taken))
        <==> Uniform(cfg, pool)
  {
    if Uniform(cfg, pool) {
      forall ops ensures PairwiseDisjoint(Run(cfg.network, Numbered(cfg), pool, ops).taken) {
        RunKeepsDisjoint(cfg, pool, ops);
      }
    } else {
      var c :| c in pool.taken && c.len + cfg.hostBits != 32;
      var ops := OtherLengthCollides(cfg, pool, c);
    }
  }

  /** 10.1.0.0/16 handed out in subnets of 2^6 addresses. */
  const EXAMPLE := Config(Cidr(0x0A01_0000, 16), 6)

  lemma ExampleValid()
    ensures EXAMPLE.Valid()
    ensures Cidr(0x0A01_0000, 24).Valid()
  {
    assert Pow2(8) == 256;
    Pow2Sum(8, 8);
  }

  /** With the cursor at the start and its first subnet unmarked, a network hands out that subnet. */
  lemma FirstAllocation(cfg: Config, taken: set<Cidr>)
    requires cfg.Valid() && Cidr(cfg.network.addr, 32 - cfg.hostBits) !in taken
    ensures Allocate(Numbered(cfg), Pool(0, taken)).1 == Some(Cidr(cfg.network.addr, 32 - cfg.hostBits))
  {
    DivModUnique(0, Pow2(cfg.SubnetBits() - cfg.LeftShift()), 0, 0);
    assert cfg.Position(0) == 0;
    assert Probe(Numbered(cfg), Pool(0, taken), 0) == 0;
    assert cfg.Subnet(0) == Cidr(cfg.network.addr, 32 - cfg.hostBits);
  }

  /** One existing /24 in a network handed out in /26 pieces is enough to get an overlap. */
  lemma WrongPrefixOverlaps()
    ensures EXAMPLE.Valid()
    ensures Allocate(Numbered(EXAMPLE), Pool(0, {Cidr(0x0A01_0000, 24)})).1 == Some(Cidr(0x0A01_0000, 26))
    ensures Overlap(Cidr(0x0A01_0000, 24), Cidr(0x0A01_0000, 26))
  {
    ExampleValid();
    FirstAllocation(EXAMPLE, {Cidr(0x0A01_0000, 24)});
    var ip: uint32 := 0x0A01_0000;
    assert Cidr(ip, 24).Contains(ip) && Cidr(ip, 26).Contains(ip);
  }

  // ---------------------------------------------------------------- the allocator object

  datatype AllocError =
    | ParseFailure
    | HostCapacityZero
    | CapacityTooLarge
    | NoSubnetsAvailable
    | NotInNetwork
    | AlreadyAvailable

  class Allocator {
    const network: Cidr
    const hostBits: uint32
    const shuffle: Shuffle
    var next: uint32
    var allocMap: map<Cidr, bool>
    ghost const subnets: seq<Cidr>

    ghost function Cfg(): Config { Config(network, hostBits) }

    ghost predicate Valid()
      reads this
    {
      && Cfg().Valid()
      && shuffle == ShuffleFor(Cfg())
      && IsNumbering(Cfg(), subnets)
      && next <= |subnets|
    }

    ghost function View(): Pool
      reads this
    {
      Pool(next, TrueKeys(allocMap))
    }

    constructor (network: Cidr, hostBits: uint32, amap: map<Cidr, bool>)
      requires network.Valid() && 0 < hostBits <= 32 - network.len
      ensures Valid() && Cfg() == Config(network, hostBits)
      ensures View() == Pool(0, TrueKeys(amap))
    {
      this.network := network;
      this.hostBits := hostBits;
      this.shuffle := ShuffleFor(Config(network, hostBits));
      this.next := 0;
      this.allocMap := amap;
      this.subnets := Numbered(Config(network, hostBits));
    }

    /** 1 << numSubnetBits, which fits in 32 bits together with its double. */
    method NumSubnets() returns (count: uint32)
      requires Valid()
      ensures count == |subnets| && 2 * count <= WORD
    {
      CountFitsWord(Cfg());
      var numSubnetBits := Sub(Sub(32, network.len), hostBits);
      count := Shl(1, numSubnetBits);
    }

    /** The number and subnet the search looks at in round `i`. */
    predicate InUse(c: Cidr)
      reads this
      ensures InUse(c) <==> c in View().taken
    {
      c in allocMap && allocMap[c]
    }

    method Candidate(i: uint32, numSubnets: uint32) returns (n: uint32, c: Cidr)
      requires Valid() && i < numSubnets == |subnets| && 2 * numSubnets <= WORD
      ensures n < |subnets| && c == subnets[n]
      ensures FirstFree(subnets, View(), i)
           == if c in View().taken then FirstFree(subnets, View(), i + 1) else Some(n)
    {
      ProbeIsModulo(subnets, View(), i);
      n := Add(i, next) % numSubnets;
      ProbeStep(subnets, View(), i);
      c := Generate(n);
    }

    method Generate(n: uint32) returns (c: Cidr)
      requires Valid() && n < |subnets|
      ensures c == subnets[n]
    {
      CandidateIsSubnet(Cfg(), n);
      c := Cidr(SubnetNumbering.Candidate(network.addr, hostBits, shuffle, n), 32 - hostBits);
    }

    method GetNetwork() returns (r: Result<Cidr, AllocError>)
      requires Valid()
      modifies this
      ensures Valid()
      ensures View() == Allocate(subnets, old(View())).0
      ensures match Allocate(subnets, old(View())).1
              case Some(c) => r == Ok(c)
              case None => r == Err(NoSubnetsAvailable)
    {
      ghost var pool := View();
      var numSubnets := NumSubnets();
      var i: uint32 := 0;
      while i < numSubnets
        invariant i <= numSubnets == |subnets|
        invariant next == pool.next && allocMap == old(allocMap)
        invariant FirstFree(subnets, pool, 0) == FirstFree(subnets, pool, i)
      {
        var n, genSubnet := Candidate(i, numSubnets);
        if !InUse(genSubnet) {
          Found(subnets, pool, n);
          Mark(n, genSubnet);
          return Ok(genSubnet);
        }
        i := Add(i, 1);
      }
      next := 0;
      return Err(NoSubnetsAvailable);
    }

    method Mark(n: uint32, c: Cidr)
      requires Valid() && n < |subnets| && 2 * |subnets| <= WORD
      modifies this
      ensures Valid() && View() == Pool(n + 1, old(View()).taken + {c})
    {
      MarkTrue(allocMap, c);
      allocMap := allocMap[c := true];
      next := Add(n, 1);
    }

    method ReleaseNetwork(c: Cidr) returns (r: Result<(), AllocError>)
      requires Valid()
      modifies this
      ensures Valid()
      ensures View() == Step(network, subnets, old(View()), Put(c))
      ensures r == if !network.Contains(c.addr) then Err(NotInNetwork)
                   else if c !in old(View()).taken then Err(AlreadyAvailable)
                   else Ok(())
    {
      if !network.Contains(c.addr) {
        return Err(NotInNetwork);
      }
      if !(c in allocMap && allocMap[c]) {
        return Err(AlreadyAvailable);
      }
      MarkFalse(allocMap, c);
      allocMap := allocMap[c := false];
      return Ok(());
    }
  }

  lemma ProbeStep(subnets: seq<Cidr>, pool: Pool, i: nat)
    requires i < |subnets|
    ensures var n := Probe(subnets, pool, i);
      FirstFree(subnets, pool, i) == if subnets[n] in pool.taken then FirstFree(subnets, pool, i + 1) else Some(n)
  {
  }

  lemma Found(subnets: seq<Cidr>, pool: Pool, n: nat)
    requires FirstFree(subnets, pool, 0) == Some(n)
    ensures n < |subnets|
    ensures Allocate(subnets, pool) == (Pool(n + 1, pool.taken + {subnets[n]}), Some(subnets[n]))
  {
  }

  ghost function TrueKeys(m: map<Cidr, bool>): set<Cidr> {
    set c | c in m && m[c]
  }

  lemma MarkTrue(m: map<Cidr, bool>, c: Cidr)
    ensures TrueKeys(m[c := true]) == TrueKeys(m) + {c}
  {
  }

  lemma MarkFalse(m: map<Cidr, bool>, c: Cidr)
    ensures TrueKeys(m[c := false]) == TrueKeys(m) - {c}
  {
  }

  lemma HalfWord(k: nat)
    requires k < 32
    ensures 2 * Pow2(k) <= WORD && Shl(1, k) == Pow2(k)
  {
    Pow2Word();
    Pow2Monotone(k + 1, 32);
  }

  lemma ExactSub(x: uint32, y: uint32)
    requires y <= x
    ensures Sub(x, y) == x - y
  {
  }

  /** 2^subnetBits is at most 2^31, so neither the shift nor `i + next` wraps. */
  lemma CountFitsWord(cfg: Config)
    requires cfg.Valid()
    ensures 2 * cfg.Count() <= WORD
    ensures Shl(1, Sub(Sub(32, cfg.network.len), cfg.hostBits)) == cfg.Count()
  {
    HalfWord(cfg.SubnetBits());
    ExactSub(32, cfg.network.len);
    ExactSub(32 - cfg.network.len, cfg.hostBits);
  }

  /** `NewSubnetAllocator`; `None` stands for text that does not parse as an IPv4 network. */
  method NewSubnetAllocator(network: Option<Cidr>, hostBits: uint32, inUse: seq<Option<Cidr>>)
    returns (r: Result<Allocator, AllocError>)
    requires network.Some? ==> network.value.Valid()
    ensures r.Ok? <==> network.Some? && Config(network.value, hostBits).Valid()
    ensures r.Err? ==> r.error == if network.None? then ParseFailure
                                  else if hostBits == 0 then HostCapacityZero
                                  else CapacityTooLarge
    ensures r.Ok? ==> && fresh(r.value) && r.value.Valid()
                      && r.value.Cfg() == Config(network.value, hostBits)
                      && r.value.View().next == 0
                      && forall c :: c in r.value.View().taken <==> Some(c) in inUse && network.value.Contains(c.addr)
  {
    if network.None? {
      return Err(ParseFailure);
    }
    var netIP := network.value;
    if hostBits == 0 {
      return Err(HostCapacityZero);
    } else if hostBits > Sub(32, netIP.len) {
      return Err(CapacityTooLarge);
    }
    var amap: map<Cidr, bool> := map[];
    for i := 0 to |inUse|
      invariant forall c :: c in TrueKeys(amap) <==> Some(c) in inUse[..i] && netIP.Contains(c.addr)
    {
      assert inUse[..i + 1] == inUse[..i] + [inUse[i]];
      if inUse[i].Some? && netIP.Contains(inUse[i].value.addr) {
        MarkTrue(amap, inUse[i].value);
        amap := amap[inUse[i].value := true];
      }
    }
    assert inUse[..|inUse|] == inUse;
    var a := new Allocator(netIP, hostBits, amap);
    r := Ok(a);
  }
}
