/** The numbering of host subnets inside the cluster network (pkg/snalloc). */
module SubnetNumbering {
  import opened Word32
  import opened Cidrs

  /** What a subnet allocator is built for; `Valid` is what its constructor lets through. */
  datatype Config = Config(network: Cidr, hostBits: nat) {
    ghost predicate Valid() {
      && network.Valid()
      && 0 < hostBits <= 32 - network.len
    }

    function SubnetBits(): nat
      requires network.len + hostBits <= 32
    {
      32 - network.len - hostBits
    }

    function Count(): nat
      requires network.len + hostBits <= 32
    {
      Pow2(SubnetBits())
    }

    /** How many bits of the subnet number wrap around into the octet shared with the host part. */
    function LeftShift(): (shift: nat)
      requires hostBits > 0 && network.len + hostBits <= 32
      ensures shift == 0 || (shift < SubnetBits() && hostBits + shift <= 32 - network.len)
    {
      if hostBits % 8 != 0 && (hostBits - 1) / 8 != (hostBits + SubnetBits() - 1) / 8 then
        8 - hostBits % 8
      else
        0
    }

    /** Where subnet number `n` lies, counted in subnets from the start of the network. */
    function Position(n: nat): nat
      requires hostBits > 0 && network.len + hostBits <= 32
    {
      Rotated(Pow2(SubnetBits() - LeftShift()), Pow2(LeftShift()), n)
    }

    /** Which subnet number lies at `position`. */
    function NumberAt(position: nat): nat
      requires hostBits > 0 && network.len + hostBits <= 32
    {
      Rotated(Pow2(LeftShift()), Pow2(SubnetBits() - LeftShift()), position)
    }

    /** Subnet number `n` of the network. */
    function Subnet(n: nat): (c: Cidr)
      requires Valid() && n < Count()
      ensures c.Valid() && c.len == 32 - hostBits
      ensures c.addr == network.addr + Position(n) * Pow2(hostBits)
    {
      SubnetWellPlaced(this, n);
      Cidr(network.addr + Position(n) * Pow2(hostBits), 32 - hostBits)
    }
  }

  /** Writes `n < q * l` as a pair of digits (n / q, n % q) and swaps the digits. */
  function Rotated(q: nat, l: nat, n: nat): nat
    requires q > 0
  {
    (n % q) * l + n / q
  }

  lemma DigitBelow(n: nat, q: nat, l: nat)
    requires q > 0 && n < q * l
    ensures n / q < l
  {
    DivModIdentity(n, q);
    if n / q >= l {
      MulMonotone(l, n / q, q);
      assert false;
    }
  }

  lemma RotatedInverse(q: nat, l: nat, n: nat)
    requires q > 0 && l > 0 && n < q * l
    ensures Rotated(q, l, n) < q * l
    ensures Rotated(l, q, Rotated(q, l, n)) == n
  {
    DivModIdentity(n, q);
    DigitBelow(n, q, l);
    MulMonotone(n % q + 1, q, l);
    DivModUnique(Rotated(q, l, n), l, n % q, n / q);
  }

  lemma Pow2Split(a: nat, b: nat, c: nat)
    requires a + b == c
    ensures Pow2(a) * Pow2(b) == Pow2(c) && Pow2(b) * Pow2(a) == Pow2(c)
  {
    Pow2Sum(a, b);
    Pow2Sum(b, a);
  }

  lemma DigitsCoverNumbers(cfg: Config)
    requires cfg.Valid()
    ensures Pow2(cfg.SubnetBits() - cfg.LeftShift()) * Pow2(cfg.LeftShift()) == cfg.Count()
    ensures Pow2(cfg.LeftShift()) * Pow2(cfg.SubnetBits() - cfg.LeftShift()) == cfg.Count()
  {
    Pow2Split(cfg.SubnetBits() - cfg.LeftShift(), cfg.LeftShift(), cfg.SubnetBits());
  }

  /** `Position` and `NumberAt` undo each other on [0, Count). */
  lemma NumberingBijective(cfg: Config, n: nat)
    requires cfg.Valid() && n < cfg.Count()
    ensures cfg.Position(n) < cfg.Count() && cfg.NumberAt(cfg.Position(n)) == n
    ensures cfg.NumberAt(n) < cfg.Count() && cfg.Position(cfg.NumberAt(n)) == n
  {
    DigitsCoverNumbers(cfg);
    RotatedInverse(Pow2(cfg.SubnetBits() - cfg.LeftShift()), Pow2(cfg.LeftShift()), n);
    RotatedInverse(Pow2(cfg.LeftShift()), Pow2(cfg.SubnetBits() - cfg.LeftShift()), n);
  }

  /** When subnets end inside an octet, the first 2^(bits - shift) numbers count in steps of whole octets,
      and only then do the numbers start over one subnet further on. */
  lemma WholeOctetsFirst(cfg: Config, n: nat)
    requires cfg.Valid() && n < cfg.Count() && cfg.LeftShift() > 0
    ensures (cfg.hostBits + cfg.LeftShift()) % 8 == 0
    ensures var first := Pow2(cfg.SubnetBits() - cfg.LeftShift());
      cfg.Subnet(n).addr
      == cfg.network.addr + (n % first) * Pow2(cfg.hostBits + cfg.LeftShift()) + (n / first) * Pow2(cfg.hostBits)
  {
    ShiftFillsOctet(cfg.hostBits);
    Pow2Sum(cfg.hostBits, cfg.LeftShift());
    RotatedScaled(Pow2(cfg.SubnetBits() - cfg.LeftShift()), Pow2(cfg.LeftShift()), n, Pow2(cfg.hostBits));
  }

  lemma ShiftFillsOctet(hostBits: nat)
    ensures (hostBits + (8 - hostBits % 8)) % 8 == 0
  {
    DivModIdentity(hostBits, 8);
    DivModUnique(hostBits + (8 - hostBits % 8), 8, hostBits / 8 + 1, 0);
  }

  lemma RotatedScaled(q: nat, l: nat, n: nat, h: nat)
    requires q > 0
    ensures Rotated(q, l, n) * h == (n % q) * (h * l) + (n / q) * h
  {
    DivModIdentity(n, q);
    Distributed(n % q, n / q, l, h);
  }

  lemma Distributed(hi: nat, lo: nat, l: nat, h: nat)
    ensures (hi * l + lo) * h == hi * (h * l) + lo * h
  {
  }

  /** A block number below 2^bits, scaled, ends before the next multiple of the network size. */
  lemma BlockEndsInside(position: nat, bits: nat, h: nat)
    requires position < Pow2(bits)
    ensures position * Pow2(h) + Pow2(h) <= Pow2(bits + h)
    ensures position * Pow2(h) >= 0
  {
    Pow2Sum(bits, h);
    MulMonotone(position + 1, Pow2(bits), Pow2(h));
    MulMonotone(0, position, Pow2(h));
  }

  lemma LastBlockEnds(a: nat, size: nat, k: nat)
    requires size > 0 && a % size == 0 && a < size * k
    ensures a + size <= size * k
  {
    DivModIdentity(a, size);
    DigitBelow(a, size, k);
    MulMonotone(a / size + 1, k, size);
  }

  lemma NetworkEndsInside(c: Cidr)
    requires c.Valid()
    ensures c.addr + Pow2(32 - c.len) <= WORD
  {
    Pow2Word();
    Pow2Sum(32 - c.len, c.len);
    LastBlockEnds(c.addr, Pow2(32 - c.len), Pow2(c.len));
  }

  lemma SumOfMultiples(a: nat, b: nat, d: nat, size: nat, k: nat)
    requires d > 0 && size == k * d && size > 0 && a % size == 0
    ensures (a + b * d) % d == 0
  {
    DivModIdentity(a, size);
    var q := a / size;
    assert size * q == d * (k * q);
    assert d * (k * q) + d * b == d * (k * q + b);
    DivModUnique(a + b * d, d, k * q + b, 0);
  }

  lemma SubnetWellPlaced(cfg: Config, n: nat)
    requires cfg.Valid() && n < cfg.Count()
    ensures var a := cfg.network.addr + cfg.Position(n) * Pow2(cfg.hostBits);
            && cfg.network.addr <= a < WORD
            && a + Pow2(cfg.hostBits) <= cfg.network.addr + Pow2(32 - cfg.network.len)
            && a % Pow2(cfg.hostBits) == 0
  {
    NumberingBijective(cfg, n);
    BlockEndsInside(cfg.Position(n), cfg.SubnetBits(), cfg.hostBits);
    NetworkEndsInside(cfg.network);
    Pow2Sum(cfg.SubnetBits(), cfg.hostBits);
    SumOfMultiples(cfg.network.addr, cfg.Position(n), Pow2(cfg.hostBits),
                   Pow2(32 - cfg.network.len), Pow2(cfg.SubnetBits()));
  }

  /** Every address of a subnet is an address of the network. */
  lemma SubnetInsideNetwork(cfg: Config, n: nat, ip: uint32)
    requires cfg.Valid() && n < cfg.Count() && cfg.Subnet(n).Contains(ip)
    ensures cfg.network.Contains(ip)
  {
    SubnetWellPlaced(cfg, n);
    ContainsIsRange(cfg.Subnet(n), ip);
    ContainsIsRange(cfg.network, ip);
  }

  /** Which block of the network an address is in. */
  function BlockOf(cfg: Config, ip: uint32): (block: nat)
    requires cfg.Valid() && cfg.network.Contains(ip)
    ensures block < cfg.Count()
  {
    ContainsIsRange(cfg.network, ip);
    Pow2Split(cfg.hostBits, cfg.SubnetBits(), 32 - cfg.network.len);
    DivModIdentity(ip - cfg.network.addr, Pow2(cfg.hostBits));
    DigitBelow(ip - cfg.network.addr, Pow2(cfg.hostBits), cfg.Count());
    (ip - cfg.network.addr) / Pow2(cfg.hostBits)
  }

  lemma SubnetHoldsBlock(cfg: Config, n: nat, ip: uint32)
    requires cfg.Valid() && n < cfg.Count() && cfg.network.Contains(ip)
    ensures cfg.Subnet(n).Contains(ip) <==> cfg.Position(n) == BlockOf(cfg, ip)
  {
    ContainsIsRange(cfg.network, ip);
    ContainsIsRange(cfg.Subnet(n), ip);
    InBlock(ip - cfg.network.addr, Pow2(cfg.hostBits), cfg.Position(n));
  }

  lemma InBlock(off: nat, size: nat, k: nat)
    requires size > 0
    ensures k * size <= off < k * size + size <==> k == off / size
  {
    DivModIdentity(off, size);
    if k * size <= off < k * size + size {
      DivModUnique(off, size, k, off - k * size);
    }
  }

  /** The number of the subnet that holds `ip`. */
  function NumberOf(cfg: Config, ip: uint32): nat
    requires cfg.Valid() && cfg.network.Contains(ip)
  {
    cfg.NumberAt(BlockOf(cfg, ip))
  }

  /** Each address of the network lies in exactly one numbered subnet. */
  lemma SubnetsPartitionNetwork(cfg: Config, ip: uint32)
    requires cfg.Valid() && cfg.network.Contains(ip)
    ensures NumberOf(cfg, ip) < cfg.Count()
    ensures forall n: nat | n < cfg.Count() :: cfg.Subnet(n).Contains(ip) <==> n == NumberOf(cfg, ip)
  {
    NumberingBijective(cfg, BlockOf(cfg, ip));
    forall n: nat | n < cfg.Count()
      ensures cfg.Subnet(n).Contains(ip) <==> n == NumberOf(cfg, ip)
    {
      NumberingBijective(cfg, n);
      SubnetHoldsBlock(cfg, n, ip);
    }
  }

  /** Distinct numbers give subnets with no address in common. */
  lemma SubnetsDisjoint(cfg: Config, m: nat, n: nat)
    requires cfg.Valid() && m < cfg.Count() && n < cfg.Count()
    ensures m == n <==> Overlap(cfg.Subnet(m), cfg.Subnet(n))
    ensures m == n <==> cfg.Subnet(m) == cfg.Subnet(n)
  {
    SameSizeOverlap(cfg.Subnet(m), cfg.Subnet(n));
    var ip := cfg.Subnet(m).addr;
    assert cfg.Subnet(m).Contains(ip);
    SubnetInsideNetwork(cfg, m, ip);
    SubnetsPartitionNetwork(cfg, ip);
  }

  // ---------------------------------------------------------------- the bit arithmetic

  /** The shifts and masks the constructor works out. */
  datatype Shuffle = Shuffle(leftShift: nat, leftMask: uint32, rightShift: nat, rightMask: uint32)

  function ShuffleFor(cfg: Config): Shuffle
    requires cfg.hostBits > 0 && cfg.network.len + cfg.hostBits <= 32
  {
    var shift := cfg.LeftShift();
    if shift != 0 then
      Shuffle(shift,
              Sub(Shl(1, 32 - cfg.network.len), 1),
              cfg.SubnetBits() - shift,
              Shl(Sub(Shl(1, shift), 1), cfg.hostBits))
    else
      Shuffle(0, 0xFFFF_FFFF, 0, 0)
  }

  /** The address the allocation loop computes for candidate `n`. */
  function Candidate(base: uint32, hostBits: nat, s: Shuffle, n: uint32): nat {
    var shifted := Shl(n, hostBits);
    BitOr(BitOr(base, BitAnd(Shl(shifted, s.leftShift), s.leftMask)),
          BitAnd(Shr(shifted, s.rightShift), s.rightMask))
  }

  lemma ShlNoOverflow(n: uint32, k: nat)
    requires n * Pow2(k) < WORD
    ensures Shl(n, k) == n * Pow2(k)
  {
    MulMonotone(0, n, Pow2(k));
  }

  lemma WrapOnes(p: nat)
    requires 1 <= p <= WORD
    ensures Sub(p % WORD, 1) == p - 1
  {
  }

  /** All-ones below bit k, as the source writes it, including the wrap at k = 32. */
  lemma OnesBelow(k: nat)
    requires k <= 32
    ensures Pow2(k) <= WORD
    ensures Sub(Shl(1, k), 1) == Pow2(k) - 1
  {
    Pow2Word();
    Pow2Monotone(k, 32);
    var p := Pow2(k);
    assert Shl(1, k) == p % WORD;
    WrapOnes(p);
  }

  lemma ShiftTwice(n: nat, h: nat, l: nat)
    ensures 0 <= n * Pow2(h) && 0 <= n * Pow2(h + l)
    ensures n * Pow2(h) * Pow2(l) == n * Pow2(h + l)
  {
    MulMonotone(0, n, Pow2(h));
    MulMonotone(0, n, Pow2(h + l));
    Pow2Sum(h, l);
    assert n * Pow2(h) * Pow2(l) == n * (Pow2(h) * Pow2(l));
  }

  /** Masking below bit w <= 32 undoes the wrap of a 32-bit left shift. */
  lemma MaskAfterShl(x: uint32, l: nat, w: nat)
    requires w <= 32
    ensures x * Pow2(l) >= 0
    ensures BitAnd(Shl(x, l), Pow2(w) - 1) == x * Pow2(l) % Pow2(w)
  {
    MulMonotone(0, x, Pow2(l));
    Pow2Word();
    Pow2Sum(w, 32 - w);
    AndLowMask(Shl(x, l), w);
    ModOfMultiple(x * Pow2(l), Pow2(w), Pow2(32 - w));
  }

  lemma ShiftFits(n: nat, h: nat, b: nat)
    requires n < Pow2(b) && b + h <= 32
    ensures 0 <= n * Pow2(h) < WORD
  {
    Pow2Word();
    BlockEndsInside(n, b, h);
    Pow2Monotone(b + h, 32);
  }

  /** The high part: the low subnet bits move above the rotated ones. */
  lemma LeftPart(n: nat, h: nat, l: nat, r: nat)
    requires n < Pow2(l + r) && h + l + r <= 32
    ensures 0 <= n * Pow2(h) < WORD
    ensures BitAnd(Shl(n * Pow2(h), l), Pow2(h + l + r) - 1) == (n % Pow2(r)) * Pow2(h + l)
  {
    ShiftFits(n, h, l + r);
    MaskAfterShl(n * Pow2(h), l, h + l + r);
    ShiftTwice(n, h, l);
    Pow2Sum(r, h + l);
    ScaledDivMod(n, Pow2(r), Pow2(h + l));
  }

  /** The low part: the top subnet bits drop into the shared octet. */
  lemma RightPart(n: nat, h: nat, l: nat, r: nat)
    requires n < Pow2(l + r) && h + l + r <= 32
    ensures 0 <= n * Pow2(h) < WORD && Pow2(l) <= WORD
    ensures BitAnd(Shr(n * Pow2(h), r), Shl(Pow2(l) - 1, h)) == (n / Pow2(r)) * Pow2(h)
    ensures n / Pow2(r) < Pow2(l)
  {
    ShiftFits(n, h, l + r);
    ShiftFits(Pow2(l) - 1, h, l);
    OnesBelow(l);
    ShlNoOverflow(Pow2(l) - 1, h);
    AndFieldMask(Shr(n * Pow2(h), r), l, h);
    FieldOfScaled(n, h, r, l);
    TopDigit(n, r, l);
  }

  lemma TopDigit(n: nat, r: nat, l: nat)
    requires n < Pow2(l + r)
    ensures 0 <= n / Pow2(r) < Pow2(l)
  {
    Pow2Sum(r, l);
    DivModIdentity(n, Pow2(r));
    DigitBelow(n, Pow2(r), Pow2(l));
  }

  lemma FieldOfScaled(n: nat, h: nat, r: nat, l: nat)
    requires n < Pow2(l + r)
    ensures 0 <= n * Pow2(h) && 0 <= n * Pow2(h) / Pow2(r)
    ensures Field(n * Pow2(h) / Pow2(r), l, h) == n / Pow2(r)
  {
    MulMonotone(0, n, Pow2(h));
    DivModIdentity(n * Pow2(h), Pow2(r));
    DivDiv(n * Pow2(h), Pow2(r), Pow2(h));
    ScaledDivMod(n, Pow2(r), Pow2(h));
    TopDigit(n, r, l);
    DivModUnique(n / Pow2(r), Pow2(l), 0, n / Pow2(r));
  }

  lemma OrAdds(x: nat, lo: nat, k: nat)
    requires x % Pow2(k) == 0 && lo < Pow2(k)
    ensures BitOr(x, lo) == x + lo
  {
    DivModIdentity(x, Pow2(k));
    var b := x / Pow2(k);
    assert x == b * Pow2(k);
    OrDisjoint(b, lo, k);
  }

  lemma Distribute(u: nat, t: nat, d: nat, l: nat)
    ensures u * (d * l) + t * d == (u * l + t) * d
  {
    assert u * (d * l) == u * l * d;
  }

  /** The three disjoint bit ranges add up. */
  lemma JoinParts(base: nat, u: nat, t: nat, h: nat, l: nat, r: nat)
    requires base % Pow2(h + l + r) == 0 && u < Pow2(r) && t < Pow2(l)
    ensures u * Pow2(h + l) >= 0 && t * Pow2(h) >= 0
    ensures BitOr(BitOr(base, u * Pow2(h + l)), t * Pow2(h))
         == base + (u * Pow2(l) + t) * Pow2(h)
  {
    BlockEndsInside(u, r, h + l);
    BlockEndsInside(t, l, h);
    OrAdds(base, u * Pow2(h + l), h + l + r);
    Pow2Sum(r, h + l);
    SumOfMultiples(base, u, Pow2(h + l), Pow2(h + l + r), Pow2(r));
    OrAdds(base + u * Pow2(h + l), t * Pow2(h), h + l);
    Pow2Sum(h, l);
    Distribute(u, t, Pow2(h), Pow2(l));
  }

  /** The shifts and masks compute exactly the numbered subnet; nothing needed overflows. */
  lemma CandidateIsSubnet(cfg: Config, n: uint32)
    requires cfg.Valid() && n < cfg.Count()
    ensures Candidate(cfg.network.addr, cfg.hostBits, ShuffleFor(cfg), n) == cfg.Subnet(n).addr
  {
    var h, l, r := cfg.hostBits, cfg.LeftShift(), cfg.SubnetBits() - cfg.LeftShift();
    CandidateJoins(cfg, n, h, l, r);
    PartsJoin(cfg, n, h, l, r);
  }

  lemma SubnetByDigits(cfg: Config, n: nat, h: nat, l: nat, r: nat)
    requires cfg.Valid() && n < cfg.Count()
    requires h == cfg.hostBits && l == cfg.LeftShift() && r == cfg.SubnetBits() - l
    ensures cfg.Subnet(n).addr == cfg.network.addr + Rotated(Pow2(r), Pow2(l), n) * Pow2(h)
  {
    assert cfg.Position(n) == Rotated(Pow2(r), Pow2(l), n);
  }

  lemma PartsJoin(cfg: Config, n: nat, h: nat, l: nat, r: nat)
    requires cfg.Valid() && n < cfg.Count()
    requires h == cfg.hostBits && l == cfg.LeftShift() && r == cfg.SubnetBits() - l
    ensures 0 <= (n % Pow2(r)) * Pow2(h + l) && 0 <= (n / Pow2(r)) * Pow2(h)
    ensures BitOr(BitOr(cfg.network.addr, (n % Pow2(r)) * Pow2(h + l)), (n / Pow2(r)) * Pow2(h)) == cfg.Subnet(n).addr
  {
    assert h + l + r == 32 - cfg.network.len && l + r == cfg.SubnetBits();
    SubnetByDigits(cfg, n, h, l, r);
    DivModIdentity(n, Pow2(r));
    TopDigit(n, r, l);
    JoinParts(cfg.network.addr, n % Pow2(r), n / Pow2(r), h, l, r);
  }

  lemma RotatedShuffle(cfg: Config, h: nat, l: nat, r: nat)
    requires cfg.Valid() && h == cfg.hostBits && l == cfg.LeftShift() && r == cfg.SubnetBits() - l && l != 0
    ensures Pow2(h + l + r) <= WORD && Pow2(l) <= WORD
    ensures ShuffleFor(cfg) == Shuffle(l, Pow2(h + l + r) - 1, r, Shl(Pow2(l) - 1, h))
  {
    assert h + l + r == 32 - cfg.network.len;
    OnesBelow(32 - cfg.network.len);
    OnesBelow(l);
  }

  lemma CandidateJoins(cfg: Config, n: uint32, h: nat, l: nat, r: nat)
    requires cfg.Valid() && n < cfg.Count()
    requires h == cfg.hostBits && l == cfg.LeftShift() && r == cfg.SubnetBits() - l
    ensures 0 <= (n % Pow2(r)) * Pow2(h + l) && 0 <= (n / Pow2(r)) * Pow2(h)
    ensures Candidate(cfg.network.addr, h, ShuffleFor(cfg), n)
         == BitOr(BitOr(cfg.network.addr, (n % Pow2(r)) * Pow2(h + l)), (n / Pow2(r)) * Pow2(h))
  {
    assert l + r == cfg.SubnetBits();
    if l != 0 {
      RotatedShuffle(cfg, h, l, r);
      RotatedCandidate(cfg.network.addr, h, l, r, n);
    } else {
      UnrotatedCandidate(cfg.network.addr, h, r, n);
    }
  }

  lemma RotatedCandidate(base: uint32, h: nat, l: nat, r: nat, n: uint32)
    requires n < Pow2(l + r) && h + l + r <= 32
    ensures Pow2(h + l + r) <= WORD && Pow2(l) <= WORD
    ensures 0 <= (n % Pow2(r)) * Pow2(h + l) && 0 <= (n / Pow2(r)) * Pow2(h)
    ensures Candidate(base, h, Shuffle(l, Pow2(h + l + r) - 1, r, Shl(Pow2(l) - 1, h)), n)
         == BitOr(BitOr(base, (n % Pow2(r)) * Pow2(h + l)), (n / Pow2(r)) * Pow2(h))
  {
    OnesBelow(h + l + r);
    LeftPart(n, h, l, r);
    ShlNoOverflow(n, h);
    RightPart(n, h, l, r);
  }

  /** Without rotation the masks let the shifted number through unchanged. */
  lemma UnrotatedCandidate(base: uint32, h: nat, r: nat, n: uint32)
    requires n < Pow2(r) && h + r <= 32
    ensures 0 <= (n % Pow2(r)) * Pow2(h) && 0 <= (n / Pow2(r)) * Pow2(h)
    ensures Candidate(base, h, Shuffle(0, 0xFFFF_FFFF, 0, 0), n)
         == BitOr(BitOr(base, (n % Pow2(r)) * Pow2(h)), (n / Pow2(r)) * Pow2(h))
  {
    DivModUnique(n, Pow2(r), 0, n);
    ShiftFits(n, h, r);
    ShlNoOverflow(n, h);
    var x := n * Pow2(h);
    assert Pow2(0) == 1;
    assert Shl(x, 0) == x;
    Pow2Word();
    AndLowMask(x, 32);
    assert BitAnd(Shr(x, 0), 0) == 0;
  }
}
