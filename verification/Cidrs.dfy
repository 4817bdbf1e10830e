/** IPv4 networks in CIDR form, as `net.IPNet` holds them. */
module Cidrs {
  import opened Word32

  /** An address and a prefix length; `net.ParseCIDR` clears the bits below the prefix. */
  datatype Cidr = Cidr(addr: uint32, len: nat) {
    ghost predicate Valid() {
      len <= 32 && addr % Pow2(32 - len) == 0
    }

    /** `IPNet.Contains`: the address agrees with the network on the prefix. */
    predicate Contains(ip: uint32)
      requires len <= 32
    {
      ip / Pow2(32 - len) == addr / Pow2(32 - len)
    }
  }

  function Host(ip: uint32): Cidr { Cidr(ip, 32) }

  ghost predicate Overlap(a: Cidr, b: Cidr)
    requires a.len <= 32 && b.len <= 32
  {
    exists ip: uint32 :: a.Contains(ip) && b.Contains(ip)
  }

  lemma HostContains(ip: uint32, other: uint32)
    ensures Host(ip).Contains(other) <==> other == ip
  {
    assert Pow2(0) == 1;
    assert other / 1 == other && ip / 1 == ip;
  }

  /** A network is the range of 2^(32-len) addresses that starts at its own. */
  lemma ContainsIsRange(c: Cidr, ip: uint32)
    requires c.Valid()
    ensures c.Contains(ip) <==> c.addr <= ip < c.addr + Pow2(32 - c.len)
  {
    var size := Pow2(32 - c.len);
    DivModIdentity(ip, size);
    DivModIdentity(c.addr, size);
    if c.addr <= ip < c.addr + size {
      DivModUnique(ip, size, c.addr / size, ip - c.addr);
    }
  }

  /** Networks of one size either coincide or share no address. */
  lemma SameSizeOverlap(a: Cidr, b: Cidr)
    requires a.Valid() && b.Valid() && a.len == b.len
    ensures Overlap(a, b) <==> a == b
  {
    var size := Pow2(32 - a.len);
    DivModIdentity(a.addr, size);
    DivModIdentity(b.addr, size);
    if a == b {
      assert a.Contains(a.addr) && b.Contains(a.addr);
    }
  }
}
