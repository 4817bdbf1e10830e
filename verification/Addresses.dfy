/** IPv4 addresses as bytes (pkg/utils/common.go). */
module Addresses {
  import opened Word32
  import opened Cidrs
  import NF = NodeFlows

  type byte = x: nat | x < 256

  /** Four bytes, the most significant first. */
  predicate IsIPv4(ip: seq<byte>) { |ip| == 4 }

  function IPToUint32(ip: seq<byte>): uint32
    requires IsIPv4(ip)
  {
    Joined(ip[0], Joined(ip[1], Joined(ip[2], ip[3], 0x100), 0x1_0000), 0x100_0000)
  }

  function Joined(hi: nat, lo: nat, base: nat): nat { hi * base + lo }

  lemma BytesOf(u: uint32)
    ensures var d, c, b, a := u % 256, u / 0x100 % 256, u / 0x1_0000 % 256, u / 0x100_0000;
      a < 256 && Joined(a, Joined(b, Joined(c, d, 0x100), 0x1_0000), 0x100_0000) == u
  {
    assert u / 0x1_0000 == u / 0x100 / 0x100 && u / 0x100_0000 == u / 0x1_0000 / 0x100;
  }

  /** `Uint32ToIP` fills a new four-byte buffer. */
  method Uint32ToIP(u: uint32) returns (ip: array<byte>)
    ensures fresh(ip) && IsIPv4(ip[..]) && IPToUint32(ip[..]) == u
  {
    BytesOf(u);
    ip := new byte[4];
    ip[0], ip[1], ip[2], ip[3] := u / 0x100_0000, u / 0x1_0000 % 256, u / 0x100 % 256, u % 256;
    assert ip[..] == [ip[0], ip[1], ip[2], ip[3]];
  }

  /** No two addresses have one number. */
  lemma IPToUint32Injective(a: seq<byte>, b: seq<byte>)
    requires IsIPv4(a) && IsIPv4(b) && IPToUint32(a) == IPToUint32(b)
    ensures a == b
  {
    var a2, b2 := Joined(a[2], a[3], 0x100), Joined(b[2], b[3], 0x100);
    var a1, b1 := Joined(a[1], a2, 0x1_0000), Joined(b[1], b2, 0x1_0000);
    assert IPToUint32(a) == Joined(a[0], a1, 0x100_0000) && IPToUint32(b) == Joined(b[0], b1, 0x100_0000);
    SameBytes(a[0], a1, a[1], a2, a[2], a[3], b[0], b1, b[1], b2, b[2], b[3]);
  }

  lemma SameBytes(a0: byte, a1: nat, x1: byte, a2: nat, x2: byte, x3: byte,
                  b0: byte, b1: nat, y1: byte, b2: nat, y2: byte, y3: byte)
    requires a2 == Joined(x2, x3, 0x100) && b2 == Joined(y2, y3, 0x100)
    requires a1 == Joined(x1, a2, 0x1_0000) && b1 == Joined(y1, b2, 0x1_0000)
    requires Joined(a0, a1, 0x100_0000) == Joined(b0, b1, 0x100_0000)
    ensures a0 == b0 && x1 == y1 && x2 == y2 && x3 == y3
  {
    Digits(a0, a1, b0, b1, 0x100_0000);
    Digits(x1, a2, y1, b2, 0x1_0000);
    Digits(x2, x3, y2, y3, 0x100);
  }

  lemma Digits(hi: nat, lo: nat, hi': nat, lo': nat, base: nat)
    requires lo < base && lo' < base && Joined(hi, lo, base) == Joined(hi', lo', base)
    ensures hi == hi' && lo == lo'
  {
    DivModUnique(hi * base + lo, base, hi, lo);
    DivModUnique(hi' * base + lo', base, hi', lo');
  }

  /** The first byte in which the addresses differ decides. */
  predicate Before(a: seq<byte>, b: seq<byte>)
    requires IsIPv4(a) && IsIPv4(b)
  {
    || a[0] < b[0]
    || (a[0] == b[0] && a[1] < b[1])
    || (a[..2] == b[..2] && a[2] < b[2])
    || (a[..3] == b[..3] && a[3] < b[3])
  }

  /** Numbers are ordered as the addresses are byte by byte, the first byte counting most. */
  lemma NumbersInByteOrder(a: seq<byte>, b: seq<byte>)
    requires IsIPv4(a) && IsIPv4(b)
    ensures IPToUint32(a) < IPToUint32(b) <==> Before(a, b)
  {
    var a2, b2 := Joined(a[2], a[3], 0x100), Joined(b[2], b[3], 0x100);
    var a1, b1 := Joined(a[1], a2, 0x1_0000), Joined(b[1], b2, 0x1_0000);
    assert IPToUint32(a) == Joined(a[0], a1, 0x100_0000) && IPToUint32(b) == Joined(b[0], b1, 0x100_0000);
    DigitOrder(a[0], a1, b[0], b1, 0x100_0000);
    DigitOrder(a[1], a2, b[1], b2, 0x1_0000);
    DigitOrder(a[2], a[3], b[2], b[3], 0x100);
    SamePrefixes(a, b);
  }

  lemma SamePrefixes(a: seq<byte>, b: seq<byte>)
    requires IsIPv4(a) && IsIPv4(b)
    ensures a[..2] == b[..2] <==> a[0] == b[0] && a[1] == b[1]
    ensures a[..3] == b[..3] <==> a[0] == b[0] && a[1] == b[1] && a[2] == b[2]
  {
    assert a[..2] == [a[0], a[1]] && b[..2] == [b[0], b[1]];
    assert a[..3] == [a[0], a[1], a[2]] && b[..3] == [b[0], b[1], b[2]];
  }

  lemma DigitOrder(hi: nat, lo: nat, hi': nat, lo': nat, base: nat)
    requires lo < base && lo' < base
    ensures Joined(hi, lo, base) < Joined(hi', lo', base) <==> hi < hi' || (hi == hi' && lo < lo')
  {
    if hi < hi' {
      MulMonotone(hi + 1, hi', base);
    } else if hi' < hi {
      MulMonotone(hi' + 1, hi, base);
    }
  }

  /** `GenerateDefaultGateway`: the last byte with its lowest bit set. */
  function GenerateDefaultGateway(network: seq<byte>): seq<byte>
    requires IsIPv4(network)
  {
    LowestBit(network[3]);
    [network[0], network[1], network[2], BitOr(network[3], 1)]
  }

  lemma LowestBit(x: nat)
    ensures BitOr(x, 1) == if x % 2 == 0 then x + 1 else x
  {
    assert x > 0 ==> BitOr(x / 2, 0) == x / 2;
  }

  /** It is the gateway the flows are made for. */
  lemma GatewayOfBytes(network: seq<byte>, len: nat)
    requires IsIPv4(network)
    ensures IPToUint32(GenerateDefaultGateway(network)) == NF.Gateway(Cidr(IPToUint32(network), len))
  {
    var last: nat := network[3];
    LowestBit(last);
    LastByte(network[0], network[1], network[2], last);
    LastByte(network[0], network[1], network[2], BitOr(last, 1));
  }

  lemma LastByte(a: nat, b: nat, c: nat, d: nat)
    requires d < 256
    ensures var u := Joined(a, Joined(b, Joined(c, d, 0x100), 0x1_0000), 0x100_0000);
      u == 0x100 * (a * 0x1_0000 + b * 0x100 + c) + d && u % 2 == d % 2
  {
  }
}
