/** An OpenFlow 1.3 switch (OpenFlow Switch Specification 1.3, sections 5.1, 5.3 and 6.4), with
    the fields and actions this program's flows use. */
module OpenFlow {
  import opened Prelude
  import opened Word32
  import opened Cidrs

  // ---------------------------------------------------------------- packets and flows

  /** What a packet carries: ARP, an IPv4 payload, or another Ethernet protocol. */
  datatype Proto = Arp | Tcp | Udp | OtherIp | OtherEthernet

  /** A packet inside a switch. `src` and `dst` are the IPv4 addresses, or the protocol addresses of
      ARP; the tunnel fields are VXLAN metadata; `reg0` is a register that starts at zero. */
  datatype Packet = Packet(
    inPort: nat, proto: Proto, src: uint32, dst: uint32, sha: nat, tpDst: nat,
    tunSrc: uint32, tunDst: uint32, tunId: uint32, reg0: uint32)
  {
    predicate IsIp() { proto.Tcp? || proto.Udp? || proto.OtherIp? }
  }

  /** The protocol word of a flow: nothing, `arp`, `ip`, `tcp` or `udp`. */
  datatype Kind = Any | ArpKind | IpKind | TcpKind | UdpKind

  datatype Match = Match(
    inPort: Option<nat>, kind: Kind, src: Option<Cidr>, dst: Option<Cidr>, sha: Option<nat>,
    tpDst: Option<nat>, tunSrc: Option<uint32>, reg0: Option<uint32>)

  datatype Action =
    | MoveTunToReg
    | MoveRegToTun
    | LoadReg(v: uint32)
    | SetTunDst(host: uint32)
    | Output(port: nat)
    | Note(kind: nat, version: nat)
    | Goto(to: nat)

  /** Dropping is having no actions. */
  datatype Rule = Rule(table: nat, priority: nat, match_: Match, actions: seq<Action>)

  const ALL := Match(None, Any, None, None, None, None, None, None)

  // ---------------------------------------------------------------- matching

  predicate KindMatches(k: Kind, proto: Proto) {
    match k
    case Any => true
    case ArpKind => proto.Arp?
    case IpKind => proto.Tcp? || proto.Udp? || proto.OtherIp?
    case TcpKind => proto.Tcp?
    case UdpKind => proto.Udp?
  }

  predicate InCidr(c: Option<Cidr>, ip: uint32) {
    c.Some? ==> c.value.len <= 32 && c.value.Contains(ip)
  }

  predicate Is<T(==)>(wanted: Option<T>, actual: T) {
    wanted.Some? ==> wanted.value == actual
  }

  predicate Matches(m: Match, p: Packet) {
    && Is(m.inPort, p.inPort) && KindMatches(m.kind, p.proto)
    && InCidr(m.src, p.src) && InCidr(m.dst, p.dst)
    && Is(m.sha, p.sha) && Is(m.tpDst, p.tpDst) && Is(m.tunSrc, p.tunSrc) && Is(m.reg0, p.reg0)
  }

  // ---------------------------------------------------------------- the pipeline

  datatype Emit = Emit(port: nat, packet: Packet)

  /** A packet sent to the port it came in on is not sent (section 4.5: only IN_PORT does that). */
  function Send(port: nat, p: Packet): seq<Emit> {
    if p.inPort == port then [] else [Emit(port, p)]
  }

  datatype Effect = Effect(packet: Packet, emits: seq<Emit>, next: Option<nat>)

  /** The actions of one flow, in order; a goto takes effect after them. */
  function Execute(actions: seq<Action>, p: Packet): Effect {
    if actions == [] then Effect(p, [], None) else
      match actions[0]
      case MoveTunToReg => Execute(actions[1..], p.(reg0 := p.tunId))
      case MoveRegToTun => Execute(actions[1..], p.(tunId := p.reg0))
      case LoadReg(v) => Execute(actions[1..], p.(reg0 := v))
      case SetTunDst(host) => Execute(actions[1..], p.(tunDst := host))
      case Output(port) =>
        var e := Execute(actions[1..], p);
        e.(emits := Send(port, p) + e.emits)
      case Note(_, _) => Execute(actions[1..], p)
      case Goto(to) => Execute(actions[1..], p).(next := Some(to))
  }

  /** `r` is a matching flow of the highest priority. Several flows may be; the switch then picks
      any of them. */
  ghost predicate Selects(rules: set<Rule>, table: nat, p: Packet, r: Rule) {
    && r in rules && r.table == table && Matches(r.match_, p)
    && forall other :: other in rules && other.table == table && Matches(other.match_, p) ==>
         other.priority <= r.priority
  }

  const LAST_TABLE := 254

  /** From table `table` on, the switch may emit `outs` for packet `p`. A packet no flow matches is
      dropped, and a goto must lead to a later table. */
  ghost predicate Forwards(rules: set<Rule>, table: nat, p: Packet, outs: seq<Emit>)
    decreases LAST_TABLE - table
  {
    if exists r :: Selects(rules, table, p, r)
    then exists r :: Selects(rules, table, p, r) && Follows(rules, table, Execute(r.actions, p), outs)
    else outs == []
  }

  ghost predicate Follows(rules: set<Rule>, table: nat, e: Effect, outs: seq<Emit>)
    decreases LAST_TABLE - table, 0
  {
    if e.next.Some? && table < e.next.value <= LAST_TABLE
    then e.emits <= outs && Forwards(rules, e.next.value, e.packet, outs[|e.emits|..])
    else outs == e.emits
  }

  // ---------------------------------------------------------------- changing flows

  predicate SameKey(a: Rule, b: Rule) {
    a.table == b.table && a.priority == b.priority && a.match_ == b.match_
  }

  /** `add-flow`: an identical match of the same priority is overwritten. */
  function AddFlow(rules: set<Rule>, r: Rule): set<Rule> {
    (set other | other in rules && !SameKey(other, r)) + {r}
  }

  function AddFlows(rules: set<Rule>, rs: seq<Rule>): set<Rule>
    decreases |rs|
  {
    if rs == [] then rules else AddFlows(AddFlow(rules, rs[0]), rs[1..])
  }

  predicate KindWithin(k: Kind, wider: Kind) {
    wider == Any || wider == k || (wider == IpKind && (k == TcpKind || k == UdpKind))
  }

  predicate CidrWithin(c: Cidr, wider: Cidr) {
    wider.len <= c.len <= 32 && wider.Contains(c.addr)
  }

  predicate FieldWithin<T(==)>(f: Option<T>, wider: Option<T>) { wider.Some? ==> f == wider }

  predicate RangeWithin(c: Option<Cidr>, wider: Option<Cidr>) {
    wider.Some? ==> c.Some? && CidrWithin(c.value, wider.value)
  }

  /** A match at least as specific as `wider`. */
  predicate Within(m: Match, wider: Match) {
    && FieldWithin(m.inPort, wider.inPort) && KindWithin(m.kind, wider.kind)
    && RangeWithin(m.src, wider.src) && RangeWithin(m.dst, wider.dst)
    && FieldWithin(m.sha, wider.sha) && FieldWithin(m.tpDst, wider.tpDst)
    && FieldWithin(m.tunSrc, wider.tunSrc) && FieldWithin(m.reg0, wider.reg0)
  }

  /** What a non-strict deletion names: one table or all, and the flows it covers. */
  datatype Cover = Cover(table: Option<nat>, match_: Match)

  predicate Covered(r: Rule, c: Cover) { Is(c.table, r.table) && Within(r.match_, c.match_) }

  /** `del-flows`: every flow covered goes, whatever its priority and actions. */
  function DeleteFlows(rules: set<Rule>, c: Cover): set<Rule> {
    set r | r in rules && !Covered(r, c)
  }

  function DeleteAll(rules: set<Rule>, cs: seq<Cover>): set<Rule>
    decreases |cs|
  {
    if cs == [] then rules else DeleteAll(DeleteFlows(rules, cs[0]), cs[1..])
  }

  // ---------------------------------------------------------------- properties

  lemma CidrWithinIsSubset(c: Cidr, wider: Cidr, ip: uint32)
    requires CidrWithin(c, wider) && c.Contains(ip)
    ensures wider.Contains(ip)
  {
    var fine, ratio := Pow2(32 - c.len), Pow2(c.len - wider.len);
    Pow2Sum(32 - c.len, c.len - wider.len);
    assert Pow2(32 - wider.len) == fine * ratio;
    DivDiv(ip, fine, ratio);
    DivDiv(c.addr, fine, ratio);
  }

  /** Deletion is sound for the packets: a flow goes only if the description matches all of its. */
  lemma WithinIsSubset(m: Match, wider: Match, p: Packet)
    requires Within(m, wider) && Matches(m, p)
    ensures Matches(wider, p)
  {
    if wider.src.Some? {
      CidrWithinIsSubset(m.src.value, wider.src.value, p.src);
    }
    if wider.dst.Some? {
      CidrWithinIsSubset(m.dst.value, wider.dst.value, p.dst);
    }
  }

  /** No two of these flows have the same key. */
  ghost predicate DistinctKeys(rs: seq<Rule>) {
    forall i, j :: 0 <= i < j < |rs| ==> !SameKey(rs[i], rs[j])
  }

  predicate KeyIn(r: Rule, rs: seq<Rule>) {
    exists i :: 0 <= i < |rs| && SameKey(r, rs[i])
  }

  /** Adding flows with different keys replaces the old flows with those keys and no others. */
  lemma {:induction false} AddFlowsReplace(rules: set<Rule>, rs: seq<Rule>)
    requires DistinctKeys(rs)
    ensures AddFlows(rules, rs) == (set r | r in rules && !KeyIn(r, rs)) + (set r | r in rs)
    decreases |rs|
  {
    if rs != [] {
      var rest := rs[1..];
      AddFlowsReplace(AddFlow(rules, rs[0]), rest);
      forall r
        ensures KeyIn(r, rs) <==> SameKey(r, rs[0]) || KeyIn(r, rest)
      {
        if KeyIn(r, rs) {
          var i :| 0 <= i < |rs| && SameKey(r, rs[i]);
          assert i > 0 ==> SameKey(r, rest[i - 1]);
        }
        if KeyIn(r, rest) {
          var i :| 0 <= i < |rest| && SameKey(r, rest[i]);
          assert SameKey(r, rs[i + 1]);
        }
      }
      assert !KeyIn(rs[0], rest);
      assert rs == [rs[0]] + rest;
    }
  }

  lemma {:induction false} DeleteAllRemovesCovered(rules: set<Rule>, cs: seq<Cover>)
    ensures DeleteAll(rules, cs) == set r | r in rules && !(exists i :: 0 <= i < |cs| && Covered(r, cs[i]))
  {
    if cs != [] {
      var rest := cs[1..];
      DeleteAllRemovesCovered(DeleteFlows(rules, cs[0]), rest);
      forall r
        ensures (exists i :: 0 <= i < |cs| && Covered(r, cs[i]))
            <==> Covered(r, cs[0]) || (exists i :: 0 <= i < |rest| && Covered(r, rest[i]))
      {
        if exists i :: 0 <= i < |cs| && Covered(r, cs[i]) {
          var i :| 0 <= i < |cs| && Covered(r, cs[i]);
          assert i > 0 ==> Covered(r, rest[i - 1]);
        }
        if exists i :: 0 <= i < |rest| && Covered(r, rest[i]) {
          var i :| 0 <= i < |rest| && Covered(r, rest[i]);
          assert Covered(r, cs[i + 1]);
        }
      }
    }
  }

  /** When every flow the switch may pick has the same actions, the packet has one fate. */
  lemma OneChoice(rules: set<Rule>, table: nat, p: Packet, r: Rule, outs: seq<Emit>)
    requires Selects(rules, table, p, r)
    requires forall other :: Selects(rules, table, p, other) ==> other.actions == r.actions
    ensures Forwards(rules, table, p, outs) <==> Follows(rules, table, Execute(r.actions, p), outs)
  {
  }
}
