/** The records kept in etcd (pkg/etcdmanager/config.go). */
module Records {
  import opened Prelude
  import opened Word32
  import opened Cidrs
  import opened Watch

  /** A namespace's network: its VNID and the action an administrator asked for. */
  datatype NetnsInfo = NetnsInfo(netID: uint32, action: string, joinTo: string)

  type Netns = Record<NetnsInfo>

  /** A node's subnet; `None` when the text does not parse as a network. Address 0 stands for an
      empty text. */
  datatype HostInfo = HostInfo(hostIP: uint32, subnet: Option<Cidr>, assign: bool)

  type HostSubnet = Record<HostInfo>

  /** The IDs after listing records into `ids`, as `populateVNIDs` does. */
  function Listed(ids: map<string, uint32>, list: seq<Netns>): map<string, uint32>
    decreases |list|
  {
    if list == [] then ids
    else Listed(ids, list[..|list| - 1])[list[|list| - 1].name := list[|list| - 1].value.netID]
  }

  lemma {:induction false} ListedIds(ids: map<string, uint32>, list: seq<Netns>)
    requires UniqueNames(list)
    ensures forall n :: n in Listed(ids, list) <==> n in ids || n in View(list)
    ensures forall n :: n in Listed(ids, list) ==>
              Listed(ids, list)[n] == if n in View(list) then View(list)[n].netID else ids[n]
    decreases |list|
  {
    if list != [] {
      ListedIds(ids, list[..|list| - 1]);
    }
  }

  /** The etcd key of a record; unlike a node or namespace name it contains a slash. */
  function EtcdKey(dir: string, name: string): string { dir + "/" + name }

  predicate PlainName(name: string) { '/' !in name }

  lemma KeyIsNoName(dir: string, name: string, other: string)
    requires PlainName(other)
    ensures EtcdKey(dir, name) != other
  {
    assert EtcdKey(dir, name)[|dir|] == '/';
  }
}
