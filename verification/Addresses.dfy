/** The node lists that the discovery scripts keep in ZooKeeper. */
module Addresses {
  /** An IP address. */
  type Ip = int

  predicate Distinct(nodes: seq<Ip>) {
    forall i, j | 0 <= i < j < |nodes| :: nodes[i] != nodes[j]
  }
}
