/** Identities shared by the simulated cluster. */
module Topology {
  import opened Ports

  type HostId = int

  type Rank = int

  /** NetworkEntity: where a process can be reached. */
  datatype Entity = Entity(host: HostId, port: Port)

  /** The processes: one monitor, and any number of metadata servers and clients. */
  datatype Proc = Mon | Mds(id: nat) | Client(id: nat)
}
