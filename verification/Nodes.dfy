/** A registered compute node, as the gateway keeps it. */
module Nodes {

  datatype NodeStatus = Online | Offline | Busy | Degraded

  /** Times are seconds on the gateway's clock. */
  datatype NodeInfo = NodeInfo(
    id: string, name: string, host: string, port: nat, agentPort: nat, gpuName: string,
    vramMb: nat, status: NodeStatus, registeredAt: real, lastSeen: real)
}
