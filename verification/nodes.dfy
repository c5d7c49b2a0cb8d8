/** Ids of cluster nodes. */
module Nodes {
  type NodeId = string
}
