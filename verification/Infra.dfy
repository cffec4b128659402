/** The nodes that are provisioned, pooled and given roles. */
module Infra {

  /** A node is identified by `id`; `addr` is its private address. */
  datatype Node = Node(id: int, addr: string)
}
