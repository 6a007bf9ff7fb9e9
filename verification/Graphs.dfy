/** Weighted edge lists, as the graph kernels receive them. */
module Graphs {
  datatype Edge = Edge(src: int, dst: int, weight: real)

  predicate InRange(n: nat, e: Edge) {
    0 <= e.src < n && 0 <= e.dst < n
  }
}
