/** Paths and closed rings of vertices, and the directed edges they run along. */
module Rings {

  datatype Edge<T> = Edge(from: T, to: T)

  /** The edges of an open path: one between each vertex and the next. */
  function PathEdges<T>(path: seq<T>): seq<Edge<T>> {
    if path == [] then [] else seq(|path| - 1, i requires 0 <= i < |path| - 1 => Edge(path[i], path[i + 1]))
  }

  /** The edges of a closed ring: the path through its vertices and back to the
      first one, which is what `zip(ring, ring[1:] + ring[:1])` enumerates. */
  function RingEdges<T>(ring: seq<T>): seq<Edge<T>> {
    if ring == [] then [] else PathEdges(ring + [ring[0]])
  }

  /** The edges of several rings, one ring after another. */
  function AllEdges<T>(rings: seq<seq<T>>): seq<Edge<T>> {
    if rings == [] then [] else AllEdges(rings[..|rings| - 1]) + RingEdges(rings[|rings| - 1])
  }

  lemma PathEdgesSnoc<T>(path: seq<T>, v: T)
    requires path != []
    ensures PathEdges(path + [v]) == PathEdges(path) + [Edge(path[|path| - 1], v)]
  {
    var whole, parts := PathEdges(path + [v]), PathEdges(path) + [Edge(path[|path| - 1], v)];
    assert forall i :: 0 <= i < |path| ==> (path + [v])[i] == path[i];
    assert |whole| == |parts|;
    assert forall i :: 0 <= i < |whole| ==> whole[i] == parts[i];
  }

  lemma AllEdgesSnoc<T>(rings: seq<seq<T>>, ring: seq<T>)
    ensures AllEdges(rings + [ring]) == AllEdges(rings) + RingEdges(ring)
  {
    assert (rings + [ring])[..|rings|] == rings;
  }
}
