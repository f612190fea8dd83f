/** The decoded shapes of the bundle's JSON payloads that the viewer reads. */
module Records {
  import opened Wrappers

  /** A position `{x, y, z}`: a scatter cell or a PAGA node's `xyz`. */
  datatype Point = Point(x: real, y: real, z: real)

  /** A PAGA node as `Object.values(paga_nodes)` yields it: `{node_name, xyz}`. */
  datatype PagaNode = PagaNode(nodeName: string, xyz: Point)

  /** A PAGA edge `{nodes: [source, target], weight}`. */
  datatype Edge = Edge(source: string, target: string, weight: real)

  /** A STREAM curve point; its `z` may be missing (`typeof coord.z === 'undefined'`). */
  datatype Coord = Coord(x: real, y: real, z: Option<real>)

  /** A STREAM curve `{branch_id, xyz: [...]}`. */
  datatype Curve = Curve(branchId: string, xyz: seq<Coord>)
}
