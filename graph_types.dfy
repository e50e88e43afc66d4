/** The visualisation-facing graph model (src/types/graph.ts). */
module GraphTypes {

  datatype NodeType = File | Directory | External | Entry | Orphaned

  datatype EdgeType = Import | Export | Dynamic | Require | TypeOnly

  /** `path` is the file's path relative to the workspace root; `caption` is the source's `label`. */
  datatype GraphNode = GraphNode(id: string, caption: string, path: string, kind: NodeType, group: string, color: string)

  datatype GraphEdge = GraphEdge(id: string, source: string, target: string, kind: EdgeType, weight: nat)

  datatype GraphMetadata = GraphMetadata(
    totalFiles: nat,
    totalDependencies: nat,
    circularDependencies: nat,
    orphanedFiles: nat,
    timestamp: string,
    workspacePath: string)

  datatype GraphData = GraphData(nodes: seq<GraphNode>, edges: seq<GraphEdge>, metadata: GraphMetadata)
}
