/** The JSON graph stored in `workflow.object`; an absent key is `None`. */
module WorkflowGraphs {
  import opened Wrappers

  datatype Position = Position(x: Option<real>, y: Option<real>)

  datatype Node = Node(id: Option<string>, kind: Option<string>, position: Position, title: Option<string>)

  /** An edge, with its handle under either spelling of the key. */
  datatype Edge = Edge(
    source: Option<string>,
    target: Option<string>,
    sourceHandle: Option<string>,
    source_handle: Option<string>)

  datatype Viewport = Viewport(x: Option<real>, y: Option<real>, zoom: Option<real>)

  datatype Graph = Graph(nodes: seq<Node>, edges: seq<Edge>, viewport: Viewport)

  function GetOr<T>(value: Option<T>, default: T): T {
    if value.Some? then value.value else default
  }
}
