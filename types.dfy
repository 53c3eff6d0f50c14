/** Entities shared by the trace-grouping pipeline: call graphs, traces,
    the parsed edge entries of a trace, and the errors the pipeline raises. */
module TraceTypes {

  /** A node label such as "2.1". */
  type NodeId = string

  /** An opaque trace identifier. */
  type TraceId = string

  /** An edge label "<node-id> -> <node-id>" as found in a full-edge entry. */
  type EdgeKey = string

  /** A call graph: every node's children in their stored (forward) order,
      and the root. Nodes are identified by their labels. */
  datatype CallGraph = CallGraph(children: map<NodeId, seq<NodeId>>, root: NodeId)

  /** One full-edge entry of a trace, already split into its edge label and
      its latency in microseconds. */
  datatype EdgeEntry = EdgeEntry(edge: EdgeKey, latency: real)

  /** A completed execution record. `hashval` is the structural key cached
      on the trace once it has been fingerprinted. */
  datatype Trace = Trace(
    traceId: TraceId,
    dag: CallGraph,
    response: real,
    fullEdges: seq<EdgeEntry>,
    hashval: string)

  /** The exceptions the pipeline can raise. */
  datatype Error =
    | UndefinedName   // a lookup miss evaluates the undefined name `none`
    | ZeroDivision    // the mean of an empty bucket
    | KeyError        // a group key absent from the grouping index

  datatype Result<T> = Ok(value: T) | Err(error: Error)
}
