/**
 The documents the canvas loads and saves: the backend's workflow document
 (`{workflowId, definition: {nodes, edges}}`, a keyed map of node definitions
 plus a named edge list) and the editor's own flat format (`{nodes, edges}`,
 called the demo format in the code).
 */
module Document {
  import opened Wrappers
  import opened JsValue
  import JsObject
  import Editor

  /**
   A node definition of the backend document. Fields the code only copies or
   prints are JavaScript values (`Undefined` when absent); `nodeId` is the
   node's identity and always a string.
   */
  datatype ApiNode = ApiNode(
    nodeName: Value,
    nodeId: string,
    nodeParams: Value,
    nodeInputs: Value,
    nodeType: Value,
    activityName: Value,
    startToCloseTimeoutInMinutes: Value)

  /** A backend edge; other nodes' parameters refer to it by `edgeName`. */
  datatype ApiEdge = ApiEdge(fromNodeId: string, toNodeId: string, edgeName: Option<string>)

  /**
   The node map of a backend document, as the sequence `Object.entries`
   yields (index-like keys first, then insertion order). It is a JavaScript
   object, so each key occurs once.
   */
  type NodeDefinitions = o: JsObject.Object<ApiNode> | JsObject.DistinctKeys(o)

  /** `definition`: node definitions under opaque keys, and the edge list; either may be missing. */
  datatype Definition = Definition(nodes: Option<NodeDefinitions>, edges: Option<seq<ApiEdge>>)

  /** A node of the editor's own format; `kind` is its `type`. */
  datatype DemoNode = DemoNode(
    id: Option<string>,
    kind: Option<string>,
    position: Option<Editor.Position>,
    name: Value,
    description: Value,
    params: Value)

  datatype DemoEdge = DemoEdge(id: Option<string>, source: string, target: string)

  /**
   The `workflow` object the canvas receives: a backend document carries
   `definition`; a document in the editor's format carries `nodes` and
   `edges` at the top level.
   */
  datatype Workflow = Workflow(
    workflowId: Value,
    definition: Option<Definition>,
    nodes: Option<seq<DemoNode>>,
    edges: Option<seq<DemoEdge>>)
}
